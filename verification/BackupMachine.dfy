/** The backup controller as reconcile steps against an environment that progresses, fails or
    deletes the job at will and may refuse any API call. */
module BackupMachine {
  import opened Wrappers
  import opened Conditions

  datatype Phase = Unset | Pending | Running | Completed | Failed

  datatype Job = Job(succeeded: nat, failed: nat)

  datatype Status = Status(phase: Phase, started: bool, completed: bool, conditions: seq<Condition>)

  /** The persisted status, the job of this backup if it exists, and how many were ever created by
      the controller and deleted by the environment. */
  datatype World = World(status: Status, job: Option<Job>, created: nat, deleted: nat)

  /** Which API calls of one reconcile fail. A create may also be done and report an error. */
  datatype Faults = Faults(getFails: bool, clusterMissing: bool, jobGetFails: bool, ownerFails: bool,
                           create: Write, writeFails: bool)

  function PhaseName(p: Phase): string {
    match p
    case Unset => ""
    case Pending => "Pending"
    case Running => "Running"
    case Completed => "Completed"
    case Failed => "Failed"
  }

  predicate Terminal(p: Phase) { p == Completed || p == Failed }

  function Rank(p: Phase): nat {
    match p
    case Unset => 0
    case Pending => 0
    case Running => 1
    case Completed => 2
    case Failed => 2
  }

  function ReadyCondition(p: Phase, message: string): (c: Condition)
    ensures c.ctype == READY
  {
    Condition(READY, p == Completed, PhaseName(p), if p == Completed then "Backup completed successfully" else message)
  }

  /** updateBackupStatus: what is persisted when the status write succeeds. */
  function WithPhase(s: Status, p: Phase, message: string): Status {
    s.(phase := p, conditions := WithReady(s.conditions, ReadyCondition(p, message)))
  }

  function Persist(w: World, s: Status, f: Faults): World {
    if f.writeFails then w else w.(status := s)
  }

  function Reconcile(w: World, f: Faults): World {
    if f.getFails || Terminal(w.status.phase) then w
    else if f.clusterMissing then Persist(w, WithPhase(w.status, Failed, "Parent cluster not found"), f)
    else if w.status.phase == Unset || w.status.phase == Pending then
      if f.jobGetFails || (w.job.None? && f.ownerFails) then w
      else
        var made := if w.job.None? && f.create != Refused then w.(job := Some(Job(0, 0)), created := w.created + 1) else w;
        if w.job.None? && f.create != Done then Persist(made, WithPhase(w.status, Failed, "Failed to create job"), f)
        else Persist(made, WithPhase(w.status.(started := true), Running, ""), f)
    else if f.jobGetFails || w.job.None? then w
    else if w.job.value.succeeded > 0 then Persist(w, WithPhase(w.status.(completed := true), Completed, ""), f)
    else if w.job.value.failed > 0 then Persist(w, WithPhase(w.status, Failed, "Backup job failed"), f)
    else w

  }

  /** What the environment may do between reconciles; it cannot create this backup's job. */
  datatype Event = Reconciles(f: Faults) | JobBecomes(job: Job) | JobDeleted

  function Apply(w: World, e: Event): World {
    match e
    case Reconciles(f) => Reconcile(w, f)
    case JobBecomes(job) => if w.job.Some? then w.(job := Some(job)) else w
    case JobDeleted => if w.job.Some? then w.(job := None, deleted := w.deleted + 1) else w
  }

  function Run(w: World, es: seq<Event>): World
    decreases |es|
  {
    if es == [] then w else Apply(Run(w, es[..|es| - 1]), es[|es| - 1])
  }

  const INITIAL := World(Status(Unset, false, false, []), None, 0, 0)

  /** Jobs are conserved, and the status is consistent with its phase. */
  ghost predicate Sound(w: World) {
    && w.created == w.deleted + (if w.job.Some? then 1 else 0)
    && (w.status.phase == Running || w.status.phase == Completed ==> w.created >= 1 && w.status.started)
    && (w.status.completed <==> w.status.phase == Completed)
    && ReadyCount(w.status.conditions) <= 1
    && (HasReady(w.status.conditions) ==>
          forall i :: 0 <= i < |w.status.conditions| && w.status.conditions[i].ctype == READY ==>
            w.status.conditions[i].reason == PhaseName(w.status.phase)
            && (w.status.conditions[i].status <==> w.status.phase == Completed))
  }

  /** One event keeps the invariant, never moves the persisted phase back, and leaves a terminal
      status alone. */
  lemma StepSound(w: World, e: Event)
    requires Sound(w)
    ensures Sound(Apply(w, e))
    ensures Rank(w.status.phase) <= Rank(Apply(w, e).status.phase)
    ensures Terminal(w.status.phase) ==> Apply(w, e).status == w.status
    ensures Apply(w, e).created <= w.created + 1
  {
    hide WithReady, ReadyCount;
    ConditionsSound(w.status, Failed, "Parent cluster not found");
    ConditionsSound(w.status, Failed, "Failed to create job");
    ConditionsSound(w.status, Failed, "Backup job failed");
    ConditionsSound(w.status, Running, "");
    ConditionsSound(w.status, Completed, "");
  }

  lemma ConditionsSound(s: Status, p: Phase, message: string)
    requires ReadyCount(s.conditions) <= 1
    ensures var cs := WithPhase(s, p, message).conditions;
            && cs == WithReady(s.conditions, ReadyCondition(p, message))
            && ReadyCount(cs) == 1
            && forall i :: 0 <= i < |cs| && cs[i].ctype == READY ==>
                 cs[i].reason == PhaseName(p) && (cs[i].status <==> p == Completed)
  {
    WithReadyKeepsOne(s.conditions, ReadyCondition(p, message));
  }

  /** Whole runs: the phase only advances, terminal statuses absorb, and the controller creates one
      job more than the environment deleted, at most. */
  lemma {:induction false} RunSound(w: World, es: seq<Event>)
    requires Sound(w)
    ensures Sound(Run(w, es))
    ensures Rank(w.status.phase) <= Rank(Run(w, es).status.phase)
    ensures Terminal(w.status.phase) ==> Run(w, es).status == w.status
    ensures Run(w, es).created <= 1 + Run(w, es).deleted
    decreases |es|
  {
    hide Apply, Rank, Terminal;
    if es != [] {
      RunSound(w, es[..|es| - 1]);
      StepSound(Run(w, es[..|es| - 1]), es[|es| - 1]);
      assert Run(w, es) == Apply(Run(w, es[..|es| - 1]), es[|es| - 1]);
    }
  }

  /* ---------- How a backup ends ---------- */

  /** A reconcile in phase Running that sees a job with a success, while all calls work. */
  predicate SeesSuccess(w: World, e: Event) {
    && e.Reconciles? && w.status.phase == Running && w.job.Some? && w.job.value.succeeded > 0
    && !e.f.getFails && !e.f.clusterMissing && !e.f.jobGetFails && !e.f.writeFails
  }

  /** A reconcile that finds no cluster, fails to create the job, or sees a job that has failed and not
      succeeded, and can say so. */
  predicate SeesFailure(w: World, e: Event) {
    && e.Reconciles? && w.status.phase != Completed && w.status.phase != Failed && !e.f.getFails && !e.f.writeFails
    && (|| e.f.clusterMissing
        || (!e.f.jobGetFails &&
            (|| (w.status.phase != Running && w.job.None? && !e.f.ownerFails && e.f.create != Done)
             || (w.status.phase == Running && w.job.Some? && w.job.value.succeeded == 0 && w.job.value.failed > 0))))
  }

  /** A reconcile of a backup not yet running that finds its job or creates it. */
  predicate SeesJob(w: World, e: Event) {
    && e.Reconciles? && (w.status.phase == Unset || w.status.phase == Pending)
    && !e.f.getFails && !e.f.clusterMissing && !e.f.jobGetFails && !e.f.writeFails
    && (w.job.Some? || (!e.f.ownerFails && e.f.create == Done))
  }

  /** The phase after an event, exactly. */
  lemma PhaseAfter(w: World, e: Event)
    ensures Apply(w, e).status.phase ==
              if SeesSuccess(w, e) then Completed else if SeesFailure(w, e) then Failed
              else if SeesJob(w, e) then Running else w.status.phase
  {
    hide WithReady, ReadyCondition;
  }

  ghost predicate Succeeds(w: World, es: seq<Event>, k: nat)
    requires k < |es|
  {
    SeesSuccess(Run(w, es[..k]), es[k])
  }

  ghost predicate Fails(w: World, es: seq<Event>, k: nat)
    requires k < |es|
  {
    SeesFailure(Run(w, es[..k]), es[k])
  }

  ghost predicate SomeSucceeds(w: World, es: seq<Event>) {
    exists k: nat :: k < |es| && Succeeds(w, es, k)
  }

  ghost predicate SomeFails(w: World, es: seq<Event>) {
    exists k: nat :: k < |es| && Fails(w, es, k)
  }

  lemma SomeNext(w: World, es: seq<Event>)
    requires es != []
    ensures var last := |es| - 1;
            && (SomeSucceeds(w, es) <==> SomeSucceeds(w, es[..last]) || SeesSuccess(Run(w, es[..last]), es[last]))
            && (SomeFails(w, es) <==> SomeFails(w, es[..last]) || SeesFailure(Run(w, es[..last]), es[last]))
  {
    hide Run, SeesSuccess, SeesFailure;
    var last := |es| - 1;
    var front := es[..last];
    forall k: nat | k < last
      ensures (Succeeds(w, front, k) <==> Succeeds(w, es, k)) && (Fails(w, front, k) <==> Fails(w, es, k))
    {
      assert front[..k] == es[..k];
    }
    assert Succeeds(w, es, last) <==> SeesSuccess(Run(w, front), es[last]);
    assert Fails(w, es, last) <==> SeesFailure(Run(w, front), es[last]);
  }

  /** Over any run a backup is Completed exactly when one of its reconciles saw the job succeed, and Failed
      exactly when one of them met a failure. */
  lemma {:induction false} EndsExactly(w: World, es: seq<Event>)
    requires !Terminal(w.status.phase)
    ensures Run(w, es).status.phase == Completed <==> SomeSucceeds(w, es)
    ensures Run(w, es).status.phase == Failed <==> SomeFails(w, es)
    decreases |es|
  {
    if es != [] {
      hide Apply, SomeSucceeds, SomeFails;
      var last := |es| - 1;
      EndsExactly(w, es[..last]);
      SomeNext(w, es);
      PhaseAfter(Run(w, es[..last]), es[last]);
      assert Run(w, es) == Apply(Run(w, es[..last]), es[last]);
    }
  }

  /* ---------- How often the job is created ---------- */

  /** The guard of the branch that creates the job. */
  predicate Creates(w: World, e: Event) {
    && e.Reconciles? && w.job.None? && (w.status.phase == Unset || w.status.phase == Pending)
    && !e.f.getFails && !e.f.clusterMissing && !e.f.jobGetFails && !e.f.ownerFails && e.f.create != Refused
  }

  /** The same guard after the environment has deleted a job. */
  predicate Recreates(w: World, e: Event) {
    Creates(w, e) && w.deleted > 0
  }

  lemma CreatesExactly(w: World, e: Event)
    ensures Apply(w, e).created == w.created + if Creates(w, e) then 1 else 0
    ensures e.Reconciles? ==> Apply(w, e).job == if Creates(w, e) then Some(Job(0, 0)) else w.job
  {
    hide WithPhase;
  }

  lemma JobCountStep(w: World, e: Event)
    requires Sound(w)
    ensures Apply(w, e).created <= 1 <==> w.created <= 1 && !Recreates(w, e)
  {
    hide Apply, PhaseName;
    CreatesExactly(w, e);
  }

  ghost predicate NothingRecreated(w: World, es: seq<Event>) {
    forall k :: 0 <= k < |es| ==> !Recreates(Run(w, es[..k]), es[k])
  }

  lemma NothingRecreatedNext(w: World, es: seq<Event>)
    requires es != []
    ensures var last := |es| - 1;
            NothingRecreated(w, es) <==> NothingRecreated(w, es[..last]) && !Recreates(Run(w, es[..last]), es[last])
  {
    hide Apply, Recreates;
    var last := |es| - 1;
    assert forall k :: 0 <= k < last ==> es[..last][..k] == es[..k] && es[..last][k] == es[k];
  }

  /** A backup gets at most one job exactly when no reconcile of the run takes the creating branch after
      a deletion. */
  lemma {:induction false} AtMostOneJob(es: seq<Event>)
    ensures Run(INITIAL, es).created <= 1 <==> NothingRecreated(INITIAL, es)
    decreases |es|
  {
    hide Apply, NothingRecreated, Recreates;
    if es == [] {
      NothingYet(INITIAL);
    } else {
      var front := es[..|es| - 1];
      AtMostOneJob(front);
      RunSound(INITIAL, front);
      hide Sound;
      NothingRecreatedNext(INITIAL, es);
      JobCountStep(Run(INITIAL, front), es[|es| - 1]);
      assert Run(INITIAL, es) == Apply(Run(INITIAL, front), es[|es| - 1]);
    }
  }

  lemma NothingYet(w: World)
    ensures NothingRecreated(w, [])
  {
  }

  /** Without deletions there is at most one job, and exactly one behind a completed backup. */
  lemma OneJobWithoutDeletions(es: seq<Event>)
    requires JobDeleted !in es
    ensures Run(INITIAL, es).created <= 1
    ensures Run(INITIAL, es).status.phase == Completed ==> Run(INITIAL, es).created == 1
  {
    RunSound(INITIAL, es);
    NothingDeleted(INITIAL, es);
  }

  lemma {:induction false} NothingDeleted(w: World, es: seq<Event>)
    requires JobDeleted !in es
    ensures Run(w, es).deleted == w.deleted
    decreases |es|
  {
    hide WithPhase;
    if es != [] {
      assert es[|es| - 1] in es;
      NothingDeleted(w, es[..|es| - 1]);
    }
  }

  /** A status write that fails after the create leaves the backup pending; if its job is then deleted,
      the next reconcile creates another. */
  lemma DeletedJobIsRecreated(f: Faults)
    requires !f.getFails && !f.clusterMissing && !f.jobGetFails && !f.ownerFails && f.create == Done && f.writeFails
    ensures Run(INITIAL, [Reconciles(f), JobDeleted, Reconciles(f)]).created == 2
  {
    hide WithPhase;
    var es := [Reconciles(f), JobDeleted, Reconciles(f)];
    assert es[..2][..1] == es[..1] && es[..1][..0] == [];
    assert Run(INITIAL, es[..1]) == Apply(INITIAL, es[0]);
    assert Run(INITIAL, es[..2]) == Apply(Run(INITIAL, es[..1]), es[1]);
    assert Run(INITIAL, es) == Apply(Run(INITIAL, es[..2]), es[2]);
  }

  /** The controller object. */
  class BackupReconciler {
    var world: World

    constructor (world: World)
      ensures this.world == world
    {
      this.world := world;
    }

    /** updateBackupStatus on the in-memory object, then the status write. */
    method UpdateBackupStatus(backup0: Status, phase: Phase, message: string, f: Faults)
      modifies this
      ensures world == Persist(old(world), WithPhase(backup0, phase, message), f)
    {
      var backup := backup0;
      backup := backup.(phase := phase);
      var condition := Condition(READY, false, PhaseName(phase), message);
      if phase == Completed {
        condition := condition.(status := true, message := "Backup completed successfully");
      }
      var conditions := UpdateReady(backup.conditions, condition);
      backup := backup.(conditions := conditions);
      if !f.writeFails {
        world := world.(status := backup);
      }
    }

    method ReconcileOnce(f: Faults)
      modifies this
      ensures world == Reconcile(old(world), f)
    {
      hide WithPhase;
      if f.getFails {
        return;
      }
      var backup := world.status;
      if backup.phase == Completed || backup.phase == Failed {
        return;
      }
      if f.clusterMissing {
        UpdateBackupStatus(backup, Failed, "Parent cluster not found", f);
        return;
      }
      if backup.phase == Unset || backup.phase == Pending {
        if f.jobGetFails {
          return;
        }
        if world.job.None? {
          if f.ownerFails {
            return;
          }
          if f.create != Refused {
            world := world.(job := Some(Job(0, 0)), created := world.created + 1);
          }
          if f.create != Done {
            UpdateBackupStatus(backup, Failed, "Failed to create job", f);
            return;
          }
        }
        backup := backup.(started := true);
        UpdateBackupStatus(backup, Running, "", f);
        return;
      }
      if f.jobGetFails || world.job.None? {
        return;
      }
      var job := world.job.value;
      if job.succeeded > 0 {
        backup := backup.(completed := true);
        UpdateBackupStatus(backup, Completed, "", f);
        return;
      }
      if job.failed > 0 {
        UpdateBackupStatus(backup, Failed, "Backup job failed", f);
        return;
      }
    }
  }
}
