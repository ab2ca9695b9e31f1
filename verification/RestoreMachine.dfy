/** The restore controller as reconcile steps against an environment that moves deployments, jobs and
    the referenced backup at will and may refuse any API call. */
module RestoreMachine {
  import opened Wrappers
  import opened Conditions
  import B = BackupMachine

  datatype Phase = Unset | Pending | Stopping | Restoring | Starting | Completed | Failed

  /** A restore step and its status. */
  datatype RestoreStep = RestoreStep(name: string, status: string)

  datatype Status = Status(phase: Phase, started: bool, completed: bool, steps: seq<RestoreStep>, conditions: seq<Condition>)

  datatype Spec = Spec(stopApplications: bool, backupRef: bool, apiReplicas: nat, dashboardReplicas: nat)

  /** spec.replicas, status.replicas and status.readyReplicas of a deployment. */
  datatype Deployment = Deployment(replicas: nat, running: nat, ready: nat)

  /** Everything a reconcile can see or change. sawDown records that some reconcile has observed both
      deployments at zero. */
  datatype World = World(spec: Spec, status: Status, api: Option<Deployment>, dashboard: Option<Deployment>,
                         job: Option<B.Job>, backup: B.World, created: nat, deleted: nat, sawDown: bool)

  /** Which API calls of one reconcile fail. A backup or cluster Get that fails is read as missing. */
  datatype Faults = Faults(getFails: bool, clusterMissing: bool, backupMissing: bool, apiUpdateFails: bool,
                           dashboardUpdateFails: bool, jobGetFails: bool, create: Write, writeFails: bool)

  const STOP := "stop-applications"
  const RESTORE := "restore-data"
  const START := "start-applications"

  function PhaseName(p: Phase): string {
    match p
    case Unset => ""
    case Pending => "Pending"
    case Stopping => "Stopping"
    case Restoring => "Restoring"
    case Starting => "Starting"
    case Completed => "Completed"
    case Failed => "Failed"
  }

  predicate Terminal(p: Phase) { p == Completed || p == Failed }

  function Rank(p: Phase): nat {
    match p
    case Unset => 0
    case Pending => 0
    case Stopping => 1
    case Restoring => 2
    case Starting => 3
    case Completed => 4
    case Failed => 4
  }

  /* ---------- Status edits ---------- */

  function InitialSteps(): seq<RestoreStep> {
    [RestoreStep(STOP, "Pending"), RestoreStep(RESTORE, "Pending"), RestoreStep(START, "Pending")]
  }

  /** The steps with the status of the first one of this name changed. */
  function WithStep(steps: seq<RestoreStep>, name: string, status: string): seq<RestoreStep> {
    if steps == [] then []
    else if steps[0].name == name then [steps[0].(status := status)] + steps[1..]
    else [steps[0]] + WithStep(steps[1..], name, status)
  }

  function ReadyCondition(p: Phase, message: string): (c: Condition)
    ensures c.ctype == READY
  {
    Condition(READY, p == Completed, PhaseName(p), if p == Completed then "Restore completed successfully" else message)
  }

  function WithPhase(s: Status, p: Phase, message: string): Status {
    s.(phase := p, conditions := WithReady(s.conditions, ReadyCondition(p, message)))
  }

  function Persist(w: World, s: Status, f: Faults): World {
    if f.writeFails then w else w.(status := s)
  }

  /* ---------- Scaling ---------- */

  function Scaled(d: Option<Deployment>, replicas: nat): Option<Deployment> {
    if d.None? then None else Some(d.value.(replicas := replicas))
  }

  /** Scales the API deployment, then the dashboard; a failed update ends the sequence. */
  function ScaleBoth(w: World, api: nat, dashboard: nat, f: Faults): (World, bool) {
    if w.api.Some? && f.apiUpdateFails then (w, false)
    else
      var w1 := w.(api := Scaled(w.api, api));
      if w1.dashboard.Some? && f.dashboardUpdateFails then (w1, false)
      else (w1.(dashboard := Scaled(w1.dashboard, dashboard)), true)
  }

  /** A deployment that does not exist counts as scaled down, and as ready. */
  predicate Down(d: Option<Deployment>) { d.Some? ==> d.value.running == 0 }

  predicate Ready(d: Option<Deployment>) { d.Some? ==> d.value.ready >= d.value.replicas }

  function OrTwo(replicas: nat): nat { if replicas == 0 then 2 else replicas }

  /* ---------- Reconcile ---------- */

  function Begin(w: World, f: Faults): World {
    var s := w.status.(started := true, steps := InitialSteps());
    if w.spec.stopApplications then
      var (w1, ok) := ScaleBoth(w, 0, 0, f);
      if !ok then Persist(w1, WithPhase(s, Failed, "Failed to stop applications"), f)
      else Persist(w1, WithPhase(s.(steps := WithStep(s.steps, STOP, "Running")), Stopping, "Scaling down applications"), f)
    else Persist(w, WithPhase(s, Restoring, "Starting restore"), f)
  }

  function AwaitDown(w: World, f: Faults): World {
    if Down(w.api) && Down(w.dashboard) then
      var steps := WithStep(WithStep(w.status.steps, STOP, "Completed"), RESTORE, "Running");
      Persist(w.(sawDown := true),
              WithPhase(w.status.(steps := steps), Restoring, "Applications stopped, restoring data"), f)
    else w
  }

  function RunJob(w: World, f: Faults): World {
    if f.jobGetFails then w
    else if w.job.None? then
      var made := if f.create != Refused then w.(job := Some(B.Job(0, 0)), created := w.created + 1) else w;
      if f.create != Done then Persist(made, WithPhase(w.status, Failed, "Failed to create restore job"), f) else made
    else if w.job.value.succeeded > 0 then
      var steps := WithStep(WithStep(w.status.steps, RESTORE, "Completed"), START, "Running");
      Persist(w, WithPhase(w.status.(steps := steps), Starting, "Restore complete, starting applications"), f)
    else if w.job.value.failed > 0 then
      var steps := WithStep(w.status.steps, RESTORE, "Failed");
      Persist(w, WithPhase(w.status.(steps := steps), Failed, "Restore job failed"), f)
    else w
  }

  function AwaitReady(w: World, f: Faults): World {
    var (w1, ok) := ScaleBoth(w, OrTwo(w.spec.apiReplicas), OrTwo(w.spec.dashboardReplicas), f);
    if !ok then Persist(w1, WithPhase(w.status, Failed, "Failed to start applications"), f)
    else if Ready(w1.api) && Ready(w1.dashboard) then
      var steps := WithStep(w.status.steps, START, "Completed");
      Persist(w1, WithPhase(w.status.(steps := steps, completed := true), Completed, "Restore completed successfully"), f)
    else w1
  }

  /** Whether the referenced backup lets a restore go on. */
  predicate BackupUsable(w: World, f: Faults) {
    w.spec.backupRef ==> !f.backupMissing && w.backup.status.phase == B.Completed
  }

  function Reconcile(w: World, f: Faults): World {
    if f.getFails || Terminal(w.status.phase) then w
    else if f.clusterMissing then Persist(w, WithPhase(w.status, Failed, "Parent cluster not found"), f)
    else if w.spec.backupRef && f.backupMissing then Persist(w, WithPhase(w.status, Failed, "Backup not found"), f)
    else if !BackupUsable(w, f) then Persist(w, WithPhase(w.status, Failed, "Backup is not completed"), f)
    else
      match w.status.phase
      case Unset => Begin(w, f)
      case Pending => Begin(w, f)
      case Stopping => AwaitDown(w, f)
      case Restoring => RunJob(w, f)
      case Starting => AwaitReady(w, f)
      case Completed => w
      case Failed => w
  }

  /** Reconciles, and what the environment may do between them; it cannot create this restore's job,
      and the backup changes only as the backup controller and its own environment change it. */
  datatype Event =
    | Reconciles(f: Faults)
    | AppsBecome(api: Option<Deployment>, dashboard: Option<Deployment>)
    | JobBecomes(job: B.Job)
    | JobDeleted
    | BackupMoves(e: B.Event)

  function Apply(w: World, e: Event): World {
    match e
    case Reconciles(f) => Reconcile(w, f)
    case AppsBecome(api, dashboard) => w.(api := api, dashboard := dashboard)
    case JobBecomes(job) => if w.job.Some? then w.(job := Some(job)) else w
    case JobDeleted => if w.job.Some? then w.(job := None, deleted := w.deleted + 1) else w
    case BackupMoves(be) => w.(backup := B.Apply(w.backup, be))
  }

  function Run(w: World, es: seq<Event>): World
    decreases |es|
  {
    if es == [] then w else Apply(Run(w, es[..|es| - 1]), es[|es| - 1])
  }

  /* ---------- What every event keeps ---------- */

  /** The three steps of a restore that has begun, by status. */
  function Steps(stop: string, restore: string, start: string): seq<RestoreStep> {
    [RestoreStep(STOP, stop), RestoreStep(RESTORE, restore), RestoreStep(START, start)]
  }

  /** The steps as the phase says they must be. */
  predicate StepsMatch(w: World) {
    var stopDone := if w.spec.stopApplications then "Completed" else "Pending";
    var s := w.status.steps;
    match w.status.phase
    case Unset => true
    case Pending => true
    case Stopping => w.spec.stopApplications && s == Steps("Running", "Pending", "Pending")
    case Restoring => s == Steps(stopDone, if w.spec.stopApplications then "Running" else "Pending", "Pending")
    case Starting => s == Steps(stopDone, "Completed", "Running")
    case Completed => s == Steps(stopDone, "Completed", "Completed")
    case Failed => true
  }

  ghost predicate Sound(w: World) {
    && w.created == w.deleted + (if w.job.Some? then 1 else 0)
    && StepsMatch(w)
    && (Rank(w.status.phase) < 2 ==> w.created == 0)
    && (w.status.phase == Starting || w.status.phase == Completed ==> w.created >= 1)
    && (w.spec.stopApplications && (w.created > 0 || w.status.phase == Restoring) ==> w.sawDown)
    && (w.status.completed <==> w.status.phase == Completed)
    && (1 <= Rank(w.status.phase) && w.status.phase != Failed ==> w.status.started)
    && B.Sound(w.backup)
  }

  lemma {:induction false} StepEdits(stop: string, restore: string, start: string, status: string)
    ensures WithStep(Steps(stop, restore, start), STOP, status) == Steps(status, restore, start)
    ensures WithStep(Steps(stop, restore, start), RESTORE, status) == Steps(stop, status, start)
    ensures WithStep(Steps(stop, restore, start), START, status) == Steps(stop, restore, status)
  {
    var s := Steps(stop, restore, start);
    assert s[1..] == [RestoreStep(RESTORE, restore), RestoreStep(START, start)];
    assert s[1..][1..] == [RestoreStep(START, start)];
    assert STOP != RESTORE && STOP != START && RESTORE != START by {
      assert |STOP| == 17 && |RESTORE| == 12 && |START| == 18;
    }
    assert WithStep(s[1..][1..], START, status) == [RestoreStep(START, status)];
  }

  /** Each event keeps the invariant; the persisted phase only advances; a terminal status stays as
      it is; at most one job is created per event. */
  lemma StepSound(w: World, e: Event)
    requires Sound(w)
    ensures Sound(Apply(w, e))
    ensures Rank(w.status.phase) <= Rank(Apply(w, e).status.phase)
    ensures Terminal(w.status.phase) ==> Apply(w, e).status == w.status
    ensures Apply(w, e).created <= w.created + 1
    ensures w.sawDown ==> Apply(w, e).sawDown
    ensures Apply(w, e).spec == w.spec
  {
    hide Reconcile, B.Apply, B.Sound, Steps;
    if e.Reconciles? {
      ReconcileSound(w, e.f);
    } else if e.BackupMoves? {
      B.StepSound(w.backup, e.e);
    }
  }

  /** What one reconcile step keeps, as a relation between the worlds before and after it. */
  ghost predicate Keeps(w: World, after: World) {
    && Sound(after)
    && Rank(w.status.phase) <= Rank(after.status.phase)
    && (Terminal(w.status.phase) ==> after.status == w.status)
    && after.created <= w.created + 1
    && (w.sawDown ==> after.sawDown)
    && after.spec == w.spec
    && after.backup == w.backup
    && after.deleted == w.deleted
  }

  lemma ReconcileSound(w: World, f: Faults)
    requires Sound(w)
    ensures Keeps(w, Reconcile(w, f))
  {
    hide Sound, Begin, AwaitDown, RunJob, AwaitReady, WithPhase;
    FailSound(w, "Parent cluster not found", f);
    FailSound(w, "Backup not found", f);
    FailSound(w, "Backup is not completed", f);
    if w.status.phase == Unset || w.status.phase == Pending {
      BeginSound(w, f);
    } else if w.status.phase == Stopping {
      AwaitDownSound(w, f);
    } else if w.status.phase == Restoring {
      RunJobSound(w, f);
    } else if w.status.phase == Starting {
      AwaitReadySound(w, f);
    }
  }

  lemma FailSound(w: World, message: string, f: Faults)
    requires Sound(w)
    ensures !Terminal(w.status.phase) ==> Keeps(w, Persist(w, WithPhase(w.status, Failed, message), f))
    ensures Keeps(w, w)
  {
    hide WithStep, WithReady, B.Sound, Steps;
  }

  lemma BeginSound(w: World, f: Faults)
    requires Sound(w) && (w.status.phase == Unset || w.status.phase == Pending)
    ensures Keeps(w, Begin(w, f))
  {
    hide WithStep, WithReady, B.Sound;
    StepEdits("Pending", "Pending", "Pending", "Running");
  }

  lemma AwaitDownSound(w: World, f: Faults)
    requires Sound(w) && w.status.phase == Stopping
    ensures Keeps(w, AwaitDown(w, f))
  {
    hide WithStep, WithReady, B.Sound, Steps;
    StepEdits("Running", "Pending", "Pending", "Completed");
    StepEdits("Completed", "Pending", "Pending", "Running");
  }

  lemma RunJobSound(w: World, f: Faults)
    requires Sound(w) && w.status.phase == Restoring
    ensures Keeps(w, RunJob(w, f))
  {
    hide WithStep, WithReady, B.Sound, Steps;
    if w.job.None? {
      FailSound(w, "Failed to create restore job", f);
    } else if w.job.value.succeeded > 0 {
      JobDoneSound(w, f);
    } else {
      FailSound(w, "Restore job failed", f);
    }
  }

  lemma JobDoneSound(w: World, f: Faults)
    requires Sound(w) && w.status.phase == Restoring && w.job.Some? && w.job.value.succeeded > 0
    ensures Keeps(w, RunJob(w, f))
  {
    hide WithStep, WithReady, B.Sound, Steps;
    var stop := if w.spec.stopApplications then "Completed" else "Pending";
    StepEdits(stop, if w.spec.stopApplications then "Running" else "Pending", "Pending", "Completed");
    StepEdits(stop, "Completed", "Pending", "Running");
  }

  lemma AwaitReadySound(w: World, f: Faults)
    requires Sound(w) && w.status.phase == Starting
    ensures Keeps(w, AwaitReady(w, f))
  {
    hide WithStep, WithReady, B.Sound, Steps;
    StepEdits(if w.spec.stopApplications then "Completed" else "Pending", "Completed", "Running", "Completed");
  }

  /** Only a reconcile in phase Restoring creates the job, and one that was asked to stop the
      applications does so only after some reconcile saw both deployments at zero. */
  lemma JobNeedsAppsDown(w: World, e: Event)
    requires Sound(w) && Apply(w, e).created > w.created
    ensures e.Reconciles? && w.status.phase == Restoring && (w.spec.stopApplications ==> w.sawDown)
  {
    hide WithPhase, StepsMatch, B.Sound, B.Apply;
  }

  /** A deployment is missing or runs no replica. */
  predicate RunsNothing(d: Option<Deployment>) { d.Some? ==> d.value.running == 0 }

  /** sawDown is set only by a reconcile that finds both deployments at zero. */
  lemma SawDownMeansDown(w: World, e: Event)
    requires !w.sawDown && Apply(w, e).sawDown
    ensures e.Reconciles? && w.status.phase == Stopping && RunsNothing(w.api) && RunsNothing(w.dashboard)
  {
    hide WithPhase, WithStep, B.Apply;
  }

  /* ---------- Whole runs ---------- */

  lemma {:induction false} RunSound(w: World, es: seq<Event>)
    requires Sound(w)
    ensures Sound(Run(w, es))
    ensures Rank(w.status.phase) <= Rank(Run(w, es).status.phase)
    ensures Terminal(w.status.phase) ==> Run(w, es).status == w.status
    ensures Run(w, es).created <= 1 + Run(w, es).deleted
    ensures Run(w, es).spec == w.spec
    ensures w.backup.status.phase == B.Completed ==> Run(w, es).backup.status.phase == B.Completed
    decreases |es|
  {
    hide Apply, Rank, Terminal, B.Sound, B.Apply;
    if es != [] {
      var before := Run(w, es[..|es| - 1]);
      RunSound(w, es[..|es| - 1]);
      StepSound(before, es[|es| - 1]);
      BackupStays(before, es[|es| - 1]);
      assert Run(w, es) == Apply(before, es[|es| - 1]);
    }
  }

  lemma BackupStays(w: World, e: Event)
    requires Sound(w)
    ensures w.backup.status.phase == B.Completed ==> Apply(w, e).backup.status.phase == B.Completed
  {
    hide StepsMatch, Reconcile, B.Apply, B.Sound;
    if e.BackupMoves? {
      B.StepSound(w.backup, e.e);
    } else if e.Reconciles? {
      ReconcileSound(w, e.f);
    }
  }

  /** Once the referenced backup is Completed, no later reconcile of the run fails for it. */
  lemma CompletedBackupStaysUsable(w: World, es: seq<Event>, f: Faults)
    requires Sound(w) && w.backup.status.phase == B.Completed && !f.backupMissing
    ensures BackupUsable(Run(w, es), f)
  {
    RunSound(w, es);
  }

  /** A restore as first fetched: nothing started, no job, both counters at zero. */
  ghost predicate Fresh(w: World) {
    && (w.status.phase == Unset || w.status.phase == Pending) && !w.status.completed
    && w.job == None && w.created == 0 && w.deleted == 0 && !w.sawDown && B.Sound(w.backup)
  }

  /** The event at position k is a reconcile in phase Stopping that finds both
      deployments at zero. */
  ghost predicate SeesDown(w: World, es: seq<Event>, k: nat)
    requires k < |es|
  {
    var seen := Run(w, es[..k]);
    es[k].Reconciles? && seen.status.phase == Stopping && RunsNothing(seen.api) && RunsNothing(seen.dashboard)
  }

  /** Over any run, a restore asked to stop the applications has created its job only if an earlier
      reconcile found both deployments at zero. */
  lemma JobOnlyAfterAppsDown(w: World, es: seq<Event>)
    requires Fresh(w) && w.spec.stopApplications && Run(w, es).created > 0
    ensures exists k: nat :: k < |es| && SeesDown(w, es, k)
  {
    hide B.Sound, Run;
    RunSound(w, es);
    SawDownSomewhere(w, es);
  }

  /** Scaling touches the two deployments only. */
  lemma ScalingLeavesRest(w: World, api: nat, dashboard: nat, f: Faults)
    ensures var after := ScaleBoth(w, api, dashboard, f).0; after == w.(api := after.api, dashboard := after.dashboard)
  {
  }

  /** The replicas that a cluster asks for: two when its spec has none. */
  function Wanted(replicas: nat): nat { if replicas > 0 then replicas else 2 }

  /** A deployment is missing or has that many ready replicas. */
  predicate ReadyAt(d: Option<Deployment>, replicas: nat) { d.Some? ==> d.value.ready >= replicas }

  /* ---------- How a restore moves on, exactly ---------- */

  /** A reconcile that reads everything it needs and can write its status. */
  predicate Works(w: World, e: Event) {
    && e.Reconciles? && !e.f.getFails && !e.f.clusterMissing && !e.f.writeFails
    && (w.spec.backupRef ==> !e.f.backupMissing && w.backup.status.phase == B.Completed)
  }

  /** An existing deployment whose update fails. */
  predicate ScalingFails(w: World, f: Faults) {
    (w.api.Some? && f.apiUpdateFails) || (w.dashboard.Some? && f.dashboardUpdateFails)
  }

  /** A reconcile in phase Restoring that sees the job with a success. */
  predicate SeesSuccess(w: World, e: Event) {
    Works(w, e) && w.status.phase == Restoring && !e.f.jobGetFails && w.job.Some? && w.job.value.succeeded > 0
  }

  /** A reconcile in phase Restoring that sees the job with a failure and no success. */
  predicate SeesJobFailure(w: World, e: Event) {
    && Works(w, e) && w.status.phase == Restoring && !e.f.jobGetFails
    && w.job.Some? && w.job.value.succeeded == 0 && w.job.value.failed > 0
  }

  /** A reconcile in phase Starting that can scale and finds both deployments ready. */
  predicate SeesAppsReady(w: World, e: Event) {
    && Works(w, e) && w.status.phase == Starting && !ScalingFails(w, e.f)
    && ReadyAt(w.api, Wanted(w.spec.apiReplicas)) && ReadyAt(w.dashboard, Wanted(w.spec.dashboardReplicas))
  }

  /** A reconcile that meets something a restore cannot get over, and can say so. */
  predicate SeesFailure(w: World, e: Event) {
    && e.Reconciles? && w.status.phase != Completed && w.status.phase != Failed && !e.f.getFails && !e.f.writeFails
    && (|| e.f.clusterMissing
        || (w.spec.backupRef && (e.f.backupMissing || w.backup.status.phase != B.Completed))
        || ((w.status.phase == Unset || w.status.phase == Pending) && w.spec.stopApplications && ScalingFails(w, e.f))
        || (w.status.phase == Restoring && !e.f.jobGetFails && w.job.None? && e.f.create != Done)
        || SeesJobFailure(w, e)
        || (w.status.phase == Starting && ScalingFails(w, e.f)))
  }

  /** The phase after an event. */
  function PhaseThen(w: World, e: Event): Phase {
    var p := w.status.phase;
    if SeesFailure(w, e) then Failed
    else if SeesSuccess(w, e) then Starting
    else if SeesAppsReady(w, e) then Completed
    else if Works(w, e) && (p == Unset || p == Pending) then if w.spec.stopApplications then Stopping else Restoring
    else if Works(w, e) && p == Stopping && RunsNothing(w.api) && RunsNothing(w.dashboard) then Restoring
    else p
  }

  /** A reconcile that gets as far as the phase switch. */
  predicate GoesOn(w: World, f: Faults) {
    && !f.getFails && !f.clusterMissing && w.status.phase != Completed && w.status.phase != Failed
    && (w.spec.backupRef ==> !f.backupMissing && w.backup.status.phase == B.Completed)
  }

  lemma Switch(w: World, f: Faults)
    requires GoesOn(w, f)
    ensures Reconcile(w, f) ==
              match w.status.phase
              case Unset => Begin(w, f)
              case Pending => Begin(w, f)
              case Stopping => AwaitDown(w, f)
              case Restoring => RunJob(w, f)
              case Starting => AwaitReady(w, f)
              case Completed => w
              case Failed => w
  {
    hide Begin, AwaitDown, RunJob, AwaitReady, WithPhase, Persist;
  }

  lemma WithPhaseIs(s: Status, p: Phase, message: string)
    ensures WithPhase(s, p, message).phase == p
  {
  }

  lemma NoSwitch(w: World, f: Faults)
    requires !GoesOn(w, f)
    ensures Reconcile(w, f).status.phase ==
              if f.getFails || f.writeFails || Terminal(w.status.phase) then w.status.phase else Failed
  {
    hide Begin, AwaitDown, RunJob, AwaitReady, WithPhase;
    WithPhaseIs(w.status, Failed, "Parent cluster not found");
    WithPhaseIs(w.status, Failed, "Backup not found");
    WithPhaseIs(w.status, Failed, "Backup is not completed");
  }

  lemma BeginPhase(w: World, f: Faults)
    ensures Begin(w, f).status.phase ==
              if f.writeFails then w.status.phase
              else if !w.spec.stopApplications then Restoring
              else if ScalingFails(w, f) then Failed else Stopping
  {
    hide WithReady, WithStep;
  }

  lemma AwaitDownPhase(w: World, f: Faults)
    ensures AwaitDown(w, f).status.phase ==
              if !f.writeFails && RunsNothing(w.api) && RunsNothing(w.dashboard) then Restoring else w.status.phase
  {
    hide WithReady, WithStep;
  }

  lemma RunJobPhase(w: World, f: Faults)
    ensures RunJob(w, f).status.phase ==
              if f.writeFails || f.jobGetFails then w.status.phase
              else if w.job.None? then (if f.create != Done then Failed else w.status.phase)
              else if w.job.value.succeeded > 0 then Starting
              else if w.job.value.failed > 0 then Failed else w.status.phase
  {
    hide WithReady, WithStep;
  }

  lemma AwaitReadyPhase(w: World, f: Faults)
    ensures AwaitReady(w, f).status.phase ==
              if f.writeFails then w.status.phase
              else if ScalingFails(w, f) then Failed
              else if ReadyAt(w.api, Wanted(w.spec.apiReplicas)) && ReadyAt(w.dashboard, Wanted(w.spec.dashboardReplicas))
              then Completed else w.status.phase
  {
    hide WithReady, WithStep;
  }

  /** Every event leaves the phase that the guards above say. */
  lemma PhaseAfter(w: World, e: Event)
    ensures Apply(w, e).status.phase == PhaseThen(w, e)
  {
    hide Reconcile, B.Apply, Begin, AwaitDown, RunJob, AwaitReady, ScalingFails, ReadyAt, Wanted, RunsNothing;
    if e.Reconciles? {
      BeginPhase(w, e.f);
      AwaitDownPhase(w, e.f);
      RunJobPhase(w, e.f);
      AwaitReadyPhase(w, e.f);
      if GoesOn(w, e.f) {
        Switch(w, e.f);
      } else {
        NoSwitch(w, e.f);
      }
    }
  }

  /** Once a run has failed, the controller changes nothing any more: applications that it stopped and had
      not yet started again stay as they are. */
  lemma FailedRestoreLeavesApps(w: World, es: seq<Event>, k: nat, m: nat)
    requires Sound(w) && k <= m < |es| && Run(w, es[..k]).status.phase == Failed && es[m].Reconciles?
    ensures Run(w, es[..m + 1]) == Run(w, es[..m])
  {
    hide Apply, Sound, Rank;
    RunSound(w, es[..k]);
    var tail := es[k..m];
    RunAppend(w, es[..k], tail);
    assert es[..k] + tail == es[..m];
    RunSound(Run(w, es[..k]), tail);
    assert es[..m + 1][..m] == es[..m];
    assert Run(w, es[..m + 1]) == Apply(Run(w, es[..m]), es[m]);
    FailedIsLeft(Run(w, es[..m]), es[m]);
  }

  lemma FailedIsLeft(w: World, e: Event)
    requires w.status.phase == Failed && e.Reconciles?
    ensures Apply(w, e) == w
  {
  }

  lemma {:induction false} RunAppend(w: World, a: seq<Event>, b: seq<Event>)
    ensures Run(w, a + b) == Run(Run(w, a), b)
    decreases |b|
  {
    hide Apply;
    if b == [] {
      assert a + b == a;
    } else {
      assert (a + b)[..|a + b| - 1] == a + b[..|b| - 1];
      RunAppend(w, a, b[..|b| - 1]);
    }
  }

  lemma {:induction false} SawDownSomewhere(w: World, es: seq<Event>)
    requires !w.sawDown && Run(w, es).sawDown
    ensures exists k: nat :: k < |es| && SeesDown(w, es, k)
    decreases |es|
  {
    hide Apply;
    var n := |es| - 1;
    var init := es[..n];
    assert Run(w, es) == Apply(Run(w, init), es[n]);
    if Run(w, init).sawDown {
      SawDownSomewhere(w, init);
      var k: nat :| k < |init| && SeesDown(w, init, k);
      assert init[..k] == es[..k];
      assert SeesDown(w, es, k);
    } else {
      SawDownMeansDown(Run(w, init), es[n]);
      assert SeesDown(w, es, n);
    }
  }

  /** The guard of the branch that creates the job. */
  predicate Creates(w: World, e: Event) {
    && e.Reconciles? && w.job.None? && w.status.phase == Restoring
    && GoesOn(w, e.f) && !e.f.jobGetFails && e.f.create != Refused
  }

  /** The same guard after the environment has deleted a job. */
  predicate Recreates(w: World, e: Event) {
    Creates(w, e) && w.deleted > 0
  }

  lemma CreatesExactly(w: World, e: Event)
    ensures Apply(w, e).created == w.created + if Creates(w, e) then 1 else 0
    ensures e.Reconciles? ==> Apply(w, e).job == if Creates(w, e) then Some(B.Job(0, 0)) else w.job
  {
    hide Reconcile, Begin, AwaitDown, RunJob, AwaitReady;
    if e.Reconciles? {
      BranchesCreate(w, e.f);
      RunJobCreates(w, e.f);
      if GoesOn(w, e.f) {
        Switch(w, e.f);
      } else {
        NoSwitchCreates(w, e.f);
      }
    }
  }

  lemma BranchesCreate(w: World, f: Faults)
    ensures Begin(w, f).created == AwaitDown(w, f).created == AwaitReady(w, f).created == w.created
    ensures Begin(w, f).job == AwaitDown(w, f).job == AwaitReady(w, f).job == w.job
  {
    hide WithPhase, WithStep, ScaleBoth;
    ScalingLeavesRest(w, 0, 0, f);
    ScalingLeavesRest(w, OrTwo(w.spec.apiReplicas), OrTwo(w.spec.dashboardReplicas), f);
  }

  lemma RunJobCreates(w: World, f: Faults)
    ensures var creates := w.job.None? && !f.jobGetFails && f.create != Refused;
            && RunJob(w, f).created == w.created + (if creates then 1 else 0)
            && RunJob(w, f).job == if creates then Some(B.Job(0, 0)) else w.job
  {
    hide WithPhase, WithStep;
  }

  lemma NoSwitchCreates(w: World, f: Faults)
    requires !GoesOn(w, f)
    ensures Reconcile(w, f).created == w.created && Reconcile(w, f).job == w.job
  {
    hide WithPhase, Begin, AwaitDown, RunJob, AwaitReady;
  }

  lemma JobCountStep(w: World, e: Event)
    requires Sound(w)
    ensures Apply(w, e).created <= 1 <==> w.created <= 1 && !Recreates(w, e)
  {
    hide Apply, B.Sound, StepsMatch, BackupUsable;
    CreatesExactly(w, e);
  }

  ghost predicate NothingRecreated(w: World, es: seq<Event>) {
    forall k :: 0 <= k < |es| ==> !Recreates(Run(w, es[..k]), es[k])
  }

  lemma NothingRecreatedNext(w: World, es: seq<Event>)
    requires es != []
    ensures var last := |es| - 1;
            NothingRecreated(w, es) <==> NothingRecreated(w, es[..last]) && !Recreates(Run(w, es[..last]), es[last])
  {
    hide Apply, Recreates;
    var last := |es| - 1;
    assert forall k :: 0 <= k < last ==> es[..last][..k] == es[..k] && es[..last][k] == es[k];
  }

  /** A restore gets at most one job exactly when no reconcile of the run takes the creating branch after
      a deletion. */
  lemma {:induction false} AtMostOneJob(w: World, es: seq<Event>)
    requires Fresh(w)
    ensures Run(w, es).created <= 1 <==> NothingRecreated(w, es)
    decreases |es|
  {
    hide Apply, NothingRecreated, Recreates;
    if es == [] {
      NothingYet(w);
    } else {
      var front := es[..|es| - 1];
      AtMostOneJob(w, front);
      FreshIsSound(w);
      RunSound(w, front);
      hide Sound;
      NothingRecreatedNext(w, es);
      JobCountStep(Run(w, front), es[|es| - 1]);
      assert Run(w, es) == Apply(Run(w, front), es[|es| - 1]);
    }
  }

  lemma NothingYet(w: World)
    ensures NothingRecreated(w, [])
  {
  }

  lemma FreshIsSound(w: World)
    requires Fresh(w)
    ensures Sound(w)
  {
    hide B.Sound;
  }

  /** Without deletions there is at most one job, and exactly one behind a completed restore. */
  lemma OneJobWithoutDeletions(w: World, es: seq<Event>)
    requires Fresh(w) && JobDeleted !in es
    ensures Run(w, es).created <= 1
    ensures Run(w, es).status.phase == Completed ==> Run(w, es).created == 1
  {
    RunSound(w, es);
    NothingDeleted(w, es);
  }

  lemma {:induction false} NothingDeleted(w: World, es: seq<Event>)
    requires Sound(w) && JobDeleted !in es
    ensures Run(w, es).deleted == w.deleted
    decreases |es|
  {
    hide Reconcile, Sound, B.Apply;
    if es != [] {
      var before, e := Run(w, es[..|es| - 1]), es[|es| - 1];
      assert e in es;
      NothingDeleted(w, es[..|es| - 1]);
      RunSound(w, es[..|es| - 1]);
      if e.Reconciles? {
        ReconcileSound(before, e.f);
      }
    }
  }

  /** From any fresh restore with calls that work: it begins, the applications are gone, the job is
      created, deleted, and created again. */
  lemma DeletedJobIsRecreated(w: World, f: Faults)
    requires Fresh(w) && BackupUsable(w, f) && f.create == Done
    requires !f.getFails && !f.clusterMissing && !f.jobGetFails && !f.writeFails && !f.apiUpdateFails && !f.dashboardUpdateFails
    ensures var es := [Reconciles(f), AppsBecome(None, None), Reconciles(f), Reconciles(f), JobDeleted, Reconciles(f)];
            Run(w, es).created == 2
  {
    hide Reconcile;
    var es := [Reconciles(f), AppsBecome(None, None), Reconciles(f), Reconciles(f), JobDeleted, Reconciles(f)];
    assert es[..5][..4] == es[..4] && es[..4][..3] == es[..3] && es[..3][..2] == es[..2] && es[..2][..1] == es[..1];
    assert es[..1][..0] == [];
    BeginsWell(w, f);
    assert Run(w, es[..1]) == Apply(w, es[0]);
    var w2 := Run(w, es[..2]);
    assert w2 == Apply(Run(w, es[..1]), es[1]);
    var w3 := Run(w, es[..3]);
    assert w3 == Apply(w2, es[2]);
    if w.spec.stopApplications {
      MovesOnWhenDown(w2, f);
      MissingJobIsCreated(w3, f);
    } else {
      MissingJobIsCreated(w2, f);
      WaitsForJob(w3, f);
    }
    var w4 := Run(w, es[..4]);
    assert w4 == Apply(w3, es[3]);
    var w5 := Run(w, es[..5]);
    assert w5 == Apply(w4, es[4]);
    MissingJobIsCreated(w5, f);
    assert Run(w, es) == Apply(w5, es[5]);
  }

  /** What the steps of that run leave alone. */
  predicate SameBut(w: World, after: World) {
    after.spec == w.spec && after.backup == w.backup && after.job == w.job && after.created == w.created
    && after.deleted == w.deleted
  }

  lemma BeginsWell(w: World, f: Faults)
    requires (w.status.phase == Unset || w.status.phase == Pending) && BackupUsable(w, f)
    requires !f.getFails && !f.clusterMissing && !f.writeFails && !f.apiUpdateFails && !f.dashboardUpdateFails
    ensures var after := Reconcile(w, f);
            SameBut(w, after) && after.status.phase == if w.spec.stopApplications then Stopping else Restoring
  {
    hide WithReady, WithStep;
  }

  lemma MovesOnWhenDown(w: World, f: Faults)
    requires w.status.phase == Stopping && w.api == None && w.dashboard == None && BackupUsable(w, f)
    requires !f.getFails && !f.clusterMissing && !f.writeFails
    ensures SameBut(w, Reconcile(w, f)) && Reconcile(w, f).status.phase == Restoring
  {
    hide WithReady, WithStep;
  }

  lemma WaitsForJob(w: World, f: Faults)
    requires w.status.phase == Restoring && w.job == Some(B.Job(0, 0)) && BackupUsable(w, f)
    requires !f.getFails && !f.clusterMissing
    ensures Reconcile(w, f) == w
  {
    hide WithPhase, WithStep;
  }

  lemma MissingJobIsCreated(w: World, f: Faults)
    requires w.status.phase == Restoring && w.job == None
    requires !f.getFails && !f.clusterMissing && !f.jobGetFails && f.create == Done && BackupUsable(w, f)
    ensures Reconcile(w, f) == w.(job := Some(B.Job(0, 0)), created := w.created + 1)
  {
    hide WithPhase, WithStep;
    assert Reconcile(w, f) == RunJob(w, f);
  }

  /* ---------- What a run must have seen ---------- */

  datatype Sight = JobSucceeded | JobFailed | AppsReady | Trouble | BackupThere

  predicate Sees(w: World, e: Event, what: Sight) {
    match what
    case JobSucceeded => SeesSuccess(w, e)
    case JobFailed => SeesJobFailure(w, e)
    case AppsReady => SeesAppsReady(w, e)
    case Trouble => SeesFailure(w, e)
    case BackupThere => e.Reconciles? && !e.f.backupMissing && w.backup.status.phase == B.Completed
  }

  ghost predicate SeesAt(w: World, es: seq<Event>, k: nat, what: Sight)
    requires k < |es|
  {
    Sees(Run(w, es[..k]), es[k], what)
  }

  ghost predicate SomeSees(w: World, es: seq<Event>, what: Sight) {
    exists k: nat :: k < |es| && SeesAt(w, es, k, what)
  }

  lemma SomeNext(w: World, es: seq<Event>, what: Sight)
    requires es != []
    ensures var last := |es| - 1;
            SomeSees(w, es, what) <==> SomeSees(w, es[..last], what) || Sees(Run(w, es[..last]), es[last], what)
  {
    hide Run, Sees;
    var last := |es| - 1;
    var front := es[..last];
    forall k: nat | k < last ensures SeesAt(w, front, k, what) <==> SeesAt(w, es, k, what) {
      assert front[..k] == es[..k];
    }
    assert SeesAt(w, es, last, what) <==> Sees(Run(w, front), es[last], what);
  }

  /** Over any run a restore is Completed exactly when one of its reconciles, in phase Starting, found both
      deployments ready at the wanted replicas, and Failed exactly when one of them met a failure. */
  lemma {:induction false} EndsExactly(w: World, es: seq<Event>)
    requires !Terminal(w.status.phase)
    ensures Run(w, es).status.phase == Completed <==> SomeSees(w, es, AppsReady)
    ensures Run(w, es).status.phase == Failed <==> SomeSees(w, es, Trouble)
    decreases |es|
  {
    if es != [] {
      hide Apply, SomeSees, SeesSuccess, Works;
      var last := |es| - 1;
      EndsExactly(w, es[..last]);
      SomeNext(w, es, AppsReady);
      SomeNext(w, es, Trouble);
      PhaseAfter(Run(w, es[..last]), es[last]);
      if Terminal(Run(w, es[..last]).status.phase) {
        TerminalIsLeft(Run(w, es[..last]), es[last]);
      }
      assert Run(w, es) == Apply(Run(w, es[..last]), es[last]);
    }
  }

  lemma TerminalIsLeft(w: World, e: Event)
    requires Terminal(w.status.phase)
    ensures !Sees(w, e, AppsReady) && !Sees(w, e, Trouble) && Apply(w, e).status == w.status
  {
  }

  /** A restore starts the applications, and completes, only if one of its reconciles saw the job succeed. */
  lemma {:induction false} StartsOnlyAfterSuccess(w: World, es: seq<Event>)
    requires w.status.phase != Starting && w.status.phase != Completed
    requires Run(w, es).status.phase == Starting || Run(w, es).status.phase == Completed
    ensures SomeSees(w, es, JobSucceeded)
    decreases |es|
  {
    hide Apply, SomeSees, SeesFailure;
    var last := |es| - 1;
    assert Run(w, es) == Apply(Run(w, es[..last]), es[last]);
    SomeNext(w, es, JobSucceeded);
    PhaseAfter(Run(w, es[..last]), es[last]);
    if !Sees(Run(w, es[..last]), es[last], JobSucceeded) {
      StartsOnlyAfterSuccess(w, es[..last]);
    }
  }

  /** A failed job fails the restore, and its step with it. */
  lemma JobFailureShows(w: World, e: Event)
    requires Sound(w) && SeesJobFailure(w, e)
    ensures var s := Apply(w, e).status;
            && s.phase == Failed && |s.steps| == 3
            && s.steps[1] == RestoreStep("restore-data", "Failed")
            && s.steps[2] == RestoreStep("start-applications", "Pending")
  {
    hide Reconcile, B.Sound, WithReady, WithStep, Steps;
    Switch(w, e.f);
    var stop := if w.spec.stopApplications then "Completed" else "Pending";
    StepEdits(stop, if w.spec.stopApplications then "Running" else "Pending", "Pending", "Failed");
    StepsAre(stop, "Failed", "Pending");
  }

  lemma StepsAre(stop: string, restore: string, start: string)
    ensures var s := Steps(stop, restore, start);
            && |s| == 3 && s[0] == RestoreStep("stop-applications", stop)
            && s[1] == RestoreStep("restore-data", restore) && s[2] == RestoreStep("start-applications", start)
  {
  }

  /** A restore that refers to a backup creates its job only if one of its reconciles found that backup
      completed. */
  lemma {:induction false} JobOnlyFromBackup(w: World, es: seq<Event>)
    requires Sound(w) && w.spec.backupRef && w.created == 0 && Run(w, es).created > 0
    ensures SomeSees(w, es, BackupThere)
    decreases |es|
  {
    hide Apply, SomeSees, Sound;
    var last := |es| - 1;
    var before := Run(w, es[..last]);
    assert Run(w, es) == Apply(before, es[last]);
    SomeNext(w, es, BackupThere);
    CreatesExactly(before, es[last]);
    RunSound(w, es[..last]);
    if before.created > 0 {
      JobOnlyFromBackup(w, es[..last]);
    }
  }

  /* ---------- What becomes of the applications ---------- */

  /** The deployment, if there is one, asked for so many replicas. */
  function Asked(d: Option<Deployment>, replicas: nat): Option<Deployment> {
    match d
    case None => None
    case Some(deployment) => Some(deployment.(replicas := replicas))
  }

  /** A reconcile asks both deployments for zero replicas when a restore that stops applications begins, for
      the wanted ones in phase Starting, and touches them at no other time; the first update that fails
      ends it. */
  lemma AppsAfter(w: World, f: Faults)
    ensures var after, p := Reconcile(w, f), w.status.phase;
            var stops := GoesOn(w, f) && (p == Unset || p == Pending) && w.spec.stopApplications;
            var starts := GoesOn(w, f) && p == Starting;
            var api, dashboard := if stops then 0 else Wanted(w.spec.apiReplicas), if stops then 0 else Wanted(w.spec.dashboardReplicas);
            && after.api == (if (stops || starts) && !f.apiUpdateFails then Asked(w.api, api) else w.api)
            && after.dashboard ==
                 (if (stops || starts) && !(w.api.Some? && f.apiUpdateFails) && !f.dashboardUpdateFails
                  then Asked(w.dashboard, dashboard) else w.dashboard)
  {
    hide Reconcile, Begin, AwaitDown, RunJob, AwaitReady;
    BeginApps(w, f);
    AwaitReadyApps(w, f);
    AwaitDownApps(w, f);
    RunJobApps(w, f);
    if GoesOn(w, f) {
      Switch(w, f);
    } else {
      NoSwitchApps(w, f);
    }
  }

  lemma BeginApps(w: World, f: Faults)
    ensures var after, stops := Begin(w, f), w.spec.stopApplications;
            && after.api == (if stops && !f.apiUpdateFails then Asked(w.api, 0) else w.api)
            && after.dashboard == (if stops && !(w.api.Some? && f.apiUpdateFails) && !f.dashboardUpdateFails
                                   then Asked(w.dashboard, 0) else w.dashboard)
  {
    hide WithPhase, WithStep;
  }

  lemma AwaitReadyApps(w: World, f: Faults)
    ensures var after := AwaitReady(w, f);
            && after.api == (if !f.apiUpdateFails then Asked(w.api, Wanted(w.spec.apiReplicas)) else w.api)
            && after.dashboard == (if !(w.api.Some? && f.apiUpdateFails) && !f.dashboardUpdateFails
                                   then Asked(w.dashboard, Wanted(w.spec.dashboardReplicas)) else w.dashboard)
  {
    hide WithPhase, WithStep;
  }

  lemma AwaitDownApps(w: World, f: Faults)
    ensures AwaitDown(w, f).api == w.api && AwaitDown(w, f).dashboard == w.dashboard
  {
    hide WithPhase, WithStep;
  }

  lemma RunJobApps(w: World, f: Faults)
    ensures RunJob(w, f).api == w.api && RunJob(w, f).dashboard == w.dashboard
  {
    hide WithPhase, WithStep;
  }

  lemma NoSwitchApps(w: World, f: Faults)
    requires !GoesOn(w, f)
    ensures Reconcile(w, f).api == w.api && Reconcile(w, f).dashboard == w.dashboard
  {
    hide WithPhase, Begin, AwaitDown, RunJob, AwaitReady;
  }

  /** Each deployment is as before, or asked for zero replicas. */
  predicate StoppedOrLeft(w: World, after: World) {
    && (after.api == w.api || after.api == Asked(w.api, 0))
    && (after.dashboard == w.dashboard || after.dashboard == Asked(w.dashboard, 0))
  }

  /** Deployments are scaled up in phase Starting only. */
  lemma ScalesUpOnlyStarting(w: World, f: Faults)
    requires w.status.phase != Starting
    ensures StoppedOrLeft(w, Reconcile(w, f))
  {
    hide Reconcile, GoesOn;
    AppsAfter(w, f);
  }

  /* ---------- What the Ready condition shows ---------- */

  /** At most one Ready condition, true exactly in phase Completed, with the phase as its reason. */
  ghost predicate Shows(s: Status) {
    && ReadyCount(s.conditions) <= 1
    && forall i :: 0 <= i < |s.conditions| && s.conditions[i].ctype == "Ready" ==>
         && (s.conditions[i].status <==> s.phase == Completed)
         && s.conditions[i].reason == PhaseName(s.phase)
  }

  lemma WithPhaseShows(s: Status, p: Phase, message: string)
    requires ReadyCount(s.conditions) <= 1
    ensures Shows(WithPhase(s, p, message)) && ReadyCount(WithPhase(s, p, message).conditions) == 1
  {
    WithReadyKeepsOne(s.conditions, ReadyCondition(p, message));
  }

  /** A status as it was, or given a phase by updateRestoreStatus. */
  ghost predicate Phased(s: Status, after: Status) {
    after == s || exists t: Status, p: Phase, message: string :: t.conditions == s.conditions && after == WithPhase(t, p, message)
  }

  lemma PersistPhases(w: World, v: World, t: Status, p: Phase, message: string, f: Faults)
    requires v.status == w.status && t.conditions == w.status.conditions
    ensures Phased(w.status, Persist(v, WithPhase(t, p, message), f).status)
  {
  }

  lemma StatusIsPhased(w: World, f: Faults)
    ensures Phased(w.status, Reconcile(w, f).status)
  {
    hide Reconcile, WithPhase, WithStep, Begin, AwaitDown, RunJob, AwaitReady;
    if GoesOn(w, f) {
      Switch(w, f);
      BeginPhases(w, f);
      AwaitDownPhases(w, f);
      RunJobPhases(w, f);
      AwaitReadyPhases(w, f);
    } else {
      NoSwitchPhases(w, f);
    }
  }

  lemma NoSwitchPhases(w: World, f: Faults)
    requires !GoesOn(w, f)
    ensures Phased(w.status, Reconcile(w, f).status)
  {
    hide WithPhase, Begin, AwaitDown, RunJob, AwaitReady;
  }

  lemma BeginPhases(w: World, f: Faults)
    ensures Phased(w.status, Begin(w, f).status)
  {
    hide WithPhase, WithStep;
  }

  lemma AwaitDownPhases(w: World, f: Faults)
    ensures Phased(w.status, AwaitDown(w, f).status)
  {
    hide WithPhase, WithStep;
  }

  lemma RunJobPhases(w: World, f: Faults)
    ensures Phased(w.status, RunJob(w, f).status)
  {
    hide WithPhase, WithStep;
  }

  lemma AwaitReadyPhases(w: World, f: Faults)
    ensures Phased(w.status, AwaitReady(w, f).status)
  {
    hide WithPhase, WithStep;
  }

  /** Over any run the Ready condition says what the phase says. */
  lemma {:induction false} RunShows(w: World, es: seq<Event>)
    requires Shows(w.status)
    ensures Shows(Run(w, es).status)
    decreases |es|
  {
    hide Reconcile, WithPhase, Shows, B.Apply, Phased;
    if es != [] {
      var before, e := Run(w, es[..|es| - 1]), es[|es| - 1];
      RunShows(w, es[..|es| - 1]);
      if e.Reconciles? {
        PhasedShows(before.status, Reconcile(before, e.f).status) by {
          StatusIsPhased(before, e.f);
        }
      }
    }
  }

  lemma PhasedShows(s: Status, after: Status)
    requires Shows(s) && Phased(s, after)
    ensures Shows(after)
  {
    hide WithPhase;
    if after != s {
      var t: Status, p: Phase, message: string :| t.conditions == s.conditions && after == WithPhase(t, p, message);
      WithPhaseShows(t, p, message);
    }
  }

  /* ---------- The controller object ---------- */

  /** updateStep on the steps array in place: the first step of that name, then stop. */
  method UpdateStep(steps: array<RestoreStep>, name: string, status: string)
    modifies steps
    ensures steps[..] == WithStep(old(steps[..]), name, status)
  {
    ghost var before := steps[..];
    for i := 0 to steps.Length
      invariant steps[..] == before
      invariant WithStep(before, name, status) == before[..i] + WithStep(before[i..], name, status)
    {
      if steps[i].name == name {
        assert before[i..][1..] == before[i + 1..];
        steps[i] := steps[i].(status := status);
        assert steps[..] == before[..i] + [before[i].(status := status)] + before[i + 1..];
        return;
      }
      assert before[i..][1..] == before[i + 1..];
    }
    assert before[steps.Length..] == [];
  }

  class RestoreReconciler {
    var world: World

    constructor (world: World)
      ensures this.world == world
    {
      this.world := world;
    }

    method UpdateRestoreStatus(restore0: Status, phase: Phase, message: string, f: Faults)
      modifies this
      ensures world == Persist(old(world), WithPhase(restore0, phase, message), f)
    {
      var restore := restore0;
      restore := restore.(phase := phase);
      var condition := Condition(READY, false, PhaseName(phase), message);
      if phase == Completed {
        condition := condition.(status := true, message := "Restore completed successfully");
      }
      var conditions := UpdateReady(restore.conditions, condition);
      restore := restore.(conditions := conditions);
      if !f.writeFails {
        world := world.(status := restore);
      }
    }

    /** scaleDownApps and scaleUpApps. */
    method ScaleApps(api: nat, dashboard: nat, f: Faults) returns (ok: bool)
      modifies this
      ensures (world, ok) == ScaleBoth(old(world), api, dashboard, f)
    {
      if world.api.Some? {
        if f.apiUpdateFails {
          return false;
        }
        world := world.(api := Some(world.api.value.(replicas := api)));
      }
      if world.dashboard.Some? {
        if f.dashboardUpdateFails {
          return false;
        }
        world := world.(dashboard := Some(world.dashboard.value.(replicas := dashboard)));
      }
      ok := true;
    }

    method ReconcileOnce(f: Faults)
      modifies this
      ensures world == Reconcile(old(world), f)
    {
      hide WithPhase, WithStep;
      if f.getFails {
        return;
      }
      var restore := world.status;
      if restore.phase == Completed || restore.phase == Failed {
        return;
      }
      if f.clusterMissing {
        UpdateRestoreStatus(restore, Failed, "Parent cluster not found", f);
        return;
      }
      if world.spec.backupRef {
        if f.backupMissing {
          UpdateRestoreStatus(restore, Failed, "Backup not found", f);
          return;
        }
        if world.backup.status.phase != B.Completed {
          UpdateRestoreStatus(restore, Failed, "Backup is not completed", f);
          return;
        }
      }
      match restore.phase
      case Unset => BeginRestore(f);
      case Pending => BeginRestore(f);
      case Stopping => AwaitAppsDown(f);
      case Restoring => RunRestoreJob(f);
      case Starting => AwaitAppsReady(f);
      case Completed =>
      case Failed =>
    }

    method BeginRestore(f: Faults)
      modifies this
      ensures world == Begin(old(world), f)
    {
      hide WithPhase;
      var restore := world.status.(started := true, steps := InitialSteps());
      if world.spec.stopApplications {
        var ok := ScaleApps(0, 0, f);
        if !ok {
          UpdateRestoreStatus(restore, Failed, "Failed to stop applications", f);
          return;
        }
        var steps := StepsArray(restore.steps);
        UpdateStep(steps, STOP, "Running");
        restore := restore.(steps := steps[..]);
        UpdateRestoreStatus(restore, Stopping, "Scaling down applications", f);
        return;
      }
      UpdateRestoreStatus(restore, Restoring, "Starting restore", f);
    }

    method AwaitAppsDown(f: Faults)
      modifies this
      ensures world == AwaitDown(old(world), f)
    {
      hide WithPhase;
      if Down(world.api) && Down(world.dashboard) {
        var steps := StepsArray(world.status.steps);
        UpdateStep(steps, STOP, "Completed");
        UpdateStep(steps, RESTORE, "Running");
        world := world.(sawDown := true);
        UpdateRestoreStatus(world.status.(steps := steps[..]), Restoring, "Applications stopped, restoring data", f);
      }
    }

    method RunRestoreJob(f: Faults)
      modifies this
      ensures world == RunJob(old(world), f)
    {
      hide WithPhase;
      if f.jobGetFails {
        return;
      }
      if world.job.None? {
        var restore := world.status;
        if f.create != Refused {
          world := world.(job := Some(B.Job(0, 0)), created := world.created + 1);
        }
        if f.create != Done {
          UpdateRestoreStatus(restore, Failed, "Failed to create restore job", f);
        }
        return;
      }
      var job := world.job.value;
      if job.succeeded > 0 {
        var steps := StepsArray(world.status.steps);
        UpdateStep(steps, RESTORE, "Completed");
        UpdateStep(steps, START, "Running");
        UpdateRestoreStatus(world.status.(steps := steps[..]), Starting, "Restore complete, starting applications", f);
        return;
      }
      if job.failed > 0 {
        var steps := StepsArray(world.status.steps);
        UpdateStep(steps, RESTORE, "Failed");
        UpdateRestoreStatus(world.status.(steps := steps[..]), Failed, "Restore job failed", f);
        return;
      }
    }

    method AwaitAppsReady(f: Faults)
      modifies this
      ensures world == AwaitReady(old(world), f)
    {
      hide WithPhase;
      var restore := world.status;
      var ok := ScaleApps(OrTwo(world.spec.apiReplicas), OrTwo(world.spec.dashboardReplicas), f);
      if !ok {
        UpdateRestoreStatus(restore, Failed, "Failed to start applications", f);
        return;
      }
      if Ready(world.api) && Ready(world.dashboard) {
        var steps := StepsArray(restore.steps);
        UpdateStep(steps, START, "Completed");
        restore := restore.(steps := steps[..], completed := true);
        UpdateRestoreStatus(restore, Completed, "Restore completed successfully", f);
      }
    }
  }

  /** The steps of a fetched object, as an array of its own. */
  method StepsArray(steps: seq<RestoreStep>) returns (a: array<RestoreStep>)
    ensures fresh(a) && a[..] == steps
  {
    a := new RestoreStep[|steps|](i requires 0 <= i < |steps| => steps[i]);
  }
}
