/** CreateBatch under every interleaving: one worker per index, each remote call and each locked
    store access is one step, and a scheduler picks who moves. Rename and crashes are not steps. */
module CreateBatch {
  import opened Decimals
  import opened Wrappers
  import opened Keyring
  import opened MetadataStore

  /* ---------- Names ---------- */

  function Uid(prefix: string, i: nat): string {
    prefix + "-" + Decimal(i + 1)
  }

  /** The names of a batch are pairwise distinct. */
  lemma UidInjective(prefix: string, i: nat, j: nat)
    requires Uid(prefix, i) == Uid(prefix, j)
    ensures i == j
  {
    var n := |prefix| + 1;
    assert Uid(prefix, i)[n..] == Decimal(i + 1) && Uid(prefix, j)[n..] == Decimal(j + 1);
    DecimalInjective(i + 1, j + 1);
  }

  /** The name of worker i is the prefix, a dash, and the numeral of i + 1. */
  lemma UidSays(prefix: string, i: nat)
    ensures var uid, n := Uid(prefix, i), |prefix| + 1;
            && |uid| > n && uid[..n] == prefix + "-" && AllDigits(uid[n..]) && Value(uid[n..]) == i + 1 && uid[n] != '0'
  {
    var uid, n := Uid(prefix, i), |prefix| + 1;
    assert uid[n..] == Decimal(i + 1);
    DecimalValue(i + 1);
    NoZeroFirst(i + 1);
  }

  lemma {:induction false} NoZeroFirst(n: nat)
    requires n > 0
    ensures Decimal(n)[0] != '0'
  {
    if n >= 10 {
      NoZeroFirst(n / 10);
    }
  }

  /* ---------- The machine ---------- */

  /** Where a worker is: before the Has check, before the remote create, before decode and save,
      before the compensating delete, before the final Get, finished. */
  datatype Pc = Checking | Creating | Saving(key: RemoteKey) | Cleaning | Reading | Finished

  /** result.Keys[i] and result.Errors[i]. */
  datatype Slot = Slot(key: Option<KeyMetadata>, failed: bool)

  datatype Batch = Batch(ring: Ring, prefix: string, pcs: seq<Pc>, slots: seq<Slot>)

  /** What the environment decides for one step. */
  datatype Choice = Choice(generated: RemoteKey, now: int, write: Write, fails: bool, persistFails: bool)

  predicate Indexed(b: Batch, i: nat) {
    |b.slots| == |b.pcs| && i < |b.pcs|
  }

  function Goto(b: Batch, i: nat, pc: Pc): Batch
    requires Indexed(b, i)
  {
    b.(pcs := b.pcs[i := pc])
  }

  function Fail(b: Batch, i: nat): Batch
    requires Indexed(b, i)
  {
    b.(pcs := b.pcs[i := Finished], slots := b.slots[i := b.slots[i].(failed := true)])
  }

  function Step(b: Batch, i: nat, c: Choice): Batch
    requires Indexed(b, i)
  {
    var uid := Uid(b.prefix, i);
    match b.pcs[i]
    case Checking => if uid in b.ring.local then Fail(b, i) else Goto(b, i, Creating)
    case Creating =>
      if uid in b.ring.remote || c.write == Refused then Fail(b, i)
      else
        var created := b.(ring := b.ring.(remote := b.ring.remote[uid := c.generated]));
        if c.write == DoneUnconfirmed then Fail(created, i) else Goto(created, i, Saving(c.generated))
    case Saving(key) =>
      if c.fails then Goto(b, i, Cleaning)
      else
        var (local, ok) := Save(b.ring.local, MetadataOf(uid, key, "generated", c.now), c.persistFails);
        var saved := b.(ring := b.ring.(local := local));
        if ok then Goto(saved, i, Reading) else Goto(saved, i, Cleaning)
    case Cleaning => Fail(b.(ring := RemoteDelete(b.ring, uid, c.write).0), i)
    case Reading =>
      if c.fails || uid !in b.ring.local then Fail(b, i)
      else b.(pcs := b.pcs[i := Finished], slots := b.slots[i := b.slots[i].(key := Some(b.ring.local[uid]))])
    case Finished => b
  }

  /** The batch as CreateBatch starts it; the count and prefix checks come first. */
  function Start(ring: Ring, prefix: string, count: int): Option<Batch> {
    if count <= 0 || count > 100 || prefix == "" then None
    else Some(Batch(ring, prefix, seq(count, _ => Checking), seq(count, _ => Slot(None, false))))
  }

  datatype Move = Move(i: nat, c: Choice)

  function Run(b: Batch, moves: seq<Move>): (t: Batch)
    requires |b.slots| == |b.pcs| && forall m :: m in moves ==> m.i < |b.pcs|
    ensures |t.slots| == |t.pcs| == |b.pcs| && t.prefix == b.prefix
    decreases |moves|
  {
    if moves == [] then b
    else
      var last := |moves| - 1;
      assert moves[last] in moves;
      Step(Run(b, moves[..last]), moves[last].i, moves[last].c)
  }

  /* ---------- What every step keeps ---------- */

  /** What worker i has established so far, relative to the ring the batch started with. */
  ghost predicate WorkerOk(start: Ring, b: Batch, i: nat)
    requires Indexed(b, i)
  {
    var uid, slot := Uid(b.prefix, i), b.slots[i];
    match b.pcs[i]
    case Checking =>
      slot == Slot(None, false)
      && (uid in b.ring.remote <==> uid in start.remote) && (uid in b.ring.local <==> uid in start.local)
    case Creating =>
      slot == Slot(None, false) && uid !in start.local && uid !in b.ring.local
      && (uid in b.ring.remote <==> uid in start.remote)
    case Saving(key) =>
      slot == Slot(None, false) && uid !in start.local && uid !in b.ring.local
      && uid in b.ring.remote && b.ring.remote[uid] == key && uid !in start.remote
    case Cleaning => slot == Slot(None, false) && uid in b.ring.remote && uid !in start.remote
    case Reading =>
      slot == Slot(None, false) && uid in b.ring.remote && uid in b.ring.local
      && b.ring.local[uid].uid == uid && b.ring.local[uid].pubKeyBytes == b.ring.remote[uid].publicKey
    case Finished =>
      slot.failed == slot.key.None?
      && (slot.key.Some? ==>
            uid in b.ring.remote && uid in b.ring.local && slot.key.value == b.ring.local[uid]
            && b.ring.local[uid].uid == uid && b.ring.local[uid].pubKeyBytes == b.ring.remote[uid].publicKey)
  }

  /** No remote key beyond the initial orphans lacks metadata, except while its worker still has to
      save or clean up. */
  ghost predicate Covered(start: Ring, b: Batch)
    requires |b.slots| == |b.pcs|
  {
    forall uid :: uid in Orphans(b.ring) && uid !in Orphans(start) ==>
      exists i :: 0 <= i < |b.pcs| && Pending(b, i, uid)
  }

  predicate Pending(b: Batch, i: nat, uid: string)
    requires i < |b.pcs|
  {
    Uid(b.prefix, i) == uid && (b.pcs[i].Saving? || b.pcs[i].Cleaning?)
  }

  ghost predicate AllOk(start: Ring, b: Batch) {
    |b.slots| == |b.pcs| && b.prefix != "" && forall i :: 0 <= i < |b.pcs| ==> WorkerOk(start, b, i)
  }

  /** Worker i is bound to report an error, or has. */
  predicate Doomed(b: Batch, i: nat)
    requires Indexed(b, i)
  {
    b.pcs[i].Cleaning? || (b.pcs[i].Finished? && b.slots[i].failed)
  }

  /** A step of a worker that meets a name in use, a failing call or a failing save. */
  predicate Trips(b: Batch, i: nat, c: Choice)
    requires Indexed(b, i)
  {
    var uid := Uid(b.prefix, i);
    || (b.pcs[i].Checking? && uid in b.ring.local)
    || (b.pcs[i].Creating? && (uid in b.ring.remote || c.write != Done))
    || (b.pcs[i].Saving? && (c.fails || c.persistFails))
    || (b.pcs[i].Reading? && c.fails)
  }

  /** A step that leaks a remote key: a create done but reported as failed, or a compensating delete
      that is refused while no metadata names the key. */
  predicate Leaks(b: Batch, i: nat, c: Choice)
    requires Indexed(b, i)
  {
    var uid := Uid(b.prefix, i);
    || (b.pcs[i].Creating? && uid !in b.ring.remote && c.write == DoneUnconfirmed)
    || (b.pcs[i].Cleaning? && c.write == Refused && uid !in b.ring.local)
  }

  /** A batch starts with one to a hundred workers, none of them begun, and a prefix. */
  lemma StartOk(ring: Ring, prefix: string, count: int)
    ensures Start(ring, prefix, count).Some? <==> 1 <= count <= 100 && prefix != ""
    ensures Start(ring, prefix, count).Some? ==>
              var b := Start(ring, prefix, count).value;
              AllOk(ring, b) && Covered(ring, b) && |b.pcs| == count && forall i :: 0 <= i < count ==> !Doomed(b, i)
  {
  }

  lemma MoverOk(start: Ring, b: Batch, i: nat, c: Choice)
    requires AllOk(start, b) && i < |b.pcs|
    ensures WorkerOk(start, Step(b, i, c), i)
  {
    assert WorkerOk(start, b, i);
    assert Uid(b.prefix, i) != "";
  }

  lemma BystanderOk(start: Ring, b: Batch, i: nat, c: Choice, j: nat)
    requires AllOk(start, b) && i < |b.pcs| && j < |b.pcs| && i != j
    ensures WorkerOk(start, Step(b, i, c), j)
  {
    assert WorkerOk(start, b, j);
    if Uid(b.prefix, i) == Uid(b.prefix, j) {
      UidInjective(b.prefix, i, j);
    }
    OtherNamesUntouched(b, i, c, Uid(b.prefix, j));
  }

  lemma OtherNamesUntouched(b: Batch, i: nat, c: Choice, uid: string)
    requires Indexed(b, i) && uid != Uid(b.prefix, i)
    ensures var t := Step(b, i, c);
            && (uid in t.ring.remote <==> uid in b.ring.remote) && (uid in t.ring.local <==> uid in b.ring.local)
            && (uid in b.ring.remote ==> t.ring.remote[uid] == b.ring.remote[uid])
            && (uid in b.ring.local ==> t.ring.local[uid] == b.ring.local[uid])
  {
  }

  lemma StepOk(start: Ring, b: Batch, i: nat, c: Choice)
    requires AllOk(start, b) && i < |b.pcs|
    ensures AllOk(start, Step(b, i, c))
  {
    forall j | 0 <= j < |b.pcs| ensures WorkerOk(start, Step(b, i, c), j) {
      if j == i {
        MoverOk(start, b, i, c);
      } else {
        BystanderOk(start, b, i, c, j);
      }
    }
  }

  /** A step keeps every new remote key covered exactly when it does not leak. */
  lemma StepCovered(start: Ring, b: Batch, i: nat, c: Choice)
    requires AllOk(start, b) && Covered(start, b) && i < |b.pcs|
    ensures Covered(start, Step(b, i, c)) <==> !Leaks(b, i, c)
  {
    var t, name := Step(b, i, c), Uid(b.prefix, i);
    MoverAt(start, b, i, c);
    if Leaks(b, i, c) {
      forall k | 0 <= k < |t.pcs| ensures !Pending(t, k, name) {
        if k != i && Uid(b.prefix, k) == name {
          UidInjective(b.prefix, k, i);
        }
      }
    } else {
      forall uid | uid in Orphans(t.ring) && uid !in Orphans(start)
        ensures exists k :: 0 <= k < |t.pcs| && Pending(t, k, uid)
      {
        if uid == name {
          assert Pending(t, i, uid);
        } else {
          OtherNamesUntouched(b, i, c, uid);
          assert uid in Orphans(b.ring);
          var k :| 0 <= k < |b.pcs| && Pending(b, k, uid);
          assert Pending(t, k, uid);
        }
      }
    }
  }

  /** The moving worker's own name. */
  lemma MoverAt(start: Ring, b: Batch, i: nat, c: Choice)
    requires AllOk(start, b) && Covered(start, b) && i < |b.pcs|
    ensures var t, name := Step(b, i, c), Uid(b.prefix, i);
            && (Leaks(b, i, c) ==> Leaked(start, t, i))
            && (!Leaks(b, i, c) && name in Orphans(t.ring) && name !in Orphans(start) ==> Pending(t, i, name))
  {
    var name := Uid(b.prefix, i);
    assert WorkerOk(start, b, i);
    assert name != "";
    if name in Orphans(b.ring) && name !in Orphans(start) {
      var k :| 0 <= k < |b.pcs| && Pending(b, k, name);
      UidInjective(b.prefix, k, i);
    }
  }

  /** Worker i is done and its name is an orphan that the batch made. */
  ghost predicate Leaked(start: Ring, b: Batch, i: nat) {
    Indexed(b, i) && b.pcs[i] == Finished && Uid(b.prefix, i) in Orphans(b.ring) && Uid(b.prefix, i) !in Orphans(start)
  }

  lemma LeakShows(start: Ring, b: Batch, i: nat, c: Choice)
    requires AllOk(start, b) && i < |b.pcs| && Leaks(b, i, c)
    ensures Leaked(start, Step(b, i, c), i)
  {
    assert WorkerOk(start, b, i);
    assert Uid(b.prefix, i) != "";
  }

  /** No worker repairs what another one leaked. */
  lemma LeakStays(start: Ring, b: Batch, i: nat, k: nat, c: Choice)
    requires Leaked(start, b, i) && Indexed(b, k)
    ensures Leaked(start, Step(b, k, c), i)
  {
    if k != i {
      if Uid(b.prefix, i) == Uid(b.prefix, k) {
        UidInjective(b.prefix, i, k);
      }
      OtherNamesUntouched(b, k, c, Uid(b.prefix, i));
    }
  }

  /* ---------- Whole runs ---------- */

  /** The moves name workers of the batch. */
  predicate InRange(b: Batch, moves: seq<Move>) {
    |b.slots| == |b.pcs| && forall m :: m in moves ==> m.i < |b.pcs|
  }

  /** No step of the run leaks. */
  ghost predicate NoLeak(b: Batch, moves: seq<Move>)
    requires InRange(b, moves)
  {
    forall k :: 0 <= k < |moves| ==> moves[k] in moves && !Leaks(Run(b, moves[..k]), moves[k].i, moves[k].c)
  }

  lemma NoLeakPrefix(b: Batch, moves: seq<Move>, n: nat)
    requires InRange(b, moves) && NoLeak(b, moves) && n <= |moves|
    ensures InRange(b, moves[..n]) && NoLeak(b, moves[..n])
  {
    hide Leaks, Step;
    forall k | 0 <= k < n
      ensures moves[..n][k] in moves[..n] && !Leaks(Run(b, moves[..n][..k]), moves[..n][k].i, moves[..n][k].c)
    {
      assert moves[..n][..k] == moves[..k];
      assert moves[..n][k] == moves[k];
    }
  }

  /** The workers' invariants hold over every interleaving, leaks or not. */
  lemma {:induction false} RunWorkersOk(start: Ring, b: Batch, moves: seq<Move>)
    requires InRange(b, moves) && AllOk(start, b)
    ensures AllOk(start, Run(b, moves))
    decreases |moves|
  {
    hide AllOk, Step;
    if moves != [] {
      var last := |moves| - 1;
      RunWorkersOk(start, b, moves[..last]);
      assert moves[last] in moves;
      StepOk(start, Run(b, moves[..last]), moves[last].i, moves[last].c);
    }
  }

  lemma {:induction false} RunOk(start: Ring, b: Batch, moves: seq<Move>)
    requires InRange(b, moves) && AllOk(start, b) && Covered(start, b) && NoLeak(b, moves)
    ensures Covered(start, Run(b, moves))
    decreases |moves|
  {
    hide AllOk, Covered, Leaks, Step;
    if moves != [] {
      var last := |moves| - 1;
      NoLeakPrefix(b, moves, last);
      RunOk(start, b, moves[..last]);
      RunWorkersOk(start, b, moves[..last]);
      assert moves[last] in moves;
      StepCovered(start, Run(b, moves[..last]), moves[last].i, moves[last].c);
    }
  }

  /** A leak at move k is still there at the end of the run. */
  lemma {:induction false} LeakRemains(start: Ring, b: Batch, moves: seq<Move>, k: nat)
    requires InRange(b, moves) && AllOk(start, b) && k < |moves| && moves[k] in moves
    requires Leaks(Run(b, moves[..k]), moves[k].i, moves[k].c)
    ensures Leaked(start, Run(b, moves), moves[k].i)
    decreases |moves|
  {
    hide AllOk, Leaks, Step, Leaked;
    var last := |moves| - 1;
    var front := moves[..last];
    assert moves[last] in moves;
    if k == last {
      RunWorkersOk(start, b, front);
      LeakShows(start, Run(b, front), moves[last].i, moves[last].c);
    } else {
      assert front[..k] == moves[..k] && front[k] == moves[k];
      LeakRemains(start, b, front, k);
      LeakStays(start, Run(b, front), moves[k].i, moves[last].i, moves[last].c);
    }
  }

  lemma StepDoomed(start: Ring, b: Batch, i: nat, c: Choice, j: nat)
    requires AllOk(start, b) && i < |b.pcs| && j < |b.pcs|
    ensures Doomed(Step(b, i, c), j) <==> Doomed(b, j) || (i == j && Trips(b, i, c))
  {
    assert WorkerOk(start, b, j);
    assert Uid(b.prefix, i) != "";
  }

  ghost predicate TripsAt(b: Batch, moves: seq<Move>, k: nat, i: nat)
    requires InRange(b, moves) && k < |moves| && i < |b.pcs|
  {
    moves[k] in moves && moves[k].i == i && Trips(Run(b, moves[..k]), i, moves[k].c)
  }

  ghost predicate Tripped(b: Batch, moves: seq<Move>, i: nat)
    requires InRange(b, moves) && i < |b.pcs|
  {
    exists k: nat :: k < |moves| && TripsAt(b, moves, k, i)
  }

  lemma SameTrip(b: Batch, moves: seq<Move>, i: nat, k: nat)
    requires InRange(b, moves) && k < |moves| - 1 && i < |b.pcs|
    ensures InRange(b, moves[..|moves| - 1]) && (TripsAt(b, moves[..|moves| - 1], k, i) <==> TripsAt(b, moves, k, i))
  {
    hide Run, Trips;
    var front := moves[..|moves| - 1];
    assert front[..k] == moves[..k] && front[k] == moves[k] && front[k] in front && moves[k] in moves;
  }

  lemma LastTrip(b: Batch, moves: seq<Move>, i: nat)
    requires InRange(b, moves) && moves != [] && i < |b.pcs|
    ensures var last := |moves| - 1;
            && moves[last] in moves
            && (TripsAt(b, moves, last, i) <==> moves[last].i == i && Trips(Run(b, moves[..last]), i, moves[last].c))
  {
    hide Run, Trips;
  }

  lemma TrippedNext(b: Batch, moves: seq<Move>, i: nat)
    requires InRange(b, moves) && moves != [] && i < |b.pcs|
    ensures var last := |moves| - 1;
            && moves[last] in moves
            && (Tripped(b, moves, i) <==>
                Tripped(b, moves[..last], i) || (moves[last].i == i && Trips(Run(b, moves[..last]), i, moves[last].c)))
  {
    hide Run, Trips, TripsAt;
    var last := |moves| - 1;
    var front := moves[..last];
    LastTrip(b, moves, i);
    forall k: nat | k < last ensures TripsAt(b, front, k, i) <==> TripsAt(b, moves, k, i) {
      SameTrip(b, moves, i, k);
    }
    if Tripped(b, moves, i) {
      var k: nat :| k < |moves| && TripsAt(b, moves, k, i);
      assert k < last ==> TripsAt(b, front, k, i);
    }
  }

  /** Over any interleaving a worker is bound to fail exactly when one of its own steps tripped. */
  lemma {:induction false} RunDoomed(start: Ring, b: Batch, moves: seq<Move>, i: nat)
    requires InRange(b, moves) && AllOk(start, b) && i < |b.pcs| && !Doomed(b, i)
    ensures Doomed(Run(b, moves), i) <==> Tripped(b, moves, i)
    decreases |moves|
  {
    if moves != [] {
      hide AllOk, Step, Doomed, Trips, Tripped;
      var last := |moves| - 1;
      RunDoomed(start, b, moves[..last], i);
      RunWorkersOk(start, b, moves[..last]);
      TrippedNext(b, moves, i);
      StepDoomed(start, Run(b, moves[..last]), moves[last].i, moves[last].c, i);
    }
  }

  /** What slot i of a finished batch says. */
  ghost predicate SlotRight(t: Batch, i: nat)
    requires Indexed(t, i)
  {
    var uid, slot := Uid(t.prefix, i), t.slots[i];
    && slot.failed == slot.key.None?
    && (slot.key.Some? ==>
          && CanSign(t.ring, uid) && slot.key.value == t.ring.local[uid]
          && slot.key.value.uid == uid && slot.key.value.pubKeyBytes == t.ring.remote[uid].publicKey)
  }

  lemma FinishedSlots(start: Ring, t: Batch)
    requires AllOk(start, t) && forall i :: 0 <= i < |t.pcs| ==> t.pcs[i] == Finished
    ensures forall i :: 0 <= i < |t.pcs| ==> SlotRight(t, i)
  {
    forall i | 0 <= i < |t.pcs| ensures SlotRight(t, i) {
      assert WorkerOk(start, t, i);
    }
  }

  lemma FinishedRing(start: Ring, t: Batch)
    requires |t.slots| == |t.pcs| && Covered(start, t) && forall i :: 0 <= i < |t.pcs| ==> t.pcs[i] == Finished
    ensures Orphans(t.ring) <= Orphans(start)
  {
    forall uid | uid in Orphans(t.ring) ensures uid in Orphans(start) {
      assert forall i :: 0 <= i < |t.pcs| ==> !Pending(t, i, uid);
    }
  }

  /** However the workers interleave, when all are done every slot holds exactly one of key and error,
      an error exactly when one of its worker's steps tripped, and a key slot names a remote key with
      matching metadata; and the batch leaves no remote key without metadata exactly when no step of it
      leaked one. */
  lemma BatchCorrect(ring: Ring, prefix: string, count: int, moves: seq<Move>)
    requires Start(ring, prefix, count).Some? && InRange(Start(ring, prefix, count).value, moves)
    requires var t := Run(Start(ring, prefix, count).value, moves);
             forall i :: 0 <= i < |t.pcs| ==> t.pcs[i] == Finished
    ensures var b := Start(ring, prefix, count).value;
            var t := Run(b, moves);
            && |t.slots| == count
            && (forall i :: 0 <= i < count ==> SlotRight(t, i) && (t.slots[i].failed <==> Tripped(b, moves, i)))
            && (Orphans(t.ring) <= Orphans(ring) <==> NoLeak(b, moves))
  {
    hide Run, AllOk, Covered, SlotRight, Orphans, Leaks, Tripped;
    var b := Start(ring, prefix, count).value;
    var t := Run(b, moves);
    StartOk(ring, prefix, count);
    forall i | 0 <= i < count ensures t.slots[i].failed <==> Tripped(b, moves, i) {
      RunDoomed(ring, b, moves, i);
    }
    RunWorkersOk(ring, b, moves);
    FinishedSlots(ring, t);
    if NoLeak(b, moves) {
      RunOk(ring, b, moves);
      FinishedRing(ring, t);
    } else {
      assert forall k :: 0 <= k < |moves| ==> moves[k] in moves;
      var k :| 0 <= k < |moves| && Leaks(Run(b, moves[..k]), moves[k].i, moves[k].c);
      LeakRemains(ring, b, moves, k);
    }
  }

  /** A worker that is not done gets closer to it with every step of its own, so a scheduler that
      keeps picking unfinished workers finishes the batch. */
  function Remaining(pc: Pc): nat {
    match pc
    case Checking => 4
    case Creating => 3
    case Saving(_) => 2
    case Cleaning => 1
    case Reading => 1
    case Finished => 0
  }

  lemma StepProgress(b: Batch, i: nat, c: Choice)
    requires Indexed(b, i)
    ensures var t := Step(b, i, c);
            && (b.pcs[i] != Finished ==> Remaining(t.pcs[i]) < Remaining(b.pcs[i]))
            && (b.pcs[i] == Finished ==> t == b)
            && forall j :: 0 <= j < |b.pcs| && j != i ==> t.pcs[j] == b.pcs[j] && t.slots[j] == b.slots[j]
  {
  }

  /** The names of the failed slots among the first n, in order. */
  function FailedNames(b: Batch, n: nat): seq<string>
    requires n <= |b.slots|
  {
    if n == 0 then []
    else FailedNames(b, n - 1) + if b.slots[n - 1].failed then [Uid(b.prefix, n - 1)] else []
  }

  /** Each failed slot is listed once. */
  lemma {:induction false} FailedNamesExactly(b: Batch, n: nat, i: nat)
    requires n <= |b.slots| && i < |b.slots|
    ensures multiset(FailedNames(b, n))[Uid(b.prefix, i)] == if i < n && b.slots[i].failed then 1 else 0
  {
    if n != 0 {
      FailedNamesExactly(b, n - 1, i);
      if i != n - 1 && Uid(b.prefix, i) == Uid(b.prefix, n - 1) {
        UidInjective(b.prefix, i, n - 1);
      }
    }
  }

  /** The final scan of CreateBatch: the failing names in order; the batch succeeds if there are none. */
  method CollectErrors(b: Batch) returns (failed: seq<string>)
    requires |b.slots| == |b.pcs|
    ensures failed == FailedNames(b, |b.slots|)
    ensures failed == [] <==> forall i :: 0 <= i < |b.slots| ==> !b.slots[i].failed
  {
    failed := [];
    for i := 0 to |b.slots|
      invariant failed == FailedNames(b, i)
      invariant failed == [] <==> forall k :: 0 <= k < i ==> !b.slots[k].failed
    {
      if b.slots[i].failed {
        failed := failed + [Uid(b.prefix, i)];
      }
    }
  }
}
