/** The plugin's handlers interleaved, deletes among them, when no write is unconfirmed: from which
    requests every interleaving ends with a cache that agrees with storage. The answer is a condition on
    the starting requests for each name; where it holds, one of six invariants is kept for the name, and
    where it fails, a run is given that ends with a stale entry. */
module DeleteRaces {
  import opened CacheRaces
  import KeyStore
  import opened Wrappers

  /* ---------- The question ---------- */

  /** New requests of any kind, and a cache that is right about every name. */
  ghost predicate Requests(s: System) {
    (forall k :: 0 <= k < |s.handlers| ==> NewRequest(s.handlers[k])) && forall name :: Settled(s, name)
  }

  predicate NewRequest(h: Handler) {
    h.Look? || h.Check? || h.Remove? || h.Drop? || h.Finished?
  }

  predicate Confirmed(moves: seq<Move>) {
    forall m :: m in moves ==> m.w != DoneUnconfirmed
  }

  /** If the run finishes all handlers, the cache is right about every name. */
  ghost predicate EndsSettled(s: System, moves: seq<Move>) {
    InRange(s, moves) && Confirmed(moves) && Quiet(Run(s, moves)) ==> forall name :: Settled(Run(s, moves), name)
  }

  /* ---------- The answer ---------- */

  predicate IsCheck(h: Handler, name: string) { h.Check? && h.name == name }

  predicate Drops(h: Handler, name: string) { h.Drop? && name in h.names }

  predicate CreatedAt(s: System, k: nat, name: string) { k < |s.handlers| && IsCheck(s.handlers[k], name) }

  predicate DroppedAt(s: System, k: nat, name: string) { k < |s.handlers| && Drops(s.handlers[k], name) }

  predicate RemovedAt(s: System, k: nat, name: string) { k < |s.handlers| && s.handlers[k] == Remove(name) }

  predicate LookedAt(s: System, k: nat, name: string) { k < |s.handlers| && s.handlers[k] == Look(name) }

  /** A reader of a stored key that is not cached, or that an invalidation may uncache, and a delete. */
  ghost predicate ReadAgainstDelete(s: System, i: nat, j: nat, name: string) {
    LookedAt(s, i, name) && RemovedAt(s, j, name) && name in s.storage
    && (name !in s.cache || exists k: nat :: DroppedAt(s, k, name))
  }

  /** A create of a free name and a delete. */
  predicate CreateAgainstDelete(s: System, i: nat, j: nat, name: string) {
    CreatedAt(s, i, name) && RemovedAt(s, j, name) && name !in s.storage
  }

  /** A create of a stored key and two deletes. */
  predicate CreateAgainstTwoDeletes(s: System, i: nat, j: nat, k: nat, name: string) {
    CreatedAt(s, i, name) && RemovedAt(s, j, name) && RemovedAt(s, k, name) && j != k && name in s.storage
  }

  /** Two creates of different keys under a name that is free, or that a delete may free. */
  ghost predicate CreateAgainstCreate(s: System, i: nat, j: nat, name: string) {
    CreatedAt(s, i, name) && CreatedAt(s, j, name) && s.handlers[i].v != s.handlers[j].v
    && (name !in s.storage || exists k: nat :: RemovedAt(s, k, name))
  }

  ghost predicate Endangered(s: System, name: string) {
    || (exists i: nat, j: nat :: ReadAgainstDelete(s, i, j, name))
    || (exists i: nat, j: nat :: CreateAgainstDelete(s, i, j, name))
    || (exists i: nat, j: nat, k: nat :: CreateAgainstTwoDeletes(s, i, j, k, name))
    || (exists i: nat, j: nat :: CreateAgainstCreate(s, i, j, name))
  }

  /* ---------- Where it holds: an invariant for each name ---------- */

  /** Why a name cannot end up stale. */
  datatype Mode =
    | Kept                               // stored, and nothing deletes it any more
    | OneValue(v: KeyStore.Stored)                // only v is ever written, and nothing deletes it any more
    | NeverFilled                        // deletes only
    | Absent                             // not stored, and nothing creates it
    | Cached                             // readers hit the cache until a delete has emptied it
    | OneDelete(j: nat, v: KeyStore.Stored, unread: bool) // stored, one delete at j to come, creates of v only

  /** What handler k may be doing with name. */
  predicate Fits(s: System, k: nat, name: string, m: Mode)
    requires k < |s.handlers|
  {
    var h := s.handlers[k];
    if h.Finished? then true
    else if h.Drop? then name in h.names ==> !m.Cached? && (m.OneDelete? ==> m.unread)
    else if h.name != name then true
    else
      match m
      case Kept => !h.Replicate? && !h.Remove? && !h.Evict? && !h.Put?
                   && (h.Fill? ==> name in s.storage && h.v == s.storage[name])
      case OneValue(v) => !h.Replicate? && !h.Remove? && (h.Check? || h.Put? || h.Fill? ==> h.v == v)
                          && (h.Fill? ==> name in s.storage)
      case NeverFilled => h.Remove? || h.Evict?
      case Absent => h.Look? || h.Fetch? || h.Remove? || h.Evict?
      case Cached => h.Look? || h.Remove? || ((h.Fetch? || h.Evict?) && name !in s.storage)
      case OneDelete(j, v, unread) => (h.Look? && !unread) || (h.Check? && h.v == v) || (h.Remove? && k == j)
  }

  ghost predicate Holds(s: System, name: string, m: Mode) {
    match m
    case Kept => name in s.storage && Settled(s, name)
    case OneValue(v) => (name in s.storage ==> s.storage[name] == v) && (Settled(s, name) || Evict(name) in s.handlers)
    case NeverFilled => Settled(s, name) || Evict(name) in s.handlers
    case Absent => name !in s.storage && name !in s.cache
    case Cached =>
      if name in s.cache then Settled(s, name) || Evict(name) in s.handlers else name !in s.storage
    case OneDelete(j, v, unread) =>
      name in s.storage && Settled(s, name) && RemovedAt(s, j, name) && (unread || name in s.cache)
  }

  ghost predicate InMode(s: System, name: string, m: Mode) {
    Holds(s, name, m) && forall k :: 0 <= k < |s.handlers| ==> Fits(s, k, name, m)
  }

  /** The mode after a step: it changes only when the one delete is carried out or refused. */
  function NextMode(m: Mode, i: nat, w: Write): Mode {
    if m.OneDelete? && i == m.j then if w == Done then OneValue(m.v) else Kept else m
  }

  /** The handler that moved, and what became of it. */
  lemma StepReplaces(s: System, i: nat, w: Write)
    requires i < |s.handlers|
    ensures |Step(s, i, w).handlers| == |s.handlers|
    ensures Step(s, i, w).handlers == s.handlers[i := Step(s, i, w).handlers[i]]
  {
  }

  lemma EvictStays(s: System, i: nat, w: Write, name: string)
    requires i < |s.handlers| && Evict(name) in s.handlers
    ensures s.handlers[i] == Evict(name) || Evict(name) in Step(s, i, w).handlers
  {
    hide Step;
    StepReplaces(s, i, w);
    var k :| 0 <= k < |s.handlers| && s.handlers[k] == Evict(name);
    assert k != i ==> Step(s, i, w).handlers[k] == Evict(name);
  }

  lemma HoldsNext(s: System, i: nat, w: Write, name: string, m: Mode)
    requires i < |s.handlers| && w != DoneUnconfirmed && Holds(s, name, m) && Fits(s, i, name, m)
    ensures Holds(Step(s, i, w), name, NextMode(m, i, w))
  {
    var t := Step(s, i, w);
    assert t.handlers[i] in t.handlers;
    if Evict(name) in s.handlers {
      EvictStays(s, i, w, name);
    }
  }

  lemma FitsNext(s: System, i: nat, w: Write, name: string, m: Mode, k: nat)
    requires i < |s.handlers| && w != DoneUnconfirmed && Holds(s, name, m) && k < |s.handlers|
    requires Fits(s, i, name, m) && Fits(s, k, name, m)
    ensures k < |Step(s, i, w).handlers| && Fits(Step(s, i, w), k, name, NextMode(m, i, w))
  {
    StepReplaces(s, i, w);
  }

  lemma {:induction false} ModeRun(s: System, moves: seq<Move>, name: string, m: Mode) returns (after: Mode)
    requires InRange(s, moves) && Confirmed(moves) && InMode(s, name, m)
    ensures InMode(Run(s, moves), name, after)
    decreases |moves|
  {
    hide Holds, Fits, Step, NextMode;
    after := m;
    if moves != [] {
      var last := |moves| - 1;
      assert moves[last] in moves;
      after := ModeRun(s, moves[..last], name, m);
      var before, i, w := Run(s, moves[..last]), moves[last].i, moves[last].w;
      HoldsNext(before, i, w, name, after);
      StepReplaces(before, i, w);
      forall k | 0 <= k < |before.handlers| ensures Fits(Step(before, i, w), k, name, NextMode(after, i, w)) {
        FitsNext(before, i, w, name, after, k);
      }
      after := NextMode(after, i, w);
    }
  }

  /** When all handlers are done, every mode says that the name is settled. */
  lemma QuietModeSettles(s: System, name: string, m: Mode)
    requires InMode(s, name, m) && Quiet(s)
    ensures Settled(s, name)
  {
    forall h | h in s.handlers ensures h == Finished {
      var k :| 0 <= k < |s.handlers| && s.handlers[k] == h;
    }
  }

  /** A name that is not endangered starts in one of the modes. */
  lemma ModeOf(s: System, name: string) returns (m: Mode)
    requires Requests(s) && !Endangered(s, name)
    ensures InMode(s, name, m)
  {
    hide Endangered, ReadAgainstDelete, CreateAgainstDelete, CreateAgainstTwoDeletes, CreateAgainstCreate;
    if name in s.storage {
      m := ModeOfStored(s, name);
    } else {
      m := ModeOfFree(s, name);
    }
  }

  lemma ModeOfFree(s: System, name: string) returns (m: Mode)
    requires Requests(s) && !Endangered(s, name) && name !in s.storage
    ensures InMode(s, name, m)
  {
    assert Settled(s, name);
    assert forall k :: 0 <= k < |s.handlers| ==> NewRequest(s.handlers[k]);
    if i: nat :| CreatedAt(s, i, name) {
      m := OneValue(s.handlers[i].v);
      forall k | 0 <= k < |s.handlers| ensures Fits(s, k, name, m) {
        assert !CreateAgainstDelete(s, i, k, name) && !CreateAgainstCreate(s, i, k, name);
      }
    } else {
      m := Absent;
      forall k | 0 <= k < |s.handlers| ensures Fits(s, k, name, m) {
        assert !CreatedAt(s, k, name);
      }
    }
  }

  lemma ModeOfStored(s: System, name: string) returns (m: Mode)
    requires Requests(s) && !Endangered(s, name) && name in s.storage
    ensures InMode(s, name, m)
  {
    assert Settled(s, name);
    assert forall k :: 0 <= k < |s.handlers| ==> NewRequest(s.handlers[k]);
    if j: nat :| RemovedAt(s, j, name) {
      if i: nat :| CreatedAt(s, i, name) {
        m := ModeOfOneDelete(s, name, i, j);
      } else if i: nat :| LookedAt(s, i, name) {
        m := Cached;
        assert !ReadAgainstDelete(s, i, j, name);
        forall k | 0 <= k < |s.handlers| ensures Fits(s, k, name, m) {
          assert !CreatedAt(s, k, name) && !DroppedAt(s, k, name);
        }
      } else {
        m := NeverFilled;
        forall k | 0 <= k < |s.handlers| ensures Fits(s, k, name, m) {
          assert !CreatedAt(s, k, name) && !LookedAt(s, k, name);
        }
      }
    } else {
      m := Kept;
      forall k | 0 <= k < |s.handlers| ensures Fits(s, k, name, m) {
        assert !RemovedAt(s, k, name);
      }
    }
  }

  lemma ModeOfOneDelete(s: System, name: string, i: nat, j: nat) returns (m: Mode)
    requires Requests(s) && !Endangered(s, name) && name in s.storage && CreatedAt(s, i, name) && RemovedAt(s, j, name)
    ensures InMode(s, name, m)
  {
    assert Settled(s, name);
    assert forall k :: 0 <= k < |s.handlers| ==> NewRequest(s.handlers[k]);
    m := OneDelete(j, s.handlers[i].v, !exists l: nat :: LookedAt(s, l, name));
    if l: nat :| LookedAt(s, l, name) {
      assert !ReadAgainstDelete(s, l, j, name);
    }
    forall k | 0 <= k < |s.handlers| ensures Fits(s, k, name, m) {
      assert !CreateAgainstTwoDeletes(s, i, j, k, name) && !CreateAgainstCreate(s, i, k, name);
      assert m.unread ==> !LookedAt(s, k, name);
      assert !m.unread ==> !DroppedAt(s, k, name);
    }
  }

  /* ---------- Where it fails: a run that ends stale ---------- */

  lemma {:induction false} RunAppend(s: System, a: seq<Move>, b: seq<Move>)
    requires InRange(s, a) && InRange(s, b)
    ensures InRange(s, a + b) && InRange(Run(s, a), b) && Run(s, a + b) == Run(Run(s, a), b)
    decreases |b|
  {
    hide Step;
    if b == [] {
      assert a + b == a;
    } else {
      var last := |b| - 1;
      assert b == b[..last] + [b[last]];
      assert a + b == a + b[..last] + [b[last]];
      RunAppend(s, a, b[..last]);
      RunSnoc(s, a + b[..last], b[last]);
      RunSnoc(Run(s, a), b[..last], b[last]);
    }
  }

  lemma {:induction false} OthersStay(s: System, moves: seq<Move>, k: nat)
    requires InRange(s, moves) && k < |s.handlers| && forall m :: m in moves ==> m.i != k
    ensures Run(s, moves).handlers[k] == s.handlers[k]
    decreases |moves|
  {
    hide Step;
    if moves != [] {
      var last := |moves| - 1;
      assert moves[last] in moves;
      OthersStay(s, moves[..last], k);
      StepReplaces(Run(s, moves[..last]), moves[last].i, moves[last].w);
    }
  }

  /** The two that race end with a stale entry and nobody else moves. */
  ghost predicate Stale(s: System, moves: seq<Move>, i: nat, j: nat, name: string)
    requires i < |s.handlers| && j < |s.handlers|
  {
    && InRange(s, moves) && (forall m :: m in moves ==> m.w == Done && (m.i == i || m.i == j))
    && Run(s, moves).handlers[i] == Finished == Run(s, moves).handlers[j] && !Settled(Run(s, moves), name)
  }

  lemma CreateOvertaken(s: System, i: nat, j: nat, name: string) returns (moves: seq<Move>)
    requires CreateAgainstDelete(s, i, j, name)
    ensures Stale(s, moves, i, j, name)
  {
    var v := s.handlers[i].v;
    moves := [Move(i, Done), Move(i, Done), Move(j, Done), Move(j, Done), Move(i, Done)];
    Unroll5(s, moves);
    var s1 := Step(s, i, Done);
    assert s1.handlers[i] == Put(name, v) && s1.handlers[j] == Remove(name);
    var s2 := Step(s1, i, Done);
    assert s2.handlers[i] == Fill(name, v) && s2.handlers[j] == Remove(name);
    var s3 := Step(s2, j, Done);
    assert s3.handlers[i] == Fill(name, v) && s3.handlers[j] == Evict(name) && name !in s3.storage;
    var s4 := Step(s3, j, Done);
    assert s4.handlers[i] == Fill(name, v) && s4.handlers[j] == Finished && name !in s4.storage;
  }

  /** Request k is finished with no effect but, at most, on what is cached. */
  ghost predicate FinishedQuietly(s: System, t: System, k: nat)
    requires k < |s.handlers|
  {
    && t.handlers == s.handlers[k := Finished] && t.storage == s.storage
    && t.cache == if s.handlers[k].Drop? then s.cache - s.handlers[k].names else s.cache
  }

  lemma FinishOne(s: System, k: nat) returns (moves: seq<Move>)
    requires k < |s.handlers| && NewRequest(s.handlers[k])
    ensures InRange(s, moves) && forall m :: m in moves ==> m.i == k && m.w != DoneUnconfirmed
    ensures FinishedQuietly(s, Run(s, moves), k)
  {
    RunNothing(s);
    if s.handlers[k].Finished? {
      moves := [];
    } else {
      hide Run, FinishedQuietly;
      var w := if s.handlers[k].Drop? then Done else Refused;
      if s.handlers[k].Look? && s.handlers[k].name !in s.cache {
        var one := [] + [Move(k, w)];
        RunSnoc(s, [], Move(k, w));
        RunSnoc(s, one, Move(k, w));
        moves := one + [Move(k, w)];
        LookRefused(s, k);
      } else {
        moves := [] + [Move(k, w)];
        RunSnoc(s, [], Move(k, w));
        OneStepFinishes(s, k, w);
      }
    }
  }

  lemma LookRefused(s: System, k: nat)
    requires k < |s.handlers| && s.handlers[k].Look? && s.handlers[k].name !in s.cache
    ensures FinishedQuietly(s, Step(Step(s, k, Refused), k, Refused), k)
  {
  }

  lemma OneStepFinishes(s: System, k: nat, w: Write)
    requires k < |s.handlers| && NewRequest(s.handlers[k]) && !s.handlers[k].Finished?
    requires s.handlers[k].Look? ==> s.handlers[k].name in s.cache
    requires w == if s.handlers[k].Drop? then Done else Refused
    ensures FinishedQuietly(s, Step(s, k, w), k)
  {
  }

  /** Whoever is below n and no racer is done, the racers and the rest are as they were. */
  ghost predicate OthersDone(s: System, t: System, i: nat, j: nat, l: nat, n: nat) {
    && |t.handlers| == |s.handlers| && t.storage == s.storage
    && (forall k :: 0 <= k < |s.handlers| ==>
          t.handlers[k] == if k < n && k != i && k != j && k != l then Finished else s.handlers[k])
    && (forall name :: name in t.cache ==> name in s.cache && t.cache[name] == s.cache[name])
    && (forall k: nat, name :: k < n && k != i && k != j && k != l && DroppedAt(s, k, name) ==> name !in t.cache)
  }

  lemma OneMoreDone(s: System, t: System, u: System, i: nat, j: nat, l: nat, n: nat)
    requires n < |s.handlers| && OthersDone(s, t, i, j, l, n) && n != i && n != j && n != l && FinishedQuietly(t, u, n)
    ensures OthersDone(s, u, i, j, l, n + 1)
  {
    assert t.handlers[n] == s.handlers[n];
  }

  lemma {:induction false} FinishOthers(s: System, i: nat, j: nat, l: nat, n: nat) returns (moves: seq<Move>)
    requires n <= |s.handlers| && forall k :: 0 <= k < |s.handlers| ==> NewRequest(s.handlers[k])
    ensures InRange(s, moves) && Confirmed(moves) && OthersDone(s, Run(s, moves), i, j, l, n)
    decreases n
  {
    hide Run, FinishedQuietly;
    if n == 0 {
      moves := [];
      RunNothing(s);
    } else {
      moves := FinishOthers(s, i, j, l, n - 1);
      var t := Run(s, moves);
      assert t.handlers[n - 1] == s.handlers[n - 1];
      if n - 1 != i && n - 1 != j && n - 1 != l {
        hide OthersDone;
        var more := FinishOne(t, n - 1);
        RunAppend(s, moves, more);
        OneMoreDone(s, t, Run(t, more), i, j, l, n - 1);
        moves := moves + more;
      } else {
        RacerWaits(s, t, i, j, l, n - 1);
      }
    }
  }

  lemma RacerWaits(s: System, t: System, i: nat, j: nat, l: nat, n: nat)
    requires n < |s.handlers| && OthersDone(s, t, i, j, l, n) && (n == i || n == j || n == l)
    ensures OthersDone(s, t, i, j, l, n + 1)
  {
  }

  /** A race among racers that are left alone makes a run of all handlers that ends stale. */
  lemma RaceEnds(s: System, before: seq<Move>, race: seq<Move>, i: nat, j: nat, l: nat, name: string)
    requires InRange(s, before) && Confirmed(before) && OthersDone(s, Run(s, before), i, j, l, |s.handlers|)
    requires InRange(s, race) && (forall m :: m in race ==> m.w == Done && (m.i == i || m.i == j || m.i == l))
    requires i < |s.handlers| && j < |s.handlers| && l < |s.handlers|
    requires InRange(Run(s, before), race)
    requires var t := Run(Run(s, before), race);
             t.handlers[i] == Finished && t.handlers[j] == Finished && t.handlers[l] == Finished && !Settled(t, name)
    ensures !EndsSettled(s, before + race)
  {
    hide Step;
    RunAppend(s, before, race);
    var t := Run(s, before + race);
    forall k | 0 <= k < |t.handlers| ensures t.handlers[k] == Finished {
      if k != i && k != j && k != l {
        OthersStay(Run(s, before), race, k);
      }
    }
    assert Confirmed(before + race);
  }

  lemma EndangeredByRead(s: System, i: nat, j: nat, name: string) returns (moves: seq<Move>)
    requires Requests(s) && ReadAgainstDelete(s, i, j, name)
    ensures !EndsSettled(s, moves)
  {
    var before := FinishOthers(s, i, j, j, |s.handlers|);
    var t := Run(s, before);
    if name in s.cache {
      var k: nat :| DroppedAt(s, k, name);
      assert k != i && k != j;
    }
    assert name !in t.cache;
    var race := DeleteOvertakesFill(t, i, j);
    RaceEnds(s, before, race, i, j, j, name);
    moves := before + race;
  }

  lemma EndangeredByCreate(s: System, i: nat, j: nat, name: string) returns (moves: seq<Move>)
    requires Requests(s) && CreateAgainstDelete(s, i, j, name)
    ensures !EndsSettled(s, moves)
  {
    var before := FinishOthers(s, i, j, j, |s.handlers|);
    var race := CreateOvertaken(Run(s, before), i, j, name);
    RaceEnds(s, before, race, i, j, j, name);
    moves := before + race;
  }

  /** A delete on its own: the name is free and not cached, and nothing else has changed. */
  lemma DeleteFirst(s: System, l: nat, name: string) returns (moves: seq<Move>)
    requires RemovedAt(s, l, name)
    ensures InRange(s, moves) && forall m :: m in moves ==> m.w == Done && m.i == l
    ensures Run(s, moves) == System(s.storage - {name}, s.cache - {name}, s.handlers[l := Finished])
  {
    RunNothing(s);
    moves := [] + [Move(l, Done)] + [Move(l, Done)];
    RunSnoc(s, [], Move(l, Done));
    RunSnoc(s, [] + [Move(l, Done)], Move(l, Done));
  }

  lemma EndangeredByTwoDeletes(s: System, i: nat, j: nat, l: nat, name: string) returns (moves: seq<Move>)
    requires Requests(s) && CreateAgainstTwoDeletes(s, i, j, l, name)
    ensures !EndsSettled(s, moves)
  {
    var before := FinishOthers(s, i, j, l, |s.handlers|);
    var t := Run(s, before);
    var first := DeleteFirst(t, l, name);
    var u := Run(t, first);
    var second := CreateOvertaken(u, i, j, name);
    moves := JoinRaces(s, before, first, second, i, j, l, name);
  }

  /** A delete, then a race of two others. */
  lemma JoinRaces(s: System, before: seq<Move>, first: seq<Move>, second: seq<Move>, i: nat, j: nat, l: nat, name: string)
    returns (moves: seq<Move>)
    requires i < |s.handlers| && j < |s.handlers| && l < |s.handlers| && l != i && l != j
    requires InRange(s, before) && Confirmed(before) && OthersDone(s, Run(s, before), i, j, l, |s.handlers|)
    requires InRange(Run(s, before), first) && forall m :: m in first ==> m.w == Done && m.i == l
    requires Run(Run(s, before), first).handlers[l] == Finished
    requires Stale(Run(Run(s, before), first), second, i, j, name)
    ensures !EndsSettled(s, moves)
  {
    var t := Run(s, before);
    RunAppend(t, first, second);
    OthersStay(Run(t, first), second, l);
    RaceEnds(s, before, first + second, i, j, l, name);
    moves := before + (first + second);
  }

  lemma EndangeredByRival(s: System, i: nat, j: nat, name: string) returns (moves: seq<Move>)
    requires Requests(s) && CreateAgainstCreate(s, i, j, name)
    ensures !EndsSettled(s, moves)
  {
    if name !in s.storage {
      var before := FinishOthers(s, i, j, j, |s.handlers|);
      var race := RacingCreatesLeaveStaleEntry(Run(s, before), i, j);
      RaceEnds(s, before, race, i, j, j, name);
      moves := before + race;
    } else {
      var l: nat :| RemovedAt(s, l, name);
      var before := FinishOthers(s, i, j, l, |s.handlers|);
      var first := DeleteFirst(Run(s, before), l, name);
      var second := RacingCreatesLeaveStaleEntry(Run(Run(s, before), first), i, j);
      moves := JoinRaces(s, before, first, second, i, j, l, name);
    }
  }

  /* ---------- Both together ---------- */

  /** Whatever the interleaving of the requests, and whichever storage calls are refused, the cache agrees
      with storage when all are done, exactly when no name is endangered. */
  lemma SettledUnlessEndangered(s: System)
    requires Requests(s)
    ensures (forall moves :: EndsSettled(s, moves)) <==> (forall name :: !Endangered(s, name))
  {
    hide EndsSettled, Endangered, Requests;
    if name :| Endangered(s, name) {
      var moves := StaleRun(s, name);
      assert !EndsSettled(s, moves);
    } else {
      forall moves ensures EndsSettled(s, moves) {
        SafeRun(s, moves);
      }
    }
  }

  lemma StaleRun(s: System, name: string) returns (moves: seq<Move>)
    requires Requests(s) && Endangered(s, name)
    ensures !EndsSettled(s, moves)
  {
    hide EndsSettled, Requests, ReadAgainstDelete, CreateAgainstDelete, CreateAgainstTwoDeletes, CreateAgainstCreate;
    if i: nat, j: nat :| ReadAgainstDelete(s, i, j, name) {
      moves := EndangeredByRead(s, i, j, name);
    } else if i: nat, j: nat :| CreateAgainstDelete(s, i, j, name) {
      moves := EndangeredByCreate(s, i, j, name);
    } else if i: nat, j: nat, k: nat :| CreateAgainstTwoDeletes(s, i, j, k, name) {
      moves := EndangeredByTwoDeletes(s, i, j, k, name);
    } else {
      var i: nat, j: nat :| CreateAgainstCreate(s, i, j, name);
      moves := EndangeredByRival(s, i, j, name);
    }
  }

  lemma SafeRun(s: System, moves: seq<Move>)
    requires Requests(s) && forall name :: !Endangered(s, name)
    ensures EndsSettled(s, moves)
  {
    hide Endangered, Requests, InMode, Settled, Quiet;
    if InRange(s, moves) && Confirmed(moves) && Quiet(Run(s, moves)) {
      forall name ensures Settled(Run(s, moves), name) {
        assert !Endangered(s, name);
        var m := ModeOf(s, name);
        var after := ModeRun(s, moves, name, m);
        QuietModeSettles(Run(s, moves), name, after);
      }
    }
  }
}
