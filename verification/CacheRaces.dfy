/** The plugin's handlers interleaved: every storage call and every locked cache access is one step.
    A handler sees storage in one step and writes the cache in a later one, so the cache can fall
    behind; this module says exactly by which steps, and from which handlers it never does. */
module CacheRaces {
  import opened KeyStore
  import opened Wrappers

  /** Where a handler is. */
  datatype Handler =
    | Look(name: string)              // getKey, before the cache lookup
    | Fetch(name: string)             // getKey, after a miss
    | Check(name: string, v: Stored)  // create or import, before the existence check
    | Put(name: string, v: Stored)    // create or import, nothing found
    | Fill(name: string, v: Stored)   // about to write v into the cache
    | Remove(name: string)            // delete, before storage
    | Evict(name: string)             // delete, storage done
    | Replicate(name: string, value: Option<Stored>) // a change of storage from outside
    | Drop(names: set<string>)        // invalidate, also of a replicated change, or cleanup
    | Finished

  datatype System = System(storage: map<string, Stored>, cache: map<string, Stored>, handlers: seq<Handler>)

  /** One step of handler i; w is how its storage call ends. A read that is not Done has failed. */
  function Step(s: System, i: nat, w: Write): System
    requires i < |s.handlers|
  {
    match s.handlers[i]
    case Look(name) => To(s, i, if name in s.cache then Finished else Fetch(name))
    case Fetch(name) =>
      To(s, i, if w != Done || name !in s.storage then Finished else Fill(name, s.storage[name]))
    case Check(name, v) => To(s, i, if w != Done || name in s.storage then Finished else Put(name, v))
    case Put(name, v) =>
      if w == Refused then To(s, i, Finished)
      else To(s.(storage := s.storage[name := v]), i, if w == Done then Fill(name, v) else Finished)
    case Fill(name, v) => To(s.(cache := s.cache[name := v]), i, Finished)
    case Remove(name) =>
      if w == Refused then To(s, i, Finished)
      else To(s.(storage := s.storage - {name}), i, if w == Done then Evict(name) else Finished)
    case Evict(name) => To(s.(cache := s.cache - {name}), i, Finished)
    case Replicate(name, value) => To(s.(storage := Replaced(s.storage, name, value)), i, Drop({name}))
    case Drop(names) => To(s.(cache := s.cache - names), i, Finished)
    case Finished => s
  }

  function Replaced(storage: map<string, Stored>, name: string, value: Option<Stored>): map<string, Stored> {
    if value.Some? then storage[name := value.value] else storage - {name}
  }

  function To(s: System, i: nat, h: Handler): System
    requires i < |s.handlers|
  {
    s.(handlers := s.handlers[i := h])
  }

  /** Storage and cache, as KeyStore has them. */
  function Sequential(s: System): State { State(s.storage, s.cache) }

  /** What a request does when nothing interferes. */
  function Alone(s: State, h: Handler, a: Write, b: Write): State {
    match h
    case Look(name) => Read(s, name, b != Done).0
    case Check(name, v) => Create(s, name, v, a != Done, b).0
    case Remove(name) => Delete(s, name, a).0
    case Replicate(name, value) => Apply(s, ReplicateOp(name, value))
    case _ => s
  }

  /** A request that takes its steps without interruption is the sequential operation: a and b are how its
      first and second step end. */
  lemma AloneIsSequential(s: System, i: nat, a: Write, b: Write, c: Write)
    requires i < |s.handlers|
    requires var h := s.handlers[i]; (h.Look? || h.Check? || h.Remove? || h.Replicate?) && h.name != ""
    ensures var t := Step(Step(Step(s, i, a), i, b), i, c);
            && t.handlers == s.handlers[i := Finished]
            && Sequential(t) == Alone(Sequential(s), s.handlers[i], a, b)
  {
    var h := s.handlers[i];
    if h.Replicate? {
      assert (PREFIX + h.name)[|PREFIX|..] == h.name;
    }
  }

  /** The cache says nothing about name, or what storage says. */
  predicate Settled(s: System, name: string) {
    name in s.cache ==> name in s.storage && s.storage[name] == s.cache[name]
  }

  /** A handler whose next step makes the cache right about name, given what storage holds. */
  predicate Repairs(h: Handler, storage: map<string, Stored>, name: string) {
    || h == Evict(name)
    || (h.Drop? && name in h.names)
    || (h.Fill? && h.name == name && name in storage && storage[name] == h.v)
  }

  predicate RepairedBy(s: System, name: string, k: nat)
    requires k < |s.handlers|
  {
    Repairs(s.handlers[k], s.storage, name)
  }

  /** The cache is right about name, or a handler is on its way to make it so. */
  ghost predicate Tended(s: System, name: string) {
    Settled(s, name) || exists k :: 0 <= k < |s.handlers| && RepairedBy(s, name, k)
  }

  ghost predicate Consistent(s: System) {
    forall name :: Tended(s, name)
  }

  /** No handler but i would make the cache right about name if storage were as given. */
  ghost predicate NoOtherRepairs(s: System, i: nat, storage: map<string, Stored>, name: string) {
    forall k :: 0 <= k < |s.handlers| && k != i ==> !Repairs(s.handlers[k], storage, name)
  }

  /** Handler i is about to cache a value that storage no longer holds, and no other handler will
      repair that. */
  ghost predicate Overtaken(s: System, i: nat)
    requires i < |s.handlers|
  {
    var h := s.handlers[i];
    h.Fill? && !(h.name in s.storage && s.storage[h.name] == h.v) && NoOtherRepairs(s, i, s.storage, h.name)
  }

  /** Handler i's write is done but reported as failed, so it gives up although the cache holds something
      else under the name, and no other handler will repair that. */
  ghost predicate Abandoned(s: System, i: nat, w: Write)
    requires i < |s.handlers|
  {
    var h := s.handlers[i];
    w == DoneUnconfirmed && (h.Put? || h.Remove?) && h.name in s.cache
    && (h.Put? ==> s.cache[h.name] != h.v)
    && NoOtherRepairs(s, i, if h.Put? then s.storage[h.name := h.v] else s.storage - {h.name}, h.name)
  }

  predicate Quiet(s: System) {
    forall k :: 0 <= k < |s.handlers| ==> s.handlers[k] == Finished
  }

  /** The name a step of h can change storage or cache at. */
  predicate Touches(h: Handler, name: string) {
    || ((h.Put? || h.Fill? || h.Remove? || h.Evict? || h.Replicate?) && h.name == name)
    || (h.Drop? && name in h.names)
  }

  lemma UntouchedStays(s: System, i: nat, w: Write, name: string)
    requires i < |s.handlers| && !Touches(s.handlers[i], name) && Tended(s, name)
    ensures Tended(Step(s, i, w), name)
  {
    var t := Step(s, i, w);
    if !Settled(s, name) {
      var k :| 0 <= k < |s.handlers| && RepairedBy(s, name, k);
      assert k != i && t.handlers[k] == s.handlers[k];
      assert RepairedBy(t, name, k);
    }
  }

  lemma TouchedStays(s: System, i: nat, w: Write, name: string)
    requires i < |s.handlers| && Touches(s.handlers[i], name) && Tended(s, name)
    requires !Overtaken(s, i) && !Abandoned(s, i, w)
    ensures Tended(Step(s, i, w), name)
  {
    var h, t := s.handlers[i], Step(s, i, w);
    if ((h.Put? || h.Remove?) && w == Done) || h.Replicate? {
      assert RepairedBy(t, name, i);
    } else if (h.Put? || h.Remove?) && w == Refused {
      if !Settled(s, name) {
        var k :| 0 <= k < |s.handlers| && RepairedBy(s, name, k);
        assert k != i && RepairedBy(t, name, k);
      }
    } else if !Settled(t, name) {
      var k :| 0 <= k < |s.handlers| && k != i && Repairs(s.handlers[k], t.storage, name);
      assert t.handlers[k] == s.handlers[k];
      assert RepairedBy(t, name, k);
    }
  }

  /** The main step result: a step keeps consistency exactly when it is neither an overtaken fill nor an
      abandoned write. */
  lemma StepConsistency(s: System, i: nat, w: Write)
    requires i < |s.handlers| && Consistent(s)
    ensures Consistent(Step(s, i, w)) <==> !Overtaken(s, i) && !Abandoned(s, i, w)
  {
    var h, t := s.handlers[i], Step(s, i, w);
    if Overtaken(s, i) || Abandoned(s, i, w) {
      assert !Settled(t, h.name);
      forall k | 0 <= k < |t.handlers| ensures !RepairedBy(t, h.name, k) {
        if k != i {
          assert t.handlers[k] == s.handlers[k] && !Repairs(s.handlers[k], t.storage, h.name);
        }
      }
      assert !Tended(t, h.name);
    } else {
      forall name ensures Tended(t, name) {
        assert Tended(s, name);
        if Touches(h, name) {
          TouchedStays(s, i, w, name);
        } else {
          UntouchedStays(s, i, w, name);
        }
      }
    }
  }

  /* ---------- Whole runs ---------- */

  datatype Move = Move(i: nat, w: Write)

  /** The moves name handlers of the system. */
  predicate InRange(s: System, moves: seq<Move>) {
    forall m :: m in moves ==> m.i < |s.handlers|
  }

  function Run(s: System, moves: seq<Move>): (t: System)
    requires InRange(s, moves)
    ensures |t.handlers| == |s.handlers|
    decreases |moves|
  {
    if moves == [] then s
    else
      var last := |moves| - 1;
      assert moves[last] in moves;
      Step(Run(s, moves[..last]), moves[last].i, moves[last].w)
  }

  /** No step of the run is an overtaken fill or an abandoned write. */
  ghost predicate NothingLost(s: System, moves: seq<Move>)
    requires InRange(s, moves)
  {
    forall k :: 0 <= k < |moves| ==>
      (moves[k] in moves && !Overtaken(Run(s, moves[..k]), moves[k].i) && !Abandoned(Run(s, moves[..k]), moves[k].i, moves[k].w))
  }

  lemma {:induction false} RunConsistency(s: System, moves: seq<Move>)
    requires InRange(s, moves) && Consistent(s) && NothingLost(s, moves)
    ensures Consistent(Run(s, moves))
    decreases |moves|
  {
    hide Consistent, Overtaken, Abandoned, Step;
    if moves != [] {
      var last := |moves| - 1;
      var front := moves[..last];
      forall k | 0 <= k < last ensures front[k] in front
        && !Overtaken(Run(s, front[..k]), front[k].i) && !Abandoned(Run(s, front[..k]), front[k].i, front[k].w) {
        assert front[..k] == moves[..k];
      }
      RunConsistency(s, front);
      StepConsistency(Run(s, front), moves[last].i, moves[last].w);
    }
  }

  /** Every point of the run is consistent. */
  ghost predicate AllConsistent(s: System, moves: seq<Move>)
    requires InRange(s, moves)
  {
    forall k :: 0 <= k <= |moves| ==> PrefixConsistent(s, moves, k)
  }

  ghost predicate PrefixConsistent(s: System, moves: seq<Move>, k: nat)
    requires InRange(s, moves) && k <= |moves|
  {
    Consistent(Run(s, moves[..k]))
  }

  lemma AllConsistentNext(s: System, moves: seq<Move>)
    requires InRange(s, moves) && moves != []
    ensures InRange(s, moves[..|moves| - 1])
    ensures AllConsistent(s, moves) <==> AllConsistent(s, moves[..|moves| - 1]) && Consistent(Run(s, moves))
  {
    hide Consistent, Run;
    var front := moves[..|moves| - 1];
    assert moves[..|moves|] == moves;
    assert PrefixConsistent(s, moves, |moves|) <==> Consistent(Run(s, moves));
    forall k | 0 <= k <= |front| ensures PrefixConsistent(s, front, k) <==> PrefixConsistent(s, moves, k) {
      assert front[..k] == moves[..k];
    }
  }

  lemma NothingLostNext(s: System, moves: seq<Move>)
    requires InRange(s, moves) && moves != []
    ensures var last := |moves| - 1;
            var before := Run(s, moves[..last]);
            && moves[last] in moves
            && (NothingLost(s, moves) <==>
                NothingLost(s, moves[..last]) && !Overtaken(before, moves[last].i) && !Abandoned(before, moves[last].i, moves[last].w))
  {
    hide Overtaken, Abandoned, Run;
    var last := |moves| - 1;
    var front := moves[..last];
    assert forall k :: 0 <= k < |moves| ==> moves[k] in moves;
    assert forall k :: 0 <= k < last ==> front[k] in front && front[k] == moves[k] && front[..k] == moves[..k];
  }

  /** Every point of a run is consistent exactly when no step of it loses anything. */
  lemma {:induction false} ConsistentThroughout(s: System, moves: seq<Move>)
    requires InRange(s, moves) && Consistent(s)
    ensures AllConsistent(s, moves) <==> NothingLost(s, moves)
    decreases |moves|
  {
    if moves == [] {
      assert moves[..0] == [];
    } else {
      hide Consistent, Overtaken, Abandoned, Step, NothingLost, PrefixConsistent;
      var last := |moves| - 1;
      var front := moves[..last];
      AllConsistentNext(s, moves);
      NothingLostNext(s, moves);
      ConsistentThroughout(s, front);
      if AllConsistent(s, front) {
        LastConsistent(s, front);
        StepConsistency(Run(s, front), moves[last].i, moves[last].w);
      }
    }
  }

  lemma LastConsistent(s: System, moves: seq<Move>)
    requires InRange(s, moves) && AllConsistent(s, moves)
    ensures Consistent(Run(s, moves))
  {
    hide Consistent, Run;
    assert moves[..|moves|] == moves;
    assert PrefixConsistent(s, moves, |moves|);
  }

  /** Once every handler has finished, such a run leaves only entries that storage holds. */
  lemma QuietMeansCoherent(s: System, moves: seq<Move>)
    requires InRange(s, moves) && Consistent(s) && NothingLost(s, moves) && Quiet(Run(s, moves))
    ensures forall name :: Settled(Run(s, moves), name)
  {
    RunConsistency(s, moves);
    var t := Run(s, moves);
    forall name ensures Settled(t, name) {
      assert Tended(t, name);
      forall k | 0 <= k < |t.handlers| ensures !RepairedBy(t, name, k) {
        assert t.handlers[k] == Finished;
      }
    }
  }

  /* ---------- Handlers that cannot race ---------- */

  /** The requests are new, none of them deletes, nothing changes storage from outside, and the cache is
      right about every name. */
  ghost predicate Starting(s: System) {
    (forall k :: 0 <= k < |s.handlers| ==>
       var h := s.handlers[k]; h.Look? || h.Check? || h.Drop? || h.Finished?)
    && forall name :: Settled(s, name)
  }

  /** Two creates or imports of different keys under one free name. */
  predicate Rivals(s: System, i: nat, j: nat)
    requires i < |s.handlers| && j < |s.handlers|
  {
    var g, h := s.handlers[i], s.handlers[j];
    g.Check? && h.Check? && g.name == h.name && g.v != h.v && g.name !in s.storage
  }

  ghost predicate SettledAfter(s: System, moves: seq<Move>) {
    InRange(s, moves) ==> forall name :: Settled(Run(s, moves), name)
  }

  predicate Writer(h: Handler) {
    h.Check? || h.Put?
  }

  /** What handlers that cannot race keep: nothing removes, a fill carries what storage holds, and of two
      writers of different keys under one name neither will write. */
  ghost predicate Calm(s: System) {
    && (forall name :: Settled(s, name))
    && (forall k :: 0 <= k < |s.handlers| ==> CalmHandler(s, k))
    && (forall j, k :: 0 <= j < |s.handlers| && 0 <= k < |s.handlers| ==> CalmPair(s, j, k))
  }

  predicate CalmHandler(s: System, k: nat)
    requires k < |s.handlers|
  {
    var h := s.handlers[k];
    && !h.Remove? && !h.Evict? && !h.Replicate?
    && (h.Fill? ==> h.name in s.storage && s.storage[h.name] == h.v)
    && (h.Put? && h.name in s.storage ==> s.storage[h.name] == h.v)
  }

  predicate CalmPair(s: System, j: nat, k: nat)
    requires j < |s.handlers| && k < |s.handlers|
  {
    var g, h := s.handlers[j], s.handlers[k];
    Writer(g) && Writer(h) && g.name == h.name && g.v != h.v ==> g.name in s.storage && g.Check? && h.Check?
  }

  lemma CalmStep(s: System, i: nat, w: Write)
    requires Calm(s) && i < |s.handlers|
    ensures Calm(Step(s, i, w))
  {
    hide Step, CalmHandler, CalmPair, Settled;
    var t := Step(s, i, w);
    StepKeepsHandlers(s, i, w);
    forall name ensures Settled(t, name) {
      CalmSettles(s, i, w, name);
    }
    forall k | 0 <= k < |t.handlers| ensures CalmHandler(t, k) {
      CalmHandlerStep(s, i, w, k);
    }
    forall j, k | 0 <= j < |t.handlers| && 0 <= k < |t.handlers| ensures CalmPair(t, j, k) {
      CalmPairStep(s, i, w, j, k);
    }
  }

  lemma StepKeepsHandlers(s: System, i: nat, w: Write)
    requires i < |s.handlers|
    ensures |Step(s, i, w).handlers| == |s.handlers|
  {
  }

  lemma CalmSettles(s: System, i: nat, w: Write, name: string)
    requires i < |s.handlers| && CalmHandler(s, i) && Settled(s, name)
    ensures Settled(Step(s, i, w), name)
  {
  }

  /** What a step does to storage and handlers when nothing removes. */
  lemma CalmEffect(s: System, i: nat, w: Write)
    requires i < |s.handlers| && CalmHandler(s, i)
    ensures var t, h := Step(s, i, w), s.handlers[i];
            var g := t.handlers[i];
            && t.handlers == s.handlers[i := g]
            && (t.storage == s.storage || (h.Put? && t.storage == s.storage[h.name := h.v]))
            && !g.Remove? && !g.Evict? && !g.Replicate? && !g.Check?
            && (g.Put? ==> h == Check(g.name, g.v) && g.name !in t.storage)
            && (g.Fill? ==> g.name in t.storage && t.storage[g.name] == g.v)
  {
  }

  lemma CalmHandlerStep(s: System, i: nat, w: Write, k: nat)
    requires i < |s.handlers| && k < |s.handlers| && CalmHandler(s, i) && CalmHandler(s, k) && CalmPair(s, i, k)
    ensures k < |Step(s, i, w).handlers| && CalmHandler(Step(s, i, w), k)
  {
    CalmEffect(s, i, w);
    hide Step;
  }

  lemma CalmPairStep(s: System, i: nat, w: Write, j: nat, k: nat)
    requires i < |s.handlers| && j < |s.handlers| && k < |s.handlers|
    requires CalmHandler(s, i) && CalmPair(s, j, k)
    ensures j < |Step(s, i, w).handlers| && k < |Step(s, i, w).handlers| && CalmPair(Step(s, i, w), j, k)
  {
    CalmEffect(s, i, w);
    hide Step;
  }

  lemma {:induction false} CalmRun(s: System, moves: seq<Move>)
    requires InRange(s, moves) && Calm(s)
    ensures Calm(Run(s, moves))
    decreases |moves|
  {
    hide Calm, Step;
    if moves != [] {
      var last := |moves| - 1;
      assert moves[last] in moves;
      CalmRun(s, moves[..last]);
      CalmStep(Run(s, moves[..last]), moves[last].i, moves[last].w);
    }
  }

  /** Without deletes, the cache is right at every point of every interleaving exactly when no two of the
      requests create or import different keys under one free name. */
  lemma SettledWithoutRivals(s: System)
    requires Starting(s)
    ensures (forall moves :: SettledAfter(s, moves)) <==>
            (forall i, j :: 0 <= i < |s.handlers| && 0 <= j < |s.handlers| ==> !Rivals(s, i, j))
  {
    if forall i, j :: 0 <= i < |s.handlers| && 0 <= j < |s.handlers| ==> !Rivals(s, i, j) {
      forall i, j | 0 <= i < |s.handlers| && 0 <= j < |s.handlers| ensures CalmPair(s, i, j) {
        assert !Rivals(s, i, j);
      }
      assert Calm(s);
      forall moves ensures SettledAfter(s, moves) {
        if InRange(s, moves) {
          CalmRun(s, moves);
        }
      }
    } else {
      var i, j :| 0 <= i < |s.handlers| && 0 <= j < |s.handlers| && Rivals(s, i, j);
      var moves := RivalsRace(s, i, j);
      assert !SettledAfter(s, moves);
    }
  }

  /** The race of two rivals: both see the name free, the first stores and caches its key, the second
      replaces it in storage. */
  lemma RivalsRace(s: System, i: nat, j: nat) returns (moves: seq<Move>)
    requires i < |s.handlers| && j < |s.handlers| && Rivals(s, i, j)
    ensures InRange(s, moves) && !Settled(Run(s, moves), s.handlers[i].name)
  {
    var name, a, b := s.handlers[i].name, s.handlers[i].v, s.handlers[j].v;
    moves := [Move(i, Done), Move(j, Done), Move(i, Done), Move(i, Done), Move(j, Done)];
    Unroll5(s, moves);
    var s1 := Step(s, i, Done);
    assert s1 == To(s, i, Put(name, a));
    var s2 := Step(s1, j, Done);
    assert s2.handlers[i] == Put(name, a) && s2.handlers[j] == Put(name, b);
    var s3 := Step(s2, i, Done);
    assert s3.handlers[i] == Fill(name, a) && s3.handlers[j] == Put(name, b);
    var s4 := Step(s3, i, Done);
    assert s4.handlers[j] == Put(name, b) && s4.cache[name] == a;
  }

  /* ---------- What overtakes ---------- */

  /** No create, import or outside change is under way, and what a fill carries is what storage holds, if
      anything. */
  ghost predicate ReadersAndDeletes(s: System) {
    forall k :: 0 <= k < |s.handlers| ==>
      var h := s.handlers[k];
      !Writer(h) && !h.Replicate? && (h.Fill? && h.name in s.storage ==> s.storage[h.name] == h.v)
  }

  /** Without creates and imports, an overtaken fill was overtaken by a delete, and nothing else. */
  lemma {:induction false} WithoutWritersOnlyDeletes(s: System, moves: seq<Move>, i: nat)
    requires InRange(s, moves) && ReadersAndDeletes(s) && i < |s.handlers|
    ensures ReadersAndDeletes(Run(s, moves))
    ensures Overtaken(Run(s, moves), i) ==> Run(s, moves).handlers[i].name !in Run(s, moves).storage
    decreases |moves|
  {
    hide NoOtherRepairs;
    if moves != [] {
      var last := |moves| - 1;
      WithoutWritersOnlyDeletes(s, moves[..last], i);
      assert moves[last] in moves;
      ReadersStep(Run(s, moves[..last]), moves[last].i, moves[last].w);
    }
  }

  lemma ReadersStep(s: System, i: nat, w: Write)
    requires ReadersAndDeletes(s) && i < |s.handlers|
    ensures ReadersAndDeletes(Step(s, i, w))
  {
    var t := Step(s, i, w);
    assert !Writer(s.handlers[i]) && !s.handlers[i].Replicate?;
    forall k | 0 <= k < |t.handlers|
      ensures !Writer(t.handlers[k]) && !t.handlers[k].Replicate?
      ensures t.handlers[k].Fill? && t.handlers[k].name in t.storage ==> t.storage[t.handlers[k].name] == t.handlers[k].v
    {
      assert !Writer(s.handlers[k]);
    }
  }

  /** A delete overtakes a reader of the same stored, uncached key in any system: both finish and the
      deleted key stays cached. */
  lemma DeleteOvertakesFill(s: System, i: nat, j: nat) returns (moves: seq<Move>)
    requires i < |s.handlers| && j < |s.handlers| && s.handlers[i].Look? && s.handlers[j] == Remove(s.handlers[i].name)
    requires s.handlers[i].name in s.storage && s.handlers[i].name !in s.cache
    ensures InRange(s, moves) && forall m :: m in moves ==> m.w == Done && (m.i == i || m.i == j)
    ensures var t, name := Run(s, moves), s.handlers[i].name;
            t.handlers[i] == Finished == t.handlers[j] && name in t.cache && name !in t.storage
  {
    var name := s.handlers[i].name;
    moves := [Move(i, Done), Move(i, Done), Move(j, Done), Move(j, Done), Move(i, Done)];
    Unroll5(s, moves);
    var s1 := Step(s, i, Done);
    assert s1 == To(s, i, Fetch(name));
    var s2 := Step(s1, i, Done);
    assert s2.handlers[i] == Fill(name, s.storage[name]) && s2.handlers[j] == Remove(name);
    var s3 := Step(s2, j, Done);
    assert s3.handlers[i] == Fill(name, s.storage[name]) && s3.handlers[j] == Evict(name);
    var s4 := Step(s3, j, Done);
    assert s4.handlers[i] == Fill(name, s.storage[name]) && s4.handlers[j] == Finished;
  }

  /** Rivals also finish with the cache behind: both see the name free, the second Put replaces the first
      key, and the first handler caches last. The cache keeps a key that storage does not hold. */
  lemma RacingCreatesLeaveStaleEntry(s: System, i: nat, j: nat) returns (moves: seq<Move>)
    requires i < |s.handlers| && j < |s.handlers| && Rivals(s, i, j)
    ensures InRange(s, moves) && forall m :: m in moves ==> m.w == Done && (m.i == i || m.i == j)
    ensures var t, name := Run(s, moves), s.handlers[i].name;
            && t.handlers[i] == Finished == t.handlers[j]
            && name in t.storage && t.storage[name] == s.handlers[j].v
            && name in t.cache && t.cache[name] == s.handlers[i].v
  {
    var name, a, b := s.handlers[i].name, s.handlers[i].v, s.handlers[j].v;
    var first := [Move(i, Done), Move(j, Done), Move(i, Done), Move(j, Done), Move(j, Done)];
    moves := first + [Move(i, Done)];
    Unroll5(s, first);
    var s1 := Step(s, i, Done);
    assert s1 == To(s, i, Put(name, a));
    var s2 := Step(s1, j, Done);
    assert s2.handlers[i] == Put(name, a) && s2.handlers[j] == Put(name, b);
    var s3 := Step(s2, i, Done);
    assert s3.handlers[i] == Fill(name, a) && s3.handlers[j] == Put(name, b);
    var s4 := Step(s3, j, Done);
    assert s4.handlers[i] == Fill(name, a) && s4.handlers[j] == Fill(name, b);
    var s5 := Step(s4, j, Done);
    assert s5.handlers[i] == Fill(name, a) && s5.handlers[j] == Finished && s5.storage[name] == b;
    RunSnoc(s, first, Move(i, Done));
  }

  lemma RunSnoc(s: System, moves: seq<Move>, move: Move)
    requires move.i < |s.handlers| && InRange(s, moves)
    ensures InRange(s, moves + [move])
    ensures Run(s, moves + [move]) == Step(Run(s, moves), move.i, move.w)
  {
    hide Step;
    assert (moves + [move])[..|moves|] == moves;
  }

  lemma RunNothing(s: System)
    ensures InRange(s, []) && Run(s, []) == s
  {
  }

  lemma Unroll5(s: System, m: seq<Move>)
    requires |m| == 5 && m[0].i < |s.handlers| && m[1].i < |s.handlers| && m[2].i < |s.handlers|
             && m[3].i < |s.handlers| && m[4].i < |s.handlers|
    ensures InRange(s, m)
    ensures Run(s, m) == Step(Step(Step(Step(Step(s, m[0].i, m[0].w), m[1].i, m[1].w), m[2].i, m[2].w),
                              m[3].i, m[3].w), m[4].i, m[4].w)
  {
    hide Step, Run, InRange;
    RunNothing(s);
    var m1 := [] + [m[0]];
    var m2 := m1 + [m[1]];
    var m3 := m2 + [m[2]];
    var m4 := m3 + [m[3]];
    RunSnoc(s, [], m[0]);
    RunSnoc(s, m1, m[1]);
    RunSnoc(s, m2, m[2]);
    RunSnoc(s, m3, m[3]);
    RunSnoc(s, m4, m[4]);
    assert m == m4 + [m[4]];
  }
}
