/** The metadata store on a file system that keeps synced files but may forget renames: the directory is
    never synced, so a crash may undo up to a given number of the last renames since the store was
    opened. MetadataStore is the case where that number is zero. */
module UndoneRenames {
  import opened Wrappers
  import M = MetadataStore

  /** A file that the path has named since the store was opened, and the event whose rename put it there;
      -1 is the file the run started from. */
  datatype Version = Version(file: Option<M.File>, origin: int)

  /** The store, and every version a crash could bring back, oldest first. */
  datatype Volume = Volume(store: M.Store, versions: seq<Version>)

  datatype Event =
    | Completes(op: M.Op, fault: M.Fault)
    | Crashes(op: M.Op, fault: M.Fault, k: nat, undone: nat, found: M.Disk)

  /** Whether an operation gets as far as its rename, after which the disk is in state 4. */
  predicate Renames(s: M.Store, op: M.Op, fault: M.Fault) {
    M.Syncs(s, op) && M.Mutated(s, op).dirty && fault.kind.NoFault?
  }

  /** The versions as of disk state k of event n. */
  function VersionsAt(v: Volume, op: M.Op, fault: M.Fault, k: nat, n: nat): (vs: seq<Version>)
    ensures |vs| >= |v.versions|
  {
    if Renames(v.store, op, fault) && k >= 4 then
      v.versions + [Version(Some(M.File(M.Document(M.Mutated(v.store, op).data), true)), n)]
    else v.versions
  }

  /** Which version a crash brings back. */
  function Found(v: Volume, e: Event, n: nat): Version
    requires e.Crashes? && v.versions != []
  {
    var vs := VersionsAt(v, e.op, e.fault, e.k, n);
    vs[if e.undone < |vs| then |vs| - 1 - e.undone else 0]
  }

  /** A crash finds the path as one of the last versions, at most u renames back; the temporary file may
      be anything. */
  ghost predicate Possible(v: Volume, e: Event, n: nat, u: nat) {
    e.Crashes? ==>
      && e.k < |M.DiskStates(v.store, e.op, e.fault)| && e.undone <= u
      && v.versions != [] && e.found.path == Found(v, e, n).file
  }

  function After(v: Volume, e: Event, n: nat): Volume {
    match e
    case Completes(op, fault) => Volume(M.Apply(v.store, op, fault).0, VersionsAt(v, op, fault, 4, n))
    case Crashes(_, _, _, _, found) =>
      var loaded := M.Load(found);
      if loaded.Ok? && v.versions != [] then Volume(M.Store(loaded.value, false, found), [Found(v, e, n)]) else v
  }

  function Start(s: M.Store): Volume {
    Volume(s, [Version(s.disk.path, -1)])
  }

  function Run(s: M.Store, events: seq<Event>): Volume
    decreases |events|
  {
    if events == [] then Start(s)
    else
      var last := |events| - 1;
      After(Run(s, events[..last]), events[last], last)
  }

  ghost predicate AllPossible(s: M.Store, events: seq<Event>, u: nat) {
    forall i :: 0 <= i < |events| ==> Possible(Run(s, events[..i]), events[i], i, u)
  }

  /** The memory after event i had it been the operation alone. */
  function Intended(s: M.Store, events: seq<Event>, i: nat): M.StoreData
    requires i < |events|
  {
    M.Apply(Run(s, events[..i]).store, events[i].op, events[i].fault).0.data
  }

  /* ---------- Every version is whole ---------- */

  function LoadPath(path: Option<M.File>): Result<M.StoreData, M.Error> {
    M.Load(M.Disk(path, None))
  }

  /** The version is synced, loads, and holds what its origin says. */
  ghost predicate Whole(s: M.Store, events: seq<Event>, ver: Version) {
    && (ver.file.Some? ==> ver.file.value.synced)
    && -1 <= ver.origin < |events|
    && LoadPath(ver.file).Ok?
    && LoadPath(ver.file) == if ver.origin < 0 then M.Load(s.disk) else Ok(Intended(s, events, ver.origin))
  }

  /** The store is good, its file is the last version, and all versions are whole and in order. */
  ghost predicate Sound(s: M.Store, events: seq<Event>, v: Volume) {
    && M.Good(v.store) && v.versions != [] && v.versions[|v.versions| - 1].file == v.store.disk.path
    && (forall m :: 0 <= m < |v.versions| ==> Whole(s, events, v.versions[m]))
    && (forall m, n :: 0 <= m < n < |v.versions| ==> v.versions[m].origin <= v.versions[n].origin)
  }

  lemma WholeStays(s: M.Store, events: seq<Event>, ver: Version)
    requires events != [] && Whole(s, events[..|events| - 1], ver)
    ensures Whole(s, events, ver)
  {
    hide LoadPath, Run;
    var front := events[..|events| - 1];
    if ver.origin >= 0 {
      assert front[..ver.origin] == events[..ver.origin];
    }
  }

  lemma StartIsSound(s: M.Store)
    requires M.Good(s)
    ensures Sound(s, [], Start(s))
  {
  }

  /** What a rename leaves at the path is the whole memory of its operation. */
  lemma RenamedFile(s: M.Store, op: M.Op, fault: M.Fault)
    requires M.Good(s)
    ensures var after := M.Apply(s, op, fault).0;
            && M.Good(after)
            && (if Renames(s, op, fault)
                then after.disk.path == Some(M.File(M.Document(M.Mutated(s, op).data), true)) && after.data == M.Mutated(s, op).data
                else after.disk.path == s.disk.path)
  {
  }

  lemma RenamedLoads(s: M.Store, op: M.Op, fault: M.Fault)
    requires M.Good(s) && Renames(s, op, fault)
    ensures LoadPath(Some(M.File(M.Document(M.Mutated(s, op).data), true))) == Ok(M.Apply(s, op, fault).0.data)
  {
  }

  lemma VersionsWhole(s: M.Store, events: seq<Event>, k: nat)
    requires events != []
    requires var last := |events| - 1; Sound(s, events[..last], Run(s, events[..last]))
    ensures var last := |events| - 1;
            var vs := VersionsAt(Run(s, events[..last]), events[last].op, events[last].fault, k, last);
            && vs != [] && (forall m :: 0 <= m < |vs| ==> Whole(s, events, vs[m]))
            && (forall m, n :: 0 <= m < n < |vs| ==> vs[m].origin <= vs[n].origin)
  {
    hide Run, LoadPath, M.Apply, M.Mutated, M.Syncs;
    var last := |events| - 1;
    var front, v := events[..last], Run(s, events[..last]);
    forall m | 0 <= m < |v.versions| ensures Whole(s, events, v.versions[m]) {
      WholeStays(s, events, v.versions[m]);
    }
    if Renames(v.store, events[last].op, events[last].fault) {
      RenamedLoads(v.store, events[last].op, events[last].fault);
      var vs := VersionsAt(v, events[last].op, events[last].fault, k, last);
      assert k >= 4 ==> Whole(s, events, vs[|vs| - 1]);
    }
  }

  lemma CrashIsSound(s: M.Store, events: seq<Event>, found: M.Disk, ver: Version)
    requires found.path == ver.file && Whole(s, events, ver)
    ensures M.Load(found).Ok? && Sound(s, events, Volume(M.Store(M.Load(found).value, false, found), [ver]))
  {
    hide Run;
    assert M.Load(found) == LoadPath(ver.file);
  }

  /** Over any run, with crashes that undo renames, the store can be opened again and every version is the
      starting map or the whole result of one operation. */
  lemma {:induction false} RunIsSound(s: M.Store, events: seq<Event>, u: nat)
    requires M.Good(s) && AllPossible(s, events, u)
    ensures Sound(s, events, Run(s, events))
    decreases |events|
  {
    if events == [] {
      StartIsSound(s);
    } else {
      hide Sound, Whole, Possible, VersionsAt, Found, M.Apply, M.Load;
      var last := |events| - 1;
      PrefixPossible(s, events, u);
      RunIsSound(s, events[..last], u);
      StepIsSound(s, events, u);
    }
  }

  lemma PrefixPossible(s: M.Store, events: seq<Event>, u: nat)
    requires AllPossible(s, events, u) && events != []
    ensures var last := |events| - 1;
            AllPossible(s, events[..last], u) && Possible(Run(s, events[..last]), events[last], last, u)
  {
    hide Possible, Run;
    var last := |events| - 1;
    assert forall i :: 0 <= i < last ==> events[..last][..i] == events[..i] && events[..last][i] == events[i];
  }

  lemma StepIsSound(s: M.Store, events: seq<Event>, u: nat)
    requires events != []
    requires var last := |events| - 1;
             Sound(s, events[..last], Run(s, events[..last])) && Possible(Run(s, events[..last]), events[last], last, u)
    ensures Sound(s, events, Run(s, events))
  {
    hide Sound, Possible, After, Run;
    if events[|events| - 1].Completes? {
      CompletionIsSound(s, events);
    } else {
      CrashStepIsSound(s, events, u);
    }
  }

  lemma CompletionIsSound(s: M.Store, events: seq<Event>)
    requires events != [] && events[|events| - 1].Completes?
    requires var last := |events| - 1; Sound(s, events[..last], Run(s, events[..last]))
    ensures Sound(s, events, Run(s, events))
  {
    hide Whole, LoadPath, M.Apply, M.Mutated, M.Syncs, M.Load, M.Good, M.DiskStates;
    var last := |events| - 1;
    var v, e := Run(s, events[..last]), events[last];
    assert Run(s, events) == After(v, e, last);
    VersionsWhole(s, events, 4);
    RenamedFile(v.store, e.op, e.fault);
  }

  lemma CrashStepIsSound(s: M.Store, events: seq<Event>, u: nat)
    requires events != [] && events[|events| - 1].Crashes?
    requires var last := |events| - 1;
             Sound(s, events[..last], Run(s, events[..last])) && Possible(Run(s, events[..last]), events[last], last, u)
    ensures Sound(s, events, Run(s, events))
  {
    hide Whole, LoadPath, VersionsAt, M.Apply, M.Load, M.Good, M.DiskStates;
    var last := |events| - 1;
    var v, e := Run(s, events[..last]), events[last];
    assert Run(s, events) == After(v, e, last);
    VersionsWhole(s, events, e.k);
    var ver := Found(v, e, last);
    assert Whole(s, events, ver);
    hide Sound;
    CrashIsSound(s, events, e.found, ver);
  }

  /** The file never mixes maps, however many renames a crash undoes. */
  lemma FileIsWhole(s: M.Store, events: seq<Event>, u: nat)
    requires M.Good(s) && AllPossible(s, events, u)
    ensures var now := M.Load(Run(s, events).store.disk);
            now == M.Load(s.disk) || exists i :: 0 <= i < |events| && now == Ok(Intended(s, events, i))
  {
    hide Run, M.Apply;
    RunIsSound(s, events, u);
    var v := Run(s, events);
    var ver := v.versions[|v.versions| - 1];
    assert Whole(s, events, ver);
    assert M.Load(v.store.disk) == LoadPath(ver.file);
    if ver.origin >= 0 {
      assert LoadPath(ver.file) == Ok(Intended(s, events, ver.origin));
    }
  }

  /* ---------- What a confirmed write is still good for ---------- */

  /** Every version that a crash could bring back is of event j or a later one. */
  predicate Protected(v: Volume, j: nat, u: nat) {
    v.versions != [] && forall m :: 0 <= m < |v.versions| && m >= |v.versions| - 1 - u ==> v.versions[m].origin >= j
  }

  lemma ProtectedStays(v: Volume, e: Event, n: nat, j: nat, u: nat)
    requires Protected(v, j, u) && j <= n && Possible(v, e, n, u)
    ensures Protected(After(v, e, n), j, u)
  {
    hide M.Apply, M.Load, M.DiskStates, M.Mutated, M.Syncs;
  }

  lemma {:induction false} ProtectedForGood(s: M.Store, events: seq<Event>, k: nat, j: nat, u: nat)
    requires AllPossible(s, events, u) && j < k <= |events| && Protected(Run(s, events[..k]), j, u)
    ensures Protected(Run(s, events), j, u)
    decreases |events|
  {
    hide Protected, Possible, After;
    if k == |events| {
      assert events[..k] == events;
    } else {
      var last := |events| - 1;
      PrefixPossible(s, events, u);
      assert events[..last][..k] == events[..k];
      ProtectedForGood(s, events[..last], k, j, u);
      ProtectedStays(Run(s, events[..last]), events[last], last, j, u);
    }
  }

  /** How many of the events from j on, up to but not including k, are completed operations that renamed;
      a crash among them starts the count again. */
  function RenamesFrom(s: M.Store, events: seq<Event>, j: nat, k: nat): nat
    requires j <= k <= |events|
  {
    if k == j then 0
    else if events[k - 1].Crashes? then 0
    else
      RenamesFrom(s, events, j, k - 1) +
        if Renames(Run(s, events[..k - 1]).store, events[k - 1].op, events[k - 1].fault) then 1 else 0
  }

  /** The last versions are those of the renames since j. */
  lemma {:induction false} RenamesMakeVersions(s: M.Store, events: seq<Event>, j: nat, k: nat, u: nat)
    requires M.Good(s) && AllPossible(s, events, u) && j <= k <= |events|
    ensures var v := Run(s, events[..k]);
            && RenamesFrom(s, events, j, k) <= |v.versions|
            && forall m :: |v.versions| - RenamesFrom(s, events, j, k) <= m < |v.versions| ==> v.versions[m].origin >= j
    decreases k
  {
    hide M.Apply, M.Load, M.DiskStates, M.Mutated, M.Syncs;
    if k > j {
      RenamesMakeVersions(s, events, j, k - 1, u);
      assert events[..k][..k - 1] == events[..k - 1];
      assert Run(s, events[..k]) == After(Run(s, events[..k - 1]), events[k - 1], k - 1);
    }
  }

  /** When a crash may undo up to u renames, a write is safe from every later failure and crash as soon as
      u more writes have been renamed over it; with u zero, as soon as it is confirmed itself. */
  lemma ConfirmedSurvives(s: M.Store, events: seq<Event>, j: nat, k: nat, u: nat)
    requires M.Good(s) && AllPossible(s, events, u) && j < k <= |events| && RenamesFrom(s, events, j, k) > u
    ensures exists i :: j <= i < |events| && M.Load(Run(s, events).store.disk) == Ok(Intended(s, events, i))
  {
    hide Run, RenamesFrom, M.Apply;
    RenamesMakeVersions(s, events, j, k, u);
    assert Protected(Run(s, events[..k]), j, u);
    ProtectedForGood(s, events, k, j, u);
    RunIsSound(s, events, u);
    var v := Run(s, events);
    var ver := v.versions[|v.versions| - 1];
    assert Whole(s, events, ver) && ver.origin >= j;
    assert M.Load(v.store.disk) == LoadPath(ver.file);
  }

  /** One rename fewer is not enough: after any number of confirmed writes, a crash that may undo as many
      renames can bring back the file from before them all. */
  lemma UndoneToTheStart(s: M.Store, events: seq<Event>, op: M.Op, fault: M.Fault)
    requires M.Good(s) && (forall i :: 0 <= i < |events| ==> events[i].Completes?)
    requires !M.Syncs(Run(s, events).store, op)
    ensures var v, u := Run(s, events), RenamesFrom(s, events, 0, |events|);
            var crash := Crashes(op, fault, 0, u, M.Disk(s.disk.path, None));
            && Possible(v, crash, |events|, u)
            && M.Load(After(v, crash, |events|).store.disk) == M.Load(s.disk)
  {
    hide M.Apply, M.Mutated, M.Syncs;
    FirstVersion(s, events, |events|);
    assert events[..|events|] == events;
  }

  lemma {:induction false} FirstVersion(s: M.Store, events: seq<Event>, k: nat)
    requires k <= |events| && forall i :: 0 <= i < |events| ==> events[i].Completes?
    ensures var v := Run(s, events[..k]);
            |v.versions| == 1 + RenamesFrom(s, events, 0, k) && v.versions[0] == Version(s.disk.path, -1)
    decreases k
  {
    hide M.Apply, M.Mutated, M.Syncs;
    if k > 0 {
      FirstVersion(s, events, k - 1);
      assert events[..k][..k - 1] == events[..k - 1];
    }
  }
}
