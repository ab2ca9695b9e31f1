/** Local key metadata with atomic file persistence (bao_store.go): a map in memory, a file that is
    replaced through a temporary file, fsync and rename, and a dirty flag. Any file step may fail,
    and a crash may come between any two of them.

    A file whose content has been synced survives a crash; an unsynced one may become anything. A
    rename is one step and survives once done. */
module MetadataStore {
  import opened Wrappers
  import opened Bytes

  const DEFAULT_STORE_VERSION: nat := 1

  datatype KeyMetadata = KeyMetadata(
    uid: string, name: string, pubKeyBytes: seq<byte>, pubKeyType: string, address: string,
    baoKeyPath: string, algorithm: string, exportable: bool, createdAt: int, source: string)

  datatype StoreData = StoreData(version: nat, keys: map<string, KeyMetadata>)

  /** What a file holds: nothing, the JSON of some data, or bytes that are neither. */
  datatype Content = Empty | Document(data: StoreData) | Garbled

  datatype File = File(content: Content, synced: bool)

  /** The store file and the temporary file beside it. */
  datatype Disk = Disk(path: Option<File>, tmp: Option<File>)

  datatype Store = Store(data: StoreData, dirty: bool, disk: Disk)

  datatype Error = ReadFailed | Corrupted | InvalidMetadata | KeyExists | KeyNotFound | PersistFailed

  /* ---------- Reading ---------- */

  const NEW_DATA := StoreData(DEFAULT_STORE_VERSION, map[])

  /** load, as NewBaoStore uses it: a missing or empty file is a new store. */
  function Load(disk: Disk): Result<StoreData, Error> {
    if disk.path.None? then Ok(NEW_DATA)
    else
      match disk.path.value.content
      case Empty => Ok(NEW_DATA)
      case Garbled => Err(Corrupted)
      case Document(data) => if data.version > DEFAULT_STORE_VERSION then Err(Corrupted) else Ok(data)
  }

  /* ---------- Writing ---------- */

  datatype FaultKind = NoFault | MarshalFault | OpenFault | WriteFault | FsyncFault | CloseFault | RenameFault

  /** Which step of a sync fails, and whether the removal of the temporary file then works. */
  datatype Fault = Fault(kind: FaultKind, removeWorks: bool)

  function Cleanup(d: Disk, fault: Fault): seq<Disk> {
    if fault.removeWorks then [d.(tmp := None)] else []
  }

  /** Every state the disk goes through during syncLocked, in order. */
  function SyncSteps(s: Store, fault: Fault): seq<Disk> {
    if !s.dirty || fault.kind.MarshalFault? || fault.kind.OpenFault? then []
    else
      var created := s.disk.(tmp := Some(File(Empty, false)));
      if fault.kind.WriteFault? then
        var torn := s.disk.(tmp := Some(File(Garbled, false)));
        [created, torn] + Cleanup(torn, fault)
      else
        var written := s.disk.(tmp := Some(File(Document(s.data), false)));
        if fault.kind.FsyncFault? then [created, written] + Cleanup(written, fault)
        else
          var synced := s.disk.(tmp := Some(File(Document(s.data), true)));
          if fault.kind.CloseFault? || fault.kind.RenameFault? then
            [created, written, synced] + Cleanup(synced, fault)
          else [created, written, synced, Disk(synced.tmp, None)]
  }

  function Last(d: Disk, steps: seq<Disk>): Disk {
    if steps == [] then d else steps[|steps| - 1]
  }

  /** The store after syncLocked and whether it reported success. */
  function Sync(s: Store, fault: Fault): (Store, bool) {
    var disk := Last(s.disk, SyncSteps(s, fault));
    if s.dirty && fault.kind != NoFault then (s.(disk := disk), false)
    else (Store(s.data, false, disk), true)
  }

  /* ---------- Operations ---------- */

  datatype Op =
    | SaveOp(meta: Option<KeyMetadata>)
    | DeleteOp(uid: string)
    | RenameOp(oldUID: string, newUID: string)
    | SyncOp

  /** What an operation does to the data in memory; None when it changes nothing and does not sync. */
  function Mutate(keys: map<string, KeyMetadata>, op: Op): Result<Option<map<string, KeyMetadata>>, Error> {
    match op
    case SaveOp(meta) =>
      if meta.None? || meta.value.uid == "" then Err(InvalidMetadata)
      else
        var uid := meta.value.uid;
        if uid in keys && keys[uid].address != meta.value.address then Err(KeyExists)
        else Ok(Some(keys[uid := meta.value]))
    case DeleteOp(uid) => if uid !in keys then Err(KeyNotFound) else Ok(Some(keys - {uid}))
    case RenameOp(oldUID, newUID) =>
      if oldUID == newUID then Ok(None)
      else if oldUID !in keys then Err(KeyNotFound)
      else if newUID in keys then Err(KeyExists)
      else Ok(Some(keys[newUID := keys[oldUID].(uid := newUID, name := newUID)] - {oldUID}))
    case SyncOp => Ok(None)
  }

  /** The store just before the operation's sync. */
  function Mutated(s: Store, op: Op): Store {
    var m := Mutate(s.data.keys, op);
    if m.Ok? && m.value.Some? then s.(data := s.data.(keys := m.value.value), dirty := true) else s
  }

  /** Whether the operation reaches its sync. */
  predicate Syncs(s: Store, op: Op) {
    var m := Mutate(s.data.keys, op);
    op.SyncOp? || (m.Ok? && m.value.Some?)
  }

  function Apply(s: Store, op: Op, fault: Fault): (Store, Result<(), Error>) {
    var m := Mutate(s.data.keys, op);
    if m.Err? then (s, Err(m.error))
    else if !Syncs(s, op) then (s, Ok(()))
    else
      var (t, ok) := Sync(Mutated(s, op), fault);
      (t, if ok then Ok(()) else Err(PersistFailed))
  }

  /** Every disk state during an operation, starting with the one it found. */
  function DiskStates(s: Store, op: Op, fault: Fault): seq<Disk> {
    [s.disk] + if Syncs(s, op) then SyncSteps(Mutated(s, op), fault) else []
  }

  /* ---------- Crashes ---------- */

  ghost predicate FileSurvives(f: Option<File>, g: Option<File>) {
    f.Some? && f.value.synced ==> f == g
  }

  /** d can be found as d' after a crash. A missing file stays missing. */
  ghost predicate CrashTo(d: Disk, d': Disk) {
    && FileSurvives(d.path, d'.path) && (d.path.None? ==> d'.path.None?)
    && FileSurvives(d.tmp, d'.tmp) && (d.tmp.None? ==> d'.tmp.None?)
  }

  /** The store's invariant: the file is whole, and when nothing is dirty it is what memory holds. */
  ghost predicate Good(s: Store) {
    && (s.disk.path.Some? ==> s.disk.path.value.synced)
    && Load(s.disk).Ok?
    && s.data.version <= DEFAULT_STORE_VERSION
    && (!s.dirty ==> Load(s.disk) == Ok(s.data))
  }

  /** NewBaoStore on a sound disk. */
  lemma OpeningIsGood(disk: Disk)
    requires Load(disk).Ok? && (disk.path.Some? ==> disk.path.value.synced)
    ensures Good(Store(Load(disk).value, false, disk))
  {
  }

  /** Every operation keeps the invariant, whatever fails. */
  lemma ApplyIsGood(s: Store, op: Op, fault: Fault)
    requires Good(s)
    ensures Good(Apply(s, op, fault).0)
  {
  }

  /** Crash safety: at every moment of an operation a crash leaves the map that the file had before
      it or the whole map after it, and the disk can be opened again. */
  lemma CrashFindsBeforeOrAfter(s: Store, op: Op, fault: Fault, k: nat, d': Disk)
    requires Good(s) && k < |DiskStates(s, op, fault)| && CrashTo(DiskStates(s, op, fault)[k], d')
    ensures Load(d') == Load(s.disk) || Load(d') == Ok(Apply(s, op, fault).0.data)
    ensures Load(d').Ok? && Good(Store(Load(d').value, false, d'))
  {
    var d := DiskStates(s, op, fault)[k];
    if d.path == s.disk.path {
      assert d'.path == s.disk.path;
    } else {
      assert k == 4 && d.path == Some(File(Document(Mutated(s, op).data), true));
    }
  }

  /** A store with nothing dirty loses at most the operation under way. */
  lemma CleanStoreLosesAtMostOne(s: Store, op: Op, fault: Fault, k: nat, d': Disk)
    requires Good(s) && !s.dirty && k < |DiskStates(s, op, fault)| && CrashTo(DiskStates(s, op, fault)[k], d')
    ensures Load(d') == Ok(s.data) || Load(d') == Ok(Apply(s, op, fault).0.data)
  {
    CrashFindsBeforeOrAfter(s, op, fault, k, d');
  }

  /** Syncing a dirty store writes exactly its memory, or leaves the file's map as it was. */
  lemma SyncWritesMemory(t: Store, fault: Fault)
    requires Good(t) && t.dirty
    ensures Load(Sync(t, fault).0.disk) == if fault.kind.NoFault? then Ok(t.data) else Load(t.disk)
    ensures Sync(t, fault).0.dirty <==> !fault.kind.NoFault?
    ensures Sync(t, fault).0.data == t.data
  {
  }

  /** A failed sync keeps the change in memory, marked dirty, and leaves the file's map as it was;
      the next sync that works writes exactly that memory. */
  lemma FailedSyncIsRetried(s: Store, op: Op, fault: Fault, fault': Fault)
    requires Good(s) && Apply(s, op, fault).1 == Err(PersistFailed)
    ensures var t := Apply(s, op, fault).0;
            && t.dirty && t.data == Mutated(s, op).data && Load(t.disk) == Load(s.disk)
            && Load(Apply(t, SyncOp, fault').0.disk) ==
                 (if fault'.kind.NoFault? then Ok(Mutated(s, op).data) else Load(s.disk))
  {
    hide SyncSteps, Load;
    ApplyIsGood(s, op, fault);
    SyncWritesMemory(Mutated(s, op), fault);
    SyncWritesMemory(Apply(s, op, fault).0, fault');
  }

  /* ---------- What the operations do to memory ---------- */

  /** A save is refused exactly without a name or over another address, and otherwise puts the metadata
      there and changes nothing else, whether or not it reaches the disk. */
  lemma SaveTakes(s: Store, meta: Option<KeyMetadata>, fault: Fault)
    ensures var (after, r) := Apply(s, SaveOp(meta), fault);
            var keys := s.data.keys;
            && (r == Err(InvalidMetadata) <==> meta.None? || meta.value.uid == "")
            && (r == Err(KeyExists) <==> meta.Some? && meta.value.uid != "" && meta.value.uid in keys
                                         && keys[meta.value.uid].address != meta.value.address)
            && (r == Err(InvalidMetadata) || r == Err(KeyExists) ==> after == s)
            && (r != Err(InvalidMetadata) && r != Err(KeyExists) ==>
                 after.data.keys == keys[meta.value.uid := meta.value] && (r.Ok? <==> fault.kind.NoFault?))
  {
    hide SyncSteps;
  }

  /** A delete is refused exactly for a missing name, and otherwise takes that name and no other away. */
  lemma DeleteTakes(s: Store, uid: string, fault: Fault)
    ensures var (after, r) := Apply(s, DeleteOp(uid), fault);
            && (r == Err(KeyNotFound) <==> uid !in s.data.keys)
            && (uid !in s.data.keys ==> after == s)
            && after.data.keys == map other | other in s.data.keys && other != uid :: s.data.keys[other]
  {
    hide SyncSteps;
  }

  /** A rename of a stored name to a free one moves the metadata, its bytes, address and the rest as they
      were, and changes no other entry. */
  lemma RenameMoves(s: Store, oldUID: string, newUID: string, fault: Fault)
    requires oldUID in s.data.keys && newUID !in s.data.keys
    ensures var after, m := Apply(s, RenameOp(oldUID, newUID), fault).0.data.keys, s.data.keys[oldUID];
            && after.Keys == s.data.keys.Keys - {oldUID} + {newUID}
            && after[newUID].uid == newUID == after[newUID].name
            && after[newUID].(uid := m.uid, name := m.name) == m
            && forall uid :: uid in s.data.keys && uid != oldUID ==> after[uid] == s.data.keys[uid]
  {
    hide SyncSteps;
  }

  /** Operations that take a name away. */
  predicate Removes(op: Op, uid: string) {
    op == DeleteOp(uid) || (op.RenameOp? && op.oldUID == uid)
  }

  function RunOps(s: Store, ops: seq<(Op, Fault)>): Store
    decreases |ops|
  {
    if ops == [] then s
    else
      var last := |ops| - 1;
      Apply(RunOps(s, ops[..last]), ops[last].0, ops[last].1).0
  }

  lemma StepKeepsAddress(s: Store, op: Op, fault: Fault, uid: string)
    requires uid in s.data.keys && !Removes(op, uid)
    ensures var after := Apply(s, op, fault).0.data.keys; uid in after && after[uid].address == s.data.keys[uid].address
  {
    hide SyncSteps;
  }

  /** A stored name keeps its address over any run that does not take it away, whatever is saved and
      whatever fails: no save puts another key under it. */
  lemma {:induction false} AddressStays(s: Store, ops: seq<(Op, Fault)>, uid: string)
    requires uid in s.data.keys && forall i :: 0 <= i < |ops| ==> !Removes(ops[i].0, uid)
    ensures var keys := RunOps(s, ops).data.keys; uid in keys && keys[uid].address == s.data.keys[uid].address
    decreases |ops|
  {
    hide Apply, Removes;
    if ops != [] {
      var last := |ops| - 1;
      AddressStays(s, ops[..last], uid);
      StepKeepsAddress(RunOps(s, ops[..last]), ops[last].0, ops[last].1, uid);
    }
  }

  /* ---------- Whole runs, with crashes ---------- */

  /** An operation that completes, or one cut off by a crash after which the store is reopened. */
  datatype Event = Completes(op: Op, fault: Fault) | Crashes(op: Op, fault: Fault, k: nat, found: Disk)

  ghost predicate Possible(s: Store, e: Event) {
    e.Crashes? ==> e.k < |DiskStates(s, e.op, e.fault)| && CrashTo(DiskStates(s, e.op, e.fault)[e.k], e.found)
  }

  function After(s: Store, e: Event): Store {
    match e
    case Completes(op, fault) => Apply(s, op, fault).0
    case Crashes(_, _, _, found) =>
      var loaded := Load(found);
      if loaded.Ok? then Store(loaded.value, false, found) else s
  }

  function Run(s: Store, events: seq<Event>): Store
    decreases |events|
  {
    if events == [] then s else After(Run(s, events[..|events| - 1]), events[|events| - 1])
  }

  ghost predicate AllPossible(s: Store, events: seq<Event>) {
    forall i :: 0 <= i < |events| ==> Possible(Run(s, events[..i]), events[i])
  }

  /** The memory that would have been there had event i been the operation alone. */
  function Intended(s: Store, events: seq<Event>, i: nat): StoreData
    requires i < |events|
  {
    Apply(Run(s, events[..i]), events[i].op, events[i].fault).0.data
  }

  /** The file's map is the one the run started from or the whole result of one of its operations. */
  ghost predicate FileIsWhole(s: Store, events: seq<Event>) {
    var now := Load(Run(s, events).disk);
    now == Load(s.disk) || exists i :: 0 <= i < |events| && now == Ok(Intended(s, events, i))
  }

  lemma {:induction false} RunIsWhole(s: Store, events: seq<Event>)
    requires Good(s) && AllPossible(s, events)
    ensures Good(Run(s, events)) && FileIsWhole(s, events)
    decreases |events|
  {
    hide Apply, DiskStates, CrashTo, Load, Good;
    if events != [] {
      var last := |events| - 1;
      var front := events[..last];
      PrefixPossible(s, events);
      RunIsWhole(s, front);
      assert Possible(Run(s, front), events[last]);
      EventFile(Run(s, front), events[last]);
      if Load(Run(s, events).disk) == Load(Run(s, front).disk) && Load(Run(s, front).disk) != Load(s.disk) {
        var i :| 0 <= i < last && Load(Run(s, front).disk) == Ok(Intended(s, front, i));
        assert front[..i] == events[..i];
        assert Intended(s, events, i) == Intended(s, front, i);
      } else if Load(Run(s, events).disk) != Load(Run(s, front).disk) {
        assert Load(Run(s, events).disk) == Ok(Intended(s, events, last));
      }
    }
  }

  /** Event j is an operation that synced and reported success. */
  ghost predicate Confirmed(s: Store, events: seq<Event>, j: nat)
    requires j < |events|
  {
    var before, e := Run(s, events[..j]), events[j];
    e.Completes? && Syncs(before, e.op) && Apply(before, e.op, e.fault).1.Ok?
  }

  /** A confirmed write survives every later failure and crash: the file never falls back behind it. */
  lemma {:induction false} ConfirmedSurvives(s: Store, events: seq<Event>, j: nat)
    requires Good(s) && AllPossible(s, events) && j < |events| && Confirmed(s, events, j)
    ensures exists i :: j <= i < |events| && Load(Run(s, events).disk) == Ok(Intended(s, events, i))
    decreases |events|
  {
    hide Apply, DiskStates, CrashTo, Load, Good, Syncs;
    var last := |events| - 1;
    var front := events[..last];
    PrefixPossible(s, events);
    RunIsWhole(s, front);
    var before := Run(s, front);
    if j == last {
      ConfirmedWrites(before, events[last].op, events[last].fault);
      assert Load(Run(s, events).disk) == Ok(Intended(s, events, last));
    } else {
      assert front[..j] == events[..j];
      assert Confirmed(s, front, j);
      hide Confirmed;
      ConfirmedSurvives(s, front, j);
      var i :| j <= i < last && Load(before.disk) == Ok(Intended(s, front, i));
      assert front[..i] == events[..i];
      assert Possible(before, events[last]);
      hide Possible, AllPossible;
      EventFile(before, events[last]);
      if Load(Run(s, events).disk) == Load(before.disk) {
        assert Load(Run(s, events).disk) == Ok(Intended(s, events, i));
      } else {
        assert Load(Run(s, events).disk) == Ok(Intended(s, events, last));
      }
    }
  }

  lemma PrefixPossible(s: Store, events: seq<Event>)
    requires AllPossible(s, events) && events != []
    ensures AllPossible(s, events[..|events| - 1])
  {
    hide Possible;
    var front := events[..|events| - 1];
    forall i | 0 <= i < |front| ensures Possible(Run(s, front[..i]), front[i]) {
      assert front[..i] == events[..i];
    }
  }

  lemma ConfirmedWrites(s: Store, op: Op, fault: Fault)
    requires Good(s) && Syncs(s, op) && Apply(s, op, fault).1.Ok?
    ensures Load(Apply(s, op, fault).0.disk) == Ok(Apply(s, op, fault).0.data)
  {
  }

  /** One event: the invariant holds again, and the file is as before or the operation's result. */
  lemma EventFile(s: Store, e: Event)
    requires Good(s) && Possible(s, e)
    ensures Good(After(s, e))
    ensures Load(After(s, e).disk) == Load(s.disk) || Load(After(s, e).disk) == Ok(Apply(s, e.op, e.fault).0.data)
  {
    match e
    case Completes(op, fault) =>
      ApplyIsGood(s, op, fault);
    case Crashes(op, fault, k, found) =>
      CrashFindsBeforeOrAfter(s, op, fault, k, found);
  }
}
