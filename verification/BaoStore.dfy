/** BaoStore as an object: the store shares its metadata records with the caller that saved them and
    hands out copies, and each file step is a statement, so every state the disk passes through is
    recorded in a ghost trace and compared with MetadataStore. */
module BaoStore {
  import opened Wrappers
  import opened Bytes
  import opened MetadataStore

  /** The metadata under another name. */
  function Renamed(v: KeyMetadata, newUID: string): KeyMetadata {
    v.(uid := newUID, name := newUID)
  }

  /** KeyMetadata behind a pointer: the struct, and the bytes that its slice refers to. */
  class Record {
    var fields: KeyMetadata
    const pubKeyBytes: array<byte>

    /** What is written to the file for this record. */
    function Value(): (v: KeyMetadata)
      reads this, pubKeyBytes
      ensures v.uid == fields.uid && v.address == fields.address
    {
      fields.(pubKeyBytes := pubKeyBytes[..])
    }

    /** meta.UID = newUID; meta.Name = newUID */
    method Relabel(newUID: string)
      modifies this
      ensures Value() == Renamed(old(Value()), newUID)
    {
      fields := fields.(uid := newUID);
      fields := fields.(name := newUID);
    }

    constructor (fields: KeyMetadata, pubKeyBytes: array<byte>)
      ensures this.pubKeyBytes == pubKeyBytes && this.fields == fields
    {
      this.pubKeyBytes := pubKeyBytes;
      this.fields := fields;
    }
  }

  /** The map with the entries of some names relabelled. */
  function Relabelled(m: map<string, KeyMetadata>, names: set<string>, newUID: string): map<string, KeyMetadata> {
    map uid | uid in m :: if uid in names then Renamed(m[uid], newUID) else m[uid]
  }

  /** What a rename makes of the map when the record is saved under all of names. */
  function RenamedWith(m: map<string, KeyMetadata>, names: set<string>, oldUID: string, newUID: string): map<string, KeyMetadata>
    requires oldUID in m
  {
    Relabelled(m, names, newUID)[newUID := Relabelled(m, names, newUID)[oldUID]] - {oldUID}
  }

  lemma RenamedAlone(m: map<string, KeyMetadata>, oldUID: string, newUID: string)
    requires oldUID in m && oldUID != newUID
    ensures RenamedWith(m, {oldUID}, oldUID, newUID) == m[newUID := Renamed(m[oldUID], newUID)] - {oldUID}
  {
    hide Renamed;
  }

  /** An operation that changes memory is the sync of what memory has become. */
  lemma SyncIsApply(before: Store, op: Op, fault: Fault)
    requires Syncs(before, op) && Mutate(before.data.keys, op).Ok?
    ensures Apply(before, op, fault).0 == Sync(Mutated(before, op), fault).0
    ensures Apply(before, op, fault).1 == if Sync(Mutated(before, op), fault).1 then Ok(()) else Err(PersistFailed)
    ensures DiskStates(before, op, fault) == [before.disk] + SyncSteps(Mutated(before, op), fault)
  {
    hide Sync, SyncSteps;
  }

  /** copyMetadata: the public key bytes are copied too. */
  method CopyMetadata(meta: Record) returns (cp: Record)
    ensures fresh(cp) && fresh(cp.pubKeyBytes) && cp.Value() == meta.Value()
  {
    var bytes := new byte[meta.pubKeyBytes.Length];
    forall i | 0 <= i < bytes.Length {
      bytes[i] := meta.pubKeyBytes[i];
    }
    assert bytes[..] == meta.pubKeyBytes[..];
    cp := new Record(meta.fields, bytes);
  }

  class BaoStore {
    var version: nat
    var keys: map<string, Record>
    var dirty: bool
    var disk: Disk
    /** What the records say. */
    ghost var data: StoreData
    /** Every disk state since the store was opened. */
    ghost var trace: seq<Disk>

    ghost function State(): Store
      reads this
    {
      Store(data, dirty, disk)
    }

    ghost function Records(): set<Record>
      reads this
    {
      set uid | uid in keys :: keys[uid]
    }

    ghost function Arrays(): set<array<byte>>
      reads this
    {
      set uid | uid in keys :: keys[uid].pubKeyBytes
    }

    /** The records are what data says: nobody outside has edited a record of the store. */
    ghost predicate Valid()
      reads this, Records(), Arrays()
    {
      && version == data.version && keys.Keys == data.keys.Keys
      && forall uid :: uid in keys ==> keys[uid].Value() == data.keys[uid]
    }

    /** What json.MarshalIndent reads from the records. */
    function Marshalled(): StoreData
      reads this, Records(), Arrays()
    {
      StoreData(version, map uid | uid in keys :: keys[uid].Value())
    }

    /** A store over the disk it was opened from. */
    constructor Over(found: Disk, version: nat, records: map<string, Record>, ghost data: StoreData)
      ensures this.version == version && keys == records && this.data == data
      ensures !dirty && disk == found && trace == [found]
    {
      this.version := version;
      keys := records;
      this.data := data;
      dirty := false;
      disk := found;
      trace := [found];
    }

    /** One file step: the disk changes and the change is on record. */
    method FileStep(d: Disk)
      modifies this`disk, this`trace
      ensures disk == d && trace == old(trace) + [d]
    {
      disk := d;
      trace := trace + [d];
    }

    /** os.Remove(tmpPath), its error ignored. */
    method RemoveTmp(fault: Fault)
      modifies this`disk, this`trace
      ensures trace == old(trace) + Cleanup(old(disk), fault)
      ensures disk == Last(old(disk), Cleanup(old(disk), fault))
    {
      if fault.removeWorks {
        FileStep(disk.(tmp := None));
      }
    }

    method SyncLocked(fault: Fault) returns (ok: bool)
      requires Valid()
      modifies this`disk, this`trace, this`dirty
      ensures Valid()
      ensures (State(), ok) == Sync(old(State()), fault)
      ensures trace == old(trace) + SyncSteps(old(State()), fault)
    {
      if !dirty {
        return true;
      }
      if fault.kind == MarshalFault {
        return false;
      }
      var document := Document(Marshalled());
      assert document == Document(data);
      if fault.kind == OpenFault {
        return false;
      }
      ok := WriteAndRename(document, fault);
      if ok {
        dirty := false;
      }
    }

    /** The file steps of syncLocked, from the created temporary file to the rename. */
    method WriteAndRename(document: Content, fault: Fault) returns (ok: bool)
      requires dirty && document == Document(data) && fault.kind != MarshalFault && fault.kind != OpenFault
      modifies this`disk, this`trace
      ensures trace == old(trace) + SyncSteps(old(State()), fault)
      ensures disk == Last(old(disk), SyncSteps(old(State()), fault))
      ensures ok <==> fault.kind == NoFault
    {
      FileStep(disk.(tmp := Some(File(Empty, false))));
      if fault.kind == WriteFault {
        FileStep(disk.(tmp := Some(File(Garbled, false))));
        RemoveTmp(fault);
        return false;
      }
      FileStep(disk.(tmp := Some(File(document, false))));
      if fault.kind == FsyncFault {
        RemoveTmp(fault);
        return false;
      }
      FileStep(disk.(tmp := Some(File(document, true))));
      if fault.kind == CloseFault {
        RemoveTmp(fault);
        return false;
      }
      if fault.kind == RenameFault {
        RemoveTmp(fault);
        return false;
      }
      FileStep(Disk(disk.tmp, None));
      ok := true;
    }

    /** The common end of every operation: the sync of what memory has become. */
    method SyncAfter(ghost before: Store, ghost op: Op, fault: Fault) returns (r: Result<(), Error>)
      requires Valid() && State() == Mutated(before, op) && Syncs(before, op) && Mutate(before.data.keys, op).Ok?
      modifies this`disk, this`trace, this`dirty
      ensures Valid()
      ensures (State(), r) == Apply(before, op, fault)
      ensures old(trace) <= trace && [before.disk] + trace[|old(trace)|..] == DiskStates(before, op, fault)
    {
      hide SyncSteps, Sync;
      var ok := SyncLocked(fault);
      r := if ok then Ok(()) else Err(PersistFailed);
    }

    /** The record itself goes into the map, and stays shared with the caller. */
    method Save(meta: Record?, fault: Fault) returns (r: Result<(), Error>)
      requires Valid()
      modifies this
      ensures Valid() && (keys == old(keys) || (meta != null && keys == old(keys)[meta.fields.uid := meta]))
      ensures var value := if meta == null then None else Some(meta.Value());
              && (State(), r) == Apply(old(State()), SaveOp(value), fault)
              && old(trace) <= trace
              && [old(disk)] + trace[|old(trace)|..] == DiskStates(old(State()), SaveOp(value), fault)
    {
      hide SyncSteps, Sync, Record.Value;
      if meta == null || meta.fields.uid == "" {
        return Err(InvalidMetadata);
      }
      if meta.fields.uid in keys {
        var existing := keys[meta.fields.uid];
        if existing.fields.address != meta.fields.address {
          return Err(KeyExists);
        }
      }
      Put(meta);
      dirty := true;
      hide Apply, DiskStates;
      r := SyncAfter(old(State()), SaveOp(Some(meta.Value())), fault);
    }

    /** s.data.Keys[meta.UID] = meta */
    method Put(meta: Record)
      requires Valid()
      modifies this`keys, this`data
      ensures Valid() && keys == old(keys)[meta.fields.uid := meta]
      ensures data == old(data).(keys := old(data).keys[meta.fields.uid := meta.Value()])
    {
      hide Record.Value;
      keys := keys[meta.fields.uid := meta];
      data := data.(keys := data.keys[meta.fields.uid := meta.Value()]);
      assert keys.Keys == data.keys.Keys;
    }

    method Delete(uid: string, fault: Fault) returns (r: Result<(), Error>)
      requires Valid()
      modifies this
      ensures Valid() && keys == old(keys) - {uid}
      ensures (State(), r) == Apply(old(State()), DeleteOp(uid), fault)
      ensures old(trace) <= trace
      ensures [old(disk)] + trace[|old(trace)|..] == DiskStates(old(State()), DeleteOp(uid), fault)
    {
      hide SyncSteps, Sync;
      if uid !in keys {
        assert keys - {uid} == keys;
        return Err(KeyNotFound);
      }
      keys := keys - {uid};
      data := data.(keys := data.keys - {uid});
      dirty := true;
      r := SyncAfter(old(State()), DeleteOp(uid), fault);
    }

    /** The names under which the record of uid is saved. */
    ghost function Sharing(uid: string): set<string>
      requires uid in keys
      reads this
    {
      set other | other in keys && keys[other] == keys[uid]
    }

    /** The stored record is edited in place: also for a caller that kept it, and also under every other
        name that it was saved under, so it is the specified rename if there is no such name. */
    method Rename(oldUID: string, newUID: string, fault: Fault) returns (r: Result<(), Error>)
      requires Valid()
      modifies this, if oldUID in keys then {keys[oldUID]} else {}
      ensures Valid()
      ensures old(oldUID in keys ==> Sharing(oldUID) == {oldUID}) || !old(Moves(oldUID, newUID)) ==>
                && (State(), r) == Apply(old(State()), RenameOp(oldUID, newUID), fault)
                && old(trace) <= trace
                && [old(disk)] + trace[|old(trace)|..] == DiskStates(old(State()), RenameOp(oldUID, newUID), fault)
      ensures old(Moves(oldUID, newUID)) ==>
                var edited := Store(old(data).(keys := RenamedWith(old(data).keys, old(Sharing(oldUID)), oldUID, newUID)), true, old(disk));
                && (State(), r.Ok?) == Sync(edited, fault) && (r.Err? ==> r.error == PersistFailed)
                && trace == old(trace) + SyncSteps(edited, fault)
    {
      hide SyncSteps, Sync, RenamedWith;
      if oldUID == newUID {
        return Ok(());
      }
      if oldUID !in keys {
        return Err(KeyNotFound);
      }
      if newUID in keys {
        return Err(KeyExists);
      }
      assert keys.Keys == data.keys.Keys;
      EditAndMove(oldUID, newUID);
      dirty := true;
      ghost var edited := State();
      var ok := SyncLocked(fault);
      r := if ok then Ok(()) else Err(PersistFailed);
      if old(Sharing(oldUID)) == {oldUID} {
        RenamedAlone(old(data).keys, oldUID, newUID);
        SyncIsApply(old(State()), RenameOp(oldUID, newUID), fault);
      }
    }

    ghost predicate Moves(oldUID: string, newUID: string)
      reads this
    {
      oldUID != newUID && oldUID in keys && newUID !in keys
    }

    /** The edits of Rename before its sync. */
    method EditAndMove(oldUID: string, newUID: string)
      requires Valid() && Moves(oldUID, newUID)
      modifies this`keys, this`data, keys[oldUID]
      ensures Valid()
      ensures oldUID in old(data).keys && data == old(data).(keys := RenamedWith(old(data).keys, old(Sharing(oldUID)), oldUID, newUID))
    {
      assert keys.Keys == data.keys.Keys && oldUID in Sharing(oldUID);
      hide Renamed, Valid;
      RelabelStored(oldUID, newUID);
      MoveRecord(oldUID, newUID);
    }

    /** The stored record gets its new name. */
    method RelabelStored(oldUID: string, newUID: string)
      requires Valid() && oldUID in keys
      modifies this`data, keys[oldUID]
      ensures Valid()
      ensures data == old(data).(keys := Relabelled(old(data).keys, old(Sharing(oldUID)), newUID))
    {
      hide Record.Value, Renamed;
      ghost var names := Sharing(oldUID);
      RelabelOnly(oldUID, newUID);
      ghost var relabelled := Relabelled(data.keys, names, newUID);
      assert relabelled.Keys == data.keys.Keys;
      assert forall uid :: uid in keys ==> keys[uid].Value() == relabelled[uid];
      data := data.(keys := relabelled);
    }

    /** Every record but the one of uid is what data says. */
    ghost predicate ValidBut(uid: string)
      requires uid in keys
      reads this, Records(), Arrays()
    {
      && version == data.version && keys.Keys == data.keys.Keys
      && forall other :: other in keys && keys[other] != keys[uid] ==> keys[other].Value() == data.keys[other]
    }

    method RelabelOnly(oldUID: string, newUID: string)
      requires Valid() && oldUID in keys
      modifies keys[oldUID]
      ensures ValidBut(oldUID) && forall uid :: uid in Sharing(oldUID) ==> keys[uid].Value() == Renamed(data.keys[uid], newUID)
    {
      hide Record.Value, Renamed;
      assert forall uid :: uid in Sharing(oldUID) ==> data.keys[uid] == keys[oldUID].Value();
      keys[oldUID].Relabel(newUID);
    }

    /** The record moves to its new name; for a moment it stands under both. */
    method MoveRecord(oldUID: string, newUID: string)
      requires Valid() && oldUID in keys && newUID !in keys
      modifies this`keys, this`data
      ensures Valid()
      ensures data == old(data).(keys := old(data).keys[newUID := old(data).keys[oldUID]] - {oldUID})
    {
      hide Record.Value;
      keys := keys[newUID := keys[oldUID]];
      keys := keys - {oldUID};
      data := data.(keys := data.keys[newUID := data.keys[oldUID]] - {oldUID});
      assert keys.Keys == data.keys.Keys;
    }

    /** Sync, and Close. */
    method SyncNow(fault: Fault) returns (r: Result<(), Error>)
      requires Valid()
      modifies this`disk, this`trace, this`dirty
      ensures Valid()
      ensures (State(), r) == Apply(old(State()), SyncOp, fault)
      ensures old(trace) <= trace
      ensures [old(disk)] + trace[|old(trace)|..] == DiskStates(old(State()), SyncOp, fault)
    {
      hide SyncSteps, Sync;
      r := SyncAfter(State(), SyncOp, fault);
    }

    /** A copy: nothing that is done to it reaches the store. */
    method Get(uid: string) returns (r: Result<Record, Error>)
      ensures r.Ok? <==> uid in keys
      ensures r.Ok? ==> fresh(r.value) && fresh(r.value.pubKeyBytes) && r.value.Value() == keys[uid].Value()
      ensures r.Err? ==> r.error == KeyNotFound
    {
      if uid !in keys {
        return Err(KeyNotFound);
      }
      var cp := CopyMetadata(keys[uid]);
      r := Ok(cp);
    }

    predicate Has(uid: string)
      reads this
    {
      uid in keys
    }
  }

  /** What a caller can do to a record it holds. A copy from Get is none of the store's records, and the
      store stays as it was. With a record that it saved, the next sync would write the edit although
      nothing is dirty: the store stays valid exactly when the edit changes nothing that is written. */
  method EditRecord(store: BaoStore, record: Record, fields: KeyMetadata)
    requires store.Valid()
    modifies record
    ensures store.Valid() <==> record !in store.Records() || record.Value() == old(record.Value())
    ensures store.Marshalled() == store.data <==> store.Valid()
  {
    record.fields := fields;
    if uid :| uid in store.keys && store.keys[uid] == record {
      assert store.Marshalled().keys[uid] == record.Value();
      assert store.data.keys[uid] == old(record.Value());
    }
  }

  /** The same for the public key bytes behind a record's slice. */
  method EditByte(store: BaoStore, bytes: array<byte>, i: nat, b: byte)
    requires store.Valid() && i < bytes.Length
    modifies bytes
    ensures store.Valid() <==> bytes !in store.Arrays() || b == old(bytes[i])
    ensures store.Marshalled() == store.data <==> store.Valid()
  {
    ghost var before := bytes[..];
    bytes[i] := b;
    if b == before[i] {
      assert bytes[..] == before;
    } else if uid :| uid in store.keys && store.keys[uid].pubKeyBytes == bytes {
      assert store.Marshalled().keys[uid].pubKeyBytes[i] == b;
      assert store.data.keys[uid].pubKeyBytes == before;
    }
  }

  method NewRecord(value: KeyMetadata) returns (record: Record)
    ensures fresh(record) && fresh(record.pubKeyBytes) && Loaded(record, value)
  {
    var read := value.pubKeyBytes;
    var bytes := new byte[|read|](i requires 0 <= i < |read| => read[i]);
    assert bytes[..] == read;
    record := new Record(value, bytes);
  }

  /** json.Unmarshal: a record of its own for every name in the file. */
  method LoadRecords(data: map<string, KeyMetadata>) returns (records: map<string, Record>, ghost owner: map<Record, string>)
    ensures records.Keys == data.Keys
    ensures forall uid :: uid in records ==> Loaded(records[uid], data[uid]) && fresh(records[uid]) && fresh(records[uid].pubKeyBytes)
    ensures forall uid :: uid in records ==> records[uid] in owner && owner[records[uid]] == uid
  {
    hide Loaded;
    records, owner := map[], map[];
    var left := data.Keys;
    while left != {}
      invariant left <= data.Keys && records.Keys == data.Keys - left
      invariant forall uid :: uid in records ==> Loaded(records[uid], data[uid]) && fresh(records[uid]) && fresh(records[uid].pubKeyBytes)
      invariant forall uid :: uid in records ==> records[uid] in owner && owner[records[uid]] == uid
      invariant forall r :: r in owner ==> fresh(r)
      decreases |left|
    {
      var uid :| uid in left;
      var record := NewRecord(data[uid]);
      records := records[uid := record];
      owner := owner[record := uid];
      left := left - {uid};
    }
  }

  ghost predicate Loaded(record: Record, value: KeyMetadata)
    reads record, record.pubKeyBytes
  {
    record.Value() == value
  }

  /** NewBaoStore and load: a file that cannot be read, or is corrupted, is an error and no store. On
      a whole file the new store satisfies the invariant. */
  method NewBaoStore(found: Disk, readFails: bool) returns (store: BaoStore?)
    ensures store == null <==> readFails || Load(found).Err?
    ensures store != null ==> fresh(store) && store.Valid() && forall uid :: uid in store.keys ==> store.Sharing(uid) == {uid}
    ensures store != null ==> store.State() == Store(Load(found).value, false, found) && store.trace == [found]
    ensures store != null && (found.path.Some? ==> found.path.value.synced) ==> Good(store.State())
  {
    if readFails {
      return null;
    }
    var loaded := Load(found);
    if loaded.Err? {
      return null;
    }
    var records, owner := LoadRecords(loaded.value.keys);
    store := new BaoStore.Over(found, loaded.value.version, records, loaded.value);
    if found.path.Some? ==> found.path.value.synced {
      OpeningIsGood(found);
    }
  }
}
