/** The secp256k1 plugin's keys as values: what storage holds, what the cache holds, and what each
    handler does to both when storage calls may fail. Backend implements these operations. */
module KeyStore {
  import opened Wrappers
  import opened Bytes

  /** A keyEntry as it survives its JSON form. */
  datatype Stored = Stored(privateKey: seq<byte>, publicKey: seq<byte>, uncompressed: seq<byte>,
                           exportable: bool, createdAt: int, imported: bool)

  datatype State = State(storage: map<string, Stored>, cache: map<string, Stored>)

  /** What a handler may say about any key. */
  datatype Public = Public(publicKey: seq<byte>, exportable: bool, createdAt: int, imported: bool)

  function PublicOf(entry: Stored): Public {
    Public(entry.publicKey, entry.exportable, entry.createdAt, entry.imported)
  }

  /** What getKey finds. */
  datatype Lookup = Failed | Missing | Found(entry: Stored)

  /** What a handler answers; only an export carries private bytes. */
  datatype Reply =
    | StorageError
    | MissingName
    | MissingCiphertext
    | AlreadyExists
    | InvalidKey
    | NotFound
    | NotExportable
    | Described(key: Public)
    | Exported(privateKey: seq<byte>, key: Public)
    | Removed

  const PREFIX := "keys/"

  /* ---------- Handlers ---------- */

  /** getKey: the cache first, then storage, filling the cache. */
  function GetKey(s: State, name: string, getFails: bool): (r: (State, Lookup)) {
    if name in s.cache then (s, Found(s.cache[name]))
    else if getFails then (s, Failed)
    else if name !in s.storage then (s, Missing)
    else (s.(cache := s.cache[name := s.storage[name]]), Found(s.storage[name]))
  }

  /** The common end of create and import: existence check, Put, cache. */
  function Add(s: State, name: string, entry: Stored, getFails: bool, put: Write): (State, Reply) {
    if getFails then (s, StorageError)
    else if name in s.storage then (s, AlreadyExists)
    else if put == Refused then (s, StorageError)
    else
      var stored := s.(storage := s.storage[name := entry]);
      if put == DoneUnconfirmed then (stored, StorageError)
      else (stored.(cache := s.cache[name := entry]), Described(PublicOf(entry)))
  }

  function Create(s: State, name: string, entry: Stored, getFails: bool, put: Write): (State, Reply) {
    if name == "" then (s, MissingName) else Add(s, name, entry, getFails, put)
  }

  /** The ciphertext field of an import and what base64 makes of it. */
  datatype Ciphertext = Absent | NotBase64 | Decoded(bytes: seq<byte>)

  function Import(s: State, name: string, text: Ciphertext, publicKey: seq<byte>, exportable: bool,
                  now: int, getFails: bool, put: Write): (State, Reply) {
    if name == "" then (s, MissingName)
    else if text.Absent? then (s, MissingCiphertext)
    else if getFails then (s, StorageError)
    else if name in s.storage then (s, AlreadyExists)
    else if text.NotBase64? || |text.bytes| != 32 then (s, InvalidKey)
    else Add(s, name, Stored(text.bytes, publicKey, [], exportable, now, true), false, put)
  }

  function Read(s: State, name: string, getFails: bool): (State, Reply) {
    if name == "" then (s, MissingName)
    else
      var (after, found) := GetKey(s, name, getFails);
      match found
      case Failed => (after, StorageError)
      case Missing => (after, NotFound)
      case Found(entry) => (after, Described(PublicOf(entry)))
  }

  function Export(s: State, name: string, getFails: bool): (State, Reply) {
    if name == "" then (s, MissingName)
    else
      var (after, found) := GetKey(s, name, getFails);
      match found
      case Failed => (after, StorageError)
      case Missing => (after, NotFound)
      case Found(entry) =>
        (after, if entry.exportable then Exported(entry.privateKey, PublicOf(entry)) else NotExportable)
  }

  function Delete(s: State, name: string, delete: Write): (State, Reply) {
    if name == "" then (s, MissingName)
    else
      match delete
      case Refused => (s, StorageError)
      case DoneUnconfirmed => (s.(storage := s.storage - {name}), StorageError)
      case Done => (State(s.storage - {name}, s.cache - {name}), Removed)
  }

  /** The loop of pathKeysList: getKey on every name, skipping the ones that fail. */
  function ListFrom(s: State, names: seq<string>, failing: set<string>): (State, map<string, Public>)
    decreases |names|
  {
    if names == [] then (s, map[])
    else
      var last := |names| - 1;
      var (before, info) := ListFrom(s, names[..last], failing);
      var (after, found) := GetKey(before, names[last], names[last] in failing);
      (after, if found.Found? then info[names[last] := PublicOf(found.entry)] else info)
  }

  /** Which cache entries an invalidated storage path drops. */
  function Invalidate(cache: map<string, Stored>, path: string): map<string, Stored> {
    if !(PREFIX <= path) then cache
    else if path == PREFIX then map[]
    else cache - {path[|PREFIX|..]}
  }

  datatype Op =
    | CreateOp(name: string, entry: Stored, getFails: bool, put: Write)
    | ImportOp(name: string, text: Ciphertext, publicKey: seq<byte>, exportable: bool, now: int,
               getFails: bool, put: Write)
    | ReadOp(name: string, getFails: bool)
    | ExportOp(name: string, getFails: bool)
    | ListOp(names: seq<string>, failing: set<string>)
    | DeleteOp(name: string, delete: Write)
    | InvalidateOp(path: string)
    | CleanupOp
    // storage changed from outside, with the invalidation that announces it
    | ReplicateOp(name: string, value: Option<Stored>)

  function Apply(s: State, op: Op): State {
    match op
    case CreateOp(name, entry, getFails, put) => Create(s, name, entry, getFails, put).0
    case ImportOp(name, text, publicKey, exportable, now, getFails, put) =>
      Import(s, name, text, publicKey, exportable, now, getFails, put).0
    case ReadOp(name, getFails) => Read(s, name, getFails).0
    case ExportOp(name, getFails) => Export(s, name, getFails).0
    case ListOp(names, failing) => ListFrom(s, names, failing).0
    case DeleteOp(name, delete) => Delete(s, name, delete).0
    case InvalidateOp(path) => s.(cache := Invalidate(s.cache, path))
    case CleanupOp => s.(cache := map[])
    case ReplicateOp(name, value) =>
      State(if value.Some? then s.storage[name := value.value] else s.storage - {name},
            Invalidate(s.cache, PREFIX + name))
  }

  function Run(s: State, ops: seq<Op>): State
    decreases |ops|
  {
    if ops == [] then s else Apply(Run(s, ops[..|ops| - 1]), ops[|ops| - 1])
  }

  /* ---------- Coherence ---------- */

  /** Every cached entry is what storage holds. */
  ghost predicate Coherent(s: State) {
    forall name :: name in s.cache ==> name in s.storage && s.storage[name] == s.cache[name]
  }

  /** A delete that storage carried out but reported as failed, of a cached key. */
  predicate LostDelete(s: State, op: Op) {
    op.DeleteOp? && op.name != "" && op.delete == DoneUnconfirmed && op.name in s.cache
  }

  lemma {:induction false} ListKeepsCoherence(s: State, names: seq<string>, failing: set<string>)
    requires Coherent(s)
    ensures Coherent(ListFrom(s, names, failing).0)
    ensures ListFrom(s, names, failing).0.storage == s.storage
    ensures s.cache.Keys <= ListFrom(s, names, failing).0.cache.Keys
    decreases |names|
  {
    if names != [] {
      ListKeepsCoherence(s, names[..|names| - 1], failing);
    }
  }

  /** A listing tells of exactly the names whose key getKey can find, and tells of each what storage holds. */
  lemma {:induction false} ListIsExact(s: State, names: seq<string>, failing: set<string>, name: string)
    requires Coherent(s)
    ensures var (after, info) := ListFrom(s, names, failing);
            && (name in info <==> name in names && name in s.storage && (name in s.cache || name !in failing))
            && (name in info ==> info[name] == PublicOf(s.storage[name]))
            && (name in after.cache <==> name in s.cache || name in info)
    decreases |names|
  {
    if names != [] {
      var last := |names| - 1;
      ListKeepsCoherence(s, names[..last], failing);
      ListIsExact(s, names[..last], failing, name);
      assert names == names[..last] + [names[last]];
    }
  }

  /** An operation keeps the cache coherent exactly when it is not a lost delete. */
  lemma StepCoherence(s: State, op: Op)
    requires Coherent(s)
    ensures Coherent(Apply(s, op)) <==> !LostDelete(s, op)
  {
    if op.ListOp? {
      ListKeepsCoherence(s, op.names, op.failing);
    } else if op.ReplicateOp? {
      assert (PREFIX + op.name)[|PREFIX|..] == op.name;
      if op.name == "" {
        assert Invalidate(s.cache, PREFIX + op.name) == map[];
      }
    }
  }

  /** Over any run from a coherent state: no lost delete, and the cache agrees with storage. */
  lemma {:induction false} RunCoherence(s: State, ops: seq<Op>)
    requires Coherent(s)
    requires forall i :: 0 <= i < |ops| ==> !LostDelete(Run(s, ops[..i]), ops[i])
    ensures Coherent(Run(s, ops))
    decreases |ops|
  {
    if ops != [] {
      var last := |ops| - 1;
      forall i | 0 <= i < last ensures !LostDelete(Run(s, ops[..last][..i]), ops[..last][i]) {
        assert ops[..last][..i] == ops[..i];
      }
      RunCoherence(s, ops[..last]);
      StepCoherence(Run(s, ops[..last]), ops[last]);
    }
  }

  lemma RunStep(s: State, ops: seq<Op>, i: nat)
    requires i < |ops|
    ensures Run(s, ops[..i + 1]) == Apply(Run(s, ops[..i]), ops[i])
  {
    assert ops[..i + 1][..i] == ops[..i];
  }

  /** A run is coherent throughout exactly when it contains no lost delete. */
  lemma CoherentThroughout(s: State, ops: seq<Op>)
    requires Coherent(s)
    ensures (forall i :: 0 <= i <= |ops| ==> Coherent(Run(s, ops[..i]))) <==>
            (forall i :: 0 <= i < |ops| ==> !LostDelete(Run(s, ops[..i]), ops[i]))
  {
    hide Apply, Coherent, LostDelete;
    if forall i :: 0 <= i <= |ops| ==> Coherent(Run(s, ops[..i])) {
      forall i | 0 <= i < |ops| ensures !LostDelete(Run(s, ops[..i]), ops[i]) {
        RunStep(s, ops, i);
        StepCoherence(Run(s, ops[..i]), ops[i]);
      }
    }
    if forall i :: 0 <= i < |ops| ==> !LostDelete(Run(s, ops[..i]), ops[i]) {
      forall i | 0 <= i <= |ops| ensures Coherent(Run(s, ops[..i])) {
        forall j | 0 <= j < i ensures !LostDelete(Run(s, ops[..i][..j]), ops[..i][j]) {
          assert ops[..i][..j] == ops[..j];
        }
        RunCoherence(s, ops[..i]);
      }
    }
  }

  /** What a direct read of storage answers. */
  function DirectRead(s: State, name: string): Lookup {
    if name in s.storage then Found(s.storage[name]) else Missing
  }

  /** getKey answers what a direct storage read would, unless it needs storage and storage fails. */
  lemma GetKeyIsDirectRead(s: State, ops: seq<Op>, name: string, getFails: bool)
    requires Coherent(s)
    requires forall i :: 0 <= i < |ops| ==> !LostDelete(Run(s, ops[..i]), ops[i])
    ensures var now := Run(s, ops);
            GetKey(now, name, getFails).1 ==
              if getFails && name !in now.cache then Failed else DirectRead(now, name)
  {
    RunCoherence(s, ops);
  }

  /** After a lost delete the key is still served although storage no longer has it. */
  lemma LostDeleteServesStaleKey(s: State, op: Op)
    requires Coherent(s) && LostDelete(s, op)
    ensures var after := Apply(s, op);
            GetKey(after, op.name, false).1 == Found(s.cache[op.name]) && DirectRead(after, op.name) == Missing
  {
  }

  /* ---------- Import, then export ---------- */

  /** Operations that can change what storage holds under a name that is already stored. */
  predicate Replaces(op: Op, name: string) {
    (op.DeleteOp? && op.name == name) || (op.ReplicateOp? && op.name == name)
  }

  lemma StepKeepsEntry(s: State, op: Op, name: string)
    requires Coherent(s) && name in s.storage && !Replaces(op, name)
    ensures name in Apply(s, op).storage && Apply(s, op).storage[name] == s.storage[name]
  {
    if op.ListOp? {
      ListKeepsCoherence(s, op.names, op.failing);
    }
  }

  /** No operation of a run loses a delete, and none replaces name. */
  ghost predicate Undisturbed(s: State, ops: seq<Op>, name: string) {
    forall i :: 0 <= i < |ops| ==> !LostDelete(Run(s, ops[..i]), ops[i]) && !Replaces(ops[i], name)
  }

  lemma {:induction false} KeptInStorage(s: State, ops: seq<Op>, name: string)
    requires Coherent(s) && name in s.storage && Undisturbed(s, ops, name)
    ensures name in Run(s, ops).storage && Run(s, ops).storage[name] == s.storage[name]
    decreases |ops|
  {
    hide Apply, Coherent, LostDelete, Replaces;
    if ops != [] {
      var last := |ops| - 1;
      forall i | 0 <= i < last
        ensures !LostDelete(Run(s, ops[..last][..i]), ops[..last][i]) && !Replaces(ops[..last][i], name)
      {
        assert ops[..last][..i] == ops[..i];
      }
      KeptInStorage(s, ops[..last], name);
      RunCoherence(s, ops[..last]);
      StepKeepsEntry(Run(s, ops[..last]), ops[last], name);
    }
  }

  /** When an import stores a key, what it stores, and when it says so. */
  lemma ImportStores(s: State, name: string, text: Ciphertext, publicKey: seq<byte>, exportable: bool, now: int,
                     getFails: bool, put: Write)
    ensures var (after, reply) := Import(s, name, text, publicKey, exportable, now, getFails, put);
            var stores := name != "" && text.Decoded? && |text.bytes| == 32 && name !in s.storage && !getFails && put != Refused;
            && after.storage ==
                 (if stores then s.storage[name := Stored(text.bytes, publicKey, [], exportable, now, true)] else s.storage)
            && (reply.Described? <==> stores && put == Done)
            && (reply.Described? ==> reply.key == Public(publicKey, exportable, now, true))
  {
  }

  lemma CreateStores(s: State, name: string, entry: Stored, getFails: bool, put: Write)
    ensures var (after, reply) := Create(s, name, entry, getFails, put);
            var stores := name != "" && name !in s.storage && !getFails && put != Refused;
            && after.storage == (if stores then s.storage[name := entry] else s.storage)
            && (reply.Described? <==> stores && put == Done)
            && (reply.Described? ==> reply.key == PublicOf(entry))
  {
  }

  /* ---------- What leaves the plugin ---------- */

  /** In every state an export hands out a private key exactly when getKey finds one that is exportable,
      and then that one. */
  lemma ExportGate(s: State, name: string, getFails: bool)
    ensures var found, reply := GetKey(s, name, getFails).1, Export(s, name, getFails).1;
            && (reply.Exported? <==> name != "" && found.Found? && found.entry.exportable)
            && (reply.Exported? ==> reply.privateKey == found.entry.privateKey && reply.key == PublicOf(found.entry))
            && (reply == NotExportable <==> name != "" && found.Found? && !found.entry.exportable)
  {
  }

  /** What export answers for a key that was stored, after any run that left it there. */
  predicate ExportSays(s: State, name: string, getFails: bool, stored: Stored) {
    Export(s, name, getFails).1 ==
      if getFails && name !in s.cache then StorageError
      else if stored.exportable then Exported(stored.privateKey, PublicOf(stored))
      else NotExportable
  }

  lemma KeptThenExport(s: State, name: string, ops: seq<Op>, getFails: bool)
    requires Coherent(s) && name != "" && name in s.storage && Undisturbed(s, ops, name)
    ensures ExportSays(Run(s, ops), name, getFails, s.storage[name])
  {
    hide Apply, Run, LostDelete, Replaces;
    KeptInStorage(s, ops, name);
    RunCoherence(s, ops);
    GetKeyIsDirectRead(s, ops, name, getFails);
  }

  /** A key that an import stored, confirmed or not, is exported with the same bytes after any other
      operations if it was imported as exportable, and never otherwise. */
  lemma ImportThenExport(s: State, name: string, bytes: seq<byte>, publicKey: seq<byte>, exportable: bool, now: int,
                         put: Write, ops: seq<Op>, getFails: bool)
    requires Coherent(s)
    requires var after := Import(s, name, Decoded(bytes), publicKey, exportable, now, false, put).0;
             name !in s.storage && name in after.storage && Undisturbed(after, ops, name)
    ensures var after := Import(s, name, Decoded(bytes), publicKey, exportable, now, false, put).0;
            ExportSays(Run(after, ops), name, getFails, Stored(bytes, publicKey, [], exportable, now, true))
  {
    var after := Import(s, name, Decoded(bytes), publicKey, exportable, now, false, put).0;
    assert Coherent(after);
    hide Apply, Run, LostDelete, Replaces, Coherent, ExportSays;
    KeptThenExport(after, name, ops, getFails);
  }

  /** The same for a key that the plugin generated. */
  lemma CreateThenExport(s: State, name: string, entry: Stored, put: Write, ops: seq<Op>, getFails: bool)
    requires Coherent(s)
    requires var after := Create(s, name, entry, false, put).0;
             name !in s.storage && name in after.storage && Undisturbed(after, ops, name)
    ensures ExportSays(Run(Create(s, name, entry, false, put).0, ops), name, getFails, entry)
  {
    var after := Create(s, name, entry, false, put).0;
    assert Coherent(after);
    hide Apply, Run, LostDelete, Replaces, Coherent, ExportSays;
    KeptThenExport(after, name, ops, getFails);
  }

  /* ---------- Deleted keys ---------- */

  /** Operations that can store something under name. */
  predicate Writes(op: Op, name: string) {
    (op.CreateOp? || op.ImportOp? || op.ReplicateOp?) && op.name == name
  }

  /** Neither storage nor cache has the name. */
  predicate Gone(s: State, name: string) { name !in s.storage && name !in s.cache }

  lemma StepStaysGone(s: State, op: Op, name: string)
    requires Gone(s, name) && !Writes(op, name)
    ensures Gone(Apply(s, op), name)
  {
    if op.ListOp? {
      ListStaysGone(s, op.names, op.failing, name);
    }
  }

  lemma {:induction false} ListStaysGone(s: State, names: seq<string>, failing: set<string>, name: string)
    requires Gone(s, name)
    ensures Gone(ListFrom(s, names, failing).0, name)
    decreases |names|
  {
    if names != [] {
      ListStaysGone(s, names[..|names| - 1], failing, name);
    }
  }

  lemma {:induction false} RunStaysGone(s: State, ops: seq<Op>, name: string)
    requires Gone(s, name) && forall op :: op in ops ==> !Writes(op, name)
    ensures Gone(Run(s, ops), name)
    decreases |ops|
  {
    hide Apply, Gone, Writes;
    if ops != [] {
      var last := |ops| - 1;
      assert ops[last] in ops;
      RunStaysGone(s, ops[..last], name);
      StepStaysGone(Run(s, ops[..last]), ops[last], name);
    }
  }

  /** After a confirmed delete the key is found by nothing, until something is stored under its name. */
  lemma DeletedStaysGone(s: State, name: string, ops: seq<Op>, getFails: bool)
    requires name != "" && forall op :: op in ops ==> !Writes(op, name)
    ensures var after := Run(Delete(s, name, Done).0, ops);
            && GetKey(after, name, getFails).1 == (if getFails then Failed else Missing)
            && Read(after, name, getFails).1 == Export(after, name, getFails).1
            && Export(after, name, getFails).1 == (if getFails then StorageError else NotFound)
  {
    hide Run, Apply, Writes;
    RunStaysGone(Delete(s, name, Done).0, ops, name);
  }

  /* ---------- Invalidation ---------- */

  /** Which entries an invalidated storage path drops. */
  lemma InvalidateDrops(cache: map<string, Stored>, path: string, name: string)
    ensures name in Invalidate(cache, path) <==> name in cache && path != "keys/" && path != "keys/" + name
    ensures name in Invalidate(cache, path) ==> Invalidate(cache, path)[name] == cache[name]
  {
    if PREFIX <= path {
      assert path == PREFIX + path[|PREFIX|..];
    }
  }

  /** Whatever has become of storage, invalidating the bare prefix makes the cache right again, and so
      does a cleanup. */
  lemma EmptyingRecovers(s: State, storage: map<string, Stored>)
    ensures Coherent(Apply(s.(storage := storage), InvalidateOp("keys/")))
    ensures Coherent(Apply(s.(storage := storage), CleanupOp))
  {
  }
}
