/** The keyring over two stores: private keys in OpenBao, metadata in the local store. Every remote
    call and every local persist may fail; a remote write may also be done and still report failure. */
module Keyring {
  import opened Wrappers
  import opened Bytes
  import opened MetadataStore

  datatype RemoteKey = RemoteKey(privateKey: seq<byte>, publicKey: seq<byte>, address: string, exportable: bool)

  /** OpenBao's keys and the metadata the store has in memory. */
  datatype Ring = Ring(remote: map<string, RemoteKey>, local: map<string, KeyMetadata>)

  /** What can go wrong while a key is added. */
  datatype AddFaults = AddFaults(call: Write, decodeFails: bool, persistFails: bool, cleanup: Write, recordFails: bool)

  function MetadataOf(uid: string, key: RemoteKey, source: string, now: int): KeyMetadata {
    KeyMetadata(uid, uid, key.publicKey, "secp256k1", key.address, "secp256k1/keys/" + uid, "secp256k1",
                key.exportable, now, source)
  }

  /** DeleteKey on OpenBao; deleting an absent key succeeds. */
  function RemoteDelete(ring: Ring, uid: string, delete: Write): (Ring, bool) {
    if delete == Refused then (ring, false) else (ring.(remote := ring.remote - {uid}), delete == Done)
  }

  /** store.Save: the change stays in memory even when writing the file fails. */
  function Save(local: map<string, KeyMetadata>, meta: KeyMetadata, persistFails: bool): (map<string, KeyMetadata>, bool) {
    var m := Mutate(local, SaveOp(Some(meta)));
    if m.Ok? && m.value.Some? then (m.value.value, !persistFails) else (local, false)
  }

  /** NewAccountWithOptions and ImportKey after the key material is known: remote first, then local
      metadata, and a compensating delete when the second half fails. */
  function AddKey(ring: Ring, uid: string, key: RemoteKey, source: string, now: int, f: AddFaults): (Ring, bool) {
    if uid in ring.local || uid in ring.remote || f.call == Refused then (ring, false)
    else
      var added := ring.(remote := ring.remote[uid := key]);
      if f.call == DoneUnconfirmed then (added, false)
      else if f.decodeFails then (RemoteDelete(added, uid, f.cleanup).0, false)
      else
        var (local, ok) := Save(added.local, MetadataOf(uid, key, source, now), f.persistFails);
        var saved := added.(local := local);
        if !ok then (RemoteDelete(saved, uid, f.cleanup).0, false) else (saved, !f.recordFails)
  }

  /** BaoKeyring.Delete: remote first, then the metadata. */
  function DeleteKey(ring: Ring, uid: string, delete: Write, persistFails: bool): (Ring, bool) {
    var (gone, ok) := RemoteDelete(ring, uid, delete);
    if !ok then (gone, false)
    else if uid !in gone.local then (gone, false)
    else (gone.(local := gone.local - {uid}), !persistFails)
  }

  /** ExportKey: local metadata, its exportable flag, then the remote export, which checks its own. */
  function ExportKey(ring: Ring, uid: string, callFails: bool): Option<seq<byte>> {
    if uid in ring.local && ring.local[uid].exportable && !callFails && uid in ring.remote && ring.remote[uid].exportable
    then Some(ring.remote[uid].privateKey) else None
  }

  /** Whether Sign reaches a key: metadata under uid, and a remote key of the same name. */
  predicate CanSign(ring: Ring, uid: string) {
    uid in ring.local && uid in ring.remote
  }

  /** Rename touches only the metadata. */
  function RenameKey(ring: Ring, oldUID: string, newUID: string): Ring {
    var m := Mutate(ring.local, RenameOp(oldUID, newUID));
    if m.Ok? && m.value.Some? then ring.(local := m.value.value) else ring
  }

  /* ---------- Coherence of the two stores ---------- */

  /** Remote keys that no local metadata mentions. */
  function Orphans(ring: Ring): set<string> {
    ring.remote.Keys - ring.local.Keys
  }

  /** Adding a key leaves an orphan exactly when the remote call was done but reported as failed, or
      the compensating delete was refused and no metadata had been kept. */
  lemma AddKeyOrphans(ring: Ring, uid: string, key: RemoteKey, source: string, now: int, f: AddFaults)
    ensures var after := AddKey(ring, uid, key, source, now, f).0;
            var starts := uid !in ring.local && uid !in ring.remote && f.call != Refused;
            Orphans(after) == Orphans(ring) +
              if starts && (f.call == DoneUnconfirmed || (f.cleanup == Refused && (f.decodeFails || uid == "")))
              then {uid} else {}
  {
    var after := AddKey(ring, uid, key, source, now, f).0;
    if uid !in ring.local && uid !in ring.remote && f.call != Refused {
      assert after.remote.Keys == ring.remote.Keys + {uid} || after.remote.Keys == ring.remote.Keys;
      assert after.local.Keys == ring.local.Keys + {uid} || after.local.Keys == ring.local.Keys;
    }
  }

  /** When adding a key succeeds. */
  lemma AddKeySucceeds(ring: Ring, uid: string, key: RemoteKey, source: string, now: int, f: AddFaults)
    ensures AddKey(ring, uid, key, source, now, f).1 <==>
              && uid != "" && uid !in ring.local && uid !in ring.remote && f.call == Done
              && !f.decodeFails && !f.persistFails && !f.recordFails
  {
  }

  /** A reported success means both halves are in place, with the key's own bytes and metadata about it. */
  lemma AddKeySuccess(ring: Ring, uid: string, key: RemoteKey, source: string, now: int, f: AddFaults)
    requires AddKey(ring, uid, key, source, now, f).1
    ensures var after := AddKey(ring, uid, key, source, now, f).0;
            && after.remote == ring.remote[uid := key] && CanSign(after, uid)
            && after.local.Keys == ring.local.Keys + {uid}
            && (forall other :: other in ring.local ==> after.local[other] == ring.local[other])
            && var m := after.local[uid];
               && m.uid == uid && m.name == uid && m.pubKeyBytes == key.publicKey && m.address == key.address
               && m.exportable == key.exportable && m.source == source && m.createdAt == now
               && m.pubKeyType == "secp256k1" && m.algorithm == "secp256k1" && m.baoKeyPath == "secp256k1/keys/" + uid
  {
  }

  /** Local names that no remote key stands behind. */
  function Dangling(ring: Ring): set<string> {
    ring.local.Keys - ring.remote.Keys
  }

  /** Adding a key leaves metadata without a key exactly when the save reaches memory but not the file
      and the compensating delete then works: the remote key is gone, the name stays. */
  lemma AddKeyDangling(ring: Ring, uid: string, key: RemoteKey, source: string, now: int, f: AddFaults)
    ensures var after := AddKey(ring, uid, key, source, now, f).0;
            Dangling(after) == Dangling(ring) +
              if uid !in ring.local && uid !in ring.remote && uid != "" && f.call == Done && !f.decodeFails
                 && f.persistFails && f.cleanup != Refused
              then {uid} else {}
  {
    var after := AddKey(ring, uid, key, source, now, f).0;
    if uid !in ring.local && uid !in ring.remote && f.call != Refused {
      assert after.remote.Keys == ring.remote.Keys + {uid} || after.remote.Keys == ring.remote.Keys;
      assert after.local.Keys == ring.local.Keys + {uid} || after.local.Keys == ring.local.Keys;
    }
  }

  /** Deleting a key never leaves an orphan, and leaves its metadata dangling exactly when the remote
      delete is done but reported as failed; a confirmed delete clears a dangling name. */
  lemma DeleteKeyBothStores(ring: Ring, uid: string, delete: Write, persistFails: bool)
    ensures var after := DeleteKey(ring, uid, delete, persistFails).0;
            && Orphans(after) == Orphans(ring) - (if delete == Refused then {} else {uid})
            && Dangling(after) == Dangling(ring) + (if delete == DoneUnconfirmed && uid in ring.local then {uid} else {})
                 - (if delete == Done then {uid} else {})
  {
    var after := DeleteKey(ring, uid, delete, persistFails).0;
    if delete != Refused {
      assert after.remote.Keys == ring.remote.Keys - {uid};
      assert after.local.Keys == if delete == Done then ring.local.Keys - {uid} else ring.local.Keys;
    }
  }

  /** A dangling name cannot sign or be exported, and adding a key under it fails whatever happens. */
  lemma DanglingNameIsStuck(ring: Ring, uid: string, key: RemoteKey, source: string, now: int, f: AddFaults, callFails: bool)
    requires uid in Dangling(ring)
    ensures !CanSign(ring, uid) && ExportKey(ring, uid, callFails) == None
    ensures AddKey(ring, uid, key, source, now, f) == (ring, false)
  {
  }

  /** Rename moves the metadata away from its remote key: signing then works under the new name
      exactly when the remote happens to hold a key of that name already. */
  lemma RenameBreaksSigning(ring: Ring, oldUID: string, newUID: string)
    requires oldUID in ring.local && newUID !in ring.local
    ensures var after := RenameKey(ring, oldUID, newUID);
            && !CanSign(after, oldUID)
            && (CanSign(after, newUID) <==> newUID in ring.remote)
            && (oldUID in ring.remote ==> oldUID in Orphans(after))
  {
  }

  /** What Rename does to both sets: it orphans the old remote key, and the new name dangles unless the
      remote happens to hold it. */
  lemma RenameBothStores(ring: Ring, oldUID: string, newUID: string)
    requires oldUID in ring.local && newUID !in ring.local
    ensures var after := RenameKey(ring, oldUID, newUID);
            && Orphans(after) == Orphans(ring) - {newUID} + (if oldUID in ring.remote then {oldUID} else {})
            && Dangling(after) == Dangling(ring) - {oldUID} + (if newUID in ring.remote then {} else {newUID})
  {
    var after := RenameKey(ring, oldUID, newUID);
    assert after.local.Keys == ring.local.Keys - {oldUID} + {newUID};
  }

  /* ---------- Whole runs ---------- */

  datatype Call =
    | AddCall(uid: string, key: RemoteKey, source: string, now: int, f: AddFaults)
    | DeleteCall(uid: string, delete: Write, persistFails: bool)
    | RenameCall(oldUID: string, newUID: string)

  function Apply(ring: Ring, call: Call): Ring {
    match call
    case AddCall(uid, key, source, now, f) => AddKey(ring, uid, key, source, now, f).0
    case DeleteCall(uid, delete, persistFails) => DeleteKey(ring, uid, delete, persistFails).0
    case RenameCall(oldUID, newUID) => RenameKey(ring, oldUID, newUID)
  }

  function Run(ring: Ring, calls: seq<Call>): Ring
    decreases |calls|
  {
    if calls == [] then ring else Apply(Run(ring, calls[..|calls| - 1]), calls[|calls| - 1])
  }

  /** Both stores hold the same names, so every key can sign and no name is stuck. */
  ghost predicate Aligned(ring: Ring) {
    Orphans(ring) == {} && Dangling(ring) == {}
  }

  /** The operations that pull aligned stores apart. */
  predicate Separates(ring: Ring, call: Call) {
    match call
    case AddCall(uid, _, _, _, f) =>
      uid !in ring.local
      && (|| f.call == DoneUnconfirmed
          || (f.call == Done && f.cleanup == Refused && (f.decodeFails || uid == ""))
          || (f.call == Done && f.cleanup != Refused && !f.decodeFails && uid != "" && f.persistFails))
    case DeleteCall(uid, delete, _) => delete == DoneUnconfirmed && uid in ring.local
    case RenameCall(oldUID, newUID) => oldUID in ring.local && newUID !in ring.local
  }

  lemma StepAligned(ring: Ring, call: Call)
    requires Aligned(ring)
    ensures Aligned(Apply(ring, call)) <==> !Separates(ring, call)
  {
    SameNames(ring);
    match call {
      case AddCall(uid, key, source, now, f) =>
        AddKeyOrphans(ring, uid, key, source, now, f);
        AddKeyDangling(ring, uid, key, source, now, f);
      case DeleteCall(uid, delete, persistFails) =>
        DeleteKeyBothStores(ring, uid, delete, persistFails);
      case RenameCall(oldUID, newUID) =>
        if oldUID in ring.local && newUID !in ring.local {
          RenameBothStores(ring, oldUID, newUID);
        }
    }
  }

  lemma SameNames(ring: Ring)
    requires Aligned(ring)
    ensures forall uid :: uid in ring.local <==> uid in ring.remote
  {
    forall uid ensures uid in ring.local <==> uid in ring.remote {
      assert uid !in Orphans(ring) && uid !in Dangling(ring);
    }
  }

  ghost predicate AllAligned(ring: Ring, calls: seq<Call>) {
    forall i :: 0 <= i <= |calls| ==> AlignedAfter(ring, calls, i)
  }

  ghost predicate AlignedAfter(ring: Ring, calls: seq<Call>, i: nat)
    requires i <= |calls|
  {
    Aligned(Run(ring, calls[..i]))
  }

  ghost predicate NothingSeparates(ring: Ring, calls: seq<Call>) {
    forall i :: 0 <= i < |calls| ==> !Separates(Run(ring, calls[..i]), calls[i])
  }

  lemma AllAlignedNext(ring: Ring, calls: seq<Call>)
    requires calls != []
    ensures AllAligned(ring, calls) <==> AllAligned(ring, calls[..|calls| - 1]) && Aligned(Run(ring, calls))
  {
    hide Aligned, Run;
    var last := |calls| - 1;
    assert forall i :: 0 <= i <= last ==> calls[..last][..i] == calls[..i];
    assert calls[..|calls|] == calls;
    assert forall i :: 0 <= i <= last ==> (AlignedAfter(ring, calls[..last], i) <==> AlignedAfter(ring, calls, i));
    assert AlignedAfter(ring, calls, |calls|) <==> Aligned(Run(ring, calls));
  }

  lemma NothingSeparatesNext(ring: Ring, calls: seq<Call>)
    requires calls != []
    ensures var last := |calls| - 1;
            NothingSeparates(ring, calls) <==>
            NothingSeparates(ring, calls[..last]) && !Separates(Run(ring, calls[..last]), calls[last])
  {
    hide Separates, Run;
    var last := |calls| - 1;
    assert forall i :: 0 <= i < last ==> calls[..last][..i] == calls[..i] && calls[..last][i] == calls[i];
  }

  lemma LastAligned(ring: Ring, calls: seq<Call>)
    requires AllAligned(ring, calls)
    ensures Aligned(Run(ring, calls))
  {
    hide Aligned, Run;
    assert AlignedAfter(ring, calls, |calls|);
    assert calls[..|calls|] == calls;
  }

  /** Over any run of adds, deletes and renames the two stores stay aligned throughout exactly when no
      operation of the run separates them. */
  lemma {:induction false} AlignedThroughout(ring: Ring, calls: seq<Call>)
    requires Aligned(ring)
    ensures AllAligned(ring, calls) <==> NothingSeparates(ring, calls)
    decreases |calls|
  {
    hide Run, Apply, Aligned, Separates, AllAligned, NothingSeparates;
    if calls == [] {
      NothingCalled(ring);
    } else {
      var last := |calls| - 1;
      var front := calls[..last];
      AlignedThroughout(ring, front);
      AllAlignedNext(ring, calls);
      NothingSeparatesNext(ring, calls);
      RunNext(ring, calls);
      if AllAligned(ring, front) {
        LastAligned(ring, front);
        StepAligned(Run(ring, front), calls[last]);
      }
    }
  }

  lemma NothingCalled(ring: Ring)
    requires Aligned(ring)
    ensures AllAligned(ring, []) && NothingSeparates(ring, [])
  {
    hide Aligned;
    var none: seq<Call> := [];
    assert none[..0] == none;
  }

  lemma RunNext(ring: Ring, calls: seq<Call>)
    requires calls != []
    ensures Run(ring, calls) == Apply(Run(ring, calls[..|calls| - 1]), calls[|calls| - 1])
  {
    hide Apply;
  }
}
