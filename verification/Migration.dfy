/** Moving private keys between a local keyring and OpenBao (migration/import.go, export.go). The
    objects below change step by step as the Go code does, with any call failing; the functions say
    what each run does to the two keyrings, and the lemmas that no key is ever lost. */
module Migration {
  import opened Wrappers
  import opened Bytes
  import opened Keyring

  /** A key of the local keyring; only exportable secp256k1 keys can be migrated. */
  datatype LocalKey = LocalKey(privateKey: seq<byte>, algo: string)

  /** Both sides of a migration. */
  datatype World = World(local: map<string, LocalKey>, ring: Ring)

  const SECP256K1 := "secp256k1"

  /** Every private key that one of the two sides holds. */
  ghost function Held(w: World): set<seq<byte>> {
    (set n | n in w.local :: w.local[n].privateKey) + (set n | n in w.ring.remote :: w.ring.remote[n].privateKey)
  }

  /* ---------- Import: local to OpenBao ---------- */

  datatype ImportConfig = ImportConfig(keyName: string, newKeyName: string, deleteAfterImport: bool,
                                       exportable: bool, verifyAfterImport: bool)

  /** Which calls of one import fail, and what the library derives. */
  datatype ImportFaults = ImportFaults(exportFails: bool, parseFails: bool, add: AddFaults, signFails: bool,
                                       delete: Write, publicKey: seq<byte>, address: string, now: int)

  function DestName(keyName: string, newKeyName: string): string {
    if newKeyName != "" then newKeyName else keyName
  }

  /** Deleting from the local keyring; an absent key is an error without effect. */
  function LocalDelete(local: map<string, LocalKey>, name: string, delete: Write): map<string, LocalKey> {
    if delete == Refused then local else local - {name}
  }

  /** The outcome of an import that succeeded. */
  datatype Imported = Imported(keyName: string, verified: bool)

  function Import(w: World, cfg: ImportConfig, f: ImportFaults): (World, Option<Imported>) {
    if cfg.keyName == "" || f.exportFails || cfg.keyName !in w.local || f.parseFails
       || w.local[cfg.keyName].algo != SECP256K1 then (w, None)
    else
      var dest := DestName(cfg.keyName, cfg.newKeyName);
      var key := RemoteKey(w.local[cfg.keyName].privateKey, f.publicKey, f.address, cfg.exportable);
      var (ring, ok) := AddKey(w.ring, dest, key, "imported", f.now, f.add);
      if !ok then (w.(ring := ring), None)
      else
        var verified := cfg.verifyAfterImport && CanSign(ring, dest) && !f.signFails;
        var local := if cfg.deleteAfterImport && (!cfg.verifyAfterImport || verified)
                     then LocalDelete(w.local, cfg.keyName, f.delete) else w.local;
        (World(local, ring), Some(Imported(dest, verified)))
  }

  /* ---------- Export: OpenBao to local ---------- */

  datatype ExportConfig = ExportConfig(keyName: string, newKeyName: string, deleteAfterExport: bool,
                                       verifyAfterExport: bool, confirmed: bool)

  datatype ExportFaults = ExportFaults(callFails: bool, decodeFails: bool, importWrite: Write, signFails: bool,
                                       delete: Write, persistFails: bool)

  /** Importing an armored key into the local keyring, which refuses to overwrite. */
  function LocalImport(local: map<string, LocalKey>, name: string, key: LocalKey, write: Write): (map<string, LocalKey>, bool) {
    if name in local || write == Refused then (local, false) else (local[name := key], write == Done)
  }

  datatype Exported = NotExported | Exported(verified: bool, deleted: bool)

  function Export(w: World, cfg: ExportConfig, f: ExportFaults): (World, Exported) {
    if !cfg.confirmed || cfg.keyName == "" then (w, NotExported)
    else
      var key := ExportKey(w.ring, cfg.keyName, f.callFails);
      if key.None? || f.decodeFails then (w, NotExported)
      else
        var (local, ok) := LocalImport(w.local, DestName(cfg.keyName, cfg.newKeyName), LocalKey(key.value, SECP256K1), f.importWrite);
        var w1 := w.(local := local);
        if !ok then (w1, NotExported)
        else
          var verified := cfg.verifyAfterExport && !f.signFails;
          if !cfg.deleteAfterExport || (cfg.verifyAfterExport && !verified) then (w1, Exported(verified, false))
          else
            var (ring, deleted) := DeleteKey(w1.ring, cfg.keyName, f.delete, f.persistFails);
            (w1.(ring := ring), Exported(verified, deleted))
  }

  /* ---------- No key is lost ---------- */

  lemma AddKeyKeepsRemote(ring: Ring, uid: string, key: RemoteKey, now: int, f: AddFaults)
    ensures var (after, ok) := AddKey(ring, uid, key, "imported", now, f);
            && (forall n :: n in ring.remote ==> n in after.remote && after.remote[n] == ring.remote[n])
            && (ok ==> uid in after.remote && after.remote[uid] == key)
  {
  }

  /** Whatever fails, every private key held before an import is held after it. */
  lemma ImportLosesNothing(w: World, cfg: ImportConfig, f: ImportFaults)
    ensures Held(w) <= Held(Import(w, cfg, f).0)
  {
    var after := Import(w, cfg, f).0;
    if after != w {
      var dest := DestName(cfg.keyName, cfg.newKeyName);
      var bytes := w.local[cfg.keyName].privateKey;
      var key := RemoteKey(bytes, f.publicKey, f.address, cfg.exportable);
      AddKeyKeepsRemote(w.ring, dest, key, f.now, f.add);
      hide AddKey;
      forall k | k in Held(w) ensures k in Held(after) {
        if n :| n in w.ring.remote && w.ring.remote[n].privateKey == k {
          assert n in after.ring.remote && after.ring.remote[n].privateKey == k;
        } else {
          var n :| n in w.local && w.local[n].privateKey == k;
          if n in after.local {
            assert after.local[n].privateKey == k;
          } else {
            assert after.ring.remote[dest].privateKey == k;
          }
        }
      }
    }
  }

  lemma ExportLosesNothing(w: World, cfg: ExportConfig, f: ExportFaults)
    ensures Held(w) <= Held(Export(w, cfg, f).0)
  {
    var after := Export(w, cfg, f).0;
    if after != w {
      var dest := DestName(cfg.keyName, cfg.newKeyName);
      var bytes := ExportKey(w.ring, cfg.keyName, f.callFails).value;
      forall k | k in Held(w) ensures k in Held(after) {
        if n :| n in w.local && w.local[n].privateKey == k {
          assert n in after.local && after.local[n].privateKey == k;
        } else {
          var n :| n in w.ring.remote && w.ring.remote[n].privateKey == k;
          if n in after.ring.remote {
            assert after.ring.remote[n].privateKey == k;
          } else {
            assert after.local[dest].privateKey == k;
          }
        }
      }
    }
  }

  /** When an import succeeds. */
  lemma ImportSucceeds(w: World, cfg: ImportConfig, f: ImportFaults)
    ensures var name, dest := cfg.keyName, if cfg.newKeyName == "" then cfg.keyName else cfg.newKeyName;
            Import(w, cfg, f).1.Some? <==>
              && name != "" && name in w.local && w.local[name].algo == "secp256k1" && !f.exportFails && !f.parseFails
              && dest !in w.ring.local && dest !in w.ring.remote && f.add.call == Done
              && !f.add.decodeFails && !f.add.persistFails && !f.add.recordFails
  {
    if cfg.keyName in w.local {
      var key := RemoteKey(w.local[cfg.keyName].privateKey, f.publicKey, f.address, cfg.exportable);
      AddKeySucceeds(w.ring, DestName(cfg.keyName, cfg.newKeyName), key, "imported", f.now, f.add);
      hide AddKey;
    }
  }

  /** A deleted source key was verifiably copied first: after a successful import the destination
      holds the very bytes the source had, under the asked name and with the asked flag; it counts as
      verified if signing with it works; and the source key is gone exactly when that was asked for, nothing
      that should be verified is not, and the delete is not refused. */
  lemma ImportedBytes(w: World, cfg: ImportConfig, f: ImportFaults)
    requires Import(w, cfg, f).1.Some?
    ensures var (after, result) := Import(w, cfg, f);
            var name, dest := cfg.keyName, result.value.keyName;
            && dest == (if cfg.newKeyName == "" then name else cfg.newKeyName)
            && CanSign(after.ring, dest)
            && after.ring.remote[dest].privateKey == w.local[name].privateKey
            && after.ring.remote[dest].exportable == cfg.exportable == after.ring.local[dest].exportable
            && (result.value.verified <==> cfg.verifyAfterImport && !f.signFails)
            && after.local ==
                 if cfg.deleteAfterImport && !(cfg.verifyAfterImport && f.signFails) && f.delete != Refused
                 then w.local - {name} else w.local
  {
    var dest := DestName(cfg.keyName, cfg.newKeyName);
    var key := RemoteKey(w.local[cfg.keyName].privateKey, f.publicKey, f.address, cfg.exportable);
    AddKeyKeepsRemote(w.ring, dest, key, f.now, f.add);
    AddKeySuccess(w.ring, dest, key, "imported", f.now, f.add);
    hide AddKey;
  }

  /** When an export succeeds. */
  lemma ExportSucceeds(w: World, cfg: ExportConfig, f: ExportFaults)
    ensures var name, dest := cfg.keyName, if cfg.newKeyName == "" then cfg.keyName else cfg.newKeyName;
            Export(w, cfg, f).1.Exported? <==>
              && cfg.confirmed && name != "" && name in w.ring.local && w.ring.local[name].exportable
              && name in w.ring.remote && w.ring.remote[name].exportable
              && !f.callFails && !f.decodeFails && dest !in w.local && f.importWrite == Done
  {
  }

  /** A successful export was confirmed and of an exportable key, took a free local name and put the
      very bytes there; the remote key is gone exactly when that was asked for, nothing that should be
      verified is not, and the delete is not refused. */
  lemma ExportedBytes(w: World, cfg: ExportConfig, f: ExportFaults)
    requires Export(w, cfg, f).1.Exported?
    ensures var (after, result) := Export(w, cfg, f);
            var name, dest := cfg.keyName, DestName(cfg.keyName, cfg.newKeyName);
            && cfg.confirmed && name in w.ring.remote && w.ring.remote[name].exportable
            && dest !in w.local && after.local == w.local[dest := LocalKey(w.ring.remote[name].privateKey, "secp256k1")]
            && (result.verified <==> cfg.verifyAfterExport && !f.signFails)
            && after.ring.remote ==
                 (if cfg.deleteAfterExport && !(cfg.verifyAfterExport && f.signFails) && f.delete != Refused
                  then w.ring.remote - {name} else w.ring.remote)
            && (result.deleted ==> name !in after.ring.remote && name !in after.ring.local)
  {
  }

  /** There and back: a key imported into OpenBao and exported again is locally what it was. */
  lemma ImportThenExport(w: World, icfg: ImportConfig, ifaults: ImportFaults, ecfg: ExportConfig, efaults: ExportFaults)
    requires Import(w, icfg, ifaults).1.Some?
    requires var (there, imported) := Import(w, icfg, ifaults);
             ecfg.keyName == imported.value.keyName && Export(there, ecfg, efaults).1.Exported?
    ensures var back := Export(Import(w, icfg, ifaults).0, ecfg, efaults).0;
            var dest := DestName(ecfg.keyName, ecfg.newKeyName);
            dest in back.local && back.local[dest] == w.local[icfg.keyName]
  {
    hide Export;
    ImportedBytes(w, icfg, ifaults);
    ExportedBytes(Import(w, icfg, ifaults).0, ecfg, efaults);
    assert w.local[icfg.keyName].algo == SECP256K1;
    hide Import;
  }

  datatype Migrate = ImportKey(icfg: ImportConfig, ifaults: ImportFaults) | ExportKeyOut(ecfg: ExportConfig, efaults: ExportFaults)

  function Apply(w: World, m: Migrate): World {
    match m
    case ImportKey(cfg, f) => Import(w, cfg, f).0
    case ExportKeyOut(cfg, f) => Export(w, cfg, f).0
  }

  function Run(w: World, ms: seq<Migrate>): World
    decreases |ms|
  {
    if ms == [] then w else Apply(Run(w, ms[..|ms| - 1]), ms[|ms| - 1])
  }

  /** Over any sequence of imports and exports, with anything failing, no private key disappears. */
  lemma {:induction false} RunLosesNothing(w: World, ms: seq<Migrate>)
    ensures Held(w) <= Held(Run(w, ms))
    decreases |ms|
  {
    hide Import, Export, Held;
    if ms != [] {
      RunLosesNothing(w, ms[..|ms| - 1]);
      var before := Run(w, ms[..|ms| - 1]);
      match ms[|ms| - 1] {
        case ImportKey(cfg, f) => ImportLosesNothing(before, cfg, f);
        case ExportKeyOut(cfg, f) => ExportLosesNothing(before, cfg, f);
      }
      SubsetTrans(Held(w), Held(before), Held(Run(w, ms)));
    }
  }

  lemma SubsetTrans<T>(a: set<T>, b: set<T>, c: set<T>)
    requires a <= b <= c
    ensures a <= c
  {
  }

  /** A remote key that is not exportable is where it was. */
  ghost predicate Sealed(ring: Ring, uid: string, key: RemoteKey) {
    uid in ring.remote && ring.remote[uid] == key && !key.exportable
  }

  lemma ImportKeepsSealed(w: World, cfg: ImportConfig, f: ImportFaults, uid: string, key: RemoteKey)
    requires Sealed(w.ring, uid, key)
    ensures Sealed(Import(w, cfg, f).0.ring, uid, key)
  {
    ImportKeepsRemote(w, cfg, f);
    hide Import;
  }

  lemma ExportKeepsSealed(w: World, cfg: ExportConfig, f: ExportFaults, uid: string, key: RemoteKey)
    requires Sealed(w.ring, uid, key)
    ensures Sealed(Export(w, cfg, f).0.ring, uid, key)
    ensures cfg.keyName == uid ==> Export(w, cfg, f) == (w, NotExported)
  {
  }

  /** Over any sequence of imports and exports, a key that was imported as not exportable stays in OpenBao
      as it is, and no export of it ever succeeds or changes anything. */
  lemma {:induction false} SealedForGood(w: World, ms: seq<Migrate>, uid: string, key: RemoteKey, cfg: ExportConfig, f: ExportFaults)
    requires Sealed(w.ring, uid, key) && cfg.keyName == uid
    ensures Sealed(Run(w, ms).ring, uid, key)
    ensures Export(Run(w, ms), cfg, f) == (Run(w, ms), NotExported)
    decreases |ms|
  {
    hide Import, Export, Sealed;
    if ms != [] {
      var before := Run(w, ms[..|ms| - 1]);
      SealedForGood(w, ms[..|ms| - 1], uid, key, cfg, f);
      match ms[|ms| - 1] {
        case ImportKey(icfg, ifaults) => ImportKeepsSealed(before, icfg, ifaults, uid, key);
        case ExportKeyOut(ecfg, efaults) => ExportKeepsSealed(before, ecfg, efaults, uid, key);
      }
    }
    ExportKeepsSealed(Run(w, ms), cfg, f, uid, key);
  }

  /* ---------- Batches ---------- */

  datatype BatchConfig = BatchConfig(deleteAfterImport: bool, exportable: bool, verifyAfterImport: bool)

  function ConfigFor(cfg: BatchConfig, name: string): ImportConfig {
    ImportConfig(name, "", cfg.deleteAfterImport, cfg.exportable, cfg.verifyAfterImport)
  }

  /** The first n imports of a batch, in order: the world after them and whether each succeeded. */
  function ImportFirst(w: World, names: seq<string>, cfg: BatchConfig, faults: seq<ImportFaults>, n: nat): (World, seq<bool>)
    requires n <= |names| && |faults| == |names|
  {
    if n == 0 then (w, [])
    else
      var (before, oks) := ImportFirst(w, names, cfg, faults, n - 1);
      var (after, r) := Import(before, ConfigFor(cfg, names[n - 1]), faults[n - 1]);
      (after, oks + [r.Some?])
  }

  /** The names of one outcome, in order. */
  function Select(names: seq<string>, oks: seq<bool>, which: bool): seq<string>
    requires |oks| <= |names|
    decreases |oks|
  {
    if oks == [] then []
    else
      var last := |oks| - 1;
      Select(names, oks[..last], which) + if oks[last] == which then [names[last]] else []
  }

  /** Two result lists account for exactly the first |oks| names: together they have as many entries,
      and each entry stands in the list of its outcome in the order of the names. */
  lemma {:induction false} SelectAccounts(names: seq<string>, oks: seq<bool>)
    requires |oks| <= |names|
    ensures |Select(names, oks, true)| + |Select(names, oks, false)| == |oks|
    ensures multiset(Select(names, oks, true)) + multiset(Select(names, oks, false)) == multiset(names[..|oks|])
    decreases |oks|
  {
    if oks != [] {
      var last := |oks| - 1;
      SelectAccounts(names, oks[..last]);
      assert names[..|oks|] == names[..last] + [names[last]];
    } else {
      assert names[..0] == [];
    }
  }

  lemma {:induction false} BatchLosesNothing(w: World, names: seq<string>, cfg: BatchConfig, faults: seq<ImportFaults>, n: nat)
    requires n <= |names| && |faults| == |names|
    ensures Held(w) <= Held(ImportFirst(w, names, cfg, faults, n).0)
    ensures |ImportFirst(w, names, cfg, faults, n).1| == n
  {
    hide Import, Held;
    if n != 0 {
      BatchLosesNothing(w, names, cfg, faults, n - 1);
      var before := ImportFirst(w, names, cfg, faults, n - 1).0;
      ImportLosesNothing(before, ConfigFor(cfg, names[n - 1]), faults[n - 1]);
      SubsetTrans(Held(w), Held(before), Held(ImportFirst(w, names, cfg, faults, n).0));
    }
  }

  lemma ImportKeepsRemote(w: World, cfg: ImportConfig, f: ImportFaults)
    ensures var after := Import(w, cfg, f).0;
            && (forall n :: n in w.ring.remote ==> n in after.ring.remote && after.ring.remote[n] == w.ring.remote[n])
            && (forall n :: n in after.local ==> n in w.local && after.local[n] == w.local[n])
  {
    if Import(w, cfg, f).0 != w {
      var key := RemoteKey(w.local[cfg.keyName].privateKey, f.publicKey, f.address, cfg.exportable);
      AddKeyKeepsRemote(w.ring, DestName(cfg.keyName, cfg.newKeyName), key, f.now, f.add);
      hide AddKey;
    }
  }

  lemma FailedImportLeavesLocal(w: World, cfg: ImportConfig, f: ImportFaults)
    requires Import(w, cfg, f).1.None?
    ensures Import(w, cfg, f).0.local == w.local
  {
    hide AddKey;
  }

  /** The import of another name, or of one that OpenBao already has, leaves a local key where it is. */
  lemma LocalKeyStays(w: World, cfg: BatchConfig, name: string, f: ImportFaults, m: string)
    requires m != name || m in w.ring.remote
    ensures m in Import(w, ConfigFor(cfg, name), f).0.local <==> m in w.local
  {
    var each := ConfigFor(cfg, name);
    ImportSucceeds(w, each, f);
    if Import(w, each, f).1.Some? {
      ImportedBytes(w, each, f);
    } else {
      FailedImportLeavesLocal(w, each, f);
    }
    hide Import;
  }

  /** Every name of a batch that is reported as imported ends with the source's own bytes at the
      destination and the asked flag, whatever happened to the names after it; and its source key is gone
      exactly when the batch deletes, nothing that should be verified is not, and the delete is not refused. */
  lemma {:induction false} BatchMovesBytes(w: World, names: seq<string>, cfg: BatchConfig, faults: seq<ImportFaults>, n: nat, i: nat)
    requires i < n <= |names| && |faults| == |names|
    requires |ImportFirst(w, names, cfg, faults, n).1| == n && ImportFirst(w, names, cfg, faults, n).1[i]
    ensures var after, name := ImportFirst(w, names, cfg, faults, n).0, names[i];
            && name in w.local && name in after.ring.remote
            && after.ring.remote[name].privateKey == w.local[name].privateKey
            && after.ring.remote[name].exportable == cfg.exportable
            && (name !in after.local <==>
                 cfg.deleteAfterImport && !(cfg.verifyAfterImport && faults[i].signFails) && faults[i].delete != Refused)
    decreases n
  {
    hide Import, Held;
    BatchLosesNothing(w, names, cfg, faults, n - 1);
    var before := ImportFirst(w, names, cfg, faults, n - 1).0;
    ImportKeepsRemote(before, ConfigFor(cfg, names[n - 1]), faults[n - 1]);
    if i < n - 1 {
      BatchMovesBytes(w, names, cfg, faults, n - 1, i);
      LocalKeyStays(before, cfg, names[n - 1], faults[n - 1], names[i]);
    } else {
      BatchLocal(w, names, cfg, faults, n - 1);
      ImportedBytes(before, ConfigFor(cfg, names[i]), faults[i]);
      ImportedFrom(before, ConfigFor(cfg, names[i]), faults[i]);
    }
  }

  lemma ImportedFrom(w: World, cfg: ImportConfig, f: ImportFaults)
    requires Import(w, cfg, f).1.Some?
    ensures cfg.keyName in w.local && Import(w, cfg, f).1.value.keyName == DestName(cfg.keyName, cfg.newKeyName)
  {
  }

  lemma {:induction false} BatchLocal(w: World, names: seq<string>, cfg: BatchConfig, faults: seq<ImportFaults>, n: nat)
    requires n <= |names| && |faults| == |names|
    ensures var after := ImportFirst(w, names, cfg, faults, n).0;
            forall m :: m in after.local ==> m in w.local && after.local[m] == w.local[m]
  {
    hide Import;
    if n != 0 {
      BatchLocal(w, names, cfg, faults, n - 1);
      ImportKeepsRemote(ImportFirst(w, names, cfg, faults, n - 1).0, ConfigFor(cfg, names[n - 1]), faults[n - 1]);
    }
  }

  /* ---------- The objects ---------- */

  class LocalKeyring {
    var keys: map<string, LocalKey>

    constructor (keys: map<string, LocalKey>)
      ensures this.keys == keys
    {
      this.keys := keys;
    }

    method ExportPrivKey(name: string, fails: bool) returns (key: Option<LocalKey>)
      ensures key == if fails || name !in keys then None else Some(keys[name])
    {
      key := if fails || name !in keys then None else Some(keys[name]);
    }

    method ImportPrivKey(name: string, key: LocalKey, write: Write) returns (ok: bool)
      modifies this
      ensures (keys, ok) == LocalImport(old(keys), name, key, write)
    {
      if name in keys || write == Refused {
        return false;
      }
      keys := keys[name := key];
      ok := write == Done;
    }

    method Delete(name: string, delete: Write)
      modifies this
      ensures keys == LocalDelete(old(keys), name, delete)
    {
      if delete != Refused {
        keys := keys - {name};
      }
    }
  }

  class BaoKeyring {
    var ring: Ring

    constructor (ring: Ring)
      ensures this.ring == ring
    {
      this.ring := ring;
    }

    /** ImportKey: the Has check, the remote import, and the metadata, with its compensating deletes. */
    method ImportKey(uid: string, key: RemoteKey, now: int, f: AddFaults) returns (ok: bool)
      modifies this
      ensures (ring, ok) == AddKey(old(ring), uid, key, "imported", now, f)
    {
      if uid in ring.local {
        return false;
      }
      if uid in ring.remote || f.call == Refused {
        return false;
      }
      ring := ring.(remote := ring.remote[uid := key]);
      if f.call == DoneUnconfirmed {
        return false;
      }
      if f.decodeFails {
        ring := RemoteDelete(ring, uid, f.cleanup).0;
        return false;
      }
      var (local, saved) := Save(ring.local, MetadataOf(uid, key, "imported", now), f.persistFails);
      ring := ring.(local := local);
      if !saved {
        ring := RemoteDelete(ring, uid, f.cleanup).0;
        return false;
      }
      ok := !f.recordFails;
    }

    method Delete(uid: string, delete: Write, persistFails: bool) returns (ok: bool)
      modifies this
      ensures (ring, ok) == DeleteKey(old(ring), uid, delete, persistFails)
    {
      var (gone, deleted) := RemoteDelete(ring, uid, delete);
      ring := gone;
      if !deleted {
        return false;
      }
      if uid !in ring.local {
        return false;
      }
      ring := ring.(local := ring.local - {uid});
      ok := !persistFails;
    }
  }

  method ImportOne(source: LocalKeyring, dest: BaoKeyring, cfg: ImportConfig, f: ImportFaults)
    returns (result: Option<Imported>)
    modifies source, dest
    ensures (World(source.keys, dest.ring), result) == Import(World(old(source.keys), old(dest.ring)), cfg, f)
  {
    if cfg.keyName == "" {
      return None;
    }
    var destName := cfg.keyName;
    if cfg.newKeyName != "" {
      destName := cfg.newKeyName;
    }
    var armor := source.ExportPrivKey(cfg.keyName, f.exportFails);
    if armor.None? {
      return None;
    }
    if f.parseFails {
      return None;
    }
    if armor.value.algo != SECP256K1 {
      return None;
    }
    var key := RemoteKey(armor.value.privateKey, f.publicKey, f.address, cfg.exportable);
    var ok := dest.ImportKey(destName, key, f.now, f.add);
    if !ok {
      return None;
    }
    var verified := false;
    if cfg.verifyAfterImport {
      verified := CanSign(dest.ring, destName) && !f.signFails;
    }
    if cfg.deleteAfterImport {
      if !cfg.verifyAfterImport || verified {
        source.Delete(cfg.keyName, f.delete);
      }
    }
    result := Some(Imported(destName, verified));
  }

  method ExportOne(source: BaoKeyring, dest: LocalKeyring, cfg: ExportConfig, f: ExportFaults)
    returns (result: Exported)
    modifies source, dest
    ensures (World(dest.keys, source.ring), result) == Export(World(old(dest.keys), old(source.ring)), cfg, f)
  {
    if !cfg.confirmed || cfg.keyName == "" {
      return NotExported;
    }
    var key := ExportKey(source.ring, cfg.keyName, f.callFails);
    if key.None? || f.decodeFails {
      return NotExported;
    }
    var destName := cfg.keyName;
    if cfg.newKeyName != "" {
      destName := cfg.newKeyName;
    }
    var ok := dest.ImportPrivKey(destName, LocalKey(key.value, SECP256K1), f.importWrite);
    if !ok {
      return NotExported;
    }
    var verified := false;
    if cfg.verifyAfterExport {
      verified := !f.signFails;
    }
    var deleted := false;
    if cfg.deleteAfterExport {
      if cfg.verifyAfterExport && !verified {
        return Exported(verified, false);
      }
      deleted := source.Delete(cfg.keyName, f.delete, f.persistFails);
    }
    result := Exported(verified, deleted);
  }

  /** The names a batch is about: those asked for, or if there are none all that the source lists. */
  function Requested(keyNames: seq<string>, listed: Option<seq<string>>): Option<seq<string>> {
    if keyNames != [] then Some(keyNames) else listed
  }

  /** BatchImport. The source's listing may fail; otherwise it names the source's keys. A context that is
      cancelled before the first name ends the batch with an error and no result. */
  method BatchImport(source: LocalKeyring, dest: BaoKeyring, keyNames: seq<string>, listed: Option<seq<string>>,
                     cancelled: bool, cfg: BatchConfig, faults: seq<ImportFaults>, cancelAfter: nat)
    returns (result: Option<(seq<string>, seq<string>)>, ghost oks: seq<bool>)
    requires listed.Some? ==> forall name :: name in listed.value <==> name in source.keys
    requires var names := Requested(keyNames, listed); names.Some? ==> |faults| == |names.value|
    modifies source, dest
    ensures result.None? <==> Requested(keyNames, listed).None? || cancelled
    ensures result.None? ==> source.keys == old(source.keys) && dest.ring == old(dest.ring)
    ensures result.Some? ==>
              var names := Requested(keyNames, listed).value;
              var n := if cancelAfter < |names| then cancelAfter else |names|;
              var (world, first) := ImportFirst(World(old(source.keys), old(dest.ring)), names, cfg, faults, n);
              && World(source.keys, dest.ring) == world
              && oks == first + (if n < |names| then [false] else [])
              && |oks| <= |names|
              && result.value == (Select(names, oks, true), Select(names, oks, false))
  {
    hide Import, Select, ImportFirst;
    oks := [];
    var names := keyNames;
    if |names| == 0 {
      if listed.None? {
        return None, [];
      }
      for i := 0 to |listed.value|
        invariant names == listed.value[..i]
      {
        names := names + [listed.value[i]];
      }
      assert listed.value[..|listed.value|] == listed.value;
    }
    if cancelled {
      return None, [];
    }
    var successful, failed, each := ImportEach(source, dest, names, cfg, faults, cancelAfter);
    result, oks := Some((successful, failed)), each;
  }

  /** The loop of BatchImport. The context is cancelled once cancelAfter imports are done; the name at
      that point is reported as failed and the batch ends. */
  method ImportEach(source: LocalKeyring, dest: BaoKeyring, names: seq<string>, cfg: BatchConfig,
                     faults: seq<ImportFaults>, cancelAfter: nat)
    returns (successful: seq<string>, failed: seq<string>, ghost oks: seq<bool>)
    requires |faults| == |names|
    modifies source, dest
    ensures var n := if cancelAfter < |names| then cancelAfter else |names|;
            var (world, first) := ImportFirst(World(old(source.keys), old(dest.ring)), names, cfg, faults, n);
            && World(source.keys, dest.ring) == world
            && oks == first + (if n < |names| then [false] else [])
    ensures |oks| <= |names| && (|oks| < |names| ==> |oks| == cancelAfter + 1)
    ensures successful == Select(names, oks, true) && failed == Select(names, oks, false)
  {
    hide Import, Select, ImportFirst;
    successful, failed, oks := [], [], [];
    ghost var start := World(source.keys, dest.ring);
    NothingYet(start, names, cfg, faults);
    for i := 0 to |names|
      invariant i <= cancelAfter && |oks| == i
      invariant (World(source.keys, dest.ring), oks) == ImportFirst(start, names, cfg, faults, i)
      invariant successful == Select(names, oks, true) && failed == Select(names, oks, false)
    {
      SelectNext(names, oks);
      if i == cancelAfter {
        failed := failed + [names[i]];
        oks := oks + [false];
        return;
      }
      ImportNext(start, names, cfg, faults, i);
      var r := ImportOne(source, dest, ConfigFor(cfg, names[i]), faults[i]);
      if r.None? {
        failed := failed + [names[i]];
      } else {
        successful := successful + [names[i]];
      }
      oks := oks + [r.Some?];
    }
  }

  lemma NothingYet(start: World, names: seq<string>, cfg: BatchConfig, faults: seq<ImportFaults>)
    requires |faults| == |names|
    ensures ImportFirst(start, names, cfg, faults, 0) == (start, [])
    ensures Select(names, [], true) == [] == Select(names, [], false)
  {
  }

  lemma ImportNext(start: World, names: seq<string>, cfg: BatchConfig, faults: seq<ImportFaults>, i: nat)
    requires i < |names| && |faults| == |names|
    ensures var (before, oks) := ImportFirst(start, names, cfg, faults, i);
            var (after, r) := Import(before, ConfigFor(cfg, names[i]), faults[i]);
            ImportFirst(start, names, cfg, faults, i + 1) == (after, oks + [r.Some?])
  {
    hide Import;
  }

  lemma SelectNext(names: seq<string>, oks: seq<bool>)
    requires |oks| < |names|
    ensures Select(names, oks + [true], true) == Select(names, oks, true) + [names[|oks|]]
    ensures Select(names, oks + [true], false) == Select(names, oks, false)
    ensures Select(names, oks + [false], true) == Select(names, oks, true)
    ensures Select(names, oks + [false], false) == Select(names, oks, false) + [names[|oks|]]
  {
    assert (oks + [true])[..|oks|] == oks && (oks + [false])[..|oks|] == oks;
  }
}
