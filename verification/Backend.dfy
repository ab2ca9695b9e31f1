/** The secp256k1 plugin backend as an object: a cache of references to key entries, whose private
    keys live in buffers that are copied, shared and zeroed. Each handler is proved to do to the
    object's abstract state what KeyStore says, and the buffer rules are stated beside it. */
module Backend {
  import opened Wrappers
  import opened Bytes
  import opened KeyStore

  type Buffer = array<byte>

  /** keyEntry: the private key is a buffer of its own. */
  class KeyEntry {
    const privateKey: Buffer
    const publicKey: seq<byte>
    const uncompressed: seq<byte>
    const exportable: bool
    const createdAt: int
    const imported: bool

    constructor (privateKey: Buffer, publicKey: seq<byte>, uncompressed: seq<byte>, exportable: bool,
                 createdAt: int, imported: bool)
      ensures this.privateKey == privateKey
      ensures Value() == Stored(privateKey[..], publicKey, uncompressed, exportable, createdAt, imported)
    {
      this.privateKey := privateKey;
      this.publicKey := publicKey;
      this.uncompressed := uncompressed;
      this.exportable := exportable;
      this.createdAt := createdAt;
      this.imported := imported;
    }

    /** What is written to storage for this entry. */
    function Value(): Stored
      reads privateKey
    {
      Stored(privateKey[..], publicKey, uncompressed, exportable, createdAt, imported)
    }
  }

  /** Every byte of the buffer is zero. */
  ghost predicate Wiped(b: Buffer)
    reads b
  {
    b[..] == Zeros(b.Length)
  }

  method SecureZero(b: Buffer)
    modifies b
    ensures Wiped(b)
  {
    for i := 0 to b.Length
      invariant forall k :: 0 <= k < i ==> b[k] == 0
    {
      b[i] := 0;
    }
  }

  /** Decoding a storage entry, or generating a key: an entry with a fresh buffer of its own. */
  method NewEntry(value: Stored) returns (entry: KeyEntry)
    ensures fresh(entry) && fresh(entry.privateKey) && entry.Value() == value
  {
    var buffer := new byte[|value.privateKey|](i requires 0 <= i < |value.privateKey| => value.privateKey[i]);
    assert buffer[..] == value.privateKey;
    entry := new KeyEntry(buffer, value.publicKey, value.uncompressed, value.exportable, value.createdAt, value.imported);
  }

  /** The entry that import builds: it owns a copy of the key bytes. */
  method CopiedEntry(input: Buffer, publicKey: seq<byte>, exportable: bool, now: int) returns (entry: KeyEntry)
    ensures fresh(entry) && fresh(entry.privateKey)
    ensures entry.Value() == Stored(input[..], publicKey, [], exportable, now, true)
  {
    var copied := new byte[input.Length];
    forall i | 0 <= i < input.Length {
      copied[i] := input[i];
    }
    assert copied[..] == input[..];
    entry := new KeyEntry(copied, publicKey, [], exportable, now, true);
  }

  class Plugin {
    var storage: map<string, Stored>
    var keyCache: map<string, KeyEntry>

    ghost function Buffers(): set<Buffer>
      reads this
    {
      set name | name in keyCache :: keyCache[name].privateKey
    }

    /** No two cached names share a private-key buffer. */
    ghost predicate Valid()
      reads this
    {
      forall a, b :: a in keyCache && b in keyCache && a != b ==> keyCache[a].privateKey != keyCache[b].privateKey
    }

    /** The cached entries as values. */
    ghost function Cached(): map<string, Stored>
      reads this, Buffers()
    {
      map name | name in keyCache :: keyCache[name].Value()
    }

    ghost function Abs(): State
      reads this, Buffers()
    {
      State(storage, Cached())
    }

    constructor ()
      ensures Valid() && Abs() == State(map[], map[])
    {
      storage := map[];
      keyCache := map[];
    }

    /** setKeyInCache. */
    method SetKeyInCache(name: string, entry: KeyEntry)
      requires Valid() && entry.privateKey !in Buffers()
      modifies this`keyCache
      ensures Valid() && storage == old(storage)
      ensures keyCache == old(keyCache)[name := entry]
      ensures Abs() == old(Abs()).(cache := old(Abs()).cache[name := entry.Value()])
    {
      keyCache := keyCache[name := entry];
    }

    /** getKey: a miss fills the cache with a freshly decoded entry. */
    method GetKey(name: string, getFails: bool) returns (failed: bool, entry: KeyEntry?)
      requires Valid()
      modifies this`keyCache
      ensures Valid() && fresh(Buffers() - old(Buffers()))
      ensures Abs() == KeyStore.GetKey(old(Abs()), name, getFails).0
      ensures entry != null ==> !failed && name in keyCache && keyCache[name] == entry
      ensures KeyStore.GetKey(old(Abs()), name, getFails).1 ==
              if failed then Failed else if entry == null then Missing else Found(entry.Value())
    {
      if name in keyCache {
        return false, keyCache[name];
      }
      if getFails {
        return true, null;
      }
      if name !in storage {
        return false, null;
      }
      failed := false;
      entry := NewEntry(storage[name]);
      SetKeyInCache(name, entry);
    }

    method PathKeyRead(name: string, getFails: bool) returns (reply: Reply)
      requires Valid()
      modifies this`keyCache
      ensures Valid()
      ensures (Abs(), reply) == Read(old(Abs()), name, getFails)
    {
      if name == "" {
        return MissingName;
      }
      var failed, entry := GetKey(name, getFails);
      if failed {
        return StorageError;
      }
      if entry == null {
        return NotFound;
      }
      reply := Described(PublicOf(entry.Value()));
    }

    method PathKeyExport(name: string, getFails: bool) returns (reply: Reply)
      requires Valid()
      modifies this`keyCache
      ensures Valid()
      ensures (Abs(), reply) == Export(old(Abs()), name, getFails)
    {
      if name == "" {
        return MissingName;
      }
      var failed, entry := GetKey(name, getFails);
      if failed {
        return StorageError;
      }
      if entry == null {
        return NotFound;
      }
      if !entry.exportable {
        return NotExportable;
      }
      reply := Exported(entry.privateKey[..], PublicOf(entry.Value()));
    }

    /** Put, then cache: the shared end of create and import. */
    method PutAndCache(name: string, entry: KeyEntry, put: Write) returns (reply: Reply)
      requires Valid() && entry.privateKey !in Buffers() && name !in storage
      modifies this
      ensures Valid() && Buffers() <= old(Buffers()) + {entry.privateKey}
      ensures (Abs(), reply) == Add(old(Abs()), name, old(entry.Value()), false, put)
      ensures reply.Described? ==> name in keyCache && keyCache[name] == entry
    {
      if put == Refused {
        return StorageError;
      }
      storage := storage[name := entry.Value()];
      assert Cached() == old(Cached());
      if put == DoneUnconfirmed {
        return StorageError;
      }
      SetKeyInCache(name, entry);
      reply := Described(PublicOf(entry.Value()));
    }

    method PathKeyCreate(name: string, generated: Stored, getFails: bool, put: Write) returns (reply: Reply)
      requires Valid()
      modifies this
      ensures Valid()
      ensures (Abs(), reply) == Create(old(Abs()), name, generated, getFails, put)
    {
      if name == "" {
        return MissingName;
      }
      if getFails {
        return StorageError;
      }
      if name in storage {
        return AlreadyExists;
      }
      var entry := NewEntry(generated);
      reply := PutAndCache(name, entry, put);
    }

    /** The entry that import stores and caches owns a copy of the key bytes. */
    method StoreCopy(name: string, input: Buffer, publicKey: seq<byte>, exportable: bool, now: int, put: Write)
      returns (reply: Reply)
      requires Valid() && input !in Buffers() && name !in storage
      modifies this
      ensures Valid() && input !in Buffers()
      ensures (Abs(), reply) == Add(old(Abs()), name, Stored(input[..], publicKey, [], exportable, now, true), false, put)
    {
      var entry := CopiedEntry(input, publicKey, exportable, now);
      assert Cached() == old(Cached());
      reply := PutAndCache(name, entry, put);
    }

    /** pathKeyImport from the moment the ciphertext has been decoded into input. Whatever happens,
        input is zeroed on the way out; what is stored and cached is a copy that keeps the bytes. */
    method ImportDecoded(name: string, input: Buffer, publicKey: seq<byte>, exportable: bool, now: int, put: Write)
      returns (reply: Reply)
      requires Valid() && input !in Buffers() && name !in storage && name != ""
      modifies this, input
      ensures Valid() && input !in Buffers()
      ensures Wiped(input)
      ensures (Abs(), reply) == Import(old(Abs()), name, Decoded(old(input[..])), publicKey, exportable, now, false, put)
    {
      hide Add;
      if input.Length != 32 {
        reply := InvalidKey;
      } else {
        reply := StoreCopy(name, input, publicKey, exportable, now, put);
      }
      ghost var done := Cached();
      SecureZero(input);
      assert Cached() == done;
    }

    /** The decoded ciphertext is a buffer that nothing else holds. */
    method PathKeyImport(name: string, text: Ciphertext, publicKey: seq<byte>, exportable: bool, now: int,
                         getFails: bool, put: Write) returns (reply: Reply)
      requires Valid()
      modifies this
      ensures Valid()
      ensures (Abs(), reply) == Import(old(Abs()), name, text, publicKey, exportable, now, getFails, put)
    {
      if name == "" {
        return MissingName;
      }
      if text.Absent? {
        return MissingCiphertext;
      }
      if getFails {
        return StorageError;
      }
      if name in storage {
        return AlreadyExists;
      }
      if text.NotBase64? {
        return InvalidKey;
      }
      var input := new byte[|text.bytes|](i requires 0 <= i < |text.bytes| => text.bytes[i]);
      assert input[..] == text.bytes;
      reply := ImportDecoded(name, input, publicKey, exportable, now, put);
    }

    method PathKeyDelete(name: string, delete: Write) returns (reply: Reply)
      requires Valid()
      modifies this
      ensures Valid()
      ensures (Abs(), reply) == Delete(old(Abs()), name, delete)
    {
      if name == "" {
        return MissingName;
      }
      if delete == Refused {
        return StorageError;
      }
      storage := storage - {name};
      assert Cached() == old(Cached());
      if delete == DoneUnconfirmed {
        return StorageError;
      }
      keyCache := keyCache - {name};
      assert Cached() == old(Cached()) - {name};
      reply := Removed;
    }

    method PathKeysList(names: seq<string>, failing: set<string>) returns (info: map<string, Public>)
      requires Valid()
      modifies this`keyCache
      ensures Valid()
      ensures (Abs(), info) == ListFrom(old(Abs()), names, failing)
    {
      info := map[];
      for i := 0 to |names|
        invariant Valid() && storage == old(storage) && fresh(Buffers() - old(Buffers()))
        invariant (Abs(), info) == ListFrom(old(Abs()), names[..i], failing)
      {
        assert names[..i + 1][..i] == names[..i];
        var failed, entry := GetKey(names[i], names[i] in failing);
        if failed || entry == null {
          continue;
        }
        info := info[names[i] := PublicOf(entry.Value())];
      }
      assert names[..|names|] == names;
    }

    method InvalidatePath(path: string)
      requires Valid()
      modifies this`keyCache
      ensures Valid()
      ensures Abs() == old(Abs()).(cache := Invalidate(old(Abs()).cache, path))
    {
      if PREFIX <= path {
        if path == PREFIX {
          keyCache := map[];
        } else {
          keyCache := keyCache - {path[|PREFIX|..]};
        }
      }
    }

    /** What the deleting loops and deleteKeyFromCache do to one cached entry. */
    method Evict(name: string)
      requires Valid() && name in keyCache
      modifies this`keyCache, keyCache[name].privateKey
      ensures Valid() && keyCache == old(keyCache) - {name}
      ensures Buffers() == old(Buffers()) - {old(keyCache[name]).privateKey}
      ensures Wiped(old(keyCache[name]).privateKey)
    {
      SecureZero(keyCache[name].privateKey);
      keyCache := keyCache - {name};
      forall b | b in old(Buffers()) && b != old(keyCache[name]).privateKey ensures b in Buffers() {
        var other :| other in old(keyCache) && old(keyCache)[other].privateKey == b;
        assert other in keyCache && keyCache[other].privateKey == b;
      }
    }

    /** deleteKeyFromCache: the evicted buffer is zeroed, every other cached key keeps its bytes. */
    method DeleteKeyFromCache(name: string)
      requires Valid()
      modifies this`keyCache, if name in keyCache then {keyCache[name].privateKey} else {}
      ensures Valid()
      ensures name in old(keyCache) ==> Wiped(old(keyCache[name]).privateKey)
      ensures Abs() == old(Abs()).(cache := old(Abs()).cache - {name})
    {
      if name in keyCache {
        Evict(name);
      }
      assert Cached() == old(Cached()) - {name};
    }

    /** clearCache, and cleanup at shutdown: every evicted private key is zeroed, the map is empty. */
    method ClearCache()
      requires Valid()
      modifies this`keyCache, Buffers()
      ensures Valid() && keyCache == map[]
      ensures forall b :: b in old(Buffers()) ==> Wiped(b)
      ensures Abs() == old(Abs()).(cache := map[])
    {
      while keyCache != map[]
        invariant Valid() && Buffers() <= old(Buffers())
        invariant forall b :: b in old(Buffers()) && b !in Buffers() ==> Wiped(b)
        decreases |keyCache|
      {
        var name :| name in keyCache;
        Evict(name);
      }
      keyCache := map[];
    }
  }
}
