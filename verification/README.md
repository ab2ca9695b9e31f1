# POPSigner: a verified model

POPSigner keeps secp256k1 keys in OpenBao and lets blockchain software sign with them. This project
models the parts of it that are algorithms or protocols and proves what they are for:

| modules | what they model |
|---|---|
| `Bytes`, `Words`, `Rlp`, `Transaction` | the hand-written RLP encoder and the Ethereum transactions built with it: what is hashed, what is broadcast. A strict decoder (Appendix B of the Ethereum Yellow Paper), which the repository lacks, is the encoder's partner |
| `Regroup`, `Polymod`, `Remainder`, `Bech32`, `Bech32Encoders`, `Published` | the Go and the Rust bech32 encoder (BIP-173), its checksum as linear algebra and as a remainder over GF(32), a receiver, which the repository lacks, and one of the standard's test strings |
| `Signatures` | DER (X.690) and 64-byte signatures in the plugin, their conversions, the length dispatch of the verify handler, Ethereum's v |
| `KeyStore`, `Backend`, `CacheRaces`, `DeleteRaces` | the plugin's key cache against its storage: as values, as an object with shared buffers that are zeroed in place, and as interleaved handlers |
| `MetadataStore`, `UndoneRenames`, `BaoStore` | the local metadata file with temporary file, fsync, rename and dirty flag, under failing steps and crashes, some of which undo renames |
| `Keyring`, `Decimals`, `CreateBatch`, `Migration` | the keyring over two stores with compensating deletes, its parallel batch create, and moving keys in and out |
| `SlidingWindow`, `FixedWindow` | the two Redis rate limiters over whole runs of requests |
| `Conditions`, `BackupMachine`, `RestoreMachine` | the operator's backup and restore controllers against an adversarial environment |
| `Decimals`, `ParseValue` | popctl's parser for amounts such as `0.5gwei` |

Where the code loops or assigns, the model does: the methods and classes follow the source's control
flow and are proved to do exactly what a function on values says. The theorems are about those
functions. Environment choices (a call that fails, a crash, a clock reading, a scheduler's pick, a
generated key) are parameters, so every result is for all of them. A remote write can end in three
ways (`Wrappers.Write`): done, refused, or done although it reports an error. Hash functions are
parameters, with collision freedom a hypothesis where it is needed.

## Findings

Where a property one would expect is false of the code, the code is modelled as it is, an example
shows the failure, and the exact condition is proved.

- **Transactions.** The handler hashes a legacy transaction for the requested chain id of any size, but v
  passes through two 64-bit integers. What is broadcast is bound to the hashed chain exactly for positive
  ids up to 2 to the 62 less 18 (and for the ids that bind none, as stated in `Transaction.ChainCarried`);
  chain 2 to the 64 plus 1 is broadcast as chain 1 (`Transaction.LargeChainIsMisbound`).
- **Key cache.** The cache stays equal to storage over any sequential run exactly when no storage
  delete of a cached key is carried out but reported as failed (`KeyStore.CoherentThroughout`).
  Interleaved, a stale entry is left exactly by a fill whose value storage no longer holds, or a write
  done but reported as failed, that no other handler repairs (`CacheRaces.StepConsistency`). Deletes are
  not the only cause: without any, the cache is right at every point of every interleaving exactly when
  no two requests create different keys under one free name (`CacheRaces.SettledWithoutRivals`). With
  deletes and without unconfirmed writes, every interleaving ends right exactly when none of four pairs
  or triples of requests meet under one name: a read that can miss and a delete of a stored key, a create
  and a delete of a free name, a create and two deletes of a stored one, two creates of different keys
  under a name that is free or that a delete may free (`DeleteRaces.SettledUnlessEndangered`).
- **Signatures.** The verify handler takes every 64-byte signature for R||S. A DER signature is read
  back exactly when it is not 64 bytes long (`Signatures.DispatchReadsBack`), and 64-byte ones exist
  (`Signatures.MisreadExample`).
- **Bech32.** Outside ASCII the Go and the Rust encoder expand a prefix differently, always
  (`Bech32Encoders.ExpansionsAgree`).
- **Metadata store.** `Save` keeps the caller's pointer: an edit through it afterwards reaches the next
  sync although nothing is dirty, exactly when it changes something (`BaoStore.EditRecord`,
  `BaoStore.EditByte`). A record saved under two names is renamed in both entries
  (`BaoStore.BaoStore.Rename`). The directory is never synced: if a crash may undo the last u renames, a
  confirmed write is safe once u more have followed it and not before
  (`UndoneRenames.ConfirmedSurvives`, `UndoneRenames.UndoneToTheStart`); the file is whole either way
  (`UndoneRenames.FileIsWhole`).
- **Keyring.** A key without metadata is left behind exactly when a remote create is done but reported
  as failed, or a compensating delete is refused while no metadata was kept (`Keyring.AddKeyOrphans`).
  Metadata without a key is left behind exactly by a local save that fails after reaching memory with a
  cleanup that works (`Keyring.AddKeyDangling`) and by a remote delete that is done but reported as failed
  (`Keyring.DeleteKeyBothStores`); such a name is taken and useless (`Keyring.DanglingNameIsStuck`).
  `Rename` cuts a key off from signing (`Keyring.RenameBreaksSigning`). Nothing else separates the two
  stores (`Keyring.AlignedThroughout`).
- **Sliding window.** Members are nanosecond timestamps, so requests at one instant count as one: the
  limit is kept on every run exactly when the clock never shows an instant to two checks
  (`SlidingWindow.LimitedIfDistinct`), and otherwise exceeded by at most the repeats
  (`SlidingWindow.WindowBound`, `SlidingWindow.RepeatsAreAllExtra`). With float64 scores the interval it
  is kept in is 256 nanoseconds shorter than a second, and no less
  (`SlidingWindow.LimitedUpToWindow`).
- **Restore and backup.** One job per object fails when a job is deleted. Over any run at most one is
  created exactly when no reconcile takes the creating branch after a deletion
  (`BackupMachine.AtMostOneJob`, `RestoreMachine.AtMostOneJob`). Both controllers can be led there
  (`BackupMachine.DeletedJobIsRecreated`, `RestoreMachine.DeletedJobIsRecreated`). A restore that fails
  before it starts the applications never scales up what it stopped
  (`RestoreMachine.ScalesUpOnlyStarting`, `RestoreMachine.FailedRestoreLeavesApps`).
- **Amounts.** A decimal is exact exactly when its unit has that many places or its fraction is zero
  (`ParseValue.DecimalIsExact`); a minus sign reaches only the whole part
  (`ParseValue.NegativeDecimalIsExact`); any text before the dot is accepted, as zero if it is no
  integer (`ParseValue.AcceptedWhen`, `ParseValue.UnreadableWholeIsZero`).

## Model

| member | source | states |
|---|---|---|
| `Bytes.MinBytesValue` | control-plane/internal/ethereum/transaction.go:335-345 | the minimal big-endian form of a number has that value, no leading zero, and is empty exactly for zero |
| `Bytes.MinBytesOfValue` | control-plane/internal/ethereum/transaction.go:335-345 | a byte string without leading zero is the minimal form of its own value, so minimal forms are unique |
| `Bytes.BEAppend` | control-plane/internal/ethereum/transaction.go:335-345 | byte strings are big-endian: what comes first weighs more |
| `Rlp.BigIntToMinBytes` | control-plane/internal/ethereum/transaction.go:335-345 | the trimming loop returns the minimal form of the magnitude |
| `Rlp.RlpEncodeLength` | control-plane/internal/ethereum/transaction.go:324-332 | tag byte, with byte wrap-around, and length bytes as the item encoding has them |
| `Rlp.RlpEncodeBytes` | control-plane/internal/ethereum/transaction.go:303-308 | a byte string's item encoding; a single byte below 0x80 is itself |
| `Rlp.RlpEncodeUint` | control-plane/internal/ethereum/transaction.go:310-315 | an unsigned integer is encoded as its minimal bytes, zero as the empty string |
| `Rlp.RlpEncodeBigInt` | control-plane/internal/ethereum/transaction.go:317-322 | a big integer is encoded as the minimal bytes of its magnitude, nil as zero |
| `Rlp.RlpEncodeItem` | control-plane/internal/ethereum/transaction.go:279-301 | each dynamic type is encoded as the item it stands for, unknown types and negative ints as the empty string |
| `Rlp.RlpEncodeList` | control-plane/internal/ethereum/transaction.go:269-277 | the buffer loop produces the encoding of the list of its items |
| `Rlp.LengthBytes` | control-plane/internal/ethereum/transaction.go:324-332 | no tag overflows: any length a slice can have takes one to eight length bytes without leading zero |
| `Rlp.EncIsStandard` | control-plane/internal/ethereum/transaction.go:269-332 | every encoding has the tags of the standard: 0x80 and 0xc0 plus a length up to 55, 0xb7 and 0xf7 plus the number of length bytes above it |
| `Rlp.PrefixRead` | control-plane/internal/ethereum/transaction.go:324-332 | a prefix followed by anything long enough reads back as the kind, the prefix length and the payload length |
| `Rlp.DecodeEnc` | control-plane/internal/ethereum/transaction.go:269-332 | decoding an encoded item followed by any tail gives the item and exactly the tail |
| `Rlp.DecodeAllEnc` | control-plane/internal/ethereum/transaction.go:269-277 | decoding the payload of a list gives all its items |
| `Rlp.EncDecode` | control-plane/internal/ethereum/transaction.go:279-332 | whatever the strict decoder accepts is the encoding of what it returns, followed by the rest |
| `Rlp.EncDecodeAll` | control-plane/internal/ethereum/transaction.go:269-277 | the same for sequences of items |
| `Rlp.UniqueDecoding` | control-plane/internal/ethereum/transaction.go:269-332 | two streams that start with encodings are equal if and only if the items and the tails are: the code is prefix-free |
| `Rlp.ValueReadsBack` | control-plane/internal/ethereum/transaction.go:279-301 | a value of each dynamic type reads back as that value: numbers without leading zero, a big integer up to its sign, lists element by element |
| `Transaction.EncodeAccessList` | control-plane/internal/ethereum/transaction.go:251-265 | the nested loops stand for one [address, keys] list per tuple, in order |
| `Transaction.RlpEncodeLegacyForSigning` | control-plane/internal/ethereum/transaction.go:154-178 | the bytes whose items are nonce, gas price, gas limit, receiver, value and data of the transaction, in this order, and for exactly a positive chain id also id, 0, 0 (EIP-155) |
| `Transaction.RlpEncodeEIP1559ForSigning` | control-plane/internal/ethereum/transaction.go:180-200 | after the byte 0x02, the bytes whose nine items are the members of the transaction in the order of EIP-1559 |
| `Transaction.RlpEncodeLegacySigned` | control-plane/internal/ethereum/transaction.go:202-222 | the bytes whose nine items are the six members of the transaction and v, r, s |
| `Transaction.RlpEncodeEIP1559Signed` | control-plane/internal/ethereum/transaction.go:224-249 | the byte 0x02 and the bytes whose twelve items are the nine members of the transaction and v, r, s |
| `Transaction.SigningHash` | control-plane/internal/ethereum/transaction.go:109-123 | the hash of the signing bytes, which say every member of the transaction and the chain |
| `Transaction.EncodeRLP` | control-plane/internal/ethereum/transaction.go:136-143 | the broadcast bytes, which say every member of the transaction and v, r, s |
| `Transaction.SignAndEncode` | control-plane/internal/handler/jsonrpc/eth_sign_transaction.go:86-122 | the pipeline with its two 64-bit conversions: what it emits says every member of the transaction; a receiver recomputes from it the preimage whose hash was signed if and only if the transaction is dynamic-fee or its chain id is carried |
| `Transaction.ReadAccessItems` | control-plane/internal/ethereum/transaction.go:251-265 | an access list reads back from its items |
| `Transaction.ReadFieldItems` | control-plane/internal/ethereum/transaction.go:154-200 | every field of either kind reads back from the item list |
| `Transaction.OpenEnvelope` | control-plane/internal/ethereum/transaction.go:109-143 | an envelope opens to its kind and items: an untyped one is never taken for a typed one |
| `Transaction.ReadPreimageOf` | control-plane/internal/ethereum/transaction.go:109-200 | a signing preimage reads back to the fields and the bound chain |
| `Transaction.ReadBroadcastOf` | control-plane/internal/ethereum/transaction.go:202-249 | a broadcast transaction reads back to its fields and v, r, s |
| `Transaction.SigningBytesSay` | control-plane/internal/ethereum/transaction.go:109-200 | for every transaction and chain id, what a strict reader finds in the hashed bytes, item by item: each member of the transaction in its place, 0x02 in front for a dynamic-fee one, and the chain, 0, 0 exactly where they belong |
| `Transaction.SignedBytesSay` | control-plane/internal/ethereum/transaction.go:202-249 | the same for the broadcast bytes, with v, r, s at the end |
| `Transaction.PreimageInjective` | control-plane/internal/ethereum/transaction.go:109-200 | two requests have the same preimage if and only if they agree in kind and in every member that their kind has, big integers up to sign, and for legacy ones in the bound chain |
| `Transaction.OneHashOneTransaction` | control-plane/internal/ethereum/transaction.go:109-123 | with a collision-free hash, equal signing hashes mean just that |
| `Transaction.ChainOfLegacyV` | control-plane/internal/handler/jsonrpc/eth_sign_transaction.go:92-97 | for every chain id, the broadcast v names the hashed chain if and only if the id is carried: a positive one up to 2 to the 62 less 18 |
| `Transaction.LegacyV` | plugin/secp256k1/path_sign_evm.go:61-92 | a legacy transaction gets exactly the v of its chain and recovery bit (EIP-155, or 27 and 28 without a chain) if and only if a positive id is carried, or another id has low 64 bits that are not positive or wrap round to it |
| `Transaction.EmittedReadsBack` | control-plane/internal/ethereum/transaction.go:126-143 | the emitted bytes always say every member of the transaction, r and s; their v is the one the standards ask for (35 plus twice the chain, or 27, or nothing, plus the recovery bit) if and only if the transaction is dynamic-fee or `LegacyV` has it so |
| `Transaction.LargeChainIsMisbound` | control-plane/internal/handler/jsonrpc/eth_sign_transaction.go:92-113 | a request for chain 2 to the 64 plus 1 is hashed for that chain and broadcast for chain 1 |
| `Transaction.BroadcastIsHashed` | control-plane/internal/ethereum/transaction.go:126-143 | the preimage recomputed from the broadcast bytes alone is the hashed one if and only if the transaction is dynamic-fee or its chain id is carried |
| `Regroup.BitsOfWrapped` | sdk-go/celestia.go:545-556 | adding a multiple of 2 to the W changes none of the low W bits, so wrap-around is harmless |
| `Regroup.UnpackPack` | sdk-go/celestia.go:543-556 | cutting a bit string into groups and spelling the groups gives the bit string back |
| `Regroup.PackUnpack` | sdk-go/celestia.go:543-556 | spelling numbers as bits and cutting them gives the numbers back |
| `Regroup.ToSymbolsBits` | sdk-go/celestia.go:543-556 | ceil(8n/5) symbols below 32 whose bits are the data's, zero padded by fewer than five; no other symbols have these bits |
| `Regroup.FromToSymbols` | sdk-go/celestia.go:543-556 | the regrouping is invertible for every input length |
| `Regroup.ToSymbolsWhen` | sdk-go/celestia.go:543-556 | the regrouping keeps the number: its result is the only sequence of ceil(8n/5) symbols that spells, in base 32, the big-endian value of the bytes followed by the padding |
| `Polymod.StepLinear` | sdk-go/celestia.go:591-598 | one checksum step is linear over GF(2) |
| `Polymod.StepBound` | sdk-go/celestia.go:591-598 | the register stays below 30 bits |
| `Polymod.ZeroStepInjective` | sdk-go/celestia.go:591-598 | a step on a zero symbol sends only the zero register to zero |
| `Polymod.RunLinear` | sdk-go/celestia.go:588-601 | whole words are linear over GF(2) |
| `Polymod.ZerosInjective` | sdk-go/celestia.go:588-601 | any number of zero symbols keeps a nonzero register nonzero |
| `Polymod.ShortNonzero` | sdk-go/celestia.go:588-601 | up to six symbols, not all zero, leave a nonzero register |
| `Polymod.RunDigits` | sdk-go/celestia.go:561-564 | six symbols fed into the zero register are packed into it: checksum symbols spell the register |
| `Polymod.BurstChangesRun` | sdk-go/celestia.go:588-601 | any change confined to six consecutive symbols, anywhere in a word of any length, changes the final register |
| `Polymod.ChecksumVerifies` | sdk-go/celestia.go:558-564 | six symbols make a word verify if and only if they are its checksum |
| `Remainder.StepDigit` | sdk-go/celestia.go:589-598 | one step, digit by digit: shift in the symbol and add the digit shifted out times the generator coefficient, multiplied in GF(32) with a^5 = a^3 + 1 |
| `Remainder.RegisterIsRemainder` | sdk-go/celestia.go:588-601 | six symbols are the register after a word if and only if they are the remainder of start and word modulo x^6 + {29}x^5 + {22}x^4 + {20}x^3 + {21}x^2 + {29}x + {18} |
| `Remainder.RemainderUnique` | sdk-go/celestia.go:588-601 | quotient and remainder are unique |
| `Remainder.VerifiesWhen` | sdk-go/celestia.go:588-601 | a word verifies if and only if, with a one in front, it leaves the remainder one |
| `Remainder.ChecksumWhen` | sdk-go/celestia.go:558-564 | six symbols are the checksum of a word if and only if they give it that remainder |
| `Remainder.EncodedIsCodeword` | sdk-go/celestia.go:542-586 | prefix and symbols of every encoded string leave that remainder |
| `Published.PublishedString` | sdk-go/celestia.go:542-601 | the test string of BIP-173 whose data part is the whole character set is what the encoding gives for its prefix and bytes |
| `Bech32.RoundTrip` | sdk-go/celestia.go:542-586 | every emitted string, for every ASCII prefix and all data, is accepted and yields prefix and data again |
| `Bech32.BurstNoticed` | sdk-go/celestia.go:588-601 | a different word that agrees with an emitted one outside six symbols does not verify |
| `Bech32.CorruptionRejected` | sdk-go/celestia.go:542-601 | changing up to six consecutive characters after the separator, without writing a separator, is always rejected |
| `Bech32Encoders.WrapKeepsLowBits` | sdk-go/celestia.go:546-547 | wrapping the unmasked accumulator to 64 signed or 32 unsigned bits keeps the bits that are read |
| `Bech32Encoders.RegroupGo` | sdk-go/celestia.go:543-556 | the Go loops with a wrapping 64-bit accumulator compute the bit-string regrouping |
| `Bech32Encoders.RegroupRust` | sdk-rust/src/celestia.rs:914-928 | the Rust loops with a wrapping 32-bit accumulator compute the same regrouping |
| `Bech32Encoders.PolymodGo` | sdk-go/celestia.go:588-601 | the Go loops on 64-bit words compute the register, which `RegisterIsRemainder` says is the remainder |
| `Bech32Encoders.PolymodRust` | sdk-rust/src/celestia.rs:967-982 | the Rust loops compute the same register |
| `Bech32Encoders.ExpandHRPGo` | sdk-go/celestia.go:578-586 | the array, written in place at each character's byte offset, for every prefix |
| `Bech32Encoders.SpreadAt` | sdk-go/celestia.go:580-583 | at the first byte offset of each character stands its part, cut to a byte, and zero at the offsets of its other bytes |
| `Bech32Encoders.WidthIsUtf8` | sdk-go/celestia.go:580 | a character takes as many offsets as its UTF-8 form has bytes |
| `Bech32Encoders.ExpansionsAgree` | sdk-go/celestia.go:578-586 | the Go and the Rust expansion of a prefix are equal if and only if it is ASCII, and then both are that of BIP-173 |
| `Bech32Encoders.ExpandHRPRust` | sdk-rust/src/celestia.rs:955-965 | two values per character, of its low eight bits, for every prefix |
| `Bech32Encoders.RustAt` | sdk-rust/src/celestia.rs:955-965 | where each character's two values stand and what they are |
| `Bech32Encoders.ChecksumGo` | sdk-go/celestia.go:561-564 | the shifting loop spells the register in six symbols |
| `Bech32Encoders.ChecksumRust` | sdk-rust/src/celestia.rs:935-938 | the same for the Rust loop |
| `Bech32Encoders.EncodeGo` | sdk-go/celestia.go:542-576 | for every prefix and all data the string whose checksum covers the Go expansion; for ASCII prefixes the specified string |
| `Bech32Encoders.EncodeRust` | sdk-rust/src/celestia.rs:913-953 | the same with the Rust expansion, so the two agree on every ASCII prefix and all data |
| `Signatures.OrderIs` | plugin/secp256k1/crypto.go:170-191 | the scalars' modulus is the order of secp256k1, 2 to the 256 less 432420386565659656852420866394968145599 |
| `Signatures.DerShape` | plugin/secp256k1/crypto.go:147-168 | where tags, lengths and contents of a serialized signature stand |
| `Signatures.ReadScalar` | plugin/secp256k1/crypto.go:170-191 | stripping a 33rd zero, padding and reducing reads a content's value modulo the order |
| `Signatures.ExtractRSFromDER` | plugin/secp256k1/crypto.go:147-191 | on every serialized signature the reader stays in bounds and recovers both scalars |
| `Signatures.FormatCosmosSignature` | plugin/secp256k1/crypto.go:126-144 | the 64 bytes are r and the low of s and n-s |
| `Signatures.CosmosRoundTrip` | plugin/secp256k1/crypto.go:194-218 | the 64 bytes spell r and then the low s, which is below half the order, and parse back to them |
| `Signatures.NormalisingIsIdempotent` | plugin/secp256k1/crypto.go:131-139 | normalising again changes nothing, and s and n-s normalise alike |
| `Signatures.DerParsesExactly` | plugin/secp256k1/path_sign.go:159-161 | strict DER parses to a pair if and only if it is the pair's serialized form |
| `Signatures.DerNeverReadsAsItself` | plugin/secp256k1/path_verify.go:122-129 | a 64-byte DER signature taken for R\|\|S never gives the pair it encodes |
| `Signatures.DispatchReadsBack` | plugin/secp256k1/path_verify.go:122-142 | the dispatch reads back every R\|\|S form, and a DER form if and only if it is not 64 bytes long |
| `Signatures.SignThenVerify` | plugin/secp256k1/path_sign.go:120-156 | both output formats of one signature are read alike by verify if and only if the DER contents do not total 58 bytes |
| `Signatures.MisreadExample` | plugin/secp256k1/path_verify.go:122-142 | a low-S pair whose DER form is 64 bytes long and is misread |
| `Signatures.RecoveryRoundTrip` | plugin/secp256k1/crypto.go:424-444 | the recovery id survives v being cut to one byte, with and without a chain id |
| `KeyStore.ListKeepsCoherence` | plugin/secp256k1/path_keys.go:186-222 | listing leaves storage alone and only adds true cache entries |
| `KeyStore.ListIsExact` | plugin/secp256k1/path_keys.go:186-222 | a listing tells of exactly the stored names whose read does not fail, and tells of each what storage holds |
| `KeyStore.StepCoherence` | plugin/secp256k1/backend.go:54-151 | each operation keeps the cache equal to storage if and only if it is not a lost delete of a cached key |
| `KeyStore.RunCoherence` | plugin/secp256k1/backend.go:54-151 | a run without lost deletes ends coherent |
| `KeyStore.CoherentThroughout` | plugin/secp256k1/path_keys.go:62-183 | a run is coherent at every point if and only if it contains no lost delete |
| `KeyStore.GetKeyIsDirectRead` | plugin/secp256k1/backend.go:127-151 | after any such run getKey answers what a direct storage read would, or a storage error on a miss |
| `KeyStore.LostDeleteServesStaleKey` | plugin/secp256k1/path_keys.go:167-183 | after a lost delete the deleted key is still served |
| `KeyStore.KeptInStorage` | plugin/secp256k1/path_keys.go:62-183 | over any run that neither deletes nor replicates a name, storage keeps its entry |
| `KeyStore.ImportThenExport` | plugin/secp256k1/path_export.go:46-75 | a key that an import stored, confirmed or not, is exported with the same bytes after any undisturbing run if it was imported as exportable, and answered with a refusal otherwise |
| `KeyStore.CreateThenExport` | plugin/secp256k1/path_export.go:46-75 | the same for a generated key |
| `KeyStore.ExportGate` | plugin/secp256k1/path_export.go:46-75 | in every state an export hands out a private key if and only if getKey finds one that is exportable, and then that one; no other answer carries private bytes |
| `KeyStore.ImportStores` | plugin/secp256k1/path_import.go:50-126 | an import stores a key if and only if it has a free name and 32 decoded bytes and no call refuses; what it stores; when it says so |
| `KeyStore.CreateStores` | plugin/secp256k1/path_keys.go:62-126 | the same for a create |
| `KeyStore.DeletedStaysGone` | plugin/secp256k1/path_keys.go:167-183 | after a confirmed delete the key is not found by any later read or export until something is stored under its name |
| `KeyStore.InvalidateDrops` | plugin/secp256k1/backend.go:54-67 | an invalidated path drops exactly the entry it names, or all for the bare prefix |
| `KeyStore.EmptyingRecovers` | plugin/secp256k1/backend.go:54-90 | whatever has become of storage, invalidating the bare prefix and a cleanup make the cache right |
| `Backend.SecureZero` | plugin/secp256k1/crypto.go:221-226 | every byte of the buffer becomes zero |
| `Backend.CopiedEntry` | plugin/secp256k1/path_import.go:92-100 | the import's entry owns a fresh buffer with the input's bytes |
| `Backend.Plugin.GetKey` | plugin/secp256k1/backend.go:127-151 | cache, storage, fill: the abstract state and reply as specified, the filled buffer fresh |
| `Backend.Plugin.SetKeyInCache` | plugin/secp256k1/backend.go:94-98 | only the named cache entry changes; no two names share a buffer |
| `Backend.Plugin.PathKeyCreate` | plugin/secp256k1/path_keys.go:62-126 | state and reply as specified in every failure case |
| `Backend.Plugin.PathKeyRead` | plugin/secp256k1/path_keys.go:129-164 | state and reply as specified |
| `Backend.Plugin.PathKeyExport` | plugin/secp256k1/path_export.go:39-76 | state and reply as specified; `KeyStore.ExportGate` says when that carries private bytes |
| `Backend.Plugin.PathKeyDelete` | plugin/secp256k1/path_keys.go:167-183 | storage first, cache only after a confirmed delete |
| `Backend.Plugin.PathKeysList` | plugin/secp256k1/path_keys.go:186-222 | the loop fills the cache and the map as specified, skipping failing names |
| `Backend.Plugin.StoreCopy` | plugin/secp256k1/path_import.go:92-114 | what is stored and cached is a copy with the input's bytes, and the input is not shared |
| `Backend.Plugin.ImportDecoded` | plugin/secp256k1/path_import.go:75-114 | the input is zeroed on every way out while stored and cached entries keep the bytes |
| `Backend.Plugin.PathKeyImport` | plugin/secp256k1/path_import.go:50-126 | state and reply as specified, in the source's order of checks |
| `Backend.Plugin.InvalidatePath` | plugin/secp256k1/backend.go:54-67 | a key path drops that entry, the bare prefix all, another path none |
| `Backend.Plugin.DeleteKeyFromCache` | plugin/secp256k1/backend.go:101-110 | the evicted buffer is all zero and every other cached key keeps its bytes |
| `Backend.Plugin.ClearCache` | plugin/secp256k1/backend.go:71-123 | every buffer that was cached is all zero and the map is empty, for clearCache and cleanup |
| `CacheRaces.AloneIsSequential` | plugin/secp256k1/path_keys.go:62-183 | a request whose steps are not interrupted does to storage and cache what the sequential operation does, however its storage calls end |
| `CacheRaces.StepConsistency` | plugin/secp256k1/backend.go:94-151 | a step of any handler keeps every stale name repairable if and only if it is neither an overtaken fill nor a write done but reported as failed over a cached entry |
| `CacheRaces.RunConsistency` | plugin/secp256k1/path_keys.go:62-183 | so does any interleaving without such steps |
| `CacheRaces.ConsistentThroughout` | plugin/secp256k1/path_keys.go:62-183 | every point of an interleaving has only repairable stale names if and only if it contains no such step |
| `CacheRaces.QuietMeansCoherent` | plugin/secp256k1/path_keys.go:62-183 | when all handlers of such an interleaving are done, every cached entry is what storage holds |
| `CacheRaces.SettledWithoutRivals` | plugin/secp256k1/path_keys.go:62-126 | from requests none of which deletes, the cache is right at every point of every interleaving if and only if no two of them create or import different keys under one free name |
| `CacheRaces.WithoutWritersOnlyDeletes` | plugin/secp256k1/backend.go:127-151 | without creates and imports, an overtaken fill is of a name that a delete removed |
| `CacheRaces.DeleteOvertakesFill` | plugin/secp256k1/path_keys.go:167-183 | in any system with a reader and a deleter of a stored, uncached key, an interleaving that leaves the deleted key cached |
| `CacheRaces.RacingCreatesLeaveStaleEntry` | plugin/secp256k1/path_keys.go:62-110 | in any system with two such creates, an interleaving after which both are done and the cache holds a key that storage does not |
| `DeleteRaces.SettledUnlessEndangered` | plugin/secp256k1/path_keys.go:62-183 | from any new requests, deletes included, every interleaving with confirmed or refused storage calls ends with a cache that agrees with storage if and only if no name is endangered by one of four combinations of requests |
| `DeleteRaces.ModeRun` | plugin/secp256k1/path_keys.go:62-183 | where no name is endangered, one of six invariants on storage, cache and all handlers is kept for it by every interleaving |
| `DeleteRaces.StaleRun` | plugin/secp256k1/path_keys.go:167-183 | where one is, a run that finishes every request, whatever the others are, and ends with a stale entry |
| `DeleteRaces.CreateOvertaken` | plugin/secp256k1/path_keys.go:105-110 | a delete between a create's Put and its cache write leaves the deleted key cached |
| `MetadataStore.OpeningIsGood` | bao_store.go:23-82 | a store opened on a whole file satisfies the invariant |
| `MetadataStore.ApplyIsGood` | bao_store.go:86-248 | every operation keeps it whatever fails: the file is whole, and when not dirty it equals memory |
| `MetadataStore.CrashFindsBeforeOrAfter` | bao_store.go:86-132 | a crash at any moment of an operation leaves the file's map as before or the whole map after, and it can be opened |
| `MetadataStore.CleanStoreLosesAtMostOne` | bao_store.go:152-248 | a store with nothing dirty loses at most the operation under way |
| `MetadataStore.SyncWritesMemory` | bao_store.go:86-132 | a sync of a dirty store writes exactly memory, or leaves the file's map and stays dirty |
| `MetadataStore.FailedSyncIsRetried` | bao_store.go:86-139 | after a failed sync the change is in memory and dirty, and the next working sync writes it |
| `MetadataStore.SaveTakes` | bao_store.go:152-172 | a save is refused exactly without metadata or name and over another address, and otherwise changes that entry alone, whether or not it reaches the disk |
| `MetadataStore.DeleteTakes` | bao_store.go:212-223 | a delete is refused exactly for a missing name and otherwise removes that entry alone |
| `MetadataStore.RenameMoves` | bao_store.go:226-248 | a rename to a free name moves the metadata with all its other members and changes no other entry |
| `MetadataStore.AddressStays` | bao_store.go:152-248 | over any run that does not take a name away, whatever is saved and whatever fails, the name keeps its address |
| `MetadataStore.EventFile` | bao_store.go:86-248 | the two outcomes for one operation or one crash and reopening |
| `MetadataStore.RunIsWhole` | bao_store.go:23-248 | over any run with crashes the file is always the starting map or the whole result of one operation |
| `MetadataStore.ConfirmedSurvives` | bao_store.go:86-248 | once an operation has synced and returned without error, no later failure or crash takes the file back behind it, if crashes keep finished renames |
| `UndoneRenames.RunIsSound` | bao_store.go:86-132 | over any run with crashes that undo renames the store satisfies its invariant, and every version a crash could bring back is the starting map or the whole result of one operation |
| `UndoneRenames.FileIsWhole` | bao_store.go:86-132 | the file is one of these at the end, never a mixture |
| `UndoneRenames.ConfirmedSurvives` | bao_store.go:124-131 | when crashes may undo up to u renames, a run never falls back behind a write that more than u renames, its own the first of them, have made |
| `UndoneRenames.UndoneToTheStart` | bao_store.go:124-131 | one rename fewer does not do: a crash that undoes as many renames as were made brings back the file from before them all |
| `BaoStore.NewBaoStore` | bao_store.go:23-82 | an unreadable or corrupted file is an error; a missing or empty file is a new store, a document its data, every record its own, and on a whole file the invariant holds |
| `BaoStore.BaoStore.SyncLocked` | bao_store.go:86-132 | final state and every disk state on the way are the specified ones, for each failing step |
| `BaoStore.BaoStore.Save` | bao_store.go:152-172 | state, error and disk trace as specified; the record itself stays shared with the caller |
| `BaoStore.BaoStore.Delete` | bao_store.go:212-223 | state, error and disk trace as specified |
| `BaoStore.BaoStore.Rename` | bao_store.go:226-248 | the record is edited in place, so every name it is saved under shows the new name, and then moved and synced; for a record saved under one name, state, error and disk trace are the specified ones |
| `BaoStore.BaoStore.SyncNow` | bao_store.go:135-144 | Sync and Close: state and disk trace as specified |
| `BaoStore.CopyMetadata` | bao_store.go:278-288 | a fresh record with fresh bytes and the same metadata |
| `BaoStore.BaoStore.Get` | bao_store.go:175-184 | found exactly when present, as a copy that shares nothing with the store |
| `BaoStore.EditRecord` | bao_store.go:152-184 | an edit of any fields of a record leaves what the next sync would write as it was if and only if the record is not one the store shares or the edit changes nothing |
| `BaoStore.EditByte` | bao_store.go:152-184 | the same for a byte of a public key behind a record's slice |
| `Keyring.AddKeyOrphans` | bao_keyring.go:340-429 | exactly when adding a key leaves a remote key without metadata |
| `Keyring.AddKeySucceeds` | bao_keyring.go:340-429 | when adding a key reports success |
| `Keyring.AddKeySuccess` | bao_keyring.go:340-429 | a reported success means the remote key is in place and the metadata says its name, public key, address, flag, source and time |
| `Keyring.AddKeyDangling` | bao_keyring.go:340-429 | exactly when adding a key leaves metadata that no remote key stands behind |
| `Keyring.DeleteKeyBothStores` | bao_keyring.go:125-134 | what a delete does to keys without metadata and to metadata without key: it leaves the latter exactly when the remote delete is done but reported as failed |
| `Keyring.DanglingNameIsStuck` | bao_keyring.go:340-451 | under such a name signing, exporting and adding always fail |
| `Keyring.RenameBreaksSigning` | bao_keyring.go:146-148 | after a rename signing works under neither name, unless OpenBao already holds a key of the new name |
| `Keyring.RenameBothStores` | bao_keyring.go:146-148 | the exact effect of a rename on both kinds of mismatch |
| `Keyring.StepAligned` | bao_keyring.go:125-429 | an add, delete or rename keeps the two stores on the same names if and only if it is not one of the listed failures or a rename |
| `Keyring.AlignedThroughout` | bao_keyring.go:125-429 | a run keeps them aligned at every point if and only if it contains none of these |
| `Decimals.DecimalInjective` | bao_keyring.go:496 | decimal numerals are distinct for distinct numbers |
| `CreateBatch.UidInjective` | bao_keyring.go:496 | the names of a batch are pairwise distinct |
| `CreateBatch.UidSays` | bao_keyring.go:496 | each name is the prefix, a dash and the numeral of the index plus one |
| `CreateBatch.StartOk` | bao_keyring.go:478-491 | a batch starts if and only if it has one to a hundred workers and a prefix, and then with every worker's invariant true |
| `CreateBatch.StepOk` | bao_keyring.go:340-381 | any worker's step keeps every worker's invariant, its own and the bystanders' |
| `CreateBatch.StepCovered` | bao_keyring.go:349-378 | a step leaves no unattended remote key without metadata if and only if it is not a leak |
| `CreateBatch.RunWorkersOk` | bao_keyring.go:491-520 | every worker's invariant over every interleaving, leaks or not |
| `CreateBatch.RunOk` | bao_keyring.go:491-520 | without leaks no unattended remote key at any end of an interleaving |
| `CreateBatch.LeakRemains` | bao_keyring.go:354-378 | what one step leaks is still there when the batch is over |
| `CreateBatch.RunDoomed` | bao_keyring.go:491-520 | over every interleaving a worker is bound to fail if and only if one of its own steps met a name in use, a failing call or a failing save |
| `CreateBatch.BatchCorrect` | bao_keyring.go:478-534 | when all workers are done each slot holds exactly one of key and error, an error if and only if one of its worker's steps tripped, and key slots match the remote keys; no remote key lacks metadata if and only if no step leaked |
| `CreateBatch.StepProgress` | bao_keyring.go:494-518 | an unfinished worker's step brings it closer to its end and touches no other worker or slot |
| `CreateBatch.CollectErrors` | bao_keyring.go:523-531 | the final scan lists the failed names in order, none exactly when no slot failed |
| `CreateBatch.FailedNamesExactly` | bao_keyring.go:523-528 | that list has each failed slot's name once and no other |
| `Migration.ImportLosesNothing` | migration/import.go:18-101 | whatever fails, every private key held before an import is held after it |
| `Migration.ExportLosesNothing` | migration/export.go:22-109 | the same for an export |
| `Migration.ImportedBytes` | migration/import.go:59-98 | a successful import put the source's very bytes at the asked name with the asked flag, is verified if and only if signing was tried and worked, and removed the source key if and only if that was asked for, nothing that should be verified was not, and the delete was not refused |
| `Migration.ExportedBytes` | migration/export.go:22-109 | a successful export was confirmed and of an exportable key, changed exactly one free local name to the very bytes, and removed the remote key under the same exact condition |
| `Migration.ImportSucceeds` | migration/import.go:18-101 | when an import succeeds |
| `Migration.ExportSucceeds` | migration/export.go:22-109 | when an export succeeds |
| `Migration.SealedForGood` | migration/export.go:22-109 | over any sequence of imports and exports a key that is not exportable stays in OpenBao as it is, and no export of it succeeds or changes anything |
| `Migration.ImportThenExport` | migration/export.go:60-83 | a key imported into OpenBao and exported again is locally what it was, whatever was deleted in between |
| `Migration.RunLosesNothing` | migration/import.go:59-98 | over any sequence of imports and exports no private key disappears |
| `Migration.BatchLosesNothing` | migration/import.go:138-170 | nor over any part of a batch |
| `Migration.SelectAccounts` | migration/import.go:138-170 | the two result lists account for exactly the names that were reached |
| `Migration.LocalKeyring.ImportPrivKey` | migration/export.go:78 | the local keyring refuses to overwrite; a write may be done and still report failure |
| `Migration.BaoKeyring.ImportKey` | bao_keyring.go:385-429 | both stores and the result as specified, compensating deletes included |
| `Migration.BaoKeyring.Delete` | bao_keyring.go:125-134 | remote first, metadata only after a confirmed delete |
| `Migration.ImportOne` | migration/import.go:18-101 | both keyrings and the result of the imperative import are the specified ones |
| `Migration.ExportOne` | migration/export.go:22-109 | both keyrings and the result of the imperative export are the specified ones |
| `Migration.BatchMovesBytes` | migration/import.go:138-170 | every name reported as imported ends with the source's own bytes and the asked flag at the destination, whatever came after it, and its source key is gone under exactly the stated condition |
| `Migration.BatchImport` | migration/import.go:118-170 | the names asked for, or all that the source lists; an error without effect when listing fails or the context is cancelled first |
| `Migration.ImportEach` | migration/import.go:138-170 | the loop performs the imports of a prefix of the names, at most one more name being reported as cancelled, and its lists are that prefix by outcome, in order |
| `SlidingWindow.Limiter.CheckSlidingWindowRateLimit` | control-plane/internal/middleware/rpc_ratelimit.go:143-170 | prune, count, add, re-arm: new key and decision as specified |
| `SlidingWindow.PrunedIsRecent` | control-plane/internal/middleware/rpc_ratelimit.go:152-162 | at every check of a run the set holds exactly the instants of requests still in the window: pruning and the 2-second expiry drop no live entry |
| `SlidingWindow.AfterHolds` | control-plane/internal/middleware/rpc_ratelimit.go:152-162 | what the key holds after every check of a run |
| `SlidingWindow.AdmittedExactly` | control-plane/internal/middleware/rpc_ratelimit.go:168-169 | a request is admitted if and only if fewer than the limit distinct instants, those of rejected requests included, lie in its window |
| `SlidingWindow.WindowBound` | control-plane/internal/middleware/rpc_ratelimit.go:143-170 | in any interval of one second (one second less 256 ns with float64 scores) at most the limit is admitted, plus the admitted repeats of an instant |
| `SlidingWindow.SameInstantUndercounts` | control-plane/internal/middleware/rpc_ratelimit.go:159 | after any number of requests in one nanosecond, the next is admitted for every limit of at least two |
| `SlidingWindow.RepeatsAreAllExtra` | control-plane/internal/middleware/rpc_ratelimit.go:159 | the bound with repeats is reached, for any number of repeats |
| `SlidingWindow.LimitedIfDistinct` | control-plane/internal/middleware/rpc_ratelimit.go:143-170 | with a clock that shows an instant to at most m checks, the limit is kept on every run if and only if m is one |
| `SlidingWindow.LimitedUpToWindow` | control-plane/internal/middleware/rpc_ratelimit.go:143-170 | with distinct instants the limit is kept in all intervals of a length if and only if it is at most one second, or one second less 256 ns with float64 scores |
| `FixedWindow.Redis.IncrWithExpire` | control-plane/internal/database/redis.go:80-101 | the script's new counter, its count and the time left |
| `FixedWindow.Redis.RateLimit` | control-plane/internal/middleware/ratelimit.go:36-83 | every bucket is hit once, the fullest count decides against limit plus burst; `AdmittedExactly` says what that is in terms of requests |
| `FixedWindow.OneRequest` | control-plane/internal/middleware/ratelimit.go:85-101 | a request hits once the counter of its address and that of the credential it shows, decides no better than either, and moves no other counter |
| `FixedWindow.CounterCountsWindow` | control-plane/internal/database/redis.go:82-88 | after any run the window of an address or a credential began with a request that shows it, ends exactly a window later, that millisecond included, and its count is the number of such requests since |
| `FixedWindow.WindowsAreDisjoint` | control-plane/internal/database/redis.go:82-88 | over any run, such a counter at a later point is in the same window, neither re-armed nor reset, or in one that begins after the old one's end |
| `FixedWindow.HitKeepsBound` | control-plane/internal/database/redis.go:82-88 | one hit keeps the bound on admissions in terms of the running window |
| `FixedWindow.RunBound` | control-plane/internal/middleware/ratelimit.go:42-82 | that bound over every run of requests of all addresses and credentials |
| `FixedWindow.IntervalBound` | control-plane/internal/middleware/ratelimit.go:42-82 | in any interval of one window's length, both ends included, at most two allowances are admitted: of an address, whatever credentials are shown, and of a credential, whatever addresses show it |
| `FixedWindow.OneWindowBound` | control-plane/internal/middleware/ratelimit.go:42-82 | inside one window of its counter at most one allowance of an address or a credential is admitted |
| `FixedWindow.AdmittedExactly` | control-plane/internal/middleware/ratelimit.go:36-95 | over any run from an empty store, with digests that differ, a request is admitted if and only if the requests that show its address in the address's current window, and those that show its credential in the credential's, are within the allowance |
| `Conditions.WithReadyKeepsOne` | operator/controllers/restore_controller.go:424-449 | updating leaves exactly one Ready condition, the new one, and every other condition in place |
| `Conditions.UpdateReady` | operator/controllers/backup_controller.go:308-319 | the search-and-replace loop updates the first Ready condition or appends one |
| `BackupMachine.StepSound` | operator/controllers/backup_controller.go:33-116 | every event keeps jobs conserved and status consistent, never moves the phase back, and leaves terminal statuses alone |
| `BackupMachine.RunSound` | operator/controllers/backup_controller.go:33-116 | the same over every run, with at most one job more than were deleted |
| `BackupMachine.PhaseAfter` | operator/controllers/backup_controller.go:33-116 | the phase after every event, by what a reconcile sees and which calls fail |
| `BackupMachine.EndsExactly` | operator/controllers/backup_controller.go:84-116 | over every run a backup is Completed if and only if one of its reconciles saw the job succeed, and Failed if and only if one of them met a failure |
| `BackupMachine.CreatesExactly` | operator/controllers/backup_controller.go:53-78 | a reconcile creates a job, one that has neither succeeded nor failed, exactly under the stated guard, and leaves an existing one alone |
| `BackupMachine.AtMostOneJob` | operator/controllers/backup_controller.go:53-82 | over every run, at most one job is created if and only if no reconcile takes the creating branch after a deletion |
| `BackupMachine.OneJobWithoutDeletions` | operator/controllers/backup_controller.go:53-82 | without deletions one job at most, and exactly one behind a completed backup |
| `BackupMachine.DeletedJobIsRecreated` | operator/controllers/backup_controller.go:53-82 | after a failed status write and a deletion the job is created a second time |
| `BackupMachine.BackupReconciler.UpdateBackupStatus` | operator/controllers/backup_controller.go:289-326 | phase and Ready condition are persisted, or nothing when the write fails |
| `BackupMachine.BackupReconciler.ReconcileOnce` | operator/controllers/backup_controller.go:33-116 | one reconcile changes job and status as specified for every combination of failing calls |
| `RestoreMachine.UpdateStep` | operator/controllers/restore_controller.go:166-173 | in place, the first step of the name gets the status and nothing else changes |
| `RestoreMachine.StepEdits` | operator/controllers/restore_controller.go:158-173 | each of the three initial steps is edited by its own name only |
| `RestoreMachine.StepSound` | operator/controllers/restore_controller.go:34-156 | every event keeps the invariant (job conservation, steps and marks matching the phase, no job before both deployments were seen down), never moves the phase back and leaves terminal statuses alone |
| `RestoreMachine.RunSound` | operator/controllers/restore_controller.go:34-156 | the same over every run, with at most one job more than were deleted and a completed backup staying completed |
| `RestoreMachine.JobNeedsAppsDown` | operator/controllers/restore_controller.go:101-114 | a job is created only by a reconcile in phase Restoring, and after the deployments were seen down if stopping was asked for |
| `RestoreMachine.SawDownMeansDown` | operator/controllers/restore_controller.go:91-99 | that observation is made only by a reconcile in phase Stopping that finds both deployments missing or without running replicas |
| `RestoreMachine.JobOnlyAfterAppsDown` | operator/controllers/restore_controller.go:91-114 | in any run a restore asked to stop applications has a job only if a reconcile of that run saw both deployments at zero |
| `RestoreMachine.PhaseAfter` | operator/controllers/restore_controller.go:34-156 | the phase after every event, by what a reconcile sees and which calls fail |
| `RestoreMachine.EndsExactly` | operator/controllers/restore_controller.go:34-156 | over every run a restore is Completed if and only if one of its reconciles in phase Starting scaled and saw both deployments ready at the wanted replicas (two where the spec has none), and Failed if and only if one of them met a failure |
| `RestoreMachine.StartsOnlyAfterSuccess` | operator/controllers/restore_controller.go:121-127 | in any run a restore gets to Starting or Completed only if one of its reconciles saw the job succeed |
| `RestoreMachine.JobFailureShows` | operator/controllers/restore_controller.go:128-131 | a reconcile that sees a job with a failure and no success leaves phase Failed, step restore-data Failed and start-applications pending |
| `RestoreMachine.JobOnlyFromBackup` | operator/controllers/restore_controller.go:58-72 | in any run a restore that refers to a backup has a job only if one of its reconciles found that backup completed |
| `RestoreMachine.CreatesExactly` | operator/controllers/restore_controller.go:101-116 | a reconcile creates a job, one that has neither succeeded nor failed, exactly under the stated guard, and leaves an existing one alone |
| `RestoreMachine.AppsAfter` | operator/controllers/restore_controller.go:175-231 | what a reconcile asks of each deployment: zero replicas when a restore that stops applications begins, the wanted ones in phase Starting, nothing otherwise, the first failing update ending it |
| `RestoreMachine.RunShows` | operator/controllers/restore_controller.go:421-458 | over every run there is at most one Ready condition, true exactly in phase Completed and with the phase as reason |
| `RestoreMachine.ScalesUpOnlyStarting` | operator/controllers/restore_controller.go:75-153 | outside phase Starting a reconcile leaves each deployment alone or asks it for zero replicas |
| `RestoreMachine.FailedRestoreLeavesApps` | operator/controllers/restore_controller.go:44-47 | after a run has failed no later reconcile of it changes anything, the replicas of applications it stopped included |
| `RestoreMachine.CompletedBackupStaysUsable` | operator/controllers/restore_controller.go:58-71 | once Completed, the referenced backup lets every later reconcile of any run go on |
| `RestoreMachine.AtMostOneJob` | operator/controllers/restore_controller.go:101-117 | over every run of a fresh restore, at most one job is created if and only if no reconcile takes the creating branch after a deletion |
| `RestoreMachine.OneJobWithoutDeletions` | operator/controllers/restore_controller.go:101-117 | without deletions one job at most, and exactly one behind a completed restore |
| `RestoreMachine.DeletedJobIsRecreated` | operator/controllers/restore_controller.go:107-114 | from any fresh restore, a run in which the deleted job is created a second time |
| `RestoreMachine.RestoreReconciler.UpdateRestoreStatus` | operator/controllers/restore_controller.go:421-458 | phase and Ready condition are persisted, or nothing when the write fails |
| `RestoreMachine.RestoreReconciler.ScaleApps` | operator/controllers/restore_controller.go:175-231 | API then dashboard, a failed update ending the sequence with the first change kept |
| `RestoreMachine.RestoreReconciler.ReconcileOnce` | operator/controllers/restore_controller.go:34-156 | one reconcile changes deployments, job and status as specified for every combination of failing calls |
| `RestoreMachine.RestoreReconciler.BeginRestore` | operator/controllers/restore_controller.go:75-89 | a restore begins: steps reset, both deployments asked for zero replicas when stopping was requested, and on to Stopping, Restoring or Failed as specified |
| `RestoreMachine.RestoreReconciler.AwaitAppsDown` | operator/controllers/restore_controller.go:91-99 | waiting: nothing changes until both deployments run no replica, then two steps and the phase move on as specified |
| `RestoreMachine.RestoreReconciler.RunRestoreJob` | operator/controllers/restore_controller.go:101-133 | the job is created if missing, otherwise its success or failure moves steps and phase as specified |
| `RestoreMachine.RestoreReconciler.AwaitAppsReady` | operator/controllers/restore_controller.go:135-152 | both deployments are asked for their replicas (two where the spec has none) and readiness completes the restore as specified |
| `ParseValue.ParseAmount` | popctl/cmd/tx.go:398-459 | the string edits and the dividing loop compute the specified value or error |
| `ParseValue.TextParses` | popctl/cmd/tx.go:403-420 | spacing around number and unit and the unit's letter case do not matter |
| `ParseValue.DecimalIsExact` | popctl/cmd/tx.go:422-449 | numeral times unit, exactly, if and only if the unit has that many places or the fraction is zero; otherwise only the whole part counts |
| `ParseValue.NegativeDecimalIsExact` | popctl/cmd/tx.go:428-449 | a negative decimal is exact if and only if its fraction is zero |
| `ParseValue.IntegerIsExact` | popctl/cmd/tx.go:452-458 | whole amounts are exact in every unit, with their sign |
| `ParseValue.UnitWorth` | popctl/cmd/tx.go:405-420 | an ether is ten to the 18, a gwei ten to the 9, and a wei, or no unit, one |
| `ParseValue.PrintThenParse` | popctl/cmd/tx.go:398-459 | every amount printed with all places of any unit parses back to itself |
| `ParseValue.AcceptedWhen` | popctl/cmd/tx.go:422-456 | a number is accepted if and only if it is an integer, or an integer follows its only dot |
| `ParseValue.UnreadableWholeIsZero` | popctl/cmd/tx.go:428-431 | a whole part that is no integer counts as zero |

## Left out

- Elliptic-curve arithmetic, ECDSA, the hash functions and address derivation: library code. Scalars are integers modulo the order, hashes are parameters.
- JSON and base64: assumed to be inverse to their readers. Armoring of local keys likewise.
- `Signatures.ParseDerSignature`: stands for the library's strict DER parser, which the repository only calls; likewise `Signatures.DerSignature` for its serializer, whose replacement of a high s by the low one is written out at its call (`Signatures.CosmosSignatureToDER`).
- `Words.Int64`: what Go calls undefined in `big.Int.Int64`, a value beyond 64 bits, is taken to keep the low 64 bits, as its implementation does; `Signatures.RecoveryID` likewise cuts to one byte.
- The transaction constructors, the transaction type 0x01 (which no constructor builds and which falls into the legacy branch), and the handler's parsing of its request.
- Payloads of 2 to the 63 bytes and more, which no Go slice can hold.
- Bech32 prefixes that are not valid UTF-8, and BIP-173's limits on lengths, which neither encoder checks. `Bech32.Receive` accepts ASCII prefixes only, as BIP-173 does.
- `Bech32.CorruptionRejected`: a corruption that writes a new separator moves the prefix and is not covered by the checksum's guarantee.
- `MetadataStore.ConfirmedSurvives`: assumes that a finished rename survives a crash, which the code does not secure; `UndoneRenames` drops the assumption. Both take rename to be atomic and synced bytes to survive.
- SignBatch, which only collects independent results, and the remaining keyring accessors.
- `Migration.LocalKeyring.ImportPrivKey`: the local keyring is taken to refuse to overwrite an existing name, and its listing to name each of its keys.
- Redis errors, on which both limiters let the request pass, and pipelines of two sliding-window checks that interleave: runs are of serialised calls.
- `SlidingWindow.Float64`: exact for timestamps between 2 to the 60 and 2 to the 61 nanoseconds, which covers 2006 to 2043.
- Response headers, credential extraction and the IP behind proxies. The digest of a credential is a parameter; results about credentials assume that digests differ, though the code keeps 16 of its bytes.
- Reconciles on stale reads, and replica checks whose Get fails: the controllers read such a failure as "scaled down" or as "ready".
- Times, component lists and error texts in statuses beyond the fixed part of each message; the contents of jobs.
- `ParseValue.Parse`: strings outside ASCII, for which Go's trimming and lowering know more characters.
- The cluster and tenant controllers, dashboard, HTTP and CLI layers, organisation access, quotas, deployment bundles and SDK request wrappers.
