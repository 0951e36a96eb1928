# DotNetStorage storage engine in Dafny

This project models the in-memory engine of DotNetStorage, a file-persisted key-value store
for .NET applications. Each entry has a time to live and can be encrypted. The engine
(`Storage`) keeps two dictionaries:

- `StorageData` maps a key to its JSON-serialised value, encrypted when encryption is on.
- `StorageExpiry` maps the derived key `key + "Expiry"` to the text of the entry's absolute
  expiry time, also encrypted when encryption is on.

The model covers:

- the constructor's argument check and its automatic load;
- `Store`, `Get`, `Exists`, `Keys`, `Count` and `Clear`;
- the filtering that `Load` applies to the two files;
- `Persist` and `Dispose`, as the file pair they would write;
- the defaults rule of `StorageConfig`.

Files:

- `wrappers.dfy`: `Option`, `Result` and `Outcome`.
- `config.dfy` (module `Config`): the configuration record, with the same seven settings as
  `IStorageConfig`, and `Resolve`, the fallback-to-default initialiser of `StorageConfig`.
- `codec.dfy` (module `Codec`): the collaborators the engine calls but does not implement,
  given as function values. These are JSON serialisation of values and of dictionaries,
  `CryptographyHelpers.Encrypt`/`Decrypt`, and `DateTime.ToString`/`DateTime.Parse`.
  `Lawful` states the round-trip laws the engine relies on. Every result that needs these
  laws takes `Lawful` as a hypothesis, so the model holds for any implementation that
  satisfies them.
- `keyorder.dfy` (module `KeyOrder`): ordinal lexicographic order on strings. It also gives
  `SortedKeys`, the ascending listing with no duplicates that `Keys()` returns.
- `storage.dfy` (module `StorageEngine`):
  - the class `Storage<V>`, whose fields `data` and `expiry` are updated in place;
  - one function per operation (`StoreEffect`, `Fetch`, `LoadEffect`, `Persisted`) that the
    matching method is proved against;
  - the pairing invariant `Paired`: every key of `data` has `key + "Expiry"` in `expiry`.
- `properties.dfy` (module `StorageProperties`): lemmas that relate several operations.

How the model represents the environment:

- Time is a whole number of seconds. The clock (`DateTime.Now`) becomes a parameter `now`.
- A `TimeSpan` time to live becomes `Option<int>` seconds. The configured default,
  `MinutExpiryDefault`, is in minutes and is multiplied by 60.
- A `null` value passed to `Store` becomes `None`.
- The files are a `Disk`: the text of the data file and of the expiry file at the resolved
  location. A file that does not exist is `None`.

## Behaviour modelled as the code has it

In a few places the code does something other than what the method names and doc comments suggest. The
model follows the code:

- **`Get` ignores expiry.** The guard at `DotNetStorage/Storage.cs:142` only fails when the
  key is missing from both dictionaries. So a present entry whose expiry time has passed is
  still returned, and the clock never influences the result. When the key is missing from
  `StorageData`, `Get` always throws, for one of two reasons:
  - the expiry entry is missing too, so `DateTime.Parse(null)` throws;
  - an orphan expiry entry exists, so the guard passes and then decrypting (when encryption is on) or decoding the missing text throws. `CryptographyHelpers` is not part of this model, so the model assumes `Decrypt` does not turn a null text into decodable text.

  Both cases are modelled as `KeyNotFound`. `ExpiredEntryStillReadable` shows an entry stored
  with a time to live of zero being read back.
- **Pairing is one-directional.** `Load` filters only the value dictionary by pairing. An
  expiry entry whose value is missing therefore survives. A later `Store` of that key puts the
  value in, then throws on the duplicate expiry key, and the stale expiry text stays.
  `StoreEffect` models this as a `DuplicateKey` failure. `OrphanExpiryBreaksStore` derives it
  from a `Load`. The invariant that does hold is `Paired` (every value has its expiry entry).
  `Store` keeps it on both of its paths.
- **A malformed expiry file breaks pairing.** `Load` clears the expiry dictionary and then
  fails to deserialise. The value dictionary keeps its entries without expiry entries
  (`LoadOfMalformedFiles`).
- **Encrypted expiry text is not decrypted on load.** `Store` encrypts the expiry text when
  encryption is on, and `Load` parses it without decrypting. The model therefore proves the
  Persist/Load round trip for `Get` (`StorePersistLoadGet`) only without encryption. With
  encryption, `parseTime` of a ciphertext is unconstrained.

## Model

| member | source | states |
|---|---|---|
| `Config.OrDefault` | DotNetStorage/StorageConfig.cs:25 | a present external value is returned; an absent one gives the default |
| `Config.Resolve` | DotNetStorage/StorageConfig.cs:25-58 | for each of the seven settings, a present external value wins; otherwise AutoLoad = true, AutoSave = true, EnableEncryption = false, EncryptionSalt = ".localstorage", Filename = ".localstorage", BaseDirectory = "" and MinutExpiryDefault = 1 |
| `Config.AbsentSettingsGiveDefaults` | DotNetStorage/StorageConfig.cs:25-58 | with no external setting, the configuration is exactly (true, true, false, ".localstorage", ".localstorage", "", 1) |
| `Config.PresentSettingsWin` | DotNetStorage/StorageConfig.cs:25-58 | when all seven settings are supplied, the configuration is exactly the supplied values |
| `KeyOrder.BeforeTotal` | DotNetStorage/Storage.cs:155 | the ordering `Keys()` sorts by is total: two distinct keys are ordered one way or the other |
| `KeyOrder.BeforeTransitive` | DotNetStorage/Storage.cs:155 | that ordering is transitive |
| `KeyOrder.LeastExists` | DotNetStorage/Storage.cs:155 | every non-empty finite set of keys has a least key, so sorting is well defined |
| `KeyOrder.SortedKeys` | DotNetStorage/Storage.cs:155 | the listing of a key set is strictly ascending, holds exactly the set's keys, and is as long as the set |
| `KeyOrder.AscendingHasNoDuplicates` | DotNetStorage/Storage.cs:155 | a strictly ascending listing holds each key at one position only |
| `StorageEngine.ExpiryKey` | DotNetStorage/Storage.cs:237 | the expiry key starts with the key and ends with "Expiry", nothing else |
| `StorageEngine.ExpiryKeyInjective` | DotNetStorage/Storage.cs:237 | distinct keys have distinct expiry keys, so the two dictionaries cannot mix entries of different keys |
| `StorageEngine.CheckEncryptionKey` | DotNetStorage/Storage.cs:59-62 | construction fails with a missing-argument error exactly when encryption is on and the key is empty; otherwise it keeps the key (when encryption is on) |
| `StorageEngine.UnsealSeal` | DotNetStorage/Storage.cs:144-145 | decrypting with the engine's key and salt undoes what `Store` encrypted |
| `StorageEngine.ExpiresAt` | DotNetStorage/Storage.cs:221 | the expiry time is `now` plus the given time to live, or `now` plus MinutExpiryDefault minutes when none is given |
| `StorageEngine.Fetch` | DotNetStorage/Storage.cs:138-148 | fails with KeyNotFound exactly when the key is not in the value dictionary; otherwise it succeeds exactly when the stored text, decrypted if encryption is on, decodes, and it returns that decoding; the expiry dictionary and the clock play no part |
| `StorageEngine.Unexpired` | DotNetStorage/Storage.cs:176 | the expiry entries kept are exactly those whose parsed time is strictly after `now`, with unchanged text |
| `StorageEngine.Retained` | DotNetStorage/Storage.cs:180 | the value entries kept are exactly those whose expiry key is among the kept expiry entries, with unchanged text |
| `StorageEngine.StoreEffect` | DotNetStorage/Storage.cs:213-238 | the effect of Store: an empty key or null value fails with nothing changed; otherwise the value dictionary's keys become the old ones plus `key`; on success the expiry keys become the old ones plus `key + "Expiry"`, on failure the expiry dictionary is unchanged (the full effect is in the StorageProperties lemmas on Store) |
| `StorageEngine.LoadEffect` | DotNetStorage/Storage.cs:164-181 | the effect of Load: a missing or empty file leaves everything unchanged; a successful read leaves the dictionaries paired and every kept expiry time after `now` (exact contents in LoadKeepsLiveEntries and LoadOfMalformedFiles) |
| `StorageEngine.Persisted` | DotNetStorage/Storage.cs:252-300 | the file pair Persist writes: given the codec laws, both files are present and non-empty and each decodes back to exactly its dictionary |
| `StorageEngine.Storage.constructor` | DotNetStorage/Storage.cs:55-62 | accepts only arguments that pass the encryption-key check; a new engine holds the given configuration and key, both dictionaries are empty, and the engine is valid (key present when encryption is on, dictionaries paired) |
| `StorageEngine.Storage.Create` | DotNetStorage/Storage.cs:55-72 | fails when encryption is on without a key; otherwise it loads from disk when AutoLoad is set and fails if that load fails; on success the engine is fresh, satisfies the pairing invariant and holds the loaded (or empty) dictionaries |
| `StorageEngine.Storage.Clear` | DotNetStorage/Storage.cs:80-84 | both dictionaries become empty, `Count()` is 0 and `Exists` is false for every key |
| `StorageEngine.Storage.Exists` | DotNetStorage/Storage.cs:120-123 | true exactly when the key is among those `Keys()` lists, which are the value dictionary's keys; expiry is not consulted |
| `StorageEngine.Storage.Keys` | DotNetStorage/Storage.cs:153-156 | the keys of the value dictionary in strictly ascending order: no duplicates, every key present, length equal to the number of entries |
| `StorageEngine.Storage.Count` | DotNetStorage/Storage.cs:28 | the number of entries equals the length of `Keys()` |
| `StorageEngine.Storage.Get` | DotNetStorage/Storage.cs:138-148 | follows the short-circuiting guard of the source and returns `Fetch` of the value dictionary |
| `StorageEngine.Storage.Store` | DotNetStorage/Storage.cs:213-238 | the new outcome and dictionaries are `StoreEffect` of the old ones (remove the previous entry, seal the value and the expiry text, add both), and the pairing invariant is preserved |
| `StorageEngine.Storage.Load` | DotNetStorage/Storage.cs:164-181 | the new outcome and dictionaries are `LoadEffect` of the old ones and the files; a successful load of a paired engine leaves it paired |
| `StorageEngine.Storage.Persist` | DotNetStorage/Storage.cs:252-300 | writes both files, each holding the full serialised dictionary |
| `StorageEngine.Storage.Dispose` | DotNetStorage/Storage.cs:344-354 | persists exactly when AutoSave is set, writing what `Persist` writes |
| `StorageProperties.StoreRejectsMissingArguments` | DotNetStorage/Storage.cs:215-216 | an empty key or a null value fails with a missing-argument error and changes neither dictionary |
| `StorageProperties.StoreWritesEntry` | DotNetStorage/Storage.cs:218-237 | the value entry becomes the sealed serialised value; the store fails exactly when an expiry entry exists for a key absent from the value dictionary, leaving expiry unchanged; on success the expiry entry is the sealed text of `now + ttl` or the default |
| `StorageProperties.StoreLeavesOtherKeys` | DotNetStorage/Storage.cs:223-237 | every other key of the value dictionary and every other expiry key keeps its presence and its text |
| `StorageProperties.StorePreservesPairing` | DotNetStorage/Storage.cs:223-237 | if every value had its expiry entry before a store, it still does afterwards, whether the store succeeded or failed |
| `StorageProperties.FetchReturnsStoredValue` | DotNetStorage/Storage.cs:140-147 | given the codec laws, reading a sealed serialisation of `v` returns `v` |
| `StorageProperties.StoreThenGet` | DotNetStorage/Storage.cs:213-238 | given the codec laws, Get after Store returns the stored value, with or without encryption |
| `StorageProperties.OverwriteKeepsLatest` | DotNetStorage/Storage.cs:223-237 | storing twice under one key makes the second store succeed, Get returns the second value, and `Keys()` lists the key exactly once |
| `StorageProperties.ExpiredEntryStillReadable` | DotNetStorage/Storage.cs:142 | an entry stored with a time to live of 0 records an expiry time equal to `now`, yet Get still returns its value |
| `StorageProperties.LoadWithoutFilesIsNoOp` | DotNetStorage/Storage.cs:166-172 | when either file is missing or empty, Load succeeds and changes nothing |
| `StorageProperties.LoadKeepsLiveEntries` | DotNetStorage/Storage.cs:174-180 | Load of two well-formed files keeps exactly the expiry entries whose time is after `now`, and exactly the values whose expiry entry was kept; the result satisfies the pairing invariant whatever was held before |
| `StorageProperties.LoadOfMalformedFiles` | DotNetStorage/Storage.cs:174-179 | a malformed expiry file fails after emptying the expiry dictionary, leaving the values unpaired; a malformed value file fails with an empty value dictionary |
| `StorageProperties.PersistThenLoad` | DotNetStorage/Storage.cs:252-300 | given the codec laws, loading what Persist wrote yields the persisted dictionaries less the entries not live at `now` |
| `StorageProperties.StorePersistLoadGet` | DotNetStorage/Storage.cs:164-181 | without encryption, an entry stored with time to live `ttl` and read back after Persist and a Load at a time before `now + ttl` returns its value |
| `StorageProperties.OrphanExpiryBreaksStore` | DotNetStorage/Storage.cs:236-237 | after a Load that keeps an expiry entry whose value is missing, a Store of that key fails with a duplicate expiry key; the value is already added and the stale expiry text stays |

## Left out

- File I/O is not modelled: `File.Exists`, `File.ReadAllText`, `FileStream`/`StreamWriter` and path joining (`DotNetStorage/Helpers/FileHelpers.cs`). The disk is the pair of file texts at one location, and `Load` and `Persist` each take or give that pair.
- Load and Persist overloads: the model does not distinguish them, and they differ in two ways. First, `Load()` always reads beside the process and ignores `BaseDirectory`, while `Persist()`, the constructor and `Dispose` use `BaseDirectory` when it is set; so with `BaseDirectory` set, `Persist()` followed by `Load()` reads a different file pair from the one written. Second, `Persist()` swallows write failures only when `BaseDirectory` is empty; when it is set, `Persist()` (and `Dispose`) hand over to `Persist(string)`, which lets them through. PersistThenLoad and StorePersistLoadGet therefore cover only a Load that reads the files the Persist wrote: the constructor's automatic load, `Load(d)` after `Persist(d)`, or `Load()` after `Persist()` with an empty `BaseDirectory`.
- `Destroy` is not modelled, because it only deletes a file.
- `Query<T>` is not modelled. It is `Get` followed by a LINQ filter over an opaquely deserialised collection.
- Value types: the model fixes one value type `V` per engine, with one `serialize`/`deserialize` pair. The source chooses the type per call (`Store<T>`, `Get<T>`, and `Get(string)` as `Get<object>`), so one engine can hold values of different types and `Get<U>` can decode text stored as a `T`. Mixed types are covered only by choosing a universal `V`, such as a JSON-value datatype.
- The static `writeLock` is not modelled, because it exists only for concurrency and the model is sequential.
- Persist: exceptions that `Persist()` swallows are not modelled. I/O failures are outside the model.
- `DotNetStorage/Helpers/Configurations.cs` is not modelled, because it reads `ConfigurationManager` and parses with `bool.TryParse`/`int.TryParse`. Its results arrive as the `Option` fields of `ExternalSettings`.
- JSON serialisation, `CryptographyHelpers` and `DateTime` text are opaque. The model assumes only the round-trip laws in `Lawful`. It cannot state that on-disk text differs from the plaintext under encryption.
- Load: `DateTime.Parse` is treated as total. A parse failure, including the failure on encrypted expiry text, is not modelled.
- Load: the model reads one clock value per load. The source reads `DateTime.Now` again for each entry.
- Load: a JSON text of `null` is treated like malformed text. The source would instead leave a null dictionary behind.
- Keys: orders keys ordinally, character by character. The source's `OrderBy` uses the current culture's string comparison.
- ExpiresAt: ignores `DateTime` range overflow and the 32-bit width of `MinutExpiryDefault`. It also ignores that `DateTime.ToString()` drops sub-second precision: time is whole seconds.
- Configuration: the model fixes the configuration when the engine is constructed. The source keeps a reference to a mutable `IStorageConfig` whose seven properties have public setters, and `Store`, `Get`, `Load` and `Persist` read `EnableEncryption`, `EncryptionSalt`, `MinutExpiryDefault` and `Filename` from it on every call. A caller who changes that object afterwards changes later calls; for example, turning `EnableEncryption` on after construction bypasses the key check. The encryption-key part of `Valid()` and StoreThenGet (with or without encryption) hold only while the configuration object is left unchanged after construction.
- Null keys are not modelled, because strings here cannot be null. In the source, `Exists(null)` and `Get(null)` throw `ArgumentNullException` from `ContainsKey`/`TryGetValue`, and `Store(null, …)` fails like `Store("", …)`.
- Create: the null `configuration` check (`ArgumentNullException`) is not modelled, because the configuration is a value here and cannot be null. A null encryption key is modelled as the empty string.
