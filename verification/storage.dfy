/**
 * The in-memory storage engine: a key-value store held in two dictionaries, one from a key
 * to its serialised (and optionally encrypted) value, the other from the derived key
 * `key + "Expiry"` to the (optionally encrypted) text of the entry's absolute expiry time.
 *
 * Time is a whole number of seconds and the current time `now` is a parameter. The files on
 * disk are the text of the two dictionaries at the resolved location (`Disk`).
 */
module StorageEngine {
  import opened Wrappers
  import opened Config
  import opened Codec
  import opened KeyOrder

  /** The exceptions the engine raises. */
  datatype Error =
    | MissingArgument(name: string)   // ArgumentNullException from an argument check
    | DuplicateKey(key: string)       // ArgumentException from Dictionary.Add
    | KeyNotFound(key: string)        // Get on a key the value dictionary does not hold
    | Malformed                       // a JSON text that does not deserialise

  /** The two dictionaries: `data` is `StorageData`, `expiry` is `StorageExpiry`. */
  datatype Maps = Maps(data: map<string, string>, expiry: map<string, string>)

  const Empty: Maps := Maps(map[], map[])

  /** The data file and the expiry file at the resolved location; `None` when the file does not exist. */
  datatype Disk = Disk(dataFile: Option<string>, expiryFile: Option<string>)

  /** What an engine instance fixes at construction: its configuration, its encryption key and its collaborators. */
  datatype Environment<!V> = Environment(config: StorageConfig, encryptionKey: string, codec: Codec<V>)

  const ExpirySuffix: string := "Expiry"
  const SecondsPerMinute: int := 60

  /** The key under which an entry's expiry time is kept. */
  function ExpiryKey(key: string): (ek: string)
    ensures |ek| == |key| + |ExpirySuffix|
    ensures ek[..|key|] == key
    ensures ek[|key|..] == ExpirySuffix
  {
    key + ExpirySuffix
  }

  /** Distinct keys have distinct expiry keys. */
  lemma ExpiryKeyInjective(a: string, b: string)
    requires ExpiryKey(a) == ExpiryKey(b)
    ensures a == b
  {
    assert a == ExpiryKey(a)[..|a|];
  }

  /** Removing a key and adding it back with a new value is the same as overwriting it. */
  lemma RemoveThenAdd<K, W>(m: map<K, W>, k: K, v: W)
    ensures (m - {k})[k := v] == m[k := v]
  {
  }

  /** Every key of the value dictionary has its expiry entry. */
  ghost predicate Paired(m: Maps)
  {
    forall k :: k in m.data ==> ExpiryKey(k) in m.expiry
  }

  /** The argument check of the constructor: the key to keep, or the failure when encryption is on and no key is given. */
  function CheckEncryptionKey(config: StorageConfig, encryptionKey: string): (r: Result<string, Error>)
    ensures r.Failure? <==> config.enableEncryption && encryptionKey == ""
    ensures r.Failure? ==> r.error == MissingArgument("encryptionKey")
    ensures r.Success? && config.enableEncryption ==> r.value == encryptionKey
  {
    if config.enableEncryption then
      if encryptionKey == "" then Failure(MissingArgument("encryptionKey")) else Success(encryptionKey)
    else
      Success("")
  }

  /** The text as kept in memory: encrypted with the engine's key and salt when encryption is on. */
  function Seal<V>(env: Environment<V>, text: string): string
  {
    if env.config.enableEncryption then env.codec.encrypt(env.encryptionKey, env.config.encryptionSalt, text) else text
  }

  /** The inverse of `Seal`. */
  function Unseal<V>(env: Environment<V>, text: string): string
  {
    if env.config.enableEncryption then env.codec.decrypt(env.encryptionKey, env.config.encryptionSalt, text) else text
  }

  lemma UnsealSeal<V(!new)>(env: Environment<V>, text: string)
    requires Lawful(env.codec)
    ensures Unseal(env, Seal(env, text)) == text
  {
  }

  /** The absolute expiry time of an entry stored at `now`: the given time to live, else the configured default in minutes. */
  function ExpiresAt(config: StorageConfig, ttl: Option<int>, now: int): (t: int)
    ensures ttl.Some? ==> t - now == ttl.value
    ensures ttl.None? ==> t - now == config.minutExpiryDefault * SecondsPerMinute
  {
    now + OrDefault(ttl, config.minutExpiryDefault * SecondsPerMinute)
  }

  /** The effect of `Store`: its outcome and the dictionaries afterwards. */
  function StoreEffect<V>(env: Environment<V>, m: Maps, key: string, instance: Option<V>, ttl: Option<int>, now: int)
    : (r: (Outcome<Error>, Maps))
    ensures key == "" || instance.None? ==> r.0.Fail? && r.1 == m
    ensures key != "" && instance.Some? ==> r.1.data.Keys == m.data.Keys + {key}
    ensures r.0.Pass? ==> r.1.expiry.Keys == m.expiry.Keys + {ExpiryKey(key)}
    ensures r.0.Fail? ==> r.1.expiry == m.expiry
  {
    if key == "" then (Fail(MissingArgument("key")), m)
    else if instance.None? then (Fail(MissingArgument("instance")), m)
    else
      var data := m.data[key := Seal(env, env.codec.serialize(instance.value))];
      var stamp := Seal(env, env.codec.formatTime(ExpiresAt(env.config, ttl, now)));
      if key !in m.data && ExpiryKey(key) in m.expiry then
        // the stale expiry entry was not removed, so adding the new one throws after the value went in
        (Fail(DuplicateKey(ExpiryKey(key))), Maps(data, m.expiry))
      else
        (Pass, Maps(data, m.expiry[ExpiryKey(key) := stamp]))
  }

  /** The result of `Get`: the value the stored text decodes to. Expiry plays no part. */
  function Fetch<V>(env: Environment<V>, data: map<string, string>, key: string): (r: Result<V, Error>)
    ensures key !in data ==> r == Failure(KeyNotFound(key))
    ensures key in data ==> (r.Success? <==> env.codec.deserialize(Unseal(env, data[key])).Some?)
    ensures r.Success? ==> key in data && env.codec.deserialize(Unseal(env, data[key])) == Some(r.value)
    ensures r.Failure? && key in data ==> r.error == Malformed
  {
    if key !in data then Failure(KeyNotFound(key))
    else
      match env.codec.deserialize(Unseal(env, data[key]))
      case Some(v) => Success(v)
      case None => Failure(Malformed)
  }

  /** The expiry entries whose time is strictly after `now`. */
  function Unexpired(expiry: map<string, string>, parseTime: string -> int, now: int): (kept: map<string, string>)
    ensures forall k :: k in kept <==> k in expiry && parseTime(expiry[k]) > now
    ensures forall k :: k in kept ==> kept[k] == expiry[k]
  {
    map k | k in expiry && parseTime(expiry[k]) > now :: expiry[k]
  }

  /** The value entries whose expiry key survives in `expiry`. */
  function Retained(data: map<string, string>, expiry: map<string, string>): (kept: map<string, string>)
    ensures forall k :: k in kept <==> k in data && ExpiryKey(k) in expiry
    ensures forall k :: k in kept ==> kept[k] == data[k]
  {
    map k | k in data && ExpiryKey(k) in expiry :: data[k]
  }

  /** `Load` reads the files only when both exist and neither is empty. */
  predicate Readable(disk: Disk)
  {
    disk.dataFile.Some? && disk.expiryFile.Some? && disk.dataFile.value != "" && disk.expiryFile.value != ""
  }

  /** The effect of `Load`: its outcome and the dictionaries afterwards. */
  function LoadEffect<V>(env: Environment<V>, m: Maps, disk: Disk, now: int): (r: (Outcome<Error>, Maps))
    ensures !Readable(disk) ==> r == (Pass, m)
    ensures Readable(disk) && r.0.Pass? ==> Paired(r.1)
    ensures Readable(disk) && r.0.Pass? ==>
      forall k :: k in r.1.expiry ==> env.codec.parseTime(r.1.expiry[k]) > now
  {
    if !Readable(disk) then (Pass, m)
    else
      match env.codec.deserializeMap(disk.expiryFile.value)
      case None =>
        // the expiry dictionary was already cleared when deserialisation threw
        (Fail(Malformed), Maps(m.data, map[]))
      case Some(e) =>
        var expiry := Unexpired(e, env.codec.parseTime, now);
        match env.codec.deserializeMap(disk.dataFile.value)
        case None =>
          // the value dictionary was already cleared when deserialisation threw
          (Fail(Malformed), Maps(map[], expiry))
        case Some(d) => (Pass, Maps(Retained(d, expiry), expiry))
  }

  /** The files `Persist` writes: the JSON text of each dictionary. */
  function Persisted<V(!new)>(env: Environment<V>, m: Maps): (disk: Disk)
    ensures Lawful(env.codec) ==>
      && Readable(disk)
      && env.codec.deserializeMap(disk.dataFile.value) == Some(m.data)
      && env.codec.deserializeMap(disk.expiryFile.value) == Some(m.expiry)
  {
    Disk(Some(env.codec.serializeMap(m.data)), Some(env.codec.serializeMap(m.expiry)))
  }

  class Storage<V(!new)> {
    const config: StorageConfig
    /** The encryption key; empty when encryption is off. */
    const encryptionKey: string
    const codec: Codec<V>
    var data: map<string, string>
    var expiry: map<string, string>

    function Env(): Environment<V>
    {
      Environment(config, encryptionKey, codec)
    }

    function Contents(): Maps
      reads this
    {
      Maps(data, expiry)
    }

    /** The pairing invariant: every stored key has its expiry entry. */
    ghost predicate Valid()
      reads this
    {
      && (config.enableEncryption ==> encryptionKey != "")
      && Paired(Contents())
    }

    /** An engine with empty dictionaries, for arguments that pass the constructor's check; `Create` adds the failing case and the automatic load. */
    constructor (config: StorageConfig, encryptionKey: string, codec: Codec<V>)
      requires CheckEncryptionKey(config, encryptionKey).Success?
      ensures this.config == config && this.encryptionKey == encryptionKey && this.codec == codec
      ensures Contents() == Empty && Valid()
    {
      this.config := config;
      this.encryptionKey := encryptionKey;
      this.codec := codec;
      data := map[];
      expiry := map[];
    }

    /**
     * Construction: fails when encryption is on without a key; otherwise loads from `disk`
     * when the configuration asks for it, and fails if that load fails.
     */
    static method Create(config: StorageConfig, encryptionKey: string, codec: Codec<V>, disk: Disk, now: int)
      returns (r: Result<Storage<V>, Error>)
      ensures CheckEncryptionKey(config, encryptionKey).Failure? ==> r == Failure(MissingArgument("encryptionKey"))
      ensures CheckEncryptionKey(config, encryptionKey).Success? ==>
        var env := Environment(config, CheckEncryptionKey(config, encryptionKey).value, codec);
        var (outcome, loaded) := if config.autoLoad then LoadEffect(env, Empty, disk, now) else (Pass, Empty);
        && (outcome.Fail? ==> r == Failure(outcome.error))
        && (outcome.Pass? ==> r.Success? && fresh(r.value) && r.value.Env() == env && r.value.Contents() == loaded)
      ensures r.Success? ==> r.value.Valid()
    {
      var checked := CheckEncryptionKey(config, encryptionKey);
      if checked.Failure? {
        return Failure(checked.error);
      }
      var s := new Storage(config, checked.value, codec);
      if config.autoLoad {
        var outcome := s.Load(disk, now);
        if outcome.Fail? {
          return Failure(outcome.error);
        }
      }
      return Success(s);
    }

    /** Empties both dictionaries; the files are not touched. */
    method Clear()
      modifies this
      ensures Contents() == Empty
      ensures Paired(Contents()) && (old(Valid()) ==> Valid()) && Count() == 0
      ensures forall k :: !Exists(k)
    {
      data := map[];
      expiry := map[];
    }

    /** Whether the value dictionary holds `key`; the expiry time is not consulted. */
    function Exists(key: string): (b: bool)
      reads this
      ensures b <==> key in Keys()
    {
      key in data
    }

    /** The keys of the value dictionary in ascending order, each once. */
    ghost function Keys(): (ks: seq<string>)
      reads this
      ensures StrictlyAscending(ks)
      ensures forall k :: k in ks <==> k in data
      ensures |ks| == |data|
    {
      SortedKeys(data.Keys)
    }

    /** The number of entries: the number of keys `Keys` lists. */
    function Count(): (n: nat)
      reads this
      ensures n == |Keys()|
    {
      |data|
    }

    /**
     * Reads the value stored under `key`. The guard only fails when both lookups fail,
     * so an entry whose expiry time has passed is still returned.
     */
    method Get(key: string) returns (r: Result<V, Error>)
      ensures r == Fetch(Env(), data, key)
    {
      var succeeded := key in data;
      var expiryStatus := ExpiryKey(key) in expiry;
      if !succeeded && !expiryStatus {
        // parsing the missing expiry text throws before the clock is read
        return Failure(KeyNotFound(key));
      }
      if !succeeded {
        // an orphan expiry entry passes the guard; decoding the missing text then throws
        return Failure(KeyNotFound(key));
      }
      var raw := data[key];
      if config.enableEncryption {
        raw := codec.decrypt(encryptionKey, config.encryptionSalt, raw);
      }
      var decoded := codec.deserialize(raw);
      if decoded.None? {
        return Failure(Malformed);
      }
      return Success(decoded.value);
    }

    /**
     * Stores `instance` under `key`, expiring `ttl` seconds after `now` (the configured
     * default when absent). A previous entry for `key` is removed from both dictionaries first.
     */
    method Store(key: string, instance: Option<V>, ttl: Option<int>, now: int) returns (outcome: Outcome<Error>)
      modifies this
      ensures (outcome, Contents()) == StoreEffect(Env(), old(Contents()), key, instance, ttl, now)
      ensures old(Valid()) ==> Valid()
    {
      if key == "" {
        return Fail(MissingArgument("key"));
      }
      if instance.None? {
        return Fail(MissingArgument("instance"));
      }
      var value := codec.serialize(instance.value);
      var valueExpiry := codec.formatTime(ExpiresAt(config, ttl, now));
      var replacing := key in data;
      if replacing {
        data := data - {key};
        expiry := expiry - {ExpiryKey(key)};
      }
      if config.enableEncryption {
        value := codec.encrypt(encryptionKey, config.encryptionSalt, value);
        valueExpiry := codec.encrypt(encryptionKey, config.encryptionSalt, valueExpiry);
      }
      assert value == Seal(Env(), codec.serialize(instance.value));
      assert valueExpiry == Seal(Env(), codec.formatTime(ExpiresAt(config, ttl, now)));
      if replacing {
        RemoveThenAdd(old(data), key, value);
        RemoveThenAdd(old(expiry), ExpiryKey(key), valueExpiry);
      }
      data := data[key := value];
      if ExpiryKey(key) in expiry {
        return Fail(DuplicateKey(ExpiryKey(key)));
      }
      expiry := expiry[ExpiryKey(key) := valueExpiry];
      return Pass;
    }

    /**
     * Replaces the dictionaries with those in the files, keeping only unexpired expiry
     * entries and the values whose expiry entry survived. A no-op when either file is
     * missing or empty.
     */
    method Load(disk: Disk, now: int) returns (outcome: Outcome<Error>)
      modifies this
      ensures (outcome, Contents()) == LoadEffect(Env(), old(Contents()), disk, now)
      ensures outcome.Pass? && old(Valid()) ==> Valid()
    {
      if disk.dataFile.None? || disk.expiryFile.None? {
        return Pass;
      }
      var serializedContent := disk.dataFile.value;
      var serializedContentExpiry := disk.expiryFile.value;
      if serializedContent == "" || serializedContentExpiry == "" {
        return Pass;
      }
      expiry := map[];
      var parsedExpiry := codec.deserializeMap(serializedContentExpiry);
      if parsedExpiry.None? {
        return Fail(Malformed);
      }
      expiry := Unexpired(parsedExpiry.value, codec.parseTime, now);
      data := map[];
      var parsedData := codec.deserializeMap(serializedContent);
      if parsedData.None? {
        return Fail(Malformed);
      }
      data := Retained(parsedData.value, expiry);
      return Pass;
    }

    /** The files written by `Persist`: each dictionary serialised in full, replacing what was there. */
    method Persist() returns (disk: Disk)
      ensures disk == Persisted(Env(), Contents())
    {
      var serialized := codec.serializeMap(data);
      var serializedExpiry := codec.serializeMap(expiry);
      disk := Disk(Some(serialized), Some(serializedExpiry));
    }

    /** End of the engine's lifetime: persists when the configuration asks for it. */
    method Dispose() returns (written: Option<Disk>)
      ensures written.Some? <==> config.autoSave
      ensures written.Some? ==> written.value == Persisted(Env(), Contents())
    {
      if config.autoSave {
        var disk := Persist();
        return Some(disk);
      }
      return None;
    }
  }
}
