/**
 * Properties of the storage engine that relate several operations: what `Store` writes and
 * keeps, what `Get` returns afterwards, what `Load` retains, and the round trip through the
 * files written by `Persist`. Two behaviours of the engine are stated as they are rather than
 * as one might expect: `Get` returns an entry whose expiry time has passed, and an orphan
 * expiry entry left by `Load` makes a later `Store` of that key fail half-way.
 */
module StorageProperties {
  import opened Wrappers
  import opened Codec
  import opened KeyOrder
  import opened StorageEngine

  /** An empty key or a null value is rejected and nothing changes. */
  lemma StoreRejectsMissingArguments<V>(env: Environment<V>, m: Maps, key: string, instance: Option<V>, ttl: Option<int>, now: int)
    requires key == "" || instance.None?
    ensures StoreEffect(env, m, key, instance, ttl, now).1 == m
    ensures StoreEffect(env, m, key, instance, ttl, now).0 == Fail(MissingArgument(if key == "" then "key" else "instance"))
  {
  }

  /**
   * A store with valid arguments puts the sealed serialised value under `key`; when it
   * succeeds the expiry entry holds the sealed text of `now + ttl` (or of the default).
   * It fails exactly when an expiry entry for `key` exists without a value entry, and then
   * the expiry dictionary is left as it was.
   */
  lemma StoreWritesEntry<V>(env: Environment<V>, m: Maps, key: string, v: V, ttl: Option<int>, now: int)
    requires key != ""
    ensures var (outcome, m') := StoreEffect(env, m, key, Some(v), ttl, now);
      && key in m'.data && m'.data[key] == Seal(env, env.codec.serialize(v))
      && (outcome.Fail? <==> key !in m.data && ExpiryKey(key) in m.expiry)
      && (outcome.Fail? ==> outcome.error == DuplicateKey(ExpiryKey(key)) && m'.expiry == m.expiry)
      && (outcome.Pass? ==>
            ExpiryKey(key) in m'.expiry
            && m'.expiry[ExpiryKey(key)] == Seal(env, env.codec.formatTime(ExpiresAt(env.config, ttl, now))))
  {
  }

  /** `Store` touches no other key of either dictionary. */
  lemma StoreLeavesOtherKeys<V>(env: Environment<V>, m: Maps, key: string, instance: Option<V>, ttl: Option<int>, now: int)
    ensures var m' := StoreEffect(env, m, key, instance, ttl, now).1;
      && (forall k :: k != key ==> (k in m'.data <==> k in m.data) && (k in m.data ==> m'.data[k] == m.data[k]))
      && (forall k :: k != ExpiryKey(key) ==> (k in m'.expiry <==> k in m.expiry) && (k in m.expiry ==> m'.expiry[k] == m.expiry[k]))
  {
  }

  /** `Store` keeps the pairing invariant, on its failing path too. */
  lemma StorePreservesPairing<V>(env: Environment<V>, m: Maps, key: string, instance: Option<V>, ttl: Option<int>, now: int)
    requires Paired(m)
    ensures Paired(StoreEffect(env, m, key, instance, ttl, now).1)
  {
  }

  /** A stored text decodes back to the value that was stored. */
  lemma FetchReturnsStoredValue<V(!new)>(env: Environment<V>, data: map<string, string>, key: string, v: V)
    requires Lawful(env.codec)
    requires key in data && data[key] == Seal(env, env.codec.serialize(v))
    ensures Fetch(env, data, key) == Success(v)
  {
    UnsealSeal(env, env.codec.serialize(v));
  }

  /** Store then Get returns the stored value, with or without encryption. */
  lemma StoreThenGet<V(!new)>(env: Environment<V>, m: Maps, key: string, v: V, ttl: Option<int>, now: int)
    requires Lawful(env.codec)
    requires key != ""
    ensures Fetch(env, StoreEffect(env, m, key, Some(v), ttl, now).1.data, key) == Success(v)
  {
    StoreWritesEntry(env, m, key, v, ttl, now);
    FetchReturnsStoredValue(env, StoreEffect(env, m, key, Some(v), ttl, now).1.data, key, v);
  }

  /** `key` is listed exactly once by the ascending key listing of `data`. */
  ghost predicate ListedOnce(data: map<string, string>, key: string)
  {
    var ks := SortedKeys(data.Keys);
    key in ks && forall i, j :: 0 <= i < |ks| && 0 <= j < |ks| && ks[i] == key && ks[j] == key ==> i == j
  }

  /**
   * Storing twice under one key overwrites: the second store succeeds, Get returns the
   * second value, and the key is listed once.
   */
  lemma OverwriteKeepsLatest<V(!new)>(env: Environment<V>, m: Maps, key: string, v1: V, v2: V,
                                      ttl1: Option<int>, ttl2: Option<int>, now1: int, now2: int)
    requires Lawful(env.codec)
    requires key != ""
    ensures var m1 := StoreEffect(env, m, key, Some(v1), ttl1, now1).1;
      var (outcome, m2) := StoreEffect(env, m1, key, Some(v2), ttl2, now2);
      && outcome == Pass
      && Fetch(env, m2.data, key) == Success(v2)
      && ListedOnce(m2.data, key)
  {
    var m1 := StoreEffect(env, m, key, Some(v1), ttl1, now1).1;
    StoreWritesEntry(env, m, key, v1, ttl1, now1);
    StoreWritesEntry(env, m1, key, v2, ttl2, now2);
    var m2 := StoreEffect(env, m1, key, Some(v2), ttl2, now2).1;
    StoreThenGet(env, m1, key, v2, ttl2, now2);
    var ks := SortedKeys(m2.data.Keys);
    forall i, j | 0 <= i < |ks| && 0 <= j < |ks| && ks[i] == key && ks[j] == key
      ensures i == j
    {
      AscendingHasNoDuplicates(ks, i, j);
    }
  }

  /**
   * Get does not look at expiry: an entry stored with a time to live of zero records an
   * expiry time of `now`, which any later clock reading has passed, and Get still returns it.
   */
  lemma ExpiredEntryStillReadable<V(!new)>(env: Environment<V>, m: Maps, key: string, v: V, now: int)
    requires Lawful(env.codec)
    requires key != ""
    requires StoreEffect(env, m, key, Some(v), Some(0), now).0 == Pass
    ensures var m' := StoreEffect(env, m, key, Some(v), Some(0), now).1;
      && ExpiryKey(key) in m'.expiry
      && env.codec.parseTime(Unseal(env, m'.expiry[ExpiryKey(key)])) == now
      && Fetch(env, m'.data, key) == Success(v)
  {
    StoreWritesEntry(env, m, key, v, Some(0), now);
    var m' := StoreEffect(env, m, key, Some(v), Some(0), now).1;
    UnsealSeal(env, env.codec.formatTime(now));
    StoreThenGet(env, m, key, v, Some(0), now);
  }

  /** With either file missing or empty, `Load` changes nothing and does not fail. */
  lemma LoadWithoutFilesIsNoOp<V>(env: Environment<V>, m: Maps, disk: Disk, now: int)
    requires disk.dataFile.None? || disk.expiryFile.None? || disk.dataFile == Some("") || disk.expiryFile == Some("")
    ensures LoadEffect(env, m, disk, now) == (Pass, m)
  {
  }

  /**
   * A `Load` of two well-formed files keeps exactly the expiry entries whose time is after
   * `now` and exactly the values whose expiry entry was kept; the result is paired, whatever
   * the dictionaries held before.
   */
  lemma LoadKeepsLiveEntries<V>(env: Environment<V>, m: Maps, disk: Disk, now: int, d: map<string, string>, e: map<string, string>)
    requires Readable(disk)
    requires env.codec.deserializeMap(disk.dataFile.value) == Some(d)
    requires env.codec.deserializeMap(disk.expiryFile.value) == Some(e)
    ensures var (outcome, m') := LoadEffect(env, m, disk, now);
      && outcome == Pass
      && (forall k :: k in m'.expiry <==> k in e && env.codec.parseTime(e[k]) > now)
      && (forall k :: k in m'.expiry ==> m'.expiry[k] == e[k] && env.codec.parseTime(m'.expiry[k]) > now)
      && (forall k :: k in m'.data <==> k in d && ExpiryKey(k) in e && env.codec.parseTime(e[ExpiryKey(k)]) > now)
      && (forall k :: k in m'.data ==> m'.data[k] == d[k])
      && Paired(m')
  {
  }

  /**
   * A malformed expiry file makes `Load` fail after it has emptied the expiry dictionary,
   * so every value entry loses its expiry entry; a malformed value file empties the value
   * dictionary.
   */
  lemma LoadOfMalformedFiles<V>(env: Environment<V>, m: Maps, disk: Disk, now: int)
    requires Readable(disk)
    ensures env.codec.deserializeMap(disk.expiryFile.value).None? ==>
      && LoadEffect(env, m, disk, now) == (Fail(Malformed), Maps(m.data, map[]))
      && (m.data != map[] ==> !Paired(LoadEffect(env, m, disk, now).1))
    ensures env.codec.deserializeMap(disk.expiryFile.value).Some? && env.codec.deserializeMap(disk.dataFile.value).None? ==>
      && LoadEffect(env, m, disk, now).0 == Fail(Malformed)
      && LoadEffect(env, m, disk, now).1.data == map[]
      && Paired(LoadEffect(env, m, disk, now).1)
  {
    if env.codec.deserializeMap(disk.expiryFile.value).None? && m.data != map[] {
      var k :| k in m.data;
      assert ExpiryKey(k) !in LoadEffect(env, m, disk, now).1.expiry;
    }
  }

  /**
   * Loading what `Persist` wrote gives back the persisted dictionaries less the entries
   * whose expiry time is not after `now`, whatever the dictionaries held before the load.
   */
  lemma PersistThenLoad<V(!new)>(env: Environment<V>, m: Maps, before: Maps, now: int)
    requires Lawful(env.codec)
    ensures var (outcome, m') := LoadEffect(env, before, Persisted(env, m), now);
      && outcome == Pass
      && m'.expiry == Unexpired(m.expiry, env.codec.parseTime, now)
      && m'.data == Retained(m.data, Unexpired(m.expiry, env.codec.parseTime, now))
  {
    var disk := Persisted(env, m);
    assert Readable(disk);
    assert env.codec.deserializeMap(disk.expiryFile.value) == Some(m.expiry);
    assert env.codec.deserializeMap(disk.dataFile.value) == Some(m.data);
  }

  /**
   * Without encryption, an entry stored at `now` with time to live `ttl` survives Persist and
   * a later Load at `later < now + ttl`, and Get on the reloaded engine returns its value.
   */
  lemma StorePersistLoadGet<V(!new)>(env: Environment<V>, m: Maps, key: string, v: V, ttl: int, now: int,
                                     before: Maps, later: int)
    requires Lawful(env.codec)
    requires !env.config.enableEncryption
    requires key != ""
    requires StoreEffect(env, m, key, Some(v), Some(ttl), now).0 == Pass
    requires later < now + ttl
    ensures var stored := StoreEffect(env, m, key, Some(v), Some(ttl), now).1;
      var reloaded := LoadEffect(env, before, Persisted(env, stored), later).1;
      Fetch(env, reloaded.data, key) == Success(v)
  {
    var stored := StoreEffect(env, m, key, Some(v), Some(ttl), now).1;
    StoreWritesEntry(env, m, key, v, Some(ttl), now);
    PersistThenLoad(env, stored, before, later);
    var reloaded := LoadEffect(env, before, Persisted(env, stored), later).1;
    assert env.codec.parseTime(stored.expiry[ExpiryKey(key)]) == now + ttl;
    assert key in reloaded.data && reloaded.data[key] == stored.data[key];
    FetchReturnsStoredValue(env, reloaded.data, key, v);
  }

  /**
   * `Load` filters only the value dictionary by pairing, so an unexpired expiry entry whose
   * value is missing from the file survives; a later Store of that key then fails on the
   * duplicate expiry key after it has already put the value in, and the stale expiry stays.
   */
  lemma OrphanExpiryBreaksStore<V>(env: Environment<V>, m: Maps, disk: Disk, now: int,
                                   d: map<string, string>, e: map<string, string>,
                                   key: string, v: V, ttl: Option<int>, storeTime: int)
    requires Readable(disk)
    requires env.codec.deserializeMap(disk.dataFile.value) == Some(d)
    requires env.codec.deserializeMap(disk.expiryFile.value) == Some(e)
    requires key != "" && key !in d
    requires ExpiryKey(key) in e && env.codec.parseTime(e[ExpiryKey(key)]) > now
    ensures var loaded := LoadEffect(env, m, disk, now).1;
      var (outcome, m') := StoreEffect(env, loaded, key, Some(v), ttl, storeTime);
      && outcome == Fail(DuplicateKey(ExpiryKey(key)))
      && key in m'.data
      && m'.expiry[ExpiryKey(key)] == e[ExpiryKey(key)]
  {
    LoadKeepsLiveEntries(env, m, disk, now, d, e);
    var loaded := LoadEffect(env, m, disk, now).1;
    assert key !in loaded.data;
    StoreWritesEntry(env, loaded, key, v, ttl, storeTime);
  }
}
