/** `CodeSpaceQuerySet.get` (`core/query.py`), the entry point through
    which `CodeSpace.objects.get(uuid=...)` runs: the database lookup, then
    the `post_get` signal, then the instance is returned. */
module Query {
  import opened Wrappers
  import opened Cache
  import opened CodeSpaces
  import opened Signals

  datatype QueryError = DoesNotExist

  /** The cache after a successful get of `row` at `key`: the model
      constructor's column assignments (none reach the cache once loading is
      corrected), then the post-get handler. */
  function GetEffect(s: Store, key: string, row: Row, expireTime: int): Store
    requires RowValid(row)
  {
    SeedIfAbsent(s, key, HotValues(row.columns), expireTime)
  }

  /** The same, with the constructor assigning the hot columns through
      `__setattr__` as Django's model constructor does. */
  function GetEffectAsWritten(s: Store, key: string, row: Row, expireTime: int): Store
    requires RowValid(row)
  {
    SeedIfAbsent(LoadEffectAsWritten(s, key, row), key, HotValues(row.columns), expireTime)
  }

  /** `get(uuid=key)`: DoesNotExist, with no signal and no cache traffic,
      when no row has that key; otherwise one `post_get` and the instance. */
  method Get(db: Database, redis: Redis, log: SignalLog, key: string, expireTime: int)
    returns (r: Result<CodeSpace, QueryError>)
    requires db.Valid()
    modifies redis, log
    ensures key !in db.rows ==>
      r == Err(DoesNotExist) && redis.store == old(redis.store) && log.sent == old(log.sent)
    ensures key in db.rows ==>
      && r.Ok? && fresh(r.value) && r.value.Valid()
      && r.value.uuid == key && r.value.attrs == db.rows[key].columns
      && r.value.updatedAt == db.rows[key].updatedAt
      && log.sent == old(log.sent) + [PostGet(key)]
      && redis.store == GetEffect(old(redis.store), key, db.rows[key], expireTime)
  {
    if key !in db.rows {
      return Err(DoesNotExist);
    }
    var instance := new CodeSpace.FromRow(key, db.rows[key]);
    SendPostGet(log, redis, instance, expireTime);
    return Ok(instance);
  }

  /** `get(uuid=key)` with the instance built by `FromRowAsWritten`. */
  method GetAsWritten(db: Database, redis: Redis, log: SignalLog, key: string, expireTime: int)
    returns (r: Result<CodeSpace, QueryError>)
    requires db.Valid()
    modifies redis, log
    ensures key !in db.rows ==>
      r == Err(DoesNotExist) && redis.store == old(redis.store) && log.sent == old(log.sent)
    ensures key in db.rows ==>
      && r.Ok? && fresh(r.value) && r.value.Valid()
      && r.value.uuid == key && r.value.attrs == db.rows[key].columns
      && log.sent == old(log.sent) + [PostGet(key)]
      && redis.store == GetEffectAsWritten(old(redis.store), key, db.rows[key], expireTime)
  {
    if key !in db.rows {
      return Err(DoesNotExist);
    }
    var instance := new CodeSpace.FromRowAsWritten(key, db.rows[key], redis);
    SendPostGet(log, redis, instance, expireTime);
    return Ok(instance);
  }

  /** A get never disturbs a hash that is already cached: the live edits
      stay, only the TTL is re-armed. A missing hash is seeded from the row. */
  lemma GetKeepsCachedFields(s: Store, key: string, row: Row, expireTime: int)
    requires RowValid(row) && expireTime > 0
    ensures var after := GetEffect(s, key, row, expireTime);
      && key in after && after[key].ttl == Some(expireTime)
      && (key in s ==> after[key].fields == s[key].fields)
      && (key !in s ==> after[key].fields == HotValues(row.columns))
      && (forall k :: k != key ==> (k in after <==> k in s))
      && (forall k :: k != key && k in s ==> after[k] == s[k])
  {
    SeedIfAbsentSpec(s, key, HotValues(row.columns), expireTime);
  }

  /** As written, a get of a row whose name is cached replaces the cached
      (live-edited) name with the stale one from the row. */
  lemma GetAsWrittenDiscardsEditedName(s: Store, key: string, row: Row, expireTime: int)
    requires RowValid(row) && expireTime > 0
    requires FieldValue(s, key, "name").Some?
    ensures FieldValue(GetEffectAsWritten(s, key, row, expireTime), key, "name") == Some(row.columns["name"])
  {
    var loaded := LoadEffectAsWritten(s, key, row);
    assert FieldValue(SetterEffect(s, key, "name", row.columns["name"]), key, "name") == Some(row.columns["name"]);
    SetterNeverCreates(s, key, "name", row.columns["name"]);
    assert FieldValue(loaded, key, "name") == Some(row.columns["name"]);
    SeedIfAbsentSpec(loaded, key, HotValues(row.columns), expireTime);
  }
}
