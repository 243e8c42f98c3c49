/** Whole-lifecycle behaviour of a durable CodeSpace, composed from the
    query, the overlay, the flush and the post-delete dispatch: deletion
    leaves neither a row nor a cache entry, and live edits made in the cache
    win over the row until they are flushed. */
module Lifecycle {
  import opened Wrappers
  import opened Cache
  import opened CodeSpaces
  import opened Signals
  import Query

  /** Django's `Model.delete` for a CodeSpace: the row is removed, then
      `post_delete` runs its receivers. */
  method DeleteCodeSpace(db: Database, redis: Redis, log: SignalLog, instance: CodeSpace)
    modifies db, redis, log
    ensures db.rows == old(db.rows) - {instance.uuid}
    ensures instance.uuid !in db.rows && instance.uuid !in redis.store
    ensures redis.store == Without(old(redis.store), instance.uuid)
    ensures log.sent == old(log.sent) + [PostDelete(instance.uuid)]
    ensures old(db.Valid()) ==> db.Valid()
  {
    db.rows := db.rows - {instance.uuid};
    SendPostDelete(log, redis, instance);
  }

  /** A fetched CodeSpace whose `code` is then set directly in the cache
      (the live-editing channel): reads return the cached text, the row keeps
      the old text, and a flush makes the row agree with the cache. */
  method CachePrecedenceScenario(db: Database, redis: Redis, log: SignalLog, key: string,
                                 expireTime: int, live: string, now: int)
    returns (readBeforeFlush: Option<string>, outcome: FlushOutcome)
    requires db.Valid() && key in db.rows && key !in redis.store && expireTime > 0
    modifies db, redis, log
    ensures db.Valid() && key in db.rows
    ensures readBeforeFlush == Some(live)
    ensures outcome == Flushed
    ensures key in db.rows && db.rows[key].columns["code"] == live && db.rows[key].updatedAt == now
    ensures db.rows[key].columns["name"] == old(db.rows[key].columns["name"])
    ensures forall k :: k in old(db.rows) && k != key ==> k in db.rows && db.rows[k] == old(db.rows[k])
  {
    var fetched := Query.Get(db, redis, log, key, expireTime);
    var codespace := fetched.value;
    var row := db.rows[key];
    Query.GetKeepsCachedFields(old(redis.store), key, row, expireTime);
    assert redis.store[key].fields == map["name" := row.columns["name"], "code" := row.columns["code"]];
    redis.HSet(key, "code", live);
    readBeforeFlush := codespace.GetAttr(redis, "code");
    assert db.rows == old(db.rows);
    outcome := CodeSpace.SaveRedisChanges(codespace, redis, db, now);
  }

  /** The overlay path for `name`: after a get, assigning `name` writes the
      cache and the instance but not the row; the flush then stores it and
      stamps `updated_at`. */
  method RenameScenario(db: Database, redis: Redis, log: SignalLog, key: string,
                        expireTime: int, newName: string, now: int)
    returns (readBack: Option<string>, outcome: FlushOutcome)
    requires db.Valid() && key in db.rows && key !in redis.store && expireTime > 0
    modifies db, redis, log
    ensures db.Valid() && key in db.rows
    ensures readBack == Some(newName)
    ensures outcome == Flushed
    ensures key in db.rows && db.rows[key].columns["name"] == newName && db.rows[key].updatedAt == now
    ensures db.rows[key].columns["code"] == old(db.rows[key].columns["code"])
    ensures key in redis.store && redis.store[key].ttl == Some(expireTime)
    ensures redis.store[key].fields == map["name" := newName, "code" := old(db.rows[key].columns["code"])]
  {
    var fetched := Query.Get(db, redis, log, key, expireTime);
    var codespace := fetched.value;
    var row := db.rows[key];
    Query.GetKeepsCachedFields(old(redis.store), key, row, expireTime);
    assert redis.store[key].fields == map["name" := row.columns["name"], "code" := row.columns["code"]];
    codespace.SetAttr(redis, "name", newName);
    assert redis.store[key] == Entry(map["name" := newName, "code" := row.columns["code"]], Some(expireTime));
    readBack := codespace.GetAttr(redis, "name");
    assert db.rows == old(db.rows);
    outcome := CodeSpace.SaveRedisChanges(codespace, redis, db, now);
  }
}
