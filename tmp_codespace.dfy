/** `TmpCodeSpace` (`core/models/codespace.py`): an anonymous snippet that
    lives only in the cache, as the hash `{code, uuid}` at its uuid. */
module TmpCodeSpaces {
  import opened Wrappers
  import opened Cache
  import CodeSpaces

  /** `redis_store_key` and `redis_store_fields` of TmpCodeSpace. */
  const TmpRedisStoreKey: string := "uuid"
  const TmpRedisStoreFields: seq<string> := ["code"]

  datatype TmpCodeSpace = TmpCodeSpace(uuid: string, code: string) {
    /** `to_python`: the hot fields, then the key field. */
    function ToPython(): (data: map<string, string>)
      ensures data.Keys == {"code", "uuid"}
      ensures data["code"] == code && data["uuid"] == uuid
    {
      (map f | f in TmpRedisStoreFields :: code)[TmpRedisStoreKey := uuid]
    }

    /** `save`: HMSET of `to_python()` only when the key is absent (first
        write wins), then EXPIRE with `TMP_CODESPACE_REDIS_EXPIRE_TIME`. */
    method Save(redis: Redis, expireTime: int)
      modifies redis
      ensures redis.store == SeedIfAbsent(old(redis.store), uuid, ToPython(), expireTime)
    {
      var redisKey := uuid;
      if !redis.Exists(redisKey) {
        redis.HMSet(redisKey, ToPython());
      }
      redis.Expire(redisKey, expireTime);
    }

    /** `delete`: DEL on the key, present or not. */
    method Delete(redis: Redis)
      modifies redis
      ensures redis.store == Without(old(redis.store), uuid)
      ensures uuid !in redis.store
    {
      var redisKey := uuid;
      redis.Delete(redisKey);
    }
  }

  /** `TmpCodeSpace.__init__`: a missing code becomes the default snippet. */
  function New(uuid: string, code: Option<string>): (t: TmpCodeSpace)
    ensures t.uuid == uuid
    ensures code.Some? ==> t.code == code.value
    ensures code.None? ==> t.code == CodeSpaces.DefaultCode
  {
    TmpCodeSpace(uuid, code.GetOr(CodeSpaces.DefaultCode))
  }

  /** Saving a new snippet stores exactly `{code, uuid}` with the TMP TTL;
      saving again (with any content) keeps the first write and only
      re-arms the TTL. */
  lemma SaveIsFirstWriteWins(s: Store, t: TmpCodeSpace, later: TmpCodeSpace, expireTime: int)
    requires t.uuid !in s && later.uuid == t.uuid && expireTime > 0
    ensures var once := SeedIfAbsent(s, t.uuid, t.ToPython(), expireTime);
      && once[t.uuid] == Entry(map["code" := t.code, "uuid" := t.uuid], Some(expireTime))
      && SeedIfAbsent(once, later.uuid, later.ToPython(), expireTime) == once
  {
    SeedIfAbsentSpec(s, t.uuid, t.ToPython(), expireTime);
    SeedIfAbsentIdempotent(s, t.uuid, t.ToPython(), later.ToPython(), expireTime);
  }
}
