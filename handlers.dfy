/** The receivers of `core/handlers/codespace.py`: after a CodeSpace is
    fetched its hot fields are seeded into the cache (unless the key is
    already there) and the key's TTL is re-armed; after a CodeSpace is
    deleted its cache key is removed. */
module Handlers {
  import opened Cache
  import opened CodeSpaces

  /** `codespace_post_delete_handler`: DEL on the instance's key. */
  method CodespacePostDeleteHandler(redis: Redis, instance: CodeSpace)
    modifies redis
    ensures redis.store == Without(old(redis.store), instance.uuid)
    ensures instance.uuid !in redis.store
  {
    var instanceUuid := instance.uuid;
    redis.Delete(instanceUuid);
  }

  /** `codespace_post_get_handler`: the hot fields are read through the
      overlay and written with HMSET only when the key is absent; EXPIRE
      runs in both cases with the configured `expireTime`. */
  method CodespacePostGetHandler(redis: Redis, instance: CodeSpace, expireTime: int)
    requires instance.Valid()
    modifies redis
    ensures redis.store == SeedIfAbsent(old(redis.store), instance.uuid, HotValues(instance.attrs), expireTime)
  {
    var redisKey := instance.uuid;
    if !redis.Exists(redisKey) {
      // The key is absent, so every overlaid read falls back to the instance.
      var redisData := map key | key in RedisStoreFields :: instance.GetAttr(redis, key).value;
      assert redisData == HotValues(instance.attrs);
      redis.HMSet(redisKey, redisData);
    }
    redis.Expire(redisKey, expireTime);
  }
}
