/** Signal dispatch for CodeSpace. `core/signals/codespace.py` connects a
    second post-delete receiver with the same body as the one in
    `core/handlers/codespace.py`; when both modules are loaded Django runs
    both, one after the other. The `post_get` signal itself is defined
    outside the files modelled here; its dispatch is modelled as a log of
    the signals sent followed by the connected receiver. */
module Signals {
  import opened Cache
  import opened CodeSpaces
  import Handlers

  datatype Signal = PostGet(key: string) | PostDelete(key: string)

  /** The signals sent so far, in order. */
  class SignalLog {
    var sent: seq<Signal>

    constructor ()
      ensures sent == []
    {
      sent := [];
    }
  }

  /** The duplicate `codespace_post_delete_handler`: DEL on the instance's key. */
  method CodespacePostDeleteHandler(redis: Redis, instance: CodeSpace)
    modifies redis
    ensures redis.store == Without(old(redis.store), instance.uuid)
  {
    var instanceUuid := instance.uuid;
    redis.Delete(instanceUuid);
  }

  /** `post_get.send(sender=CodeSpace, instance=instance)` */
  method SendPostGet(log: SignalLog, redis: Redis, instance: CodeSpace, expireTime: int)
    requires instance.Valid()
    modifies log, redis
    ensures log.sent == old(log.sent) + [PostGet(instance.uuid)]
    ensures redis.store == SeedIfAbsent(old(redis.store), instance.uuid, HotValues(instance.attrs), expireTime)
  {
    log.sent := log.sent + [PostGet(instance.uuid)];
    Handlers.CodespacePostGetHandler(redis, instance, expireTime);
  }

  /** `post_delete` for a CodeSpace: both connected receivers run, and the
      cache ends as one DEL would leave it. */
  method SendPostDelete(log: SignalLog, redis: Redis, instance: CodeSpace)
    modifies log, redis
    ensures log.sent == old(log.sent) + [PostDelete(instance.uuid)]
    ensures redis.store == Without(old(redis.store), instance.uuid)
    ensures instance.uuid !in redis.store
  {
    log.sent := log.sent + [PostDelete(instance.uuid)];
    Handlers.CodespacePostDeleteHandler(redis, instance);
    CodespacePostDeleteHandler(redis, instance);
    WithoutIdempotent(old(redis.store), instance.uuid);
  }
}
