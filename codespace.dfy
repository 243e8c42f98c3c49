/** The durable CodeSpace model and its cache overlay
    (`core/models/codespace.py`). A CodeSpace row lives in the database; its
    two hot fields, `name` and `code`, are shadowed by a Redis hash stored at
    the text form of the row's uuid. Reads of a hot field prefer the hash;
    assignments to `name` also update the hash when it already holds that
    field; `save_redis_changes` copies the hash back into the row. */
module CodeSpaces {
  import opened Wrappers
  import opened Cache

  /** `redis_store_key`: the attribute whose text form is the cache key. */
  const RedisStoreKey: string := "uuid"

  /** `redis_store_fields` after `CodeSpaceBase.__new__` turned the list into
      a dict (see ModelBase.DefineCodeSpace). */
  const RedisStoreFields: map<string, bool> := map["name" := true, "code" := true]

  /** `redis_settable_fields`: hot fields whose assignment also writes the
      cache. `code` is left out on purpose: it is meant to change only
      through the live-editing channel. */
  const RedisSettableFields: seq<string> := ["name"]

  /** `get_default_code_value()`: the snippet a new codespace starts with. */
  const DefaultCode: string :=
    "def fibonacci(n):\n\n" +
    "    a, b = 0, 1\n" +
    "    if n < 0:\n" +
    "        yield 'Incorrect input'\n" +
    "    else:\n" +
    "        for i in range(0, n+1):\n" +
    "            yield a\n" +
    "            a, b = b, a + b\n\n" +
    "for i in fibonacci(10):\n" +
    "   print(i)\n"

  /** A database row: its text columns (`name`, `code`, `created_by`, ...)
      and the `updated_at` stamp refreshed by every save. */
  datatype Row = Row(columns: map<string, string>, updatedAt: int)

  /** Both hot columns are NOT NULL in the table. */
  ghost predicate RowValid(row: Row) {
    "name" in row.columns && "code" in row.columns
  }

  /** The CodeSpace table, keyed by the text form of the primary key. */
  class Database {
    var rows: map<string, Row>

    ghost predicate Valid()
      reads this
    {
      forall k :: k in rows ==> RowValid(rows[k])
    }

    constructor ()
      ensures rows == map[] && Valid()
    {
      rows := map[];
    }
  }

  /** The attribute names `__getattribute__` redirects to the cache. */
  predicate Overlaid(name: string) {
    name != "redis_store_fields" && name in RedisStoreFields
  }

  /** The attribute names whose assignment `__setattr__` forwards to the cache. */
  predicate Settable(name: string) {
    name != "redis_store_fields" && name in RedisSettableFields && name in RedisStoreFields
  }

  /** `__getattribute__`: the cached text when the hash holds the field,
      otherwise the instance's own attribute; None stands for the
      AttributeError of an attribute the instance does not have. */
  function OverlayRead(s: Store, key: string, attrs: map<string, string>, name: string): Option<string> {
    if Overlaid(name) && FieldValue(s, key, name).Some? then FieldValue(s, key, name)
    else if name in attrs then Some(attrs[name])
    else None
  }

  /** The cache after one `__setattr__(name, value)`: `__redis_setter` runs
      only for settable fields and writes only when HEXISTS holds. */
  function SetterEffect(s: Store, key: string, name: string, value: string): Store {
    if Settable(name) && FieldValue(s, key, name).Some? then WithField(s, key, name, value) else s
  }

  /** Every attribute as Django's save reads it: through `__getattribute__`. */
  function OverlayView(s: Store, key: string, attrs: map<string, string>): (view: map<string, string>)
    ensures view.Keys == attrs.Keys
    ensures forall f :: f in view ==> Some(view[f]) == OverlayRead(s, key, attrs, f)
  {
    map f | f in attrs :: if Overlaid(f) && FieldValue(s, key, f).Some? then FieldValue(s, key, f).value else attrs[f]
  }

  /** The hot fields of an instance as the post-get handler stores them. */
  function HotValues(attrs: map<string, string>): (values: map<string, string>)
    requires "name" in attrs && "code" in attrs
    ensures values.Keys == RedisStoreFields.Keys
    ensures forall f :: f in values ==> values[f] == attrs[f]
  {
    map f | f in RedisStoreFields :: attrs[f]
  }

  /** The cache after Django's model constructor has assigned the hot columns
      of a loaded row through `__setattr__`, name first, then code. */
  function LoadEffectAsWritten(s: Store, key: string, row: Row): Store
    requires RowValid(row)
  {
    SetterEffect(SetterEffect(s, key, "name", row.columns["name"]), key, "code", row.columns["code"])
  }

  /** An assignment never creates a key or a hash field, never changes a
      TTL, and touches no key but the instance's own. */
  lemma SetterNeverCreates(s: Store, key: string, name: string, value: string)
    ensures var r := SetterEffect(s, key, name, value);
      && r.Keys == s.Keys
      && (forall k :: k in s ==> r[k].ttl == s[k].ttl && r[k].fields.Keys == s[k].fields.Keys)
      && (forall k :: k in s && k != key ==> r[k] == s[k])
  {
    var r := SetterEffect(s, key, name, value);
    if Settable(name) && FieldValue(s, key, name).Some? {
      assert r == s[key := s[key].(fields := s[key].fields[name := value])];
      assert name in s[key].fields;
    }
  }

  /** Assigning `code` (or any attribute that is not settable) leaves the
      cache as it was. */
  lemma UnsettableWritesSkipCache(s: Store, key: string, name: string, value: string)
    requires !Settable(name)
    ensures SetterEffect(s, key, name, value) == s
  {
  }

  lemma CodeIsNotSettable()
    ensures Overlaid("code") && !Settable("code")
    ensures Overlaid("name") && Settable("name")
    ensures !Overlaid(RedisStoreKey)
  {
  }

  /** After `instance.name = v`, reading `name` yields v, whether or not the
      hash was there. */
  lemma ReadAfterNameWrite(s: Store, key: string, attrs: map<string, string>, v: string)
    ensures OverlayRead(SetterEffect(s, key, "name", v), key, attrs["name" := v], "name") == Some(v)
  {
  }

  /** After `instance.code = v` while the hash holds a code c, reading `code`
      still yields c: the assignment only reaches the instance. */
  lemma CodeWriteShadowedByCache(s: Store, key: string, attrs: map<string, string>, v: string)
    requires FieldValue(s, key, "code").Some?
    ensures OverlayRead(SetterEffect(s, key, "code", v), key, attrs["code" := v], "code") == FieldValue(s, key, "code")
  {
  }

  /** When the hash holds every hot field, and the instance's hot attributes
      have been overwritten with the cached text, what save writes is the
      instance's own attributes. */
  lemma {:induction false} ViewOfFlushedAttributes(s: Store, key: string, attrs: map<string, string>)
    requires key in s && "name" in s[key].fields && "code" in s[key].fields
    ensures var flushed := attrs["name" := s[key].fields["name"]]["code" := s[key].fields["code"]];
      OverlayView(s, key, flushed) == flushed
  {
    var flushed := attrs["name" := s[key].fields["name"]]["code" := s[key].fields["code"]];
    var view := OverlayView(s, key, flushed);
    forall f | f in flushed
      ensures view[f] == flushed[f]
    {
      if Overlaid(f) {
        assert f == "name" || f == "code";
      }
    }
  }

  /** The end of `save_redis_changes`: the row was written, the key was
      absent (ObjectDoesNotExist), or a hot field was absent from the hash
      (the save then fails on the NOT NULL column). */
  datatype FlushOutcome = Flushed | NotCached | FieldMissing(field: string)

  class CodeSpace {
    /** `str(self.uuid)`, the cache key. */
    const uuid: string
    /** The instance's `__dict__` restricted to its text attributes. */
    var attrs: map<string, string>
    var updatedAt: int

    ghost predicate Valid()
      reads this
    {
      "name" in attrs && "code" in attrs
    }

    /** An instance built from a stored row with the column assignments kept
        away from the cache (the corrected loading, see README Findings). */
    constructor FromRow(uuid: string, row: Row)
      requires RowValid(row)
      ensures this.uuid == uuid && attrs == row.columns && updatedAt == row.updatedAt
      ensures Valid()
    {
      this.uuid := uuid;
      attrs := row.columns;
      updatedAt := row.updatedAt;
    }

    /** An instance built from a stored row as Django's model constructor
        does it: every column is assigned with `setattr`, so each hot column
        goes through `__setattr__` after the primary key has been set. */
    constructor FromRowAsWritten(uuid: string, row: Row, redis: Redis)
      requires RowValid(row)
      modifies redis
      ensures this.uuid == uuid && attrs == row.columns && updatedAt == row.updatedAt
      ensures Valid()
      ensures redis.store == LoadEffectAsWritten(old(redis.store), uuid, row)
    {
      this.uuid := uuid;
      attrs := row.columns - {"name", "code"};
      updatedAt := row.updatedAt;
      new;
      SetAttr(redis, "name", row.columns["name"]);
      SetAttr(redis, "code", row.columns["code"]);
      assert attrs == row.columns;
    }

    /** `is_cached_in_redis`: whether Redis holds any value under the key. */
    static function IsCachedInRedis(redis: Redis, key: string): (cached: bool)
      reads redis
      ensures cached <==> key in redis.store
    {
      redis.Exists(key)
    }

    /** `__redis_getter`: HGET on the instance's key. */
    function RedisGetter(redis: Redis, name: string): (r: Option<string>)
      reads this, redis
      ensures r.Some? <==> uuid in redis.store && name in redis.store[uuid].fields
      ensures r.Some? ==> r.value == redis.store[uuid].fields[name]
    {
      redis.HGet(uuid, name)
    }

    /** `__getattribute__` */
    function GetAttr(redis: Redis, name: string): (r: Option<string>)
      reads this, redis
      ensures Overlaid(name) && uuid in redis.store && name in redis.store[uuid].fields ==>
                r == Some(redis.store[uuid].fields[name])
      ensures !(Overlaid(name) && uuid in redis.store && name in redis.store[uuid].fields) ==>
                r == (if name in attrs then Some(attrs[name]) else None)
    {
      if Overlaid(name) && RedisGetter(redis, name).Some? then RedisGetter(redis, name)
      else if name in attrs then Some(attrs[name])
      else None
    }

    /** `__redis_setter`: HSET only when HEXISTS says the field is there. */
    method RedisSetter(redis: Redis, name: string, value: string)
      modifies redis
      ensures redis.store ==
        if FieldValue(old(redis.store), uuid, name).Some? then WithField(old(redis.store), uuid, name, value)
        else old(redis.store)
    {
      var key := uuid;
      if redis.HExists(key, name) {
        redis.HSet(key, name, value);
      }
    }

    /** `__setattr__`: one attribute assignment. */
    method SetAttr(redis: Redis, name: string, value: string)
      modifies this, redis
      ensures attrs == old(attrs)[name := value]
      ensures updatedAt == old(updatedAt)
      ensures redis.store == SetterEffect(old(redis.store), uuid, name, value)
    {
      if name != "redis_store_fields" && name in RedisSettableFields && name in RedisStoreFields {
        RedisSetter(redis, name, value);
      }
      attrs := attrs[name := value];
    }

    /** Django's `Model.save`: each column is read through `getattr` (so
        through the overlay), `updated_at` is stamped with the clock value
        `now`, and the row is written. */
    method Save(db: Database, redis: Redis, now: int)
      modifies this, db
      ensures attrs == old(attrs) && updatedAt == now
      ensures db.rows == old(db.rows)[uuid := Row(OverlayView(redis.store, uuid, attrs), now)]
      ensures Valid() && old(db.Valid()) ==> db.Valid()
    {
      updatedAt := now;
      db.rows := db.rows[uuid := Row(OverlayView(redis.store, uuid, attrs), now)];
    }

    /** `save_redis_changes`: copy the cached hot fields into the instance
        and save it once. Raises ObjectDoesNotExist (NotCached) and saves
        nothing when the key is absent. */
    static method SaveRedisChanges(codespace: CodeSpace, redis: Redis, db: Database, now: int)
      returns (r: FlushOutcome)
      requires codespace.Valid()
      modifies codespace, db
      ensures r.NotCached? <==> codespace.uuid !in redis.store
      ensures r.Flushed? <==>
        codespace.uuid in redis.store &&
        "name" in redis.store[codespace.uuid].fields && "code" in redis.store[codespace.uuid].fields
      ensures r.FieldMissing? ==>
        r.field in RedisStoreFields && r.field !in redis.store[codespace.uuid].fields
      ensures !r.Flushed? ==>
        codespace.attrs == old(codespace.attrs) && codespace.updatedAt == old(codespace.updatedAt) &&
        db.rows == old(db.rows)
      ensures r.Flushed? ==>
        && codespace.Valid()
        && codespace.attrs == old(codespace.attrs) + HotValues(redis.store[codespace.uuid].fields)
        && codespace.updatedAt == now
        && db.rows == old(db.rows)[codespace.uuid := Row(codespace.attrs, now)]
        && forall f :: f in RedisStoreFields ==>
             db.rows[codespace.uuid].columns[f] == redis.store[codespace.uuid].fields[f]
      ensures old(db.Valid()) ==> db.Valid()
    {
      var key := codespace.uuid;
      if !IsCachedInRedis(redis, key) {
        return NotCached;
      }
      var name := redis.HGet(key, "name");
      var code := redis.HGet(key, "code");
      if name.None? {
        return FieldMissing("name");
      }
      if code.None? {
        return FieldMissing("code");
      }
      // `__dict__.update` writes the instance directly, bypassing `__setattr__`.
      codespace.attrs := codespace.attrs["name" := name.value]["code" := code.value];
      ViewOfFlushedAttributes(redis.store, key, old(codespace.attrs));
      codespace.Save(db, redis, now);
      r := Flushed;
    }
  }
}
