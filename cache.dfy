/** The Redis server reached through the project's module-level client
    `REDIS`, reduced to the commands the CodeSpace code issues. Every key the
    code uses holds a hash from field to text (the client decodes responses
    to text) together with the time to live last armed on it. Time does not
    pass in this model: a TTL is recorded, never counted down, and no key
    expires on its own. */
module Cache {
  import opened Wrappers

  datatype Entry = Entry(fields: map<string, string>, ttl: Option<int>)

  type Store = map<string, Entry>

  /** HGET key field: the field's text, or nil. */
  function FieldValue(s: Store, key: string, field: string): Option<string> {
    if key in s && field in s[key].fields then Some(s[key].fields[field]) else None
  }

  /** HGETALL key: the whole hash, empty for a missing key. */
  function AllFields(s: Store, key: string): map<string, string> {
    if key in s then s[key].fields else map[]
  }

  /** HSET key field value: a missing key is created without a TTL; an
      existing key keeps its TTL. */
  function WithField(s: Store, key: string, field: string, value: string): Store {
    if key in s then s[key := s[key].(fields := s[key].fields[field := value])]
    else s[key := Entry(map[field := value], None)]
  }

  /** HMSET key mapping: merges the mapping into the hash, same TTL rules as HSET. */
  function WithFields(s: Store, key: string, mapping: map<string, string>): Store {
    if key in s then s[key := s[key].(fields := s[key].fields + mapping)]
    else s[key := Entry(mapping, None)]
  }

  /** EXPIRE key seconds: nothing for a missing key, deletion for a
      non-positive time, otherwise the TTL is (re)armed. */
  function WithExpiry(s: Store, key: string, seconds: int): Store {
    if key !in s then s
    else if seconds <= 0 then s - {key}
    else s[key := s[key].(ttl := Some(seconds))]
  }

  /** DEL key: no error when the key is missing. */
  function Without(s: Store, key: string): Store {
    s - {key}
  }

  /** Deleting a key twice leaves the store as deleting it once. */
  lemma WithoutIdempotent(s: Store, key: string)
    ensures Without(Without(s, key), key) == Without(s, key)
    ensures key !in Without(s, key)
  {
  }

  /** EXISTS, HMSET only when the key is absent, then EXPIRE: the sequence
      both the CodeSpace post-get handler and `TmpCodeSpace.save` issue. */
  function SeedIfAbsent(s: Store, key: string, mapping: map<string, string>, seconds: int): Store {
    WithExpiry(if key in s then s else WithFields(s, key, mapping), key, seconds)
  }

  /** What seeding does: a missing key receives the mapping, a present key
      keeps its hash, the TTL is armed in both cases (a non-positive time
      removes the key, as EXPIRE does), and no other key changes. */
  lemma SeedIfAbsentSpec(s: Store, key: string, mapping: map<string, string>, seconds: int)
    ensures var r := SeedIfAbsent(s, key, mapping, seconds);
      && (seconds > 0 ==> key in r && r[key].ttl == Some(seconds))
      && (seconds > 0 && key !in s ==> r[key].fields == mapping)
      && (seconds > 0 && key in s ==> r[key].fields == s[key].fields)
      && (seconds <= 0 ==> key !in r)
      && (forall k :: k != key ==> (k in r <==> k in s))
      && (forall k :: k != key && k in s ==> r[k] == s[k])
  {
  }

  /** Seeding twice gives the store seeding once gave, whatever the second
      mapping is: populate-if-absent never overwrites. */
  lemma SeedIfAbsentIdempotent(s: Store, key: string, first: map<string, string>, second: map<string, string>, seconds: int)
    ensures SeedIfAbsent(SeedIfAbsent(s, key, first, seconds), key, second, seconds) == SeedIfAbsent(s, key, first, seconds)
  {
    var once := SeedIfAbsent(s, key, first, seconds);
    if seconds <= 0 {
      assert key !in once;
      assert once.Keys == s.Keys - {key};
      assert SeedIfAbsent(once, key, second, seconds) == WithFields(once, key, second) - {key};
      assert WithFields(once, key, second) - {key} == once;
    }
  }

  /** A hash field written directly between two seedings survives the
      second one. */
  lemma SeedKeepsDirectWrites(s: Store, key: string, mapping: map<string, string>, seconds: int,
                              field: string, value: string, again: map<string, string>)
    requires seconds > 0
    ensures var edited := WithField(SeedIfAbsent(s, key, mapping, seconds), key, field, value);
      FieldValue(SeedIfAbsent(edited, key, again, seconds), key, field) == Some(value)
  {
  }

  class Redis {
    var store: Store

    constructor ()
      ensures store == map[]
    {
      store := map[];
    }

    /** EXISTS key */
    predicate Exists(key: string)
      reads this
    {
      key in store
    }

    /** HEXISTS key field */
    predicate HExists(key: string, field: string)
      reads this
    {
      FieldValue(store, key, field).Some?
    }

    /** HGET key field */
    function HGet(key: string, field: string): Option<string>
      reads this
    {
      FieldValue(store, key, field)
    }

    /** HGETALL key */
    function HGetAll(key: string): map<string, string>
      reads this
    {
      AllFields(store, key)
    }

    method HSet(key: string, field: string, value: string)
      modifies this
      ensures store == WithField(old(store), key, field, value)
    {
      store := WithField(store, key, field, value);
    }

    method HMSet(key: string, mapping: map<string, string>)
      modifies this
      ensures store == WithFields(old(store), key, mapping)
    {
      store := WithFields(store, key, mapping);
    }

    method Expire(key: string, seconds: int)
      modifies this
      ensures store == WithExpiry(old(store), key, seconds)
    {
      store := WithExpiry(store, key, seconds);
    }

    method Delete(key: string)
      modifies this
      ensures store == Without(old(store), key)
    {
      store := Without(store, key);
    }
  }
}
