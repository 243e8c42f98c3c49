/** The class-definition check of `CodeSpaceBase.__new__`: before the model
    class is built, every name listed in `redis_store_fields` must be an
    attribute of the class body, the `redis_store_key` must not be one of
    them, and the list is turned into a dict from field to True. */
module ModelBase {
  import opened Wrappers

  /** `ImproperlyConfigured` and the `TypeError` of iterating a missing list. */
  datatype ConfigError =
    | MissingAttribute(field: string)
    | KeyIsStoreField(key: string)
    | NoStoreFields

  /** The class-body names of `CodeSpace`. */
  const CodeSpaceAttributes: set<string> :=
    {"__module__", "__qualname__", "__doc__", "redis_store_key", "redis_store_fields",
     "redis_settable_fields", "objects", "uuid", "name", "code", "created_by",
     "created_at", "updated_at", "is_cached_in_redis", "save_redis_changes",
     "__setattr__", "__getattribute__", "_CodeSpace__redis_setter",
     "_CodeSpace__redis_getter"}

  ghost predicate AllPresent(attrs: set<string>, fields: seq<string>) {
    forall f :: f in fields ==> f in attrs
  }

  /** Runs the checks over the class body `attrs`, given the values bound to
      `redis_store_key` and `redis_store_fields` in it. */
  method BuildStoreFields(attrs: set<string>, storeKey: Option<string>, storeFields: Option<seq<string>>)
    returns (r: Result<map<string, bool>, ConfigError>)
    ensures storeFields.None? ==> r == Err(NoStoreFields)
    ensures storeFields.Some? ==>
      (r.Ok? <==> AllPresent(attrs, storeFields.value) &&
                  (storeKey.None? || storeKey.value !in storeFields.value))
    ensures r.Ok? ==>
      && storeFields.Some?
      && r.value.Keys == (set f | f in storeFields.value)
      && forall f :: f in r.value ==> r.value[f]
    ensures r.Err? && r.error.MissingAttribute? ==>
      && storeFields.Some?
      && exists i :: 0 <= i < |storeFields.value| && storeFields.value[i] == r.error.field &&
                     storeFields.value[i] !in attrs &&
                     forall j :: 0 <= j < i ==> storeFields.value[j] in attrs
    ensures r.Err? && r.error.KeyIsStoreField? ==>
      && storeFields.Some?
      && AllPresent(attrs, storeFields.value)
      && storeKey == Some(r.error.key)
      && r.error.key in storeFields.value
  {
    if storeFields.None? {
      return Err(NoStoreFields);
    }
    var listed := storeFields.value;
    var fields: map<string, bool> := map[];
    var i := 0;
    while i < |listed|
      invariant 0 <= i <= |listed|
      invariant forall j :: 0 <= j < i ==> listed[j] in attrs
      invariant fields.Keys == set j | 0 <= j < i :: listed[j]
      invariant forall f :: f in fields ==> fields[f]
    {
      if listed[i] !in attrs {
        return Err(MissingAttribute(listed[i]));
      }
      fields := fields[listed[i] := true];
      i := i + 1;
    }
    assert fields.Keys == set f | f in listed by {
      forall f | f in listed ensures f in fields {
        var j :| 0 <= j < |listed| && listed[j] == f;
      }
    }
    if storeKey.Some? && storeKey.value in fields {
      return Err(KeyIsStoreField(storeKey.value));
    }
    return Ok(fields);
  }

  /** Defining `CodeSpace` (key "uuid", fields name and code) passes the
      checks and yields the dict the overlay consults. */
  method DefineCodeSpace() returns (storeFields: map<string, bool>)
    ensures storeFields == map["name" := true, "code" := true]
  {
    var r := BuildStoreFields(CodeSpaceAttributes, Some("uuid"), Some(["name", "code"]));
    storeFields := map[];
    if r.Ok? {
      storeFields := r.value;
    } else {
      assert false;
    }
    assert storeFields.Keys == {"name", "code"};
  }
}
