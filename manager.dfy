/** `TmpCodeSpaceManager.get` (`core/manager.py`): a read-only lookup of
    a TmpCodeSpace in the cache. `CodeSpaceManager` adds nothing to
    `CodeSpaceQuerySet`, so `CodeSpace.objects.get` is `Query.Get`. */
module Manager {
  import opened Wrappers
  import opened Cache
  import opened TmpCodeSpaces

  datatype LookupError =
    | DoesNotExist
      /** Python's TypeError for a keyword argument passed twice. */
    | DuplicateKeyword(name: string)

  /** The `uuid` keyword is missing or empty, or nothing is cached under it. */
  predicate NotFound(s: Store, uuid: Option<string>) {
    uuid.None? || uuid.value == "" || uuid.value !in s
  }

  /** The lookup as written: `self.model(uuid=uuid, **data)`, where `data`
      is the whole hash. The hash `save` writes holds `uuid` itself, so the
      call names `uuid` twice. */
  function GetAsWritten(s: Store, uuid: Option<string>): (r: Result<TmpCodeSpace, LookupError>)
    ensures NotFound(s, uuid) <==> r == Err(DoesNotExist)
    ensures r == Err(DuplicateKeyword("uuid")) <==>
      !NotFound(s, uuid) && "uuid" in s[uuid.value].fields
    ensures r.Ok? ==> r.value == New(uuid.value, FieldValue(s, uuid.value, "code"))
  {
    if NotFound(s, uuid) then Err(DoesNotExist)
    else
      var data := AllFields(s, uuid.value);
      if "uuid" in data then Err(DuplicateKeyword("uuid"))
      else Ok(New(uuid.value, if "code" in data then Some(data["code"]) else None))
  }

  /** The lookup with the stored `uuid` field dropped from the keyword
      arguments: the key it was found under is the instance's uuid. */
  function Get(s: Store, uuid: Option<string>): (r: Result<TmpCodeSpace, LookupError>)
    ensures NotFound(s, uuid) <==> r == Err(DoesNotExist)
    ensures r.Ok? <==> !NotFound(s, uuid)
    ensures r.Ok? ==> r.value == New(uuid.value, FieldValue(s, uuid.value, "code"))
  {
    if NotFound(s, uuid) then Err(DoesNotExist)
    else
      var data := AllFields(s, uuid.value) - {"uuid"};
      Ok(New(uuid.value, if "code" in data then Some(data["code"]) else None))
  }

  /** As written, a TmpCodeSpace that was saved can never be fetched back. */
  lemma SavedTmpCodeSpaceIsUnreadable(s: Store, t: TmpCodeSpace, expireTime: int)
    requires t.uuid != "" && expireTime > 0
    requires t.uuid !in s
    ensures GetAsWritten(SeedIfAbsent(s, t.uuid, t.ToPython(), expireTime), Some(t.uuid)) == Err(DuplicateKeyword("uuid"))
  {
    SeedIfAbsentSpec(s, t.uuid, t.ToPython(), expireTime);
  }

  /** Round trip: what `save` stores under a fresh key, the corrected lookup
      returns; and after `delete` the lookup fails with DoesNotExist. */
  lemma SaveThenGet(s: Store, t: TmpCodeSpace, expireTime: int)
    requires t.uuid != "" && expireTime > 0
    requires t.uuid !in s
    ensures var saved := SeedIfAbsent(s, t.uuid, t.ToPython(), expireTime);
      && Get(saved, Some(t.uuid)) == Ok(t)
      && Get(Without(saved, t.uuid), Some(t.uuid)) == Err(DoesNotExist)
  {
    SeedIfAbsentSpec(s, t.uuid, t.ToPython(), expireTime);
  }
}
