/** The object-level permissions of `codespace/permissions.py`: access is
    granted when the object's owner attribute equals the request's user. */
module CodeSpacePermissions {
  import opened Wrappers

  /** `getattr` on an attribute the object does not have. */
  datatype AttributeError = AttributeError(name: string)

  datatype ObjectPermission = IsObjectOwner | IsCodeSpaceOwner {
    /** `object_owner_field`: `"owner"` by default, overridden by the
        CodeSpace subclass. */
    function ObjectOwnerField(): string {
      match this
      case IsObjectOwner => "owner"
      case IsCodeSpaceOwner => "created_by"
    }

    /** `has_object_permission`: the object's owner attribute compared with
        the user; a missing attribute raises. The object is its attributes,
        the users are compared with the users' own equality. */
    function HasObjectPermission<U(==)>(obj: map<string, U>, user: U): (r: Result<bool, AttributeError>)
      ensures r.Ok? <==> ObjectOwnerField() in obj
      ensures r.Ok? ==> (r.value <==> obj[ObjectOwnerField()] == user)
      ensures r.Err? ==> r.error == AttributeError(ObjectOwnerField())
    {
      var field := ObjectOwnerField();
      if field in obj then Ok(obj[field] == user) else Err(AttributeError(field))
    }
  }

  /** The CodeSpace permission looks only at `created_by`: an object whose
      creator is someone else is refused even if its `owner` is the user,
      and the generic permission reads `owner` and ignores `created_by`. */
  lemma OwnerFieldDecides<U>(obj: map<string, U>, user: U, other: U)
    requires "owner" in obj && "created_by" in obj
    ensures IsCodeSpaceOwner.HasObjectPermission(obj["owner" := other], user) ==
            IsCodeSpaceOwner.HasObjectPermission(obj, user)
    ensures IsObjectOwner.HasObjectPermission(obj["created_by" := other], user) ==
            IsObjectOwner.HasObjectPermission(obj, user)
    ensures IsCodeSpaceOwner.HasObjectPermission(obj, user) == Ok(obj["created_by"] == user)
    ensures IsObjectOwner.HasObjectPermission(obj, user) == Ok(obj["owner"] == user)
  {
    assert "owner" != "created_by";
  }
}
