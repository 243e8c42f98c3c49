/** `IsNotAuthenticated` of `jwt_auth/permissions.py`: the view-level
    permission that admits only requests without a logged-in user. */
module JwtPermissions {
  /** `request.user`: absent (`None`), Django's `AnonymousUser`, or a user
      loaded from the request's credentials. */
  datatype RequestUser = NoUser | Anonymous | LoggedIn(uuid: string)

  /** `bool(request.user)`: only the absent user is falsy. */
  predicate Truthy(user: RequestUser) {
    !user.NoUser?
  }

  /** The `is_authenticated` attribute: False on `AnonymousUser`, True on
      every user model instance. */
  predicate IsAuthenticatedAttribute(user: RequestUser)
    requires Truthy(user)
  {
    user.LoggedIn?
  }

  /** `IsNotAuthenticated.has_permission`: exactly the requests of a
      logged-in user are refused. */
  function HasPermission(user: RequestUser): (r: bool)
    ensures r <==> !user.LoggedIn?
    ensures user.NoUser? || user.Anonymous? ==> r
  {
    !(Truthy(user) && IsAuthenticatedAttribute(user))
  }
}
