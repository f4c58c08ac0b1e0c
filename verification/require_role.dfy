/** The stand-alone role guard, kept beside the one in the authentication middleware. */
module RoleGuard {
  import opened Wrappers
  import opened Entities
  import opened Access
  import AuthMiddleware

  /** `requireRole`: 401 without a user, 403 unless its role is allowed; nothing else matters. */
  function RequireRole(allowedRoles: seq<string>, user: Option<AuthPayload>): (a: Access)
    ensures user.None? ==> a == Deny(NotAuthenticated)
    ensures user.Some? ==> (a == Allow <==> user.value.role in allowedRoles)
    ensures user.Some? && a != Allow ==> a == Deny(Forbidden)
    ensures |allowedRoles| == 0 ==> a != Allow
  {
    if user.None? then Deny(NotAuthenticated)
    else if user.value.role !in allowedRoles then Deny(Forbidden)
    else Allow
  }

  /** The decision depends on the user only through its role. */
  lemma OnlyRoleMatters(allowedRoles: seq<string>, u: AuthPayload, v: AuthPayload)
    requires u.role == v.role
    ensures RequireRole(allowedRoles, Some(u)) == RequireRole(allowedRoles, Some(v))
  {
  }

  /** Both copies of the guard decide every request the same way. */
  lemma SameAsMiddlewareGuard(allowedRoles: seq<string>, user: Option<AuthPayload>)
    ensures RequireRole(allowedRoles, user) == AuthMiddleware.RequireRole(allowedRoles, user)
  {
  }
}
