/**
 * The route guard of the front end: what a protected route shows, given
 * whether the session is still loading, who is logged in, and the role the
 * route asks for.
 */
module RouteGuard {
  import opened Wrappers

  datatype User = User(role: string)

  /** What the guard renders. */
  datatype View = LoadingIndicator | RedirectToLogin | RedirectToHome | Children

  /** `requiredRole` is truthy: present and not the empty string. */
  predicate RoleRequired(requiredRole: Option<string>)
  {
    requiredRole.Some? && requiredRole.value != ""
  }

  /** `PrivateRoute`: loading first, then login, then the role check. */
  function PrivateRoute(loading: bool, user: Option<User>, requiredRole: Option<string>): (v: View)
    ensures loading ==> v == LoadingIndicator
    ensures !loading && user.None? ==> v == RedirectToLogin
    ensures v == RedirectToHome <==>
      !loading && user.Some? && RoleRequired(requiredRole) && user.value.role != requiredRole.value
  {
    if loading then LoadingIndicator
    else if user.None? then RedirectToLogin
    else if RoleRequired(requiredRole) && user.value.role != requiredRole.value then RedirectToHome
    else Children
  }

  /** The children are shown exactly to a loaded, logged-in user holding the role, if one is asked for. */
  lemma ChildrenIff(loading: bool, user: Option<User>, requiredRole: Option<string>)
    ensures PrivateRoute(loading, user, requiredRole) == Children <==>
      !loading && user.Some? && (!RoleRequired(requiredRole) || user.value.role == requiredRole.value)
  {
    if !loading && user.Some? && RoleRequired(requiredRole) && user.value.role != requiredRole.value {
      assert PrivateRoute(loading, user, requiredRole) == RedirectToHome;
    }
  }

  /** An absent or empty required role checks nothing: every logged-in user passes. */
  lemma NoRoleNoCheck(user: User, requiredRole: Option<string>)
    requires requiredRole.None? || requiredRole == Some("")
    ensures PrivateRoute(false, Some(user), requiredRole) == Children
  {
    assert !RoleRequired(requiredRole);
  }
}
