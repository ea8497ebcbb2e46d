/**
 * The route guard: what a protected route renders, from the login state
 * the auth listener has reported and the role the route asks for.
 */
module AuthGuard {
  import opened Wrappers

  /** `isLoggedIn`: null until the auth listener first reports, then a boolean. */
  datatype LoginState = Unknown | LoggedOut | LoggedIn

  /** What the guard renders. */
  datatype Decision = Loading | Redirect(to: string) | Allow

  const HomePath := "/"
  const NotAuthorizedPath := "/not-authorized"

  /** A `requiredRole` prop that JavaScript treats as true: present and non-empty. */
  predicate RoleRequired(requiredRole: Option<string>) {
    requiredRole.Some? && requiredRole.value != ""
  }

  /**
   * AuthRequired: the login state is checked first (unknown, then logged
   * out), and only then the role.
   */
  function Guard(isLoggedIn: LoginState, requiredRole: Option<string>, userRole: Option<string>): (d: Decision)
    ensures d == Loading <==> isLoggedIn.Unknown?
    ensures d == Redirect(HomePath) <==> isLoggedIn.LoggedOut?
    ensures d == Redirect(NotAuthorizedPath) <==>
              isLoggedIn.LoggedIn? && RoleRequired(requiredRole) && userRole != requiredRole
    ensures d == Allow <==>
              isLoggedIn.LoggedIn? && (!RoleRequired(requiredRole) || userRole == requiredRole)
  {
    if isLoggedIn.Unknown? then Loading
    else if isLoggedIn.LoggedOut? then Redirect(HomePath)
    else if RoleRequired(requiredRole) && userRole != requiredRole then Redirect(NotAuthorizedPath)
    else Allow
  }

  /** Until the user is logged in, the roles make no difference to the decision. */
  lemma RolesMatterOnlyWhenLoggedIn(isLoggedIn: LoginState, r1: Option<string>, u1: Option<string>, r2: Option<string>, u2: Option<string>)
    requires !isLoggedIn.LoggedIn?
    ensures Guard(isLoggedIn, r1, u1) == Guard(isLoggedIn, r2, u2)
  {
  }

  /** A route without a role, or with an empty one, lets every logged-in user through. */
  lemma NoRoleAllowsEveryUser(requiredRole: Option<string>, userRole: Option<string>)
    requires !RoleRequired(requiredRole)
    ensures Guard(LoggedIn, requiredRole, userRole) == Allow
  {
  }
}
