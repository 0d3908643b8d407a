/** The route guard: what a protected route shows, given what is stored for
    the session. */
module RequireAuth {
  import opened Common

  /** Where the guard sends the user. */
  datatype Decision = ToLogin | ToHome | Render

  /** `localStorage.getItem('isAdmin') === 'true'`. */
  predicate IsAdmin(stored: Option<string>) {
    stored == Some("true")
  }

  /** The guard. `token` and `isAdmin` are the stored values (`None` when
      absent). No token (or an empty one) means the login page whatever else
      holds; with a token, an admin-only route sends non-admins home, and
      every other case renders the route. */
  function Decide(token: Option<string>, isAdmin: Option<string>, adminOnly: bool): (d: Decision)
    ensures d == ToLogin <==> token.None? || token.value == ""
    ensures d == ToHome <==> token.Some? && token.value != "" && adminOnly && !IsAdmin(isAdmin)
    ensures d == Render <==> token.Some? && token.value != "" && (!adminOnly || IsAdmin(isAdmin))
  {
    if token.None? || token.value == "" then ToLogin
    else if adminOnly && !IsAdmin(isAdmin) then ToHome
    else Render
  }

  /** Making a route admin-only can only take access away: whatever renders
      behind the admin guard renders behind the plain one, and the two agree
      for an administrator. Any stored value but the exact text `true` (say
      `True` or `1`) is not an administrator. */
  lemma AdminGuardIsStricter(token: Option<string>, isAdmin: Option<string>)
    ensures Decide(token, isAdmin, true) == Render ==> Decide(token, isAdmin, false) == Render
    ensures IsAdmin(isAdmin) ==> Decide(token, isAdmin, true) == Decide(token, isAdmin, false)
    ensures isAdmin == Some("True") || isAdmin == Some("1") ==> !IsAdmin(isAdmin)
  {
  }
}
