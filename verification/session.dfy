/** The client's authentication state (the `auth` slice): logged out, or
    logged in with the access token the server issued. */
module Session {
  import opened Wrappers

  /** `setLoggedIn(accessToken)` and `setLoggedOut()` replace this value
      wholesale; the token may be `undefined` if a response lacked one. */
  datatype AuthState = LoggedOut | LoggedIn(accessToken: Option<string>)

  /** `state.auth.accessToken` */
  function TokenOf(a: AuthState): Option<string> {
    match a
    case LoggedOut => None
    case LoggedIn(t) => t
  }
}
