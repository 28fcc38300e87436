/**
 * `login_required` (front_end/function_authentication.py:8-26): every page of
 * the front end first checks that the session holds a signed-in user and an
 * access token that has not expired, and otherwise redirects to the login page.
 * The current time is an input, in whole seconds.
 */
module LoginGate {
  import opened Wrappers

  /** The session values the gate reads. `user` is the signed-in user's claims record (an empty
      record is falsy); `tokenExpiry` is the token's expiry time. */
  datatype Session = Session(user: Option<map<string, string>>, accessToken: Option<string>, tokenExpiry: Option<int>)

  /** The gate either redirects to the login page or answers with what the page handler returns. */
  datatype Gate<R> = RedirectToLogin | Handled(result: R)

  /** `if not user`: an absent or empty user record counts as not signed in. */
  predicate HasUser(s: Session) {
    s.user.Some? && s.user.value != map[]
  }

  /** `if token_expiry:` an expiry of 0 is falsy and is not checked. */
  predicate ExpiryRecorded(s: Session) {
    s.tokenExpiry.Some? && s.tokenExpiry.value != 0
  }

  /** The decorated page: the handler runs on the arguments it was given, or the caller is sent to
      the login page. */
  function LoginRequired<A, R>(handler: A -> R, args: A, s: Session, now: int): (g: Gate<R>)
    ensures g.Handled? ==> g.result == handler(args)
  {
    if !HasUser(s) || !Truthy(s.accessToken) then RedirectToLogin
    else if ExpiryRecorded(s) && now > s.tokenExpiry.value then RedirectToLogin
    else Handled(handler(args))
  }

  // ---------------------------------------------------------------------------
  // Properties

  /** The handler runs exactly when the session has a user and a token, and the token's expiry,
      if one is recorded, is not before now. */
  lemma HandledIff<A, R>(handler: A -> R, args: A, s: Session, now: int)
    ensures LoginRequired(handler, args, s, now).Handled? <==>
      HasUser(s) && Truthy(s.accessToken) && (ExpiryRecorded(s) ==> now <= s.tokenExpiry.value)
  {
  }

  /** The comparison is strict: at the very second of expiry the page is still served, one second
      later it is not. */
  lemma ExpiryBoundary<A, R>(handler: A -> R, args: A, user: map<string, string>, token: string, expiry: int)
    requires user != map[] && token != "" && expiry != 0
    ensures LoginRequired(handler, args, Session(Some(user), Some(token), Some(expiry)), expiry) == Handled(handler(args))
    ensures LoginRequired(handler, args, Session(Some(user), Some(token), Some(expiry)), expiry + 1) == RedirectToLogin
  {
  }

  /** Without a recorded expiry a signed-in session never expires. */
  lemma NoExpiryNeverExpires<A, R>(handler: A -> R, args: A, s: Session, now: int)
    requires HasUser(s) && Truthy(s.accessToken) && !ExpiryRecorded(s)
    ensures LoginRequired(handler, args, s, now) == Handled(handler(args))
  {
  }

  /** A session served now was served at every earlier time. */
  lemma EarlierStillServed<A, R>(handler: A -> R, args: A, s: Session, now: int, earlier: int)
    requires earlier <= now
    requires LoginRequired(handler, args, s, now).Handled?
    ensures LoginRequired(handler, args, s, earlier).Handled?
  {
  }
}
