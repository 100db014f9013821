/**
 * The `login` tool and the `check_auth` gate of main.py.
 *
 * The environment variables LINKEDIN_EMAIL and LINKEDIN_PASSWORD are inputs
 * (`None` when unset); what the browser shows after the login form is
 * submitted is a `LoginOutcome`.
 */
module Auth {
  import opened Wrappers

  const MissingCredentials := "LinkedIn credentials not found in environment variables. Please set LINKEDIN_EMAIL and LINKEDIN_PASSWORD."
  const LoggedIn := "Successfully logged in to LinkedIn"
  const LoginFailedPrefix := "Login failed: "
  const CouldNotVerify := "Could not verify successful login"
  const LoginErrorPrefix := "Login error: "
  /** Raised by `fetch_feed` and `search_jobs` when no session file exists. */
  const NotAuthenticated := "Not authenticated. Please login first."

  /** What the browser shows once the login form has been submitted. */
  datatype LoginOutcome =
    | FeedShown                   // the feed update selector appears within 10 s
    | AlertShown(alert: string)   // timeout, and an `.alert-content` element holds this text
    | NothingShown                // timeout, and no alert element
    | Raises(message: string)     // a browser step raised before the session was saved

  /**
   * The reply dictionary, plus whether the browser launch was attempted (the
   * launch itself may be what raises) and whether storage.json was written.
   */
  datatype LoginReply = LoginReply(status: string, message: string, launchAttempted: bool, sessionSaved: bool)

  /** Python's truthiness of an optional string: present and non-empty. */
  predicate Provided(v: Option<string>) {
    v.Some? && v.value != ""
  }

  function Login(email: Option<string>, password: Option<string>, outcome: LoginOutcome): (r: LoginReply)
    // a missing or empty credential is reported before any browser is started
    ensures !(Provided(email) && Provided(password)) ==>
              r == LoginReply("error", MissingCredentials, false, false)
    ensures r.launchAttempted <==> Provided(email) && Provided(password)
    ensures r.status == "success" || r.status == "error"
    ensures r.status == "success" <==> Provided(email) && Provided(password) && outcome == FeedShown
    // the session is persisted exactly on success
    ensures r.sessionSaved <==> r.status == "success"
    ensures r.status == "success" ==> r.message == LoggedIn
    ensures r.launchAttempted && outcome.AlertShown? ==> r.message == LoginFailedPrefix + outcome.alert
    ensures r.launchAttempted && outcome.NothingShown? ==> r.message == LoginFailedPrefix + CouldNotVerify
    ensures r.launchAttempted && outcome.Raises? ==> r.message == LoginErrorPrefix + outcome.message
  {
    if !Provided(email) || !Provided(password) then
      LoginReply("error", MissingCredentials, false, false)
    else
      match outcome
      case FeedShown => LoginReply("success", LoggedIn, true, true)
      case AlertShown(alert) => LoginReply("error", LoginFailedPrefix + alert, true, false)
      case NothingShown => LoginReply("error", LoginFailedPrefix + CouldNotVerify, true, false)
      case Raises(message) => LoginReply("error", LoginErrorPrefix + message, true, false)
  }
}
