/** servicenow2.ts: the same load-time resolution and guard under other variable
    names, and the choice of screenshot at the end of the login attempt. */
module ServiceNow2 {
  import opened Wrappers
  import opened Credentials
  import opened ServiceNow

  const UserKey2 := "SERVICENOW_USERNAME"
  const SecretKey2 := "SERVICENOW_PASSWORD"

  /** servicenow2.ts at load time: exit 1 unless both variables resolve, from the process
      first and `.env` second, to non-empty values; otherwise log in when run as main. */
  function Start2(processEnv: map<string, string>, fileEnv: map<string, string>, isMain: bool): (r: Startup)
    ensures r.Exited? <==>
      || (!Truthy(Lookup(processEnv, UserKey2)) && !Truthy(Lookup(fileEnv, UserKey2)))
      || (!Truthy(Lookup(processEnv, SecretKey2)) && !Truthy(Lookup(fileEnv, SecretKey2)))
    ensures r.Exited? ==> r.status == 1
    ensures r.BrowserLaunched? <==> isMain && !r.Exited?
    ensures r.BrowserLaunched? ==>
      && r.creds.identifier == (if Truthy(Lookup(processEnv, UserKey2)) then processEnv[UserKey2] else fileEnv[UserKey2])
      && r.creds.secret == (if Truthy(Lookup(processEnv, SecretKey2)) then processEnv[SecretKey2] else fileEnv[SecretKey2])
  {
    StartWith(processEnv, fileEnv, UserKey2, SecretKey2, isMain)
  }

  /** Non-empty process values are used whatever `.env` says. */
  lemma ProcessEnvironmentWins2(processEnv: map<string, string>, fileEnv: map<string, string>, fileEnv': map<string, string>, isMain: bool)
    requires Truthy(Lookup(processEnv, UserKey2)) && Truthy(Lookup(processEnv, SecretKey2))
    ensures Start2(processEnv, fileEnv, isMain) == Start2(processEnv, fileEnv', isMain)
    ensures isMain ==> Start2(processEnv, fileEnv, isMain) == BrowserLaunched(Credentials(processEnv[UserKey2], processEnv[SecretKey2]))
  {
  }

  /** With nothing usable in the process environment, `.env` alone decides. */
  lemma FileEnvironmentFallback2(processEnv: map<string, string>, fileEnv: map<string, string>, isMain: bool)
    requires !Truthy(Lookup(processEnv, UserKey2)) && !Truthy(Lookup(processEnv, SecretKey2))
    ensures Start2(processEnv, fileEnv, isMain) == Start2(map[], fileEnv, isMain)
    ensures Start2(processEnv, fileEnv, isMain).Exited? <==> !Truthy(Lookup(fileEnv, UserKey2)) || !Truthy(Lookup(fileEnv, SecretKey2))
  {
  }

  /** A missing or empty credential means exit status 1 at load time, before any browser. */
  lemma MissingCredentialExits2(processEnv: map<string, string>, fileEnv: map<string, string>, isMain: bool)
    ensures Start2(processEnv, fileEnv, isMain) == Exited(1)
        <==> !Truthy(Resolve(processEnv, fileEnv, UserKey2)) || !Truthy(Resolve(processEnv, fileEnv, SecretKey2))
    ensures Start2(processEnv, fileEnv, isMain).Exited? ==> Start2(processEnv, fileEnv, !isMain).Exited?
  {
  }

  /** How `loginToServiceNow` leaves its `try` block: with the result of the
      `waitForSelector('div.navpage-header')` check, or by throwing before it, either
      after the page was opened or before (from `newContext` or `newPage`). */
  datatype AttemptEnd = Verified(isLoggedIn: bool) | Threw(pageOpened: bool)

  /** The screenshot written at that point: `login-success.png` exactly when the check
      returned true, `login-failure.png` exactly when it returned false, the catch
      block's `error-state.png` exactly when the attempt threw with a page open, and
      none when it threw before any page existed (the inner catch swallows the failed
      lookup of `browser.contexts()[0].pages()[0]`). */
  function ScreenshotPath(end: AttemptEnd): (path: Option<string>)
    ensures path == Some("login-success.png") <==> end == Verified(true)
    ensures path == Some("login-failure.png") <==> end == Verified(false)
    ensures path == Some("error-state.png") <==> end == Threw(true)
    ensures path == None <==> end == Threw(false)
  {
    match end
    case Verified(isLoggedIn) => Some(if isLoggedIn then "login-success.png" else "login-failure.png")
    case Threw(pageOpened) => if pageOpened then Some("error-state.png") else None
  }
}
