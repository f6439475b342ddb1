/** servicenow.ts: credentials are resolved when the module loads, from the process
    environment first and from the map the dotenv library read from `.env` second,
    and the process exits with status 1 before any browser is launched when either
    one is missing. */
module ServiceNow {
  import opened Wrappers
  import opened Credentials

  const UserKey := "SERVICENOW_USR"
  const SecretKey := "SERVICENOW_PWD"

  /** What loading the script leads to: `Deno.exit(status)` from the guard; nothing more
      when the module is imported rather than run; or `loginToServiceNow()` launching
      the browser with these credentials. */
  datatype Startup = Exited(status: int) | Idle | BrowserLaunched(creds: Credentials)

  /** `Deno.env.get(key) || env[key]`. */
  function Resolve(processEnv: map<string, string>, fileEnv: map<string, string>, key: string): (r: Option<string>)
    ensures Truthy(Lookup(processEnv, key)) ==> r == Some(processEnv[key])
    ensures !Truthy(Lookup(processEnv, key)) ==> r == Lookup(fileEnv, key)
  {
    Or(Lookup(processEnv, key), Lookup(fileEnv, key))
  }

  /** The module's top level for a given pair of variable names: resolve both, exit with
      status 1 unless both are non-empty, then log in only when run as the main module. */
  function StartWith(processEnv: map<string, string>, fileEnv: map<string, string>,
                     userKey: string, secretKey: string, isMain: bool): (r: Startup)
    ensures r.Exited? <==> !Truthy(Resolve(processEnv, fileEnv, userKey)) || !Truthy(Resolve(processEnv, fileEnv, secretKey))
    ensures r.Exited? ==> r.status == 1
    ensures r.BrowserLaunched? <==> isMain && !r.Exited?
    ensures r.BrowserLaunched? ==>
      && r.creds.identifier == (if Truthy(Lookup(processEnv, userKey)) then processEnv[userKey] else fileEnv[userKey])
      && r.creds.secret == (if Truthy(Lookup(processEnv, secretKey)) then processEnv[secretKey] else fileEnv[secretKey])
      && r.creds.identifier != "" && r.creds.secret != ""
  {
    var user := Resolve(processEnv, fileEnv, userKey);
    var secret := Resolve(processEnv, fileEnv, secretKey);
    match Gate(user, secret)
    case None => Exited(1)
    case Some(c) => if isMain then BrowserLaunched(c) else Idle
  }

  /** servicenow.ts at load time: exit 1 unless both variables resolve, from the process
      first and `.env` second, to non-empty values; otherwise log in when run as main. */
  function Start(processEnv: map<string, string>, fileEnv: map<string, string>, isMain: bool): (r: Startup)
    ensures r.Exited? <==>
      || (!Truthy(Lookup(processEnv, UserKey)) && !Truthy(Lookup(fileEnv, UserKey)))
      || (!Truthy(Lookup(processEnv, SecretKey)) && !Truthy(Lookup(fileEnv, SecretKey)))
    ensures r.Exited? ==> r.status == 1
    ensures r.BrowserLaunched? <==> isMain && !r.Exited?
    ensures r.BrowserLaunched? ==>
      && r.creds.identifier == (if Truthy(Lookup(processEnv, UserKey)) then processEnv[UserKey] else fileEnv[UserKey])
      && r.creds.secret == (if Truthy(Lookup(processEnv, SecretKey)) then processEnv[SecretKey] else fileEnv[SecretKey])
  {
    StartWith(processEnv, fileEnv, UserKey, SecretKey, isMain)
  }

  /** Non-empty process values are used whatever `.env` says. */
  lemma ProcessEnvironmentWins(processEnv: map<string, string>, fileEnv: map<string, string>, fileEnv': map<string, string>, isMain: bool)
    requires Truthy(Lookup(processEnv, UserKey)) && Truthy(Lookup(processEnv, SecretKey))
    ensures Start(processEnv, fileEnv, isMain) == Start(processEnv, fileEnv', isMain)
    ensures isMain ==> Start(processEnv, fileEnv, isMain) == BrowserLaunched(Credentials(processEnv[UserKey], processEnv[SecretKey]))
  {
  }

  /** With nothing usable in the process environment, `.env` alone decides. */
  lemma FileEnvironmentFallback(processEnv: map<string, string>, fileEnv: map<string, string>, isMain: bool)
    requires !Truthy(Lookup(processEnv, UserKey)) && !Truthy(Lookup(processEnv, SecretKey))
    ensures Start(processEnv, fileEnv, isMain) == Start(map[], fileEnv, isMain)
    ensures Start(processEnv, fileEnv, isMain).Exited? <==> !Truthy(Lookup(fileEnv, UserKey)) || !Truthy(Lookup(fileEnv, SecretKey))
  {
  }

  /** The guard is evaluated at load time, whether or not the module is the main one:
      a missing or empty credential means exit status 1 and no browser. */
  lemma MissingCredentialExits(processEnv: map<string, string>, fileEnv: map<string, string>, isMain: bool)
    ensures Start(processEnv, fileEnv, isMain) == Exited(1)
        <==> !Truthy(Resolve(processEnv, fileEnv, UserKey)) || !Truthy(Resolve(processEnv, fileEnv, SecretKey))
    ensures Start(processEnv, fileEnv, isMain).Exited? ==> Start(processEnv, fileEnv, !isMain).Exited?
  {
  }
}
