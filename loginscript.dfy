/** `main()` of the Asana and Logz.io scripts: load `.env` into the process
    environment, read two credential variables, and start the browser (`init()`)
    and the login (`login(credentials)`) only when both are set. */
module LoginScript {
  import opened Wrappers
  import opened Credentials
  import opened EnvFile

  /** Why `main` stops before `init()`: `loadEnv` threw because `.env` could not be
      read, or the guard threw because a credential is missing or empty. */
  datatype Abort = EnvFileUnreadable | MissingCredentials

  /** What `main` gets to: stopped before any browser call, or `init()` followed by
      `login` with these credentials. */
  datatype RunOutcome = Aborted(reason: Abort) | LoginStarted(creds: Credentials)

  /** The outcome of `main` from the environment it starts with. */
  function Outcome(vars: map<string, string>, dotEnvFile: Option<string>, userKey: string, secretKey: string): (r: RunOutcome)
    ensures dotEnvFile.None? ==> r == Aborted(EnvFileUnreadable)
    ensures dotEnvFile.Some? ==>
      var loaded := ApplyLines(vars, Lines(dotEnvFile.value));
      && (r.LoginStarted? <==> Truthy(Lookup(loaded, userKey)) && Truthy(Lookup(loaded, secretKey)))
      && (r.Aborted? ==> r.reason == MissingCredentials)
      && (r.LoginStarted? ==> r.creds == Credentials(loaded[userKey], loaded[secretKey]))
  {
    match dotEnvFile
    case None => Aborted(EnvFileUnreadable)
    case Some(text) =>
      var loaded := ApplyLines(vars, Lines(text));
      match Gate(Lookup(loaded, userKey), Lookup(loaded, secretKey))
      case None => Aborted(MissingCredentials)
      case Some(c) => LoginStarted(c)
  }

  /** A credential that the process environment already holds and that no line of
      `.env` sets is used as it is. */
  lemma PresetCredentialsKept(vars: map<string, string>, text: string, userKey: string, secretKey: string)
    requires Truthy(Lookup(vars, userKey)) && Truthy(Lookup(vars, secretKey))
    requires forall j :: 0 <= j < |Lines(text)| ==> !SetsKey(Lines(text)[j], userKey) && !SetsKey(Lines(text)[j], secretKey)
    ensures Outcome(vars, Some(text), userKey, secretKey) == LoginStarted(Credentials(vars[userKey], vars[secretKey]))
  {
    UnassignedKeyUnchanged(vars, Lines(text), userKey);
    UnassignedKeyUnchanged(vars, Lines(text), secretKey);
  }

  /** The statements of `main` up to the `init()` call. */
  method Run(env: ProcessEnvironment, dotEnvFile: Option<string>, userKey: string, secretKey: string) returns (r: RunOutcome)
    modifies env
    ensures env.vars == if dotEnvFile.Some? then ApplyLines(old(env.vars), Lines(dotEnvFile.value)) else old(env.vars)
    ensures r == Outcome(old(env.vars), dotEnvFile, userKey, secretKey)
  {
    var loaded := LoadEnv(env, dotEnvFile);
    if !loaded {
      return Aborted(EnvFileUnreadable);
    }
    var user := env.Get(userKey);
    var secret := env.Get(secretKey);
    match Gate(user, secret)
    case None =>
      r := Aborted(MissingCredentials);
    case Some(c) =>
      r := LoginStarted(c);
  }
}
