/** logz.ts: the Logz.io login script. */
module Logz {
  import opened Wrappers
  import opened EnvFile
  import opened LoginScript

  const UserKey := "LOGZ_USR"
  const SecretKey := "LOGZ_PWD"

  /** `main()`: `loadEnv()`, then `LOGZ_USR`/`LOGZ_PWD` must both be non-empty
      before `init()` and `login()`. */
  method RunMain(env: ProcessEnvironment, dotEnvFile: Option<string>) returns (r: RunOutcome)
    modifies env
    ensures env.vars == if dotEnvFile.Some? then ApplyLines(old(env.vars), Lines(dotEnvFile.value)) else old(env.vars)
    ensures r == Outcome(old(env.vars), dotEnvFile, UserKey, SecretKey)
  {
    r := Run(env, dotEnvFile, UserKey, SecretKey);
  }
}
