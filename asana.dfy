/** asana.ts: the first Asana login script. */
module Asana {
  import opened Wrappers
  import opened EnvFile
  import opened LoginScript

  const UserKey := "ASANA_USR"
  const SecretKey := "ASANA_PWD"

  /** `main()`: `loadEnv()`, then `ASANA_USR`/`ASANA_PWD` must both be non-empty
      before `init()` and `login()`. */
  method RunMain(env: ProcessEnvironment, dotEnvFile: Option<string>) returns (r: RunOutcome)
    modifies env
    ensures env.vars == if dotEnvFile.Some? then ApplyLines(old(env.vars), Lines(dotEnvFile.value)) else old(env.vars)
    ensures r == Outcome(old(env.vars), dotEnvFile, UserKey, SecretKey)
  {
    r := Run(env, dotEnvFile, UserKey, SecretKey);
  }
}
