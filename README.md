# keepalives: configuration loading and diagnostics of the login scripts

The repository's scripts log into Asana (`asana.ts`, `asana2.ts`), Logz.io (`logz.ts`)
and ServiceNow (`servicenow.ts`, `servicenow2.ts`) through a browser. This project
models the parts of them that are not browser calls:

- **`loadEnv`**, the `.env` loader the Asana and Logz.io scripts share word for word.
  It splits the file on `'\n'`, trims each line, splits it on `'='` and keeps part 0 as
  the key and part 1 as the value, and writes the pair into the process environment
  when both are non-empty. `JsString` models the two ECMAScript string operations
  involved (`split` with a one-character separator, `trim`). `EnvFile` holds the
  per-line parser `ParseLine`, the specification `ApplyLines` and the imperative loop
  `LoadEnv` over a `ProcessEnvironment` object (`Deno.env`).
- **The credential gate** of those scripts' `main`: both variables must be defined and
  non-empty, or an error is thrown before `init()` and `login()` run (`Credentials.Gate`,
  `LoginScript.Outcome`, and `Asana.RunMain`, `Asana2.RunMain`, `Logz.RunMain`).
- **ServiceNow credential resolution**: `Deno.env.get(k) || env[k]`, followed by
  `Deno.exit(1)` when either value is missing or empty. This runs at module load, before
  `loginToServiceNow` is ever called (`ServiceNow.StartWith`).
- **Diagnostic strings**: the `login-error-<timestamp>.png` name and the 500-character
  page excerpt of `asana2.ts`, and the screenshot choice of `servicenow2.ts`.

Inputs that the scripts obtain by I/O are parameters here:
- the text of `.env`, or `None` when `Deno.readTextFile` fails;
- the process environment, as a map;
- the map the dotenv library returns;
- the ISO timestamp;
- the page content;
- the result of the post-login element check;
- whether the module is the main one (`import.meta.main`, only where the guard runs
  before that test).

Two points about the scripts shape what the model covers.
- The scripts contain no generic login-completion detector. Each makes a fixed sequence
  of browser calls, so only their configuration and diagnostics logic is modelled.
- In the Asana and Logz.io scripts a missing credential does not end the process with a
  non-zero status: `main` catches and logs the error (asana.ts:104-105), so the model's
  outcome is `Aborted`. The ServiceNow scripts call `Deno.exit(1)` instead.

## Model

| member | source | states |
|---|---|---|
| JsString.Trim | asana.ts:81 | `line.trim()` is the part of the line between a whitespace-only prefix and a whitespace-only suffix, and is itself neither started nor ended by whitespace (ECMAScript WhiteSpace and LineTerminator) |
| JsString.TrimBetweenWhitespace | asana.ts:81 | trimming any whitespace wrapping of a string not bordered by whitespace gives that string back: only the outer whitespace is removed |
| JsString.TrimIdempotent | asana.ts:81 | trimming a trimmed line changes nothing |
| JsString.Split | asana.ts:78 | `split(sep)` gives at least one piece, no piece contains the separator, and joining the pieces with the separator rebuilds the input |
| JsString.SplitJoin | asana.ts:78 | splitting a join of separator-free pieces gives back exactly those pieces, so the split is unique |
| JsString.SplitWithoutSeparator | asana.ts:81 | a string without the separator splits into just itself |
| JsString.SplitAtFirstSeparator | asana.ts:81 | the text before the first separator is the first piece, and the rest is split on its own |
| EnvFile.ParseLine | asana.ts:81-82 | a parsed pair always has a non-empty key and a non-empty value, and neither contains '=' |
| EnvFile.ParseLineAssigns | asana2.ts:150-153 | a line yields (key, value) if and only if, once trimmed, it reads `key=value` either at its end or followed by a further '=', with both parts non-empty and free of '=' |
| EnvFile.NoEqualsNoAssignment | asana.ts:81-82 | a trimmed line containing no '=' yields nothing |
| EnvFile.EmptyPartSkipped | asana.ts:81-82 | an empty key part (`=v`) or an empty value part (`k=`, `k==v`) means the line is skipped |
| EnvFile.ValueStopsAtSecondEquals | logz.ts:77 | for `k=v=rest` the stored value is `v`: everything from the second '=' on is discarded |
| EnvFile.WhitespaceAroundEqualsKept | asana.ts:81 | whitespace around the whole line (including a CRLF '\r') is dropped, but whitespace next to the '=' stays in the key and in the value |
| EnvFile.LastAssignmentWins | asana.ts:79-83 | when several lines set a key, the value of the last of them in file order is the one left in the environment |
| EnvFile.UnassignedKeyUnchanged | logz.ts:76-81 | a key that no line sets keeps its earlier presence and value |
| EnvFile.ApplyLine | asana.ts:81-84 | one line sets the key it parses to, to its value, and leaves every other key's presence and value as they were |
| EnvFile.ApplyLines | asana.ts:80-85 | applying the lines in file order never removes a variable; the overwrite lemmas above describe the rest |
| EnvFile.ProcessEnvironment.Get | asana.ts:94-95 | `Deno.env.get` gives the variable's value when it is set and `undefined` otherwise |
| EnvFile.ProcessEnvironment.Set | asana.ts:83 | `Deno.env.set` maps the key to the value and changes no other key |
| EnvFile.LoadEnv | asana.ts:76-86 | the loop leaves the environment equal to the old environment with every line of `.env` applied in order; a file that cannot be read leaves it unchanged and is reported |
| Credentials.Or | servicenow.ts:9-10 | `a \|\| b` is `a` when `a` is truthy and `b` otherwise, and is truthy exactly when one of them is |
| Credentials.Gate | asana.ts:94-99 | credentials are produced exactly when both values are defined and non-empty, and they are those values |
| LoginScript.Outcome | asana.ts:92-102 | an unreadable `.env` aborts; otherwise `init()`/`login()` start exactly when both credential variables are non-empty in the loaded environment, with those values, and the abort reason is the missing credential |
| LoginScript.PresetCredentialsKept | asana.ts:92-99 | credentials already in the process environment that no `.env` line sets are the ones logged in with |
| LoginScript.Run | logz.ts:88-98 | `loadEnv()` followed by the guard updates the environment as `LoadEnv` does and returns the outcome function's result |
| Asana.RunMain | asana.ts:88-109 | `main` with `ASANA_USR`/`ASANA_PWD`: the environment after loading and the outcome |
| Asana2.RunMain | asana2.ts:157-178 | `main` with `ASANA_USR`/`ASANA_PWD`: the environment after loading and the outcome |
| Logz.RunMain | logz.ts:84-105 | `main` with `LOGZ_USR`/`LOGZ_PWD`: the environment after loading and the outcome |
| Asana2.SanitizeTimestamp | asana2.ts:118 | the result is as long as the timestamp, every ':' and '.' becomes '-', every other character is unchanged, and no ':' or '.' is left |
| Asana2.SanitizeIdempotent | asana2.ts:118 | sanitising a sanitised timestamp changes nothing |
| Asana2.ErrorScreenshotPath | asana2.ts:119-121 | the screenshot name is `login-error-`, the sanitised timestamp and `.png`, 16 characters longer than the timestamp, with no ':' and with its only '.' in the extension |
| Asana2.ErrorScreenshotPathsDistinct | asana2.ts:118-121 | two different four-digit-year `toISOString` timestamps (`YYYY-MM-DDTHH:mm:ss.sssZ`) never give the same screenshot name |
| Asana2.ErrorScreenshotPathsCollide | asana2.ts:118 | for strings not shaped like ISO timestamps the name can collide (`a:b` and `a.b`) |
| Asana2.ContentExcerpt | asana2.ts:129-130 | the excerpt is the first min(500, length) characters of the page followed by `...`, so it is at most 503 long, and it is the whole page plus `...` when the page has at most 500 characters |
| ServiceNow.Resolve | servicenow.ts:9-10 | a non-empty process value is used; an absent or empty one falls back to the `.env` map entry |
| ServiceNow.StartWith | servicenow.ts:9-15 | the module exits with status 1 exactly when a resolved credential is missing or empty; otherwise, and only when run as the main module, the browser is launched with the resolved (non-empty) values |
| ServiceNow.Start | servicenow.ts:9-19 | with `SERVICENOW_USR`/`SERVICENOW_PWD`: exit 1 exactly when a variable is empty or absent in both the process and `.env`; otherwise, when run as main, login with the process value where it is non-empty and the `.env` value elsewhere |
| ServiceNow.ProcessEnvironmentWins | servicenow.ts:9-10 | with both process values non-empty the `.env` map makes no difference and those values are used |
| ServiceNow.FileEnvironmentFallback | servicenow.ts:9-10 | with neither process value usable the `.env` map decides, and exit happens exactly when one of its entries is missing or empty |
| ServiceNow.MissingCredentialExits | servicenow.ts:12-19 | status 1 exactly when a resolved credential is missing or empty, whether or not the module is the main one, so launching never precedes the guard |
| ServiceNow2.Start2 | servicenow2.ts:9-15 | with `SERVICENOW_USERNAME`/`SERVICENOW_PASSWORD`: exit 1 exactly when a variable is empty or absent in both the process and `.env`; otherwise, when run as main, login with the process value where it is non-empty and the `.env` value elsewhere |
| ServiceNow2.ProcessEnvironmentWins2 | servicenow2.ts:9-10 | with `SERVICENOW_USERNAME`/`SERVICENOW_PASSWORD` non-empty in the process, the `.env` map makes no difference |
| ServiceNow2.FileEnvironmentFallback2 | servicenow2.ts:9-10 | with neither process value usable the `.env` map decides, and exit happens exactly when one of its entries is missing or empty |
| ServiceNow2.MissingCredentialExits2 | servicenow2.ts:12-15 | status 1 exactly when a resolved credential is missing or empty, at load time |
| ServiceNow2.ScreenshotPath | servicenow2.ts:88-110 | the screenshot written is `login-success.png` exactly when verification returned true, `login-failure.png` exactly when it returned false, `error-state.png` exactly when the attempt threw with a page open, and none when it threw before a page existed |

## Left out

- Every Playwright call (launch, contexts, navigation, waiting, filling, clicking, screenshots, page content and URL, close). These are calls into a browser library driving remote sites. Only the strings handed to them and the booleans they return are modelled.
- Timeouts, `waitForTimeout`, `setTimeout`, `Promise.all` and `Promise.race`. They only wait, and there is nothing of the model's state for them to change.
- `finally` cleanup (`cleanup()`, `browser.close()`), exception propagation and the rethrow in `login`. This is resource release, with no data behaviour. Console logging is dropped too.
- The dotenv library's own parsing in the ServiceNow scripts. Its source is not part of this model, so its result is an opaque map.
- The clock. `new Date().toISOString()` is a parameter.
- The truth of the success checks (URL patterns, DOM landmarks, network idle). That depends on the remote site; only the resulting boolean enters `ServiceNow2.ScreenshotPath`.
- `Deno.env.set` throws on a key or value holding a NUL character. The model's `ProcessEnvironment.Set` always succeeds. Runtime permission errors of `Deno.env` and `Deno.readTextFile` are also left out, apart from an unreadable `.env` as a whole.
- Asana.RunMain, Asana2.RunMain, Logz.RunMain: the `import.meta.main` test around `main()` is not modelled. These methods describe one run of `main`.
- Asana2.ContentExcerpt: JavaScript's `substring` counts UTF-16 code units; the model counts Unicode code points. The two agree for text inside the Basic Multilingual Plane.
- The page URL that `asana2.ts` logs after a failure. It is read from the browser and is not transformed.
- The `error-state.png` screenshot of `servicenow2.ts` taken when the verification screenshot itself throws. Here `Threw` stands only for an exception raised before the verification result, and `Verified` means the verification screenshot was written.
