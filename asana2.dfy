/** asana2.ts: the second Asana login script. Its `main` is the first script's;
    its `login` adds diagnostics when the attempt throws: a screenshot named after
    the current time and the first 500 characters of the page. */
module Asana2 {
  import opened Wrappers
  import opened EnvFile
  import opened LoginScript

  const UserKey := "ASANA_USR"
  const SecretKey := "ASANA_PWD"

  /** `main()`: `loadEnv()`, then `ASANA_USR`/`ASANA_PWD` must both be non-empty
      before `init()` and `login()`. */
  method RunMain(env: ProcessEnvironment, dotEnvFile: Option<string>) returns (r: RunOutcome)
    modifies env
    ensures env.vars == if dotEnvFile.Some? then ApplyLines(old(env.vars), Lines(dotEnvFile.value)) else old(env.vars)
    ensures r == Outcome(old(env.vars), dotEnvFile, UserKey, SecretKey)
  {
    r := Run(env, dotEnvFile, UserKey, SecretKey);
  }

  function SanitizeChar(c: char): char
  {
    if c == ':' || c == '.' then '-' else c
  }

  /** `iso.replace(/[:.]/g, '-')`: every ':' and '.' becomes '-', nothing else moves. */
  function SanitizeTimestamp(iso: string): (r: string)
    ensures |r| == |iso|
    ensures forall i :: 0 <= i < |iso| ==> r[i] == if iso[i] == ':' || iso[i] == '.' then '-' else iso[i]
    ensures ':' !in r && '.' !in r
  {
    if iso == [] then [] else [SanitizeChar(iso[0])] + SanitizeTimestamp(iso[1..])
  }

  /** Sanitising twice is sanitising once. */
  lemma SanitizeIdempotent(iso: string)
    ensures SanitizeTimestamp(SanitizeTimestamp(iso)) == SanitizeTimestamp(iso)
  {
    var s := SanitizeTimestamp(iso);
    assert forall i :: 0 <= i < |s| ==> SanitizeTimestamp(s)[i] == s[i];
  }

  /** `login-error-${timestamp}.png`. The name is the fixed prefix, the sanitised
      timestamp and the extension, so the extension's '.' is its only '.'. */
  function ErrorScreenshotPath(iso: string): (path: string)
    ensures |path| == |iso| + 16
    ensures path[..12] == "login-error-" && path[|path| - 4..] == ".png"
    ensures path[12..|path| - 4] == SanitizeTimestamp(iso)
    ensures ':' !in path
    ensures forall i :: 0 <= i < |path| && path[i] == '.' ==> i == |path| - 4
  {
    var path := "login-error-" + SanitizeTimestamp(iso) + ".png";
    assert forall i :: 12 <= i < |path| - 4 ==> path[i] == SanitizeTimestamp(iso)[i - 12];
    path
  }

  /** The shape of `Date.prototype.toISOString` for four-digit years,
      `YYYY-MM-DDTHH:mm:ss.sssZ`: ':' at 13 and 16, '.' at 19, and nowhere else. */
  predicate IsoShaped(iso: string)
  {
    && |iso| == 24 && iso[13] == ':' && iso[16] == ':' && iso[19] == '.'
    && forall i :: 0 <= i < 24 && i != 13 && i != 16 && i != 19 ==> iso[i] != ':' && iso[i] != '.'
  }

  /** Screenshots of two different ISO timestamps never share a file name, so one run
      does not overwrite another's screenshot. */
  lemma ErrorScreenshotPathsDistinct(iso1: string, iso2: string)
    requires IsoShaped(iso1) && IsoShaped(iso2)
    requires ErrorScreenshotPath(iso1) == ErrorScreenshotPath(iso2)
    ensures iso1 == iso2
  {
    var s1, s2 := SanitizeTimestamp(iso1), SanitizeTimestamp(iso2);
    assert s1 == ErrorScreenshotPath(iso1)[12..36] && s2 == ErrorScreenshotPath(iso2)[12..36];
    forall i | 0 <= i < 24 ensures iso1[i] == iso2[i] {
      assert s1[i] == s2[i];
    }
  }

  /** Without that shape the name is not unique: ':' and '.' are merged. */
  lemma ErrorScreenshotPathsCollide()
    ensures ErrorScreenshotPath("a:b") == ErrorScreenshotPath("a.b")
  {
    assert SanitizeTimestamp("a:b") == SanitizeTimestamp("a.b") == "a-b";
  }

  const ExcerptLength := 500

  /** `content.substring(0, 500) + '...'`: at most the first 500 characters of the page,
      always followed by the ellipsis. */
  function ContentExcerpt(content: string): (r: string)
    ensures |r| == (if |content| < ExcerptLength then |content| else ExcerptLength) + 3
    ensures r[..|r| - 3] == content[..|r| - 3]
    ensures r[|r| - 3..] == "..."
    ensures |content| <= ExcerptLength ==> r == content + "..."
  {
    var n := if |content| < ExcerptLength then |content| else ExcerptLength;
    content[..n] + "..."
  }
}
