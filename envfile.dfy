/** The `.env` loader `loadEnv` shared, word for word, by the Asana and Logz.io
    scripts: every line of the file is trimmed and split on '=', and part 0 / part 1
    are written into the process environment when both are non-empty. */
module EnvFile {
  import opened Wrappers
  import opened JsString

  /** `const [key, value] = line.trim().split('=')`, kept only when `key && value`. */
  function ParseLine(line: string): (r: Option<(string, string)>)
    ensures r.Some? ==> r.value.0 != "" && r.value.1 != ""
    ensures r.Some? ==> '=' !in r.value.0 && '=' !in r.value.1
  {
    var parts := Split(Trim(line), '=');
    if |parts| >= 2 && parts[0] != "" && parts[1] != "" then Some((parts[0], parts[1])) else None
  }

  /** The trimmed line `t` reads `k=v` and then either ends or continues with a second '='. */
  predicate Assigns(t: string, k: string, v: string)
  {
    && k != "" && v != "" && '=' !in k && '=' !in v
    && |k| + 1 + |v| <= |t|
    && t[..|k| + 1 + |v|] == k + "=" + v
    && (|t| == |k| + 1 + |v| || t[|k| + 1 + |v|] == '=')
  }

  /** A line assigns `v` to `k` exactly when, once trimmed, it is `k=v` possibly followed
      by a second '=' and anything after it, with `k` and `v` non-empty and free of '='. */
  lemma ParseLineAssigns(line: string, k: string, v: string)
    ensures ParseLine(line) == Some((k, v)) <==> Assigns(Trim(line), k, v)
  {
    if Assigns(Trim(line), k, v) {
      AssignsSplits(Trim(line), k, v);
    }
    if ParseLine(line) == Some((k, v)) {
      SplitsAssign(Trim(line), k, v);
    }
  }

  lemma AssignsSplits(t: string, k: string, v: string)
    requires Assigns(t, k, v)
    ensures var parts := Split(t, '='); |parts| >= 2 && parts[0] == k && parts[1] == v
  {
    var n := |k| + 1 + |v|;
    if |t| == n {
      assert t == k + ['='] + v;
      SplitAtFirstSeparator(k, v, '=');
      SplitWithoutSeparator(v, '=');
    } else {
      var rest := t[n + 1..];
      assert t == k + ['='] + (v + ['='] + rest);
      SplitAtFirstSeparator(k, v + ['='] + rest, '=');
      SplitAtFirstSeparator(v, rest, '=');
    }
  }

  lemma SplitsAssign(t: string, k: string, v: string)
    requires var parts := Split(t, '='); |parts| >= 2 && parts[0] == k && parts[1] == v
    requires k != "" && v != ""
    ensures Assigns(t, k, v)
  {
    var parts := Split(t, '=');
    assert t == k + ['='] + Join(parts[1..], '=');
    if |parts| == 2 {
      assert Join(parts[1..], '=') == v;
      assert t == k + "=" + v;
    } else {
      assert parts[1..][1..] == parts[2..];
      assert Join(parts[1..], '=') == v + ['='] + Join(parts[2..], '=');
      assert t == (k + "=" + v) + (['='] + Join(parts[2..], '='));
    }
  }

  /** A trimmed line without any '=' assigns nothing. */
  lemma NoEqualsNoAssignment(line: string)
    requires '=' !in Trim(line)
    ensures ParseLine(line) == None
  {
    SplitWithoutSeparator(Trim(line), '=');
  }

  /** A line whose key part (before the first '=') or value part (up to the next '=')
      is empty assigns nothing: `=v`, `k=` and `k==v` are all skipped. */
  lemma EmptyPartSkipped(line: string, k: string, rest: string)
    requires Trim(line) == k + "=" + rest && '=' !in k
    requires k == "" || rest == "" || rest[0] == '='
    ensures ParseLine(line) == None
  {
    SplitAtFirstSeparator(k, rest, '=');
    if rest != "" && rest[0] == '=' {
      assert rest == [] + ['='] + rest[1..];
      SplitAtFirstSeparator([], rest[1..], '=');
    }
  }

  /** The value stops at a second '=': whatever follows it is discarded. */
  lemma ValueStopsAtSecondEquals(line: string, k: string, v: string, rest: string)
    requires Trim(line) == k + "=" + v + "=" + rest
    requires k != "" && v != "" && '=' !in k && '=' !in v
    ensures ParseLine(line) == Some((k, v))
  {
    var t := Trim(line);
    assert t[..|k| + 1 + |v|] == k + "=" + v;
    assert t[|k| + 1 + |v|] == '=';
    ParseLineAssigns(line, k, v);
  }

  /** Only the whitespace around the whole line is removed: spaces next to the '=' stay
      part of the key and of the value, and a trailing '\r' (CRLF files) is dropped. */
  lemma WhitespaceAroundEqualsKept(p: string, k: string, v: string, q: string)
    requires AllWhitespace(p) && AllWhitespace(q)
    requires k != "" && v != "" && '=' !in k && '=' !in v
    requires !IsWhitespace(k[0]) && !IsWhitespace(v[|v| - 1])
    ensures ParseLine(p + k + "=" + v + q) == Some((k, v))
  {
    var x := k + "=" + v;
    assert x[0] == k[0] && x[|x| - 1] == v[|v| - 1];
    TrimBetweenWhitespace(p, x, q);
    assert p + k + "=" + v + q == p + x + q;
    SplitAtFirstSeparator(k, v, '=');
    SplitWithoutSeparator(v, '=');
  }

  /** The effect of one line on the environment: the key it parses to now holds its
      value, and every other key keeps its presence and value. */
  function ApplyLine(env: map<string, string>, line: string): (r: map<string, string>)
    ensures ParseLine(line).Some? ==> ParseLine(line).value.0 in r && r[ParseLine(line).value.0] == ParseLine(line).value.1
    ensures forall k :: !SetsKey(line, k) ==> (k in r <==> k in env)
    ensures forall k :: !SetsKey(line, k) && k in env ==> r[k] == env[k]
  {
    match ParseLine(line)
    case Some((k, v)) => env[k := v]
    case None => env
  }

  /** The environment after the lines have been applied in file order. Loading never
      removes a variable. */
  function ApplyLines(env: map<string, string>, lines: seq<string>): (r: map<string, string>)
    ensures env.Keys <= r.Keys
    decreases |lines|
  {
    if lines == [] then env
    else ApplyLine(ApplyLines(env, lines[..|lines| - 1]), lines[|lines| - 1])
  }

  /** `content.split('\n')`. */
  function Lines(content: string): seq<string>
  {
    Split(content, '\n')
  }

  predicate SetsKey(line: string, k: string)
  {
    ParseLine(line).Some? && ParseLine(line).value.0 == k
  }

  /** When several lines set the same key, the last of them in file order wins. */
  lemma {:induction false} LastAssignmentWins(env: map<string, string>, lines: seq<string>, i: nat, k: string, v: string)
    requires i < |lines| && ParseLine(lines[i]) == Some((k, v))
    requires forall j :: i < j < |lines| ==> !SetsKey(lines[j], k)
    ensures k in ApplyLines(env, lines) && ApplyLines(env, lines)[k] == v
    decreases |lines|
  {
    var init := lines[..|lines| - 1];
    if i < |lines| - 1 {
      assert init[i] == lines[i];
      assert forall j :: i < j < |init| ==> init[j] == lines[j];
      LastAssignmentWins(env, init, i, k, v);
      assert !SetsKey(lines[|lines| - 1], k);
    }
  }

  /** A key that no line sets keeps its previous presence and value. */
  lemma {:induction false} UnassignedKeyUnchanged(env: map<string, string>, lines: seq<string>, k: string)
    requires forall j :: 0 <= j < |lines| ==> !SetsKey(lines[j], k)
    ensures k in ApplyLines(env, lines) <==> k in env
    ensures k in env ==> ApplyLines(env, lines)[k] == env[k]
    decreases |lines|
  {
    if lines != [] {
      var init := lines[..|lines| - 1];
      assert forall j :: 0 <= j < |init| ==> init[j] == lines[j];
      UnassignedKeyUnchanged(env, init, k);
      assert !SetsKey(lines[|lines| - 1], k);
    }
  }

  /** The process environment (`Deno.env`), a string map updated in place. */
  class ProcessEnvironment {
    var vars: map<string, string>

    constructor (initial: map<string, string>)
      ensures vars == initial
    {
      vars := initial;
    }

    /** `Deno.env.get(key)`: the variable's value, or `undefined` when it is not set. */
    function Get(key: string): (r: Option<string>)
      reads this
      ensures r.Some? <==> key in vars
      ensures r.Some? ==> r.value == vars[key]
    {
      Lookup(vars, key)
    }

    /** `Deno.env.set(key, value)`. */
    method Set(key: string, value: string)
      modifies this
      ensures vars == old(vars)[key := value]
    {
      vars := vars[key := value];
    }
  }

  /** `loadEnv()`: read `.env` (None when `Deno.readTextFile` fails, which makes
      `loadEnv` throw before touching the environment), then set each parsed line. */
  method LoadEnv(env: ProcessEnvironment, dotEnvFile: Option<string>) returns (loaded: bool)
    modifies env
    ensures loaded <==> dotEnvFile.Some?
    ensures env.vars == if dotEnvFile.Some? then ApplyLines(old(env.vars), Lines(dotEnvFile.value)) else old(env.vars)
  {
    if dotEnvFile.None? {
      return false;
    }
    var lines := Lines(dotEnvFile.value);
    for i := 0 to |lines|
      invariant env.vars == ApplyLines(old(env.vars), lines[..i])
    {
      assert lines[..i + 1][..i] == lines[..i];
      match ParseLine(lines[i])
      case Some((key, value)) =>
        env.Set(key, value);
      case None =>
    }
    assert lines[..|lines|] == lines;
    return true;
  }
}
