/** The `.env` loader of the email test script: each `KEY=value` line sets a
    variable of the process environment, later lines overriding earlier
    ones. */
module DotEnv {
  import opened Base
  import opened Text

  /** `value.slice(1, -1)` after the value was found to start and end with
      the same quote: the quotes go, and a lone quote leaves nothing. */
  function StripQuotes(value: string): (r: string)
    ensures |r| <= |value|
    ensures !(|value| >= 1 && ((value[0] == '"' && value[|value| - 1] == '"') || (value[0] == '\'' && value[|value| - 1] == '\'')))
            ==> r == value
    ensures |value| >= 2 && ((value[0] == '"' && value[|value| - 1] == '"') || (value[0] == '\'' && value[|value| - 1] == '\''))
            ==> r == value[1..|value| - 1]
  {
    if |value| >= 1 && ((value[0] == '"' && value[|value| - 1] == '"') || (value[0] == '\'' && value[|value| - 1] == '\'')) then
      (if |value| >= 2 then value[1..|value| - 1] else "")
    else value
  }

  /** One line: the key is the trimmed text before the first `=`, the value
      the trimmed rest (later `=` included) without one pair of matching
      quotes; a line with no `=`, or an empty key or value, sets nothing. */
  function ParseLine(line: string): (r: Option<(string, string)>)
    ensures r.Some? ==> '=' in line && Present(r.value.0) && Present(r.value.1)
    ensures r.Some? ==> '=' !in r.value.0
  {
    SplitHead(line, '=');
    TrimChars(Split(line, '=')[0]);
    var parts := Split(line, '=');
    if |parts| >= 2 then
      var key := Trim(parts[0]);
      var value := StripQuotes(Trim(Join(parts[1..], '=')));
      if Present(key) && Present(value) then Some((key, value)) else None
    else None
  }

  /** The environment after applying one line. */
  function ApplyLine(env: map<string, string>, line: string): map<string, string> {
    match ParseLine(line)
    case None => env
    case Some(kv) => env[kv.0 := kv.1]
  }

  /** The environment after applying the lines in order. */
  function ApplyLines(env: map<string, string>, lines: seq<string>): (r: map<string, string>)
    ensures env.Keys <= r.Keys
    ensures forall k :: k in r ==> k in env || exists i :: 0 <= i < |lines| && Sets(lines[i], k)
    decreases |lines|
  {
    if lines == [] then env else ApplyLine(ApplyLines(env, lines[..|lines| - 1]), lines[|lines| - 1])
  }

  class Environment {
    var vars: map<string, string>

    constructor (vars: map<string, string>)
      ensures this.vars == vars
    {
      this.vars := vars;
    }

    /** The script's loader, given the file's contents (`None` when it cannot
        be read, which is reported and otherwise ignored). */
    method Load(contents: Option<string>)
      modifies this
      ensures contents.None? ==> vars == old(vars)
      ensures contents.Some? ==> vars == ApplyLines(old(vars), Split(contents.value, '\n'))
    {
      if contents.None? {
        return;
      }
      var lines := Split(contents.value, '\n');
      for i := 0 to |lines|
        invariant vars == ApplyLines(old(vars), lines[..i])
      {
        assert lines[..i + 1][..i] == lines[..i];
        var parts := Split(lines[i], '=');
        if |parts| >= 2 {
          var key := Trim(parts[0]);
          var value := Trim(Join(parts[1..], '='));
          value := StripQuotes(value);
          if Present(key) && Present(value) {
            vars := vars[key := value];
          }
        }
      }
      assert lines[..|lines|] == lines;
    }
  }

  // ---- properties of the loader ----

  /** A line is read as key and value split at its first `=`. */
  lemma LineSplitsAtFirstEquals(line: string)
    requires '=' in line
    ensures var i := IndexOf(line, '=');
            var key := Trim(line[..i]);
            var value := StripQuotes(Trim(line[i + 1..]));
            ParseLine(line) == if Present(key) && Present(value) then Some((key, value)) else None
  {
    SplitHead(line, '=');
    SplitTailJoin(line, '=');
  }

  /** A line without `=` sets nothing. */
  lemma NoEqualsIgnored(env: map<string, string>, line: string)
    requires '=' !in line
    ensures ApplyLine(env, line) == env
  {
    SplitHead(line, '=');
  }

  /** One pair of matching outer quotes is removed, and only one. */
  lemma QuotesStrippedOnce(v: string)
    ensures StripQuotes("\"" + v + "\"") == v
    ensures StripQuotes("'" + v + "'") == v
  {
    assert ("\"" + v + "\"")[1..|v| + 1] == v;
    assert ("'" + v + "'")[1..|v| + 1] == v;
  }

  /** The line assigns `key`. */
  predicate Sets(line: string, key: string) {
    ParseLine(line).Some? && ParseLine(line).value.0 == key
  }

  lemma ApplyOtherLine(env: map<string, string>, line: string, key: string)
    requires !Sets(line, key)
    ensures key in ApplyLine(env, line) <==> key in env
    ensures key in env ==> ApplyLine(env, line)[key] == env[key]
  {
  }

  /** A key no line sets keeps the value it had, or stays unset. */
  lemma {:induction false} UnsetKeyKept(env: map<string, string>, lines: seq<string>, key: string)
    requires forall i :: 0 <= i < |lines| ==> !Sets(lines[i], key)
    ensures key in ApplyLines(env, lines) <==> key in env
    ensures key in env ==> ApplyLines(env, lines)[key] == env[key]
    decreases |lines|
  {
    if lines != [] {
      var init := lines[..|lines| - 1];
      assert forall i :: 0 <= i < |init| ==> init[i] == lines[i];
      UnsetKeyKept(env, init, key);
      ApplyOtherLine(ApplyLines(env, init), lines[|lines| - 1], key);
    }
  }

  /** Of several lines setting a key, the last one wins. */
  lemma {:induction false} LastLineWins(env: map<string, string>, lines: seq<string>, key: string, j: nat)
    requires j < |lines| && Sets(lines[j], key)
    requires forall i :: j < i < |lines| ==> !Sets(lines[i], key)
    ensures key in ApplyLines(env, lines) && ApplyLines(env, lines)[key] == ParseLine(lines[j]).value.1
    decreases |lines|
  {
    var init := lines[..|lines| - 1];
    if j < |lines| - 1 {
      assert forall i :: 0 <= i < |init| ==> init[i] == lines[i];
      LastLineWins(env, init, key, j);
      ApplyOtherLine(ApplyLines(env, init), lines[|lines| - 1], key);
    }
  }
}
