/** The environment check script (scripts/verify-env.js): it loads the
    first `.env` file it finds into the process environment, line by line,
    then fails the run when the required OpenAI key is missing or refused.
    The file system is a map from path to content, the process is the class
    `Process`, and the key check against the OpenAI API is a parameter. */
module VerifyEnv {
  import opened Strings

  /** The candidate files, in the order they are tried, relative to the
      working directory. */
  const EnvFiles: seq<string> := ["apps/web/.env.local", ".env.local", ".env"]

  const OpenAiKey := "OPENAI_API_KEY"
  const RequiredEnvVars: seq<string> := [OpenAiKey]

  /** The first candidate that exists. */
  function FirstExisting(fs: map<string, string>, paths: seq<string>): (r: Option<string>)
    ensures r.None? <==> forall k :: 0 <= k < |paths| ==> paths[k] !in fs
    ensures r.Some? ==> r.value in fs && exists k :: 0 <= k < |paths| && paths[k] == r.value
                                                    && forall j :: 0 <= j < k ==> paths[j] !in fs
  {
    if |paths| == 0 then None
    else if paths[0] in fs then Some(paths[0])
    else
      var r := FirstExisting(fs, paths[1..]);
      if r.Some? then
        var k :| 0 <= k < |paths[1..]| && paths[1..][k] == r.value && forall j :: 0 <= j < k ==> paths[1..][j] !in fs;
        assert paths[k + 1] == r.value;
        assert forall j :: 0 <= j < k + 1 ==> paths[j] !in fs by {
          forall j | 0 <= j < k + 1 ensures paths[j] !in fs {
            if j > 0 {
              assert paths[j] == paths[1..][j - 1];
            }
          }
        }
        r
      else r
  }

  /** One line of a `.env` file: trimmed, blank and `#` lines skipped, the
      key before the first `=` and the rest, `=` signs included, as the
      value; no `=` or an empty key sets nothing. */
  function ParseLine(line: string): Option<(string, string)> {
    var trimmed := Trim(line);
    if trimmed != "" && !StartsWith(trimmed, "#") then
      var parts := Split(trimmed, '=');
      var key, values := parts[0], parts[1..];
      if key != "" && |values| > 0 then Some((key, Join(values, "="))) else None
    else None
  }

  /** A line sets a variable exactly when, once trimmed, it is not a comment
      and has a `=` after a non-empty key; the key is the text before the
      first `=` and the value all of the text after it. */
  lemma ParseLineSplitsAtFirstEquals(line: string)
    ensures var t := Trim(line);
      var i := IndexOf(t, '=');
      ParseLine(line) == if t != "" && !StartsWith(t, "#") && i > 0 then Some((t[..i], t[i + 1..])) else None
  {
    var t := Trim(line);
    if t != "" && !StartsWith(t, "#") {
      SplitAtFirstEquals(t);
    }
  }

  /** The parts of a text split on `=`: the first is the text before the
      first `=`, and the rest join back to the text after it. */
  lemma SplitAtFirstEquals(t: string)
    ensures var i, parts := IndexOf(t, '='), Split(t, '=');
      && (|parts| > 1 <==> i != -1)
      && parts[0] == (if i == -1 then t else t[..i])
      && (i != -1 ==> Join(parts[1..], "=") == t[i + 1..])
  {
    var i, parts := IndexOf(t, '='), Split(t, '=');
    if i != -1 {
      assert parts == [t[..i]] + Split(t[i + 1..], '=');
      assert parts[1..] == Split(t[i + 1..], '=');
      JoinSplit(t[i + 1..], '=');
    }
  }

  /** `KEY=` sets the variable to the empty string. */
  lemma EmptyValue(key: string)
    requires key != "" && '=' !in key && key[0] != '#'
    requires !IsJsWhitespace(key[0]) && !IsJsWhitespace(key[|key| - 1])
    ensures ParseLine(key + "=").Some? && ParseLine(key + "=").value == (key, "")
  {
    var line := key + "=";
    assert line[0] == key[0] && line[|line| - 1] == '=';
    IndexOfAppended(key, '=');
    SplitsAt(line, |key|);
    assert line[..|key|] == key && line[|key| + 1..] == "";
  }

  /** `ParseLineSplitsAtFirstEquals` for a line that is already trimmed. */
  lemma SplitsAt(line: string, i: nat)
    requires line != "" && !IsJsWhitespace(line[0]) && !IsJsWhitespace(line[|line| - 1])
    requires line[0] != '#'
    requires IndexOf(line, '=') == i && 0 < i < |line|
    ensures ParseLine(line).Some? && ParseLine(line).value == (line[..i], line[i + 1..])
  {
    TrimKeeps(line);
    assert !StartsWith(line, "#");
    ParseLineSplitsAtFirstEquals(line);
  }

  lemma IndexOfAppended(s: string, c: char)
    requires c !in s
    ensures IndexOf(s + [c], c) == |s|
  {
    assert (s + [c])[|s|] == c && (s + [c])[..|s|] == s;
  }

  /** A string that starts and ends with a non-space character is its own trim. */
  lemma TrimKeeps(s: string)
    requires s != "" && !IsJsWhitespace(s[0]) && !IsJsWhitespace(s[|s| - 1])
    ensures Trim(s) == s
  {
  }

  /** An assignment a line makes, if any. */
  type Assignment = Option<(string, string)>

  /** The assignments of the lines of a file, in order. */
  function Assignments(lines: seq<string>): (r: seq<Assignment>)
    ensures |r| == |lines|
    ensures forall k :: 0 <= k < |lines| ==> r[k] == ParseLine(lines[k])
  {
    if |lines| == 0 then [] else Assignments(lines[..|lines| - 1]) + [ParseLine(lines[|lines| - 1])]
  }

  /** The environment after a run of assignments, made in order. */
  function Apply(env: map<string, string>, assignments: seq<Assignment>): map<string, string> {
    if |assignments| == 0 then env
    else
      var before := Apply(env, assignments[..|assignments| - 1]);
      var a := assignments[|assignments| - 1];
      if a.Some? then before[a.value.0 := a.value.1] else before
  }

  lemma ApplyStep(env: map<string, string>, assignments: seq<Assignment>, i: nat)
    requires i < |assignments|
    ensures var before, a := Apply(env, assignments[..i]), assignments[i];
      Apply(env, assignments[..i + 1]) == if a.Some? then before[a.value.0 := a.value.1] else before
  {
    assert assignments[..i + 1][..i] == assignments[..i];
  }

  /** The environment after the lines of a file. */
  function ApplyLines(env: map<string, string>, lines: seq<string>): map<string, string> {
    Apply(env, Assignments(lines))
  }

  /** The last assignment to a key decides its value, whatever the
      environment held before. */
  lemma {:induction false} LastLineWins(env: map<string, string>, assignments: seq<Assignment>, k: nat, key: string, value: string)
    requires k < |assignments| && assignments[k] == Some((key, value))
    requires forall j :: k < j < |assignments| ==> assignments[j].None? || assignments[j].value.0 != key
    ensures key in Apply(env, assignments) && Apply(env, assignments)[key] == value
  {
    var n := |assignments| - 1;
    if k < n {
      LastLineWins(env, assignments[..n], k, key, value);
      assert assignments[..n][k] == assignments[k];
    }
  }

  /** A key no assignment names keeps the value it had. */
  lemma {:induction false} UnsetKeyKept(env: map<string, string>, assignments: seq<Assignment>, key: string)
    requires forall j :: 0 <= j < |assignments| ==> assignments[j].None? || assignments[j].value.0 != key
    ensures key in Apply(env, assignments) <==> key in env
    ensures key in env ==> Apply(env, assignments)[key] == env[key]
  {
    if |assignments| > 0 {
      var n := |assignments| - 1;
      UnsetKeyKept(env, assignments[..n], key);
    }
  }

  /** The process the script runs in: its environment and, once
      `process.exit` has been called, its exit code. */
  class Process {
    var env: map<string, string>
    var exitCode: Option<int>

    constructor(env0: map<string, string>)
      ensures env == env0 && exitCode.None?
    {
      env, exitCode := env0, None;
    }

    /** The loading loop: only the first existing candidate is read, split
        on newlines, and its lines are applied in order. */
    method LoadEnvFiles(fs: map<string, string>)
      modifies this
      ensures FirstExisting(fs, EnvFiles).None? ==> env == old(env)
      ensures FirstExisting(fs, EnvFiles).Some? ==>
        env == ApplyLines(old(env), Split(fs[FirstExisting(fs, EnvFiles).value], '\n'))
      ensures exitCode == old(exitCode)
    {
      var f := 0;
      while f < |EnvFiles|
        invariant 0 <= f <= |EnvFiles|
        invariant forall j :: 0 <= j < f ==> EnvFiles[j] !in fs
        invariant env == old(env) && exitCode == old(exitCode)
      {
        var envFile := EnvFiles[f];
        if envFile in fs {
          assert FirstExisting(fs, EnvFiles) == Some(envFile) by {
            FirstExistingAt(fs, EnvFiles, f);
          }
          ApplyFile(Split(fs[envFile], '\n'));
          return;
        }
        f := f + 1;
      }
    }

    /** The lines of one file applied in order. */
    method ApplyFile(lines: seq<string>)
      modifies this
      ensures env == ApplyLines(old(env), lines)
      ensures exitCode == old(exitCode)
    {
      ghost var assignments := Assignments(lines);
      var i := 0;
      while i < |lines|
        invariant 0 <= i <= |lines|
        invariant env == Apply(old(env), assignments[..i]) && exitCode == old(exitCode)
      {
        var parsed := ParseLine(lines[i]);
        ApplyStep(old(env), assignments, i);
        if parsed.Some? {
          env := env[parsed.value.0 := parsed.value.1];
        }
        i := i + 1;
      }
      assert assignments[..i] == assignments;
    }

    /** The check of the required variables: a missing or empty key, or one
        the OpenAI API refuses (`keyAccepted`, consulted only when the key
        is set), fails the run with exit code 1. */
    method CheckRequired(keyAccepted: bool) returns (allValid: bool)
      modifies this
      ensures allValid <==> OpenAiKey in env && env[OpenAiKey] != "" && keyAccepted
      ensures exitCode == if allValid then old(exitCode) else Some(1)
      ensures env == old(env)
    {
      allValid := true;
      var k := 0;
      while k < |RequiredEnvVars|
        invariant 0 <= k <= |RequiredEnvVars|
        invariant allValid <==> k == 0 || (OpenAiKey in env && env[OpenAiKey] != "" && keyAccepted)
      {
        var varName := RequiredEnvVars[k];
        if varName in env && env[varName] != "" {
          if varName == OpenAiKey && !keyAccepted {
            allValid := false;
          }
        } else {
          allValid := false;
        }
        k := k + 1;
      }
      if !allValid {
        exitCode := Some(1);
      }
    }
  }

  /** The candidate found at `f`, with none before it, is the first existing one. */
  lemma {:induction false} FirstExistingAt(fs: map<string, string>, paths: seq<string>, f: nat)
    requires f < |paths| && paths[f] in fs
    requires forall j :: 0 <= j < f ==> paths[j] !in fs
    ensures FirstExisting(fs, paths) == Some(paths[f])
  {
    if f > 0 {
      assert paths[0] !in fs;
      forall j | 0 <= j < f - 1 ensures paths[1..][j] !in fs {
        assert paths[1..][j] == paths[j + 1];
      }
      FirstExistingAt(fs, paths[1..], f - 1);
    }
  }
}
