/** Option type and the JavaScript string operations the application relies on:
    startsWith/endsWith, indexOf/lastIndexOf on one character, split on one
    character, join, trim, and substring with JavaScript's index clamping. */
module Strings {

  datatype Option<+T> = None | Some(value: T)

  /** A JavaScript truthiness test on an optional string: present and non-empty. */
  predicate Truthy(s: Option<string>) {
    s.Some? && s.value != ""
  }

  predicate StartsWith(s: string, prefix: string) {
    |prefix| <= |s| && s[..|prefix|] == prefix
  }

  predicate EndsWith(s: string, suffix: string) {
    |suffix| <= |s| && s[|s| - |suffix|..] == suffix
  }

  /** `s.includes(sub)`. */
  predicate Contains(s: string, sub: string) {
    exists i :: 0 <= i <= |s| - |sub| && InfixAt(s, sub, i)
  }

  /** `sub` occurs in `s` starting at index `i`. */
  predicate InfixAt(s: string, sub: string, i: int)
    requires 0 <= i <= |s| - |sub|
  {
    s[i..i + |sub|] == sub
  }

  /** `s.indexOf(c)` for a one-character needle: the first index holding `c`, or -1. */
  function IndexOf(s: string, c: char): (r: int)
    ensures -1 <= r < |s|
    ensures r == -1 <==> c !in s
    ensures r >= 0 ==> s[r] == c && c !in s[..r]
  {
    if |s| == 0 then -1
    else if s[0] == c then 0
    else
      var k := IndexOf(s[1..], c);
      if k == -1 then -1
      else
        assert s[..k + 1] == [s[0]] + s[1..][..k];
        k + 1
  }

  /** `s.lastIndexOf(c)` for a one-character needle: the last index holding `c`, or -1. */
  function LastIndexOf(s: string, c: char): (r: int)
    ensures -1 <= r < |s|
    ensures r == -1 <==> c !in s
    ensures r >= 0 ==> s[r] == c && c !in s[r + 1..]
  {
    if |s| == 0 then -1
    else if s[|s| - 1] == c then |s| - 1
    else
      var k := LastIndexOf(s[..|s| - 1], c);
      assert s == s[..|s| - 1] + [s[|s| - 1]];
      k
  }

  /** `s.substring(start, end)`: both bounds clamped to [0, |s|] and swapped when reversed. */
  function Substring(s: string, start: int, end: int): (r: string)
    ensures |r| <= |s|
  {
    var a := Clamp(start, |s|);
    var b := Clamp(end, |s|);
    if a <= b then s[a..b] else s[b..a]
  }

  function Clamp(i: int, n: nat): (r: nat)
    ensures r <= n
  {
    if i < 0 then 0 else if i > n then n else i
  }

  /** `s.split(sep)` for a one-character separator; `"".split(sep)` is `[""]`. */
  function Split(s: string, sep: char): (parts: seq<string>)
    ensures |parts| >= 1
    decreases |s|
  {
    var i := IndexOf(s, sep);
    if i == -1 then [s] else [s[..i]] + Split(s[i + 1..], sep)
  }

  /** `parts.join(sep)`. */
  function Join(parts: seq<string>, sep: string): string {
    if |parts| == 0 then ""
    else if |parts| == 1 then parts[0]
    else parts[0] + sep + Join(parts[1..], sep)
  }

  /** Splitting then joining with the same separator gives back the string. */
  lemma {:induction false} JoinSplit(s: string, sep: char)
    ensures Join(Split(s, sep), [sep]) == s
    decreases |s|
  {
    var i := IndexOf(s, sep);
    if i != -1 {
      var rest := s[i + 1..];
      JoinSplit(rest, sep);
      JoinCons(s[..i], Split(rest, sep), [sep]);
      Around(s, i);
    }
  }

  /** A text is what lies before an index, the character there, and what follows. */
  lemma Around(s: string, i: nat)
    requires i < |s|
    ensures s == s[..i] + [s[i]] + s[i + 1..]
  {
  }

  /** Joining a head before a non-empty tail puts the separator between them. */
  lemma JoinCons(head: string, tail: seq<string>, sep: string)
    requires |tail| >= 1
    ensures Join([head] + tail, sep) == head + sep + Join(tail, sep)
  {
    assert ([head] + tail)[1..] == tail;
  }

  /** Joining pieces free of the separator and splitting again gives the pieces back. */
  lemma {:induction false} SplitJoin(parts: seq<string>, sep: char)
    requires |parts| >= 1
    requires forall k :: 0 <= k < |parts| ==> sep !in parts[k]
    ensures Split(Join(parts, [sep]), sep) == parts
  {
    if |parts| > 1 {
      var head, rest := parts[0], parts[1..];
      var tail := Join(rest, [sep]);
      assert parts == [head] + rest;
      JoinCons(head, rest, [sep]);
      SplitJoin(rest, sep);
      SplitAfterFirst(head, sep, tail);
    }
  }

  /** A text free of the separator, the separator and a tail split into the text
      followed by the pieces of the tail. */
  lemma SplitAfterFirst(head: string, sep: char, tail: string)
    requires sep !in head
    ensures Split(head + [sep] + tail, sep) == [head] + Split(tail, sep)
  {
    var s := head + [sep] + tail;
    assert s[|head|] == sep && s[..|head|] == head;
    assert IndexOf(s, sep) == |head|;
    assert s[|head| + 1..] == tail;
  }

  /** No piece of a split contains the separator. */
  lemma {:induction false} SplitPiecesAvoidSeparator(s: string, sep: char)
    ensures forall k :: 0 <= k < |Split(s, sep)| ==> sep !in Split(s, sep)[k]
    decreases |s|
  {
    var i := IndexOf(s, sep);
    if i != -1 {
      SplitPiecesAvoidSeparator(s[i + 1..], sep);
    }
  }

  /** The head of a split is the text before the first separator; the other pieces,
      joined back with the separator, are exactly the text after it. */
  lemma SplitHeadAndRest(s: string, sep: char, i: int)
    requires i == IndexOf(s, sep)
    ensures i == -1 ==> Split(s, sep) == [s]
    ensures i != -1 ==> |Split(s, sep)| >= 2 && Split(s, sep)[0] == s[..i]
    ensures i != -1 ==> Join(Split(s, sep)[1..], [sep]) == s[i + 1..]
  {
    if i != -1 {
      var tail := Split(s[i + 1..], sep);
      assert Split(s, sep) == [s[..i]] + tail;
      assert Split(s, sep)[1..] == tail;
      JoinSplit(s[i + 1..], sep);
    }
  }

  /** `parts.filter(Boolean)` on strings: drop the empty ones. */
  function NonEmpty(parts: seq<string>): (r: seq<string>)
    ensures |r| <= |parts|
    ensures forall k :: 0 <= k < |r| ==> r[k] != ""
    ensures forall x :: x in r <==> x in parts && x != ""
  {
    if |parts| == 0 then []
    else if parts[0] == "" then NonEmpty(parts[1..])
    else [parts[0]] + NonEmpty(parts[1..])
  }

  /** The characters `String.prototype.trim` removes: ECMAScript WhiteSpace
      (tab, VT, FF, space, NBSP, BOM and the Unicode space separators) and
      LineTerminator (LF, CR, LS, PS). */
  predicate IsJsWhitespace(c: char) {
    || c == '\t' || c == '\n' || c == '\U{000B}' || c == '\U{000C}' || c == '\r'
    || c == ' ' || c == '\U{00A0}' || c == '\U{1680}'
    || ('\U{2000}' <= c <= '\U{200A}')
    || c == '\U{2028}' || c == '\U{2029}' || c == '\U{202F}' || c == '\U{205F}'
    || c == '\U{3000}' || c == '\U{FEFF}'
  }

  function TrimStart(s: string): (r: string)
    ensures |r| <= |s| && r == s[|s| - |r|..]
    ensures r == "" || !IsJsWhitespace(r[0])
    ensures forall k :: 0 <= k < |s| - |r| ==> IsJsWhitespace(s[k])
  {
    if |s| > 0 && IsJsWhitespace(s[0]) then TrimStart(s[1..]) else s
  }

  function TrimEnd(s: string): (r: string)
    ensures |r| <= |s| && r == s[..|r|]
    ensures r == "" || !IsJsWhitespace(r[|r| - 1])
    ensures forall k :: |r| <= k < |s| ==> IsJsWhitespace(s[k])
  {
    if |s| > 0 && IsJsWhitespace(s[|s| - 1]) then TrimEnd(s[..|s| - 1]) else s
  }

  /** How many whitespace characters `s` starts with. */
  function LeadingWhitespace(s: string): (n: nat)
    ensures n <= |s|
    ensures forall k :: 0 <= k < n ==> IsJsWhitespace(s[k])
    ensures n == |s| || !IsJsWhitespace(s[n])
  {
    var t := TrimStart(s);
    assert t == "" || t[0] == s[|s| - |t|];
    |s| - |t|
  }

  /** `s.trim()`: the longest infix with no whitespace at either end. It starts
      right after the leading whitespace and is followed by whitespace only, so
      exactly the outer whitespace is removed. */
  function Trim(s: string): (r: string)
    ensures r == "" || (!IsJsWhitespace(r[0]) && !IsJsWhitespace(r[|r| - 1]))
    ensures LeadingWhitespace(s) + |r| <= |s| && InfixAt(s, r, LeadingWhitespace(s))
    ensures forall k :: LeadingWhitespace(s) + |r| <= k < |s| ==> IsJsWhitespace(s[k])
    ensures Contains(s, r)
  {
    TrimEnds(s);
    TrimSplits(s);
    TrimEnd(TrimStart(s))
  }

  /** Neither end of the trimmed text is whitespace. */
  lemma TrimEnds(s: string)
    ensures var t := TrimEnd(TrimStart(s));
      t == "" || (!IsJsWhitespace(t[0]) && !IsJsWhitespace(t[|t| - 1]))
  {
    var ts := TrimStart(s);
    var t := TrimEnd(ts);
    if t != "" {
      assert t[0] == ts[0];
    }
  }

  /** Where `Trim` cuts: after the leading whitespace and before the trailing. */
  lemma TrimSplits(s: string)
    ensures var i, t := LeadingWhitespace(s), TrimEnd(TrimStart(s));
      && i + |t| <= |s| && InfixAt(s, t, i)
      && (forall k :: i + |t| <= k < |s| ==> IsJsWhitespace(s[k]))
  {
    var ts := TrimStart(s);
    assert LeadingWhitespace(s) == |s| - |ts|;
    TrimmedInfix(s, ts, TrimEnd(ts));
    TrailingWhitespace(s, ts, TrimEnd(ts));
  }

  lemma TrimmedInfix(s: string, ts: string, t: string)
    requires |ts| <= |s| && ts == s[|s| - |ts|..]
    requires |t| <= |ts| && t == ts[..|t|]
    ensures InfixAt(s, t, |s| - |ts|)
  {
    var i := |s| - |ts|;
    assert s[i..i + |t|] == t;
  }

  lemma TrailingWhitespace(s: string, ts: string, t: string)
    requires |ts| <= |s| && ts == s[|s| - |ts|..] && |t| <= |ts|
    requires forall k :: |t| <= k < |ts| ==> IsJsWhitespace(ts[k])
    ensures forall k :: |s| - |ts| + |t| <= k < |s| ==> IsJsWhitespace(s[k])
  {
    var i := |s| - |ts|;
    forall k | i + |t| <= k < |s|
      ensures IsJsWhitespace(s[k])
    {
      assert s[k] == ts[k - i];
    }
  }

  function LowerAsciiChar(c: char): (r: char)
    ensures 'A' <= c <= 'Z' ==> r as int == c as int + 32
    ensures !('A' <= c <= 'Z') ==> r == c
  {
    if 'A' <= c <= 'Z' then (c as int + 32) as char else c
  }

  /** ASCII case folding, used for case-insensitive matching. */
  function LowerAscii(s: string): (r: string)
    ensures |r| == |s|
    ensures forall k :: 0 <= k < |s| ==> r[k] == LowerAsciiChar(s[k])
  {
    if |s| == 0 then "" else [LowerAsciiChar(s[0])] + LowerAscii(s[1..])
  }

  /** SQL `ILIKE '%needle%'` on plain text: case-insensitive substring match. */
  predicate ContainsIgnoreCase(haystack: string, needle: string) {
    Contains(LowerAscii(haystack), LowerAscii(needle))
  }
}
