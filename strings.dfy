/** The string operations of the .NET base library that the formatter relies on
    (StartsWith, IndexOf, Trim, Replace, ...), stated on `seq<char>` with ordinal
    comparison. Whitespace is the ASCII whitespace set. */
module Strings {

  predicate IsWhiteSpace(c: char) {
    c == ' ' || c == '\t' || c == '\n' || c == '\r' || c == '\U{B}' || c == '\U{C}'
  }

  /** string.IsNullOrWhiteSpace on a non-null string */
  predicate IsBlank(s: string) {
    forall i :: 0 <= i < |s| ==> IsWhiteSpace(s[i])
  }

  predicate IsLetter(c: char) {
    'a' <= c <= 'z' || 'A' <= c <= 'Z'
  }

  predicate IsDigit(c: char) {
    '0' <= c <= '9'
  }

  /** No string occurs twice. */
  predicate Distinct(s: seq<string>) {
    forall i, j :: 0 <= i < j < |s| ==> s[i] != s[j]
  }

  predicate StartsWith(s: string, prefix: string) {
    |prefix| <= |s| && s[..|prefix|] == prefix
  }

  predicate EndsWith(s: string, suffix: string) {
    |suffix| <= |s| && s[|s| - |suffix|..] == suffix
  }

  predicate OccursAt(s: string, sub: string, i: int) {
    0 <= i && i + |sub| <= |s| && s[i..i + |sub|] == sub
  }

  predicate Contains(s: string, sub: string) {
    exists i :: 0 <= i <= |s| && OccursAt(s, sub, i)
  }

  /** string.IndexOf(sub, from): the first occurrence at or after `from`, or -1 */
  function IndexOfFrom(s: string, sub: string, from: nat): (r: int)
    ensures r == -1 || (from <= r && OccursAt(s, sub, r))
    ensures r == -1 ==> forall j :: from <= j ==> !OccursAt(s, sub, j)
    ensures r != -1 ==> forall j :: from <= j < r ==> !OccursAt(s, sub, j)
    decreases |s| - from
  {
    if from + |sub| > |s| then -1
    else if s[from..from + |sub|] == sub then from
    else IndexOfFrom(s, sub, from + 1)
  }

  /** A mismatch at any offset moves the search on by one. */
  lemma IndexOfFromSkip(s: string, sub: string, from: nat, k: nat)
    requires from + |sub| <= |s| && k < |sub| && s[from + k] != sub[k]
    ensures IndexOfFrom(s, sub, from) == IndexOfFrom(s, sub, from + 1)
  {
    assert s[from..from + |sub|][k] != sub[k];
  }

  function IndexOf(s: string, sub: string): (r: int)
    ensures r == -1 || OccursAt(s, sub, r)
    ensures r == -1 <==> !Contains(s, sub)
    ensures r != -1 ==> forall j :: 0 <= j < r ==> !OccursAt(s, sub, j)
  {
    IndexOfFrom(s, sub, 0)
  }

  function IndexOfChar(s: string, c: char, from: nat): (r: int)
    ensures r == -1 || (from <= r < |s| && s[r] == c)
    ensures r == -1 ==> forall j :: from <= j < |s| ==> s[j] != c
    ensures r != -1 ==> forall j :: from <= j < r ==> s[j] != c
    decreases |s| - from
  {
    if from >= |s| then -1
    else if s[from] == c then from
    else IndexOfChar(s, c, from + 1)
  }

  /** string.LastIndexOf(c, start): the last occurrence at or before `start`, or -1 */
  function LastIndexOfChar(s: string, c: char, start: int): (r: int)
    requires -1 <= start < |s|
    ensures -1 <= r <= start
    ensures r != -1 ==> s[r] == c
    ensures forall j :: r < j <= start && 0 <= j ==> s[j] != c
    decreases start + 1
  {
    if start < 0 then -1
    else if s[start] == c then start
    else LastIndexOfChar(s, c, start - 1)
  }

  function CountChar(s: string, c: char): (n: nat)
    ensures n <= |s|
  {
    if s == [] then 0 else (if s[0] == c then 1 else 0) + CountChar(s[1..], c)
  }

  /** Greedy `\s*` from `i`: the first non-whitespace position. */
  function SkipWs(s: string, i: nat): (j: nat)
    requires i <= |s|
    ensures i <= j <= |s|
    ensures forall k :: i <= k < j ==> IsWhiteSpace(s[k])
    ensures j == |s| || !IsWhiteSpace(s[j])
    decreases |s| - i
  {
    if i < |s| && IsWhiteSpace(s[i]) then SkipWs(s, i + 1) else i
  }

  lemma SkipWsStep(s: string, i: nat)
    requires i < |s| && IsWhiteSpace(s[i])
    ensures SkipWs(s, i) == SkipWs(s, i + 1)
  {
  }

  lemma SkipWsHere(s: string, i: nat)
    requires i < |s| && !IsWhiteSpace(s[i])
    ensures SkipWs(s, i) == i
  {
  }

  /** Going left from `e` but not below `lo`: the end of the last
      non-whitespace character. */
  function SkipWsBack(s: string, lo: nat, e: nat): (j: nat)
    requires lo <= e <= |s|
    ensures lo <= j <= e
    ensures forall k :: j <= k < e ==> IsWhiteSpace(s[k])
    ensures j == lo || !IsWhiteSpace(s[j - 1])
    decreases e
  {
    if lo < e && IsWhiteSpace(s[e - 1]) then SkipWsBack(s, lo, e - 1) else e
  }

  /** string.Trim(): drops leading and trailing whitespace */
  function Trim(s: string): (r: string)
    ensures r == [] || (!IsWhiteSpace(r[0]) && !IsWhiteSpace(r[|r| - 1]))
    ensures Contains(s, r)
  {
    var a := SkipWs(s, 0);
    var b := SkipWsBack(s, a, |s|);
    assert OccursAt(s, s[a..b], a);
    s[a..b]
  }

  lemma TrimBlank(s: string)
    ensures Trim(s) == [] <==> IsBlank(s)
  {
    var a := SkipWs(s, 0);
    var b := SkipWsBack(s, a, |s|);
    if a == b {
      assert a == |s|;
    } else {
      assert !IsWhiteSpace(s[a]);
    }
  }

  /** A character absent from `s` is absent from every part of it. */
  lemma ContainedAvoids(s: string, r: string, c: char)
    requires Contains(s, r)
    requires forall j :: 0 <= j < |s| ==> s[j] != c
    ensures forall j :: 0 <= j < |r| ==> r[j] != c
  {
    var o :| 0 <= o <= |s| && OccursAt(s, r, o);
    forall j | 0 <= j < |r|
      ensures r[j] != c
    {
      assert r[j] == s[o + j];
    }
  }

  /** Trimming twice is trimming once. */
  lemma TrimIdempotent(s: string)
    ensures Trim(Trim(s)) == Trim(s)
  {
    var r := Trim(s);
    if r != [] {
      SkipWsHere(r, 0);
      assert SkipWsBack(r, 0, |r|) == |r|;
      assert r[0..|r|] == r;
    }
  }

  /** Skipping `c` from `i`: the first position holding another character. */
  function SkipChar(s: string, c: char, i: nat): (j: nat)
    requires i <= |s|
    ensures i <= j <= |s|
    ensures forall k :: i <= k < j ==> s[k] == c
    ensures j == |s| || s[j] != c
    decreases |s| - i
  {
    if i < |s| && s[i] == c then SkipChar(s, c, i + 1) else i
  }

  /** Skipping `c` leftwards from `e`, not below `lo`. */
  function SkipCharBack(s: string, c: char, lo: nat, e: nat): (j: nat)
    requires lo <= e <= |s|
    ensures lo <= j <= e
    ensures forall k :: j <= k < e ==> s[k] == c
    ensures j == lo || s[j - 1] != c
    decreases e
  {
    if lo < e && s[e - 1] == c then SkipCharBack(s, c, lo, e - 1) else e
  }

  /** string.TrimStart(c) */
  function TrimStartChar(s: string, c: char): (r: string)
    ensures r == [] || r[0] != c
    ensures EndsWith(s, r) && forall i :: 0 <= i < |s| - |r| ==> s[i] == c
  {
    s[SkipChar(s, c, 0)..]
  }

  /** string.TrimEnd(c) */
  function TrimEndChar(s: string, c: char): (r: string)
    ensures r == [] || r[|r| - 1] != c
    ensures StartsWith(s, r) && forall i :: |r| <= i < |s| ==> s[i] == c
  {
    s[..SkipCharBack(s, c, 0, |s|)]
  }

  /** string.Trim(c): drops every leading and trailing `c` */
  function TrimChar(s: string, c: char): (r: string)
    ensures r == [] || (r[0] != c && r[|r| - 1] != c)
    ensures Contains(s, r)
  {
    var a := SkipChar(s, c, 0);
    var b := SkipCharBack(s, c, a, |s|);
    assert OccursAt(s, s[a..b], a);
    s[a..b]
  }

  /** The search inside string.Replace: IndexOfFrom without its meaning
      attached, so that unfolding Replace stays cheap. */
  function Find(s: string, sub: string, from: nat): (r: int)
    ensures r == -1 || (from <= r && OccursAt(s, sub, r))
    decreases |s| - from
  {
    if from + |sub| > |s| then -1
    else if s[from..from + |sub|] == sub then from
    else Find(s, sub, from + 1)
  }

  lemma {:induction false} FindIsIndexOf(s: string, sub: string, from: nat)
    ensures Find(s, sub, from) == IndexOfFrom(s, sub, from)
    decreases |s| - from
  {
    if from + |sub| <= |s| && s[from..from + |sub|] != sub {
      FindIsIndexOf(s, sub, from + 1);
    }
  }

  /** string.Replace(old, new): every non-overlapping occurrence, left to right */
  function Replace(s: string, target: string, replacement: string): string
    requires target != []
    decreases |s|
  {
    var i := Find(s, target, 0);
    if i == -1 then s
    else s[..i] + replacement + Replace(s[i + |target|..], target, replacement)
  }

  /** A text without the target is left as it is. */
  lemma ReplaceAbsent(s: string, target: string, replacement: string)
    requires target != [] && !Contains(s, target)
    ensures Replace(s, target, replacement) == s
  {
    FindIsIndexOf(s, target, 0);
  }

  /** Replacing a target the text holds leaves the replacement in it. */
  lemma ReplacePresent(s: string, target: string, replacement: string)
    requires target != [] && Contains(s, target)
    ensures Contains(Replace(s, target, replacement), replacement)
  {
    FindIsIndexOf(s, target, 0);
    var i := Find(s, target, 0);
    var r := Replace(s, target, replacement);
    assert r == s[..i] + replacement + Replace(s[i + |target|..], target, replacement);
    assert OccursAt(r, replacement, i);
  }

  /** Removing a leading target that the rest does not hold gives the rest. */
  lemma ReplaceLeading(target: string, rest: string)
    requires target != [] && !Contains(rest, target)
    ensures Replace(target + rest, target, "") == rest
  {
    assert (target + rest)[..|target|] == target;
    assert (target + rest)[|target|..] == rest;
    ReplaceAbsent(rest, target, "");
  }

  /** string.Trim(chars): drops every leading and trailing character of `cs` */
  function TrimAny(s: string, cs: set<char>): (r: string)
    ensures r == [] || (r[0] !in cs && r[|r| - 1] !in cs)
    ensures Contains(s, r)
    decreases |s|
  {
    if s != [] && s[0] in cs then
      var r := TrimAny(s[1..], cs);
      var i :| 0 <= i <= |s| - 1 && OccursAt(s[1..], r, i);
      assert s[1..][i..i + |r|] == s[i + 1..i + 1 + |r|];
      assert OccursAt(s, r, i + 1);
      r
    else if s != [] && s[|s| - 1] in cs then
      var r := TrimAny(s[..|s| - 1], cs);
      var i :| 0 <= i <= |s| - 1 && OccursAt(s[..|s| - 1], r, i);
      assert s[..|s| - 1][i..i + |r|] == s[i..i + |r|];
      assert OccursAt(s, r, i);
      r
    else
      assert OccursAt(s, s, 0);
      s
  }

  /** string.Split(c): the pieces between the separators, at least one. */
  function Split(s: string, c: char): (r: seq<string>)
    ensures |r| >= 1
    ensures forall i, j :: 0 <= i < |r| && 0 <= j < |r[i]| ==> r[i][j] != c
    decreases |s|
  {
    var k := IndexOfChar(s, c, 0);
    if k == -1 then [s] else [s[..k]] + Split(s[k + 1..], c)
  }

  /** Joining the pieces with the separator gives the string back. */
  lemma {:induction false} SplitJoin(s: string, c: char)
    ensures Join(Split(s, c), [c]) == s
    decreases |s|
  {
    var k := IndexOfChar(s, c, 0);
    if k != -1 {
      var rest := Split(s[k + 1..], c);
      SplitJoin(s[k + 1..], c);
      assert Split(s, c) == [s[..k]] + rest;
      assert Split(s, c)[1..] == rest;
      assert s == s[..k] + [c] + s[k + 1..];
    }
  }

  /** `s.Split(c).Last()`: the text after the last `c`, or all of `s`. */
  function AfterLast(s: string, c: char): (r: string)
    ensures EndsWith(s, r)
    ensures forall i :: 0 <= i < |r| ==> r[i] != c
    ensures r == s || s[|s| - |r| - 1] == c
  {
    var k := LastIndexOfChar(s, c, |s| - 1);
    var r := s[k + 1..];
    assert forall i :: 0 <= i < |r| ==> r[i] == s[k + 1 + i];
    r
  }

  /** char.ToLowerInvariant on the ASCII letters; other characters are kept. */
  function LowerChar(c: char): char {
    if 'A' <= c <= 'Z' then (c as int + 32) as char else c
  }

  /** string.ToLowerInvariant, on the ASCII letters */
  function Lower(s: string): (r: string)
    ensures |r| == |s|
  {
    seq(|s|, i requires 0 <= i < |s| => LowerChar(s[i]))
  }

  /** string.Equals(b, StringComparison.InvariantCultureIgnoreCase) */
  predicate EqualsIgnoreCase(a: string, b: string) {
    Lower(a) == Lower(b)
  }

  /** s.StartsWith(p, StringComparison.InvariantCultureIgnoreCase) */
  predicate StartsWithIgnoreCase(s: string, p: string) {
    StartsWith(Lower(s), Lower(p))
  }

  /** The case-insensitive tests accept what the exact ones accept, and
      are blind to the case of either side. */
  lemma IgnoreCaseMeaning(s: string, p: string)
    ensures StartsWith(s, p) ==> StartsWithIgnoreCase(s, p)
    ensures StartsWithIgnoreCase(Lower(s), p) == StartsWithIgnoreCase(s, p)
    ensures StartsWithIgnoreCase(s, Lower(p)) == StartsWithIgnoreCase(s, p)
    ensures EqualsIgnoreCase(Lower(s), p) == EqualsIgnoreCase(s, p)
  {
    LowerIdempotent(s);
    LowerIdempotent(p);
    if StartsWith(s, p) {
      assert forall i :: 0 <= i < |p| ==> Lower(s)[i] == LowerChar(s[..|p|][i]) == Lower(p)[i];
    }
  }

  lemma LowerIdempotent(s: string)
    ensures Lower(Lower(s)) == Lower(s)
  {
    assert forall i :: 0 <= i < |s| ==> LowerChar(Lower(s)[i]) == Lower(s)[i];
  }

  /** String.Join(sep, parts) */
  function Join(parts: seq<string>, sep: string): string {
    if parts == [] then []
    else if |parts| == 1 then parts[0]
    else parts[0] + sep + Join(parts[1..], sep)
  }

  /** Concatenation of all parts, as a StringBuilder would collect them */
  function Concat(parts: seq<string>): string {
    if parts == [] then [] else parts[0] + Concat(parts[1..])
  }

  lemma {:induction false} ConcatAppend(a: seq<string>, b: seq<string>)
    ensures Concat(a + b) == Concat(a) + Concat(b)
  {
    if a == [] {
      assert a + b == b;
    } else {
      assert (a + b)[1..] == a[1..] + b;
      ConcatAppend(a[1..], b);
    }
  }

  lemma ConcatCons(x: string, rest: seq<string>)
    ensures Concat([x] + rest) == x + Concat(rest)
  {
    assert ([x] + rest)[1..] == rest;
  }

  lemma ConcatTwo(a: string, b: string)
    ensures Concat([a, b]) == a + b
  {
    ConcatCons(b, []);
    assert [a, b] == [a] + [b];
    ConcatCons(a, [b]);
  }

  lemma ConcatThree(a: string, b: string, c: string)
    ensures Concat([a, b, c]) == a + b + c
  {
    ConcatTwo(b, c);
    assert [a, b, c] == [a] + [b, c];
    ConcatCons(a, [b, c]);
  }

  lemma SplitAt(s: string, i: nat, j: nat)
    requires i <= j <= |s|
    ensures s[..i] + s[i..j] + s[j..] == s
  {
  }
}
