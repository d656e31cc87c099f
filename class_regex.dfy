/** The regular expressions of src/Helpers/ClassRegexHelper.cs (lines 8-17),
    each written as a total scanner that follows the backtracking engine's
    order of trying alternatives. Balancing groups are an integer depth
    counter. Whitespace (`\s`) and word characters (`\w`) are ASCII. */
module ClassRegex {
  import opened Strings
  import opened Wrappers

  /** A successful match: the whole match is text[index..index + length], the
      `content` group text[contentIndex..contentIndex + contentLength]. */
  datatype Match = Match(index: nat, length: nat, contentIndex: nat, contentLength: nat) {
    function End(): nat {
      index + length
    }

    function ContentEnd(): nat {
      contentIndex + contentLength
    }

    /** The match and its content group lie inside `text`, the group inside the match. */
    predicate Within(text: string) {
      End() <= |text| && index <= contentIndex && ContentEnd() <= End()
    }

    /** The same match reported in a text that starts `d` characters earlier. */
    function Shift(d: nat): Match {
      Match(index + d, length, contentIndex + d, contentLength)
    }
  }

  /** Match.Value */
  function ValueOf(text: string, m: Match): (r: string)
    requires m.Within(text)
    ensures |r| == m.length
  {
    text[m.index..m.End()]
  }

  /** GetClassTextGroup(match).Value: the `content` group, a part of the match's value. */
  function ContentOf(text: string, m: Match): (r: string)
    requires m.Within(text)
    ensures |r| == m.contentLength
    ensures OccursAt(ValueOf(text, m), r, m.contentIndex - m.index)
  {
    var v := ValueOf(text, m);
    assert forall i :: 0 <= i < m.contentLength ==>
      v[m.contentIndex - m.index..m.ContentEnd() - m.index][i] == text[m.contentIndex..m.ContentEnd()][i];
    text[m.contentIndex..m.ContentEnd()]
  }

  /** `$` without RegexOptions.Multiline: at the end, or before a final newline. */
  predicate IsEndAnchor(text: string, i: nat) {
    i == |text| || (i == |text| - 1 && text[i] == '\n')
  }

  predicate IsQuote(c: char) {
    c == '"' || c == '\''
  }

  // ---------------------------------------------------------------------------
  // Balanced parentheses: `\((?>\((?<c>)|[^()]+|\)(?<-c>))*(?(c)(?!))\)`
  // ---------------------------------------------------------------------------

  /** Number of `(` minus number of `)` in `s`. */
  function Net(s: string): int {
    if s == [] then 0 else (if s[0] == '(' then 1 else if s[0] == ')' then -1 else 0) + Net(s[1..])
  }

  /** After an opening `(`, with `depth` groups still open: the index of the `)`
      that closes at depth zero, or -1 when the text ends first. */
  function BalancedClose(text: string, i: nat, depth: nat): (r: int)
    requires i <= |text|
    ensures r == -1 || (i <= r < |text| && text[r] == ')')
    decreases |text| - i
  {
    if i == |text| then -1
    else if text[i] == '(' then BalancedClose(text, i + 1, depth + 1)
    else if text[i] == ')' then (if depth == 0 then i else BalancedClose(text, i + 1, depth - 1))
    else BalancedClose(text, i + 1, depth)
  }

  lemma NetAppendChar(s: string, c: char)
    ensures Net(s + [c]) == Net(s) + (if c == '(' then 1 else if c == ')' then -1 else 0)
  {
    if s != [] {
      assert (s + [c])[1..] == s[1..] + [c];
      NetAppendChar(s[1..], c);
    }
  }

  /** The depth counter never goes negative inside the group and is back at
      zero at its close: the group's body is balanced. */
  lemma {:induction false} BalancedCloseIsBalanced(text: string, i: nat, depth: nat, start: nat)
    requires start <= i <= |text|
    requires depth == Net(text[start..i])
    requires forall k :: start <= k <= i ==> Net(text[start..k]) >= 0
    requires BalancedClose(text, i, depth) != -1
    ensures Net(text[start..BalancedClose(text, i, depth)]) == 0
    ensures forall k :: start <= k <= BalancedClose(text, i, depth) ==> Net(text[start..k]) >= 0
    decreases |text| - i
  {
    var r := BalancedClose(text, i, depth);
    if text[i] == ')' && depth == 0 {
    } else {
      assert text[start..i + 1] == text[start..i] + [text[i]];
      NetAppendChar(text[start..i], text[i]);
      BalancedCloseIsBalanced(text, i + 1, Net(text[start..i + 1]), start);
    }
  }

  // ---------------------------------------------------------------------------
  // _classRegex / _javaScriptClassRegex (lines 8-9):
  //   [cC]lass\s*=\s*(['"])\s*(?<content>(?:\n.|(?!\1).)*)?\s*(\1|$)
  // ---------------------------------------------------------------------------

  /** A content character equal to the quote `q` at `k` comes right after a
      newline that is itself inside the content starting at `lo`. */
  predicate QuoteAfterNewline(text: string, q: char, lo: nat, k: nat) {
    k < |text| && text[k] == q ==> lo < k && text[k - 1] == '\n'
  }

  lemma QuoteAfterNewlineWiden(text: string, q: char, lo: nat, mid: nat, hi: nat)
    requires lo <= mid && forall k :: mid <= k < hi ==> QuoteAfterNewline(text, q, mid, k)
    ensures forall k :: mid <= k < hi ==> QuoteAfterNewline(text, q, lo, k)
  {
    forall k | mid <= k < hi
      ensures QuoteAfterNewline(text, q, lo, k)
    {
      assert QuoteAfterNewline(text, q, mid, k);
    }
  }

  /** Length of one content unit `\n.|(?!\1).` at `j`, or 0 when none matches. */
  function PlainUnit(text: string, q: char, j: nat): (n: nat)
    requires j <= |text|
    ensures j + n <= |text|
  {
    if j + 1 < |text| && text[j] == '\n' && text[j + 1] != '\n' then 2
    else if j < |text| && text[j] != '\n' && text[j] != q then 1
    else 0
  }

  /** `\s*(\1|$)` at `j`: where the match ends, if it can. */
  function PlainClose(text: string, q: char, j: nat): (r: Option<nat>)
    requires j <= |text|
    ensures r.Some? ==> j <= r.value <= |text|
    ensures r.Some? ==> r.value == |text| || (0 < r.value && text[r.value - 1] == q)
  {
    var w := SkipWs(text, j);
    if w == |text| then Some(w)
    else if text[w] == q then Some(w + 1)
    else None
  }

  /** `(?:\n.|(?!\1).)*` and then the close, trying one more unit before
      stopping, as the engine does: the content end and the match end. */
  function PlainContent(text: string, q: char, j: nat): (r: Option<(nat, nat)>)
    requires j <= |text| && IsQuote(q)
    ensures r.Some? ==> j <= r.value.0 <= r.value.1 <= |text|
    ensures r.Some? ==> r.value.1 == |text| || (0 < r.value.1 && text[r.value.1 - 1] == q)
    ensures r.Some? ==> forall k :: j <= k < r.value.0 ==> QuoteAfterNewline(text, q, j, k)
    decreases |text| - j
  {
    var u := PlainUnit(text, q, j);
    var longer := if u == 0 then None else PlainContent(text, q, j + u);
    assert forall k :: j <= k < j + u ==> QuoteAfterNewline(text, q, j, k);
    if longer.Some? then
      QuoteAfterNewlineWiden(text, q, j, j + u, longer.value.0);
      longer
    else match PlainClose(text, q, j)
      case Some(e) => Some((j, e))
      case None => None
  }

  /** A content character other than a newline or the quote extends the content. */
  lemma PlainContentUnit(text: string, q: char, j: nat)
    requires j < |text| && IsQuote(q) && text[j] != '\n' && text[j] != q
    requires PlainContent(text, q, j + 1).Some?
    ensures PlainContent(text, q, j) == PlainContent(text, q, j + 1)
  {
  }

  /** At the quote the content ends and the quote closes the match. */
  lemma PlainContentQuote(text: string, j: nat)
    requires j < |text| && IsQuote(text[j])
    ensures PlainContent(text, text[j], j) == Some((j, j + 1))
  {
    SkipWsHere(text, j);
  }

  /** The leading `\s*` after the quote, given back one character at a time
      when no content can follow: content start, content end, match end. */
  function PlainLead(text: string, q: char, k: nat, s: nat): (r: Option<(nat, nat, nat)>)
    requires k <= s <= |text| && IsQuote(q)
    ensures r.Some? ==> k <= r.value.0 <= r.value.1 <= r.value.2 <= |text|
    ensures r.Some? ==> r.value.2 == |text| || (0 < r.value.2 && text[r.value.2 - 1] == q)
    ensures r.Some? ==> forall i :: r.value.0 <= i < r.value.1 ==> QuoteAfterNewline(text, q, r.value.0, i)
    decreases s - k
  {
    match PlainContent(text, q, s)
    case Some((ce, e)) => Some((s, ce, e))
    case None => if s == k then None else PlainLead(text, q, k, s - 1)
  }

  /** `[cC]` followed by `rest` at `p`. */
  predicate KeywordAt(text: string, p: nat, rest: string) {
    p + 1 + |rest| <= |text| && (text[p] == 'c' || text[p] == 'C') && text[p + 1..p + 1 + |rest|] == rest
  }

  /** The class region pattern anchored at `p`; `rest` is "lass" for
      _classRegex and "lassName" for _javaScriptClassRegex. */
  function PlainRegionAt(text: string, p: nat, rest: string): (r: Option<Match>)
    ensures r.Some? ==> r.value.Within(text) && r.value.index == p && r.value.length > 0
    ensures r.Some? ==> KeywordAt(text, p, rest)
    ensures r.Some? ==> exists q :: IsQuote(q) && (r.value.End() == |text| || (0 < r.value.End() && text[r.value.End() - 1] == q))
  {
    if KeywordAt(text, p, rest) then
      var a := SkipWs(text, p + 1 + |rest|);
      if a < |text| && text[a] == '=' then
        var b := SkipWs(text, a + 1);
        if b < |text| && IsQuote(text[b]) then
          match PlainLead(text, text[b], b + 1, SkipWs(text, b + 1))
          case Some((s, ce, e)) => Some(Match(p, e - p, s, ce - s))
          case None => None
        else None
      else None
    else None
  }

  /** The opening shape every plain region has: keyword, optional whitespace,
      `=`, optional whitespace, a quote, and the content after that quote;
      the content holds the opening quote only right after a newline. */
  lemma PlainRegionShape(text: string, p: nat, rest: string)
    requires PlainRegionAt(text, p, rest).Some?
    ensures var m := PlainRegionAt(text, p, rest).value;
      var a := SkipWs(text, p + 1 + |rest|);
      var b := SkipWs(text, a + 1);
      a < |text| && text[a] == '=' && b < |text| && IsQuote(text[b]) && b < m.contentIndex
      && forall i :: m.contentIndex <= i < m.ContentEnd() ==> QuoteAfterNewline(text, text[b], m.contentIndex, i)
  {
  }

  // ---------------------------------------------------------------------------
  // _razorClassRegex (line 10):
  //   [cC]lass(?:es)?\s*=\s*(["'])(?<content>(?:[^"'\\@]|\\.|@(?:[a-zA-Z0-9.]+)?\(BAL\)
  //     |(?:(?!\1)[^\\]|\\$|\\.)|\([^)]*\))*)(\1|$)
  // ---------------------------------------------------------------------------

  predicate IsRazorNameChar(c: char) {
    IsLetter(c) || IsDigit(c) || c == '.'
  }

  /** `\w` or `.` */
  predicate IsWordOrDot(c: char) {
    IsLetter(c) || IsDigit(c) || c == '_' || c == '.'
  }

  /** End of the run of characters satisfying `ok` that starts at `i`. */
  function RunEnd(text: string, i: nat, ok: char -> bool): (j: nat)
    requires i <= |text|
    ensures i <= j <= |text|
    ensures forall k :: i <= k < j ==> ok(text[k])
    ensures j == |text| || !ok(text[j])
    decreases |text| - i
  {
    if i < |text| && ok(text[i]) then RunEnd(text, i + 1, ok) else i
  }

  /** Length of `@name(balanced)` at `j`, with `name` a run of `nameChar`
      (possibly empty), or 0. */
  function RazorGroup(text: string, j: nat, nameChar: char -> bool): (n: nat)
    requires j <= |text|
    ensures j + n <= |text|
    ensures n > 0 ==> text[j] == '@' && text[j + n - 1] == ')'
  {
    if j < |text| && text[j] == '@' then
      var e := RunEnd(text, j + 1, nameChar);
      if e < |text| && text[e] == '(' then
        var c := BalancedClose(text, e + 1, 0);
        if c == -1 then 0 else c + 1 - j
      else 0
    else 0
  }

  /** Length of `\([^)]*\)` at `j`, or 0. */
  function ParenRun(text: string, j: nat): (n: nat)
    requires j <= |text|
    ensures j + n <= |text|
  {
    if j < |text| && text[j] == '(' then
      var c := IndexOfChar(text, ')', j + 1);
      if c == -1 then 0 else c + 1 - j
    else 0
  }

  /** The razor content unit the engine tries first at `j` (0 if none). */
  function RazorFirstUnit(text: string, q: char, j: nat): (n: nat)
    requires j <= |text|
    ensures j + n <= |text|
  {
    if j == |text| then 0
    else if text[j] == '\\' then
      if j + 1 < |text| && text[j + 1] != '\n' then 2
      else if IsEndAnchor(text, j + 1) then 1
      else 0
    else if text[j] == '@' && RazorGroup(text, j, IsRazorNameChar) > 0 then RazorGroup(text, j, IsRazorNameChar)
    else if text[j] == q then 0
    else 1
  }

  /** The razor content unit the engine falls back to at `j` (0 if none):
      a lone `@` instead of an `@name(...)` group, or `\([^)]*\)` instead of a lone `(`. */
  function RazorSecondUnit(text: string, q: char, j: nat): (n: nat)
    requires j <= |text|
    ensures j + n <= |text|
  {
    if j == |text| then 0
    else if text[j] == '@' && RazorGroup(text, j, IsRazorNameChar) > 1 then 1
    else if text[j] == '(' && ParenRun(text, j) > 1 then ParenRun(text, j)
    else 0
  }

  /** The razor content loop followed by `(\1|$)`: content end and match end. */
  function RazorContent(text: string, q: char, j: nat): (r: Option<(nat, nat)>)
    requires j <= |text|
    ensures r.Some? ==> j <= r.value.0 <= r.value.1 <= |text|
    ensures r.Some? ==> IsEndAnchor(text, r.value.0) || (r.value.1 == r.value.0 + 1 && text[r.value.0] == q)
    decreases |text| - j
  {
    var first := RazorFirstUnit(text, q, j);
    var second := RazorSecondUnit(text, q, j);
    var r1 := if first == 0 then None else RazorContent(text, q, j + first);
    var r2 := if second == 0 then None else RazorContent(text, q, j + second);
    if r1.Some? then r1
    else if r2.Some? then r2
    else if j < |text| && text[j] == q then Some((j, j + 1))
    else if IsEndAnchor(text, j) then Some((j, j))
    else None
  }

  /** A balanced `@name(...)` group is consumed whole: quotes inside it do not
      end the attribute value whenever the value can go on after the group. */
  lemma RazorGroupKeepsQuotes(text: string, q: char, j: nat)
    requires j <= |text|
    requires RazorGroup(text, j, IsRazorNameChar) > 0
    requires RazorContent(text, q, j + RazorGroup(text, j, IsRazorNameChar)).Some?
    ensures RazorContent(text, q, j) == RazorContent(text, q, j + RazorGroup(text, j, IsRazorNameChar))
  {
  }

  /** _razorClassRegex anchored at `p`. */
  function RazorRegionAt(text: string, p: nat): (r: Option<Match>)
    ensures r.Some? ==> r.value.Within(text) && r.value.index == p && r.value.length > 0
    ensures r.Some? ==> KeywordAt(text, p, "lass")
  {
    if KeywordAt(text, p, "lass") then
      var k := if p + 7 <= |text| && text[p + 5..p + 7] == "es" then p + 7 else p + 5;
      var a := SkipWs(text, k);
      if a < |text| && text[a] == '=' then
        var b := SkipWs(text, a + 1);
        if b < |text| && IsQuote(text[b]) then
          match RazorContent(text, text[b], b + 1)
          case Some((ce, e)) => Some(Match(p, e - p, b + 1, ce - (b + 1)))
          case None => None
        else None
      else None
    else None
  }

  // ---------------------------------------------------------------------------
  // Quote pairs (lines 16-17)
  // ---------------------------------------------------------------------------

  /** The content of a normal quote pair: no bare `'`, and every `\` escapes
      exactly one following character other than a newline. */
  predicate EscapedBody(s: string) {
    if s == [] then true
    else if s[0] == '\\' then |s| >= 2 && s[1] != '\n' && EscapedBody(s[2..])
    else s[0] != '\'' && EscapedBody(s[1..])
  }

  /** `(?:[^'\\]|\\.)*'` from `j`: the index of the closing `'`, or -1. */
  function PlainPairClose(w: string, j: nat): (c: int)
    requires j <= |w|
    ensures c == -1 || (j <= c < |w| && w[c] == '\'' && EscapedBody(w[j..c]))
    decreases |w| - j
  {
    if j == |w| then -1
    else if w[j] == '\'' then
      assert w[j..j] == [];
      j
    else if w[j] == '\\' then
      if j + 1 < |w| && w[j + 1] != '\n' then
        var c := PlainPairClose(w, j + 2);
        assert c == -1 || w[j..c][2..] == w[j + 2..c];
        c
      else -1
    else
      var c := PlainPairClose(w, j + 1);
      assert c == -1 || w[j..c][1..] == w[j + 1..c];
      c
  }

  /** The scan accepts exactly the escaped bodies: it stops at the first `'`
      that ends one. */
  lemma {:induction false} PlainPairCloseComplete(w: string, j: nat, c: nat)
    requires j <= c < |w| && w[c] == '\'' && EscapedBody(w[j..c])
    ensures PlainPairClose(w, j) == c
    decreases c - j
  {
    if j < c {
      var b := w[j..c];
      if w[j] == '\\' {
        assert b[2..] == w[j + 2..c];
        PlainPairCloseComplete(w, j + 2, c);
      } else {
        assert b[1..] == w[j + 1..c];
        PlainPairCloseComplete(w, j + 1, c);
      }
    }
  }

  /** _normalQuotePairRegex anchored at `p`. */
  function PlainPairAt(w: string, p: nat): (r: Option<Match>)
    ensures r.Some? ==> r.value.Within(w) && r.value.index == p && r.value.length >= 2
    ensures r.Some? ==> w[p] == '\'' && w[r.value.End() - 1] == '\''
    ensures r.Some? ==> r.value.contentIndex == p + 1 && r.value.ContentEnd() == r.value.End() - 1
    ensures r.Some? ==> EscapedBody(ContentOf(w, r.value))
  {
    if p < |w| && w[p] == '\'' then
      var c := PlainPairClose(w, p + 1);
      if c == -1 then None else Some(Match(p, c + 1 - p, p + 1, c - (p + 1)))
    else None
  }

  /** Inside `w[..i]`, reading leftwards with `depth` closing parentheses
      still to be balanced: whether the text right before position `i` ends in
      `@(` followed by an unfinished group. This is the negative lookbehind of
      _razorQuotePairRegex, which .NET evaluates right to left, so a `)` needs
      a `(` to its right. */
  function InOpenRazorGroup(w: string, i: nat, depth: nat): bool
    requires i <= |w|
    decreases i
  {
    if i == 0 then false
    else if w[i - 1] == '(' then (i >= 2 && w[i - 2] == '@') || InOpenRazorGroup(w, i - 1, depth + 1)
    else if w[i - 1] == ')' then depth > 0 && InOpenRazorGroup(w, i - 1, depth - 1)
    else InOpenRazorGroup(w, i - 1, depth)
  }

  /** `(?:@\(BAL\)|(?:(?!')[^\\]|\\.))*'` from `j`, trying the group before a
      lone `@`: the index of the closing `'`, or -1. */
  function RazorPairClose(w: string, j: nat): (c: int)
    requires j <= |w|
    ensures c == -1 || (j <= c < |w| && w[c] == '\'')
    decreases |w| - j
  {
    if j == |w| then -1
    else
      var g := if j + 1 < |w| && w[j + 1] == '(' then RazorGroup(w, j, _ => false) else 0;
      var single := if w[j] == '\\' then (if j + 1 < |w| && w[j + 1] != '\n' then 2 else 0)
                    else if w[j] == '\'' then 0 else 1;
      var r1 := if g == 0 then -1 else RazorPairClose(w, j + g);
      var r2 := if single == 0 then -1 else RazorPairClose(w, j + single);
      if r1 != -1 then r1
      else if r2 != -1 then r2
      else if w[j] == '\'' then j
      else -1
  }

  /** _razorQuotePairRegex anchored at `p`. */
  function RazorPairAt(w: string, p: nat): (r: Option<Match>)
    ensures r.Some? ==> r.value.Within(w) && r.value.index == p && r.value.length >= 2
    ensures r.Some? ==> w[p] == '\'' && w[r.value.End() - 1] == '\'' && !InOpenRazorGroup(w, p, 0)
    ensures r.Some? ==> r.value.contentIndex == p + 1 && r.value.ContentEnd() == r.value.End() - 1
  {
    if p < |w| && w[p] == '\'' && !InOpenRazorGroup(w, p, 0) then
      var c := RazorPairClose(w, p + 1);
      if c == -1 then None else Some(Match(p, c + 1 - p, p + 1, c - (p + 1)))
    else None
  }

  /** A quote inside a balanced `@(...)` does not close the pair whenever the
      pair can go on after the group. */
  lemma RazorPairGroupKeepsQuotes(w: string, j: nat)
    requires j + 1 < |w| && w[j] == '@' && w[j + 1] == '('
    requires RazorGroup(w, j, _ => false) > 0
    requires RazorPairClose(w, j + RazorGroup(w, j, _ => false)) != -1
    ensures RazorPairClose(w, j) == RazorPairClose(w, j + RazorGroup(w, j, _ => false))
  {
  }

  // ---------------------------------------------------------------------------
  // Leftmost search
  // ---------------------------------------------------------------------------

  /** Which pattern a search uses. */
  datatype Pattern = ClassAttr | ClassNameAttr | RazorClassAttr | PlainPair | RazorPair

  function MatchAt(pat: Pattern, text: string, p: nat): (r: Option<Match>)
    ensures r.Some? ==> r.value.Within(text) && r.value.index == p && r.value.length > 0
    ensures r.Some? && pat in {PlainPair, RazorPair} ==> r.value.length >= 2
  {
    match pat
    case ClassAttr => PlainRegionAt(text, p, "lass")
    case ClassNameAttr => PlainRegionAt(text, p, "lassName")
    case RazorClassAttr => RazorRegionAt(text, p)
    case PlainPair => PlainPairAt(text, p)
    case RazorPair => RazorPairAt(text, p)
  }

  /** Regex.Match(text, from): the match at the smallest position `p >= from`. */
  function FirstFrom(pat: Pattern, text: string, from: nat): (r: Option<Match>)
    ensures r.Some? ==> r.value.Within(text) && from <= r.value.index && r.value.length > 0
    ensures r.Some? && pat in {PlainPair, RazorPair} ==> r.value.length >= 2
    decreases |text| - from
  {
    if from > |text| then None
    else if MatchAt(pat, text, from).Some? then MatchAt(pat, text, from)
    else FirstFrom(pat, text, from + 1)
  }

  /** No match at `from`: the search moves on. */
  lemma FirstFromSkip(pat: Pattern, text: string, from: nat)
    requires from <= |text| && MatchAt(pat, text, from).None?
    ensures FirstFrom(pat, text, from) == FirstFrom(pat, text, from + 1)
  {
  }

  /** The class pattern cannot start on a character other than `c` or `C`. */
  lemma NoClassKeyword(text: string, p: nat)
    requires p < |text| && text[p] != 'c' && text[p] != 'C'
    ensures MatchAt(ClassAttr, text, p) == None
  {
  }

  /** The pattern matches at no position in [lo, hi). */
  predicate NoMatchBetween(pat: Pattern, text: string, lo: nat, hi: nat)
    decreases hi - lo
  {
    lo >= hi || (MatchAt(pat, text, lo).None? && NoMatchBetween(pat, text, lo + 1, hi))
  }

  /** The search finds the leftmost position where the pattern matches. */
  lemma {:induction false} FirstFromIsLeftmost(pat: Pattern, text: string, from: nat)
    ensures FirstFrom(pat, text, from).Some? ==>
      && MatchAt(pat, text, FirstFrom(pat, text, from).value.index) == FirstFrom(pat, text, from)
      && NoMatchBetween(pat, text, from, FirstFrom(pat, text, from).value.index)
    ensures FirstFrom(pat, text, from).None? ==> NoMatchBetween(pat, text, from, |text| + 1)
    decreases |text| - from
  {
    if from <= |text| && MatchAt(pat, text, from).None? {
      FirstFromIsLeftmost(pat, text, from + 1);
    }
  }

  /** Regex.IsMatch(s) */
  predicate IsMatch(pat: Pattern, s: string) {
    FirstFrom(pat, s, 0).Some?
  }

  /** Regex.Match(text, beginning, length): the search sees only
      text[beginning..beginning + length]; positions are reported in `text`. */
  function FirstInWindow(pat: Pattern, text: string, beginning: nat, length: nat): (r: Option<Match>)
    requires beginning + length <= |text|
    ensures r.Some? ==> r.value.Within(text) && beginning <= r.value.index && r.value.End() <= beginning + length
    ensures r.Some? ==> r.value.length > 0
    ensures r.Some? && pat in {PlainPair, RazorPair} ==> r.value.length >= 2
  {
    match FirstFrom(pat, text[beginning..beginning + length], 0)
    case Some(m) => Some(m.Shift(beginning))
    case None => None
  }

  // ---------------------------------------------------------------------------
  // Token splitting (lines 11-12)
  // ---------------------------------------------------------------------------

  predicate IsNonWs(c: char) {
    !IsWhiteSpace(c)
  }

  /** _splitClassRegex `([^\s]+)`, all matches from `from` on: the maximal
      runs of non-whitespace characters, in order. */
  function NonWsRuns(text: string, from: nat): (r: seq<Match>)
    requires from <= |text|
    ensures forall k :: 0 <= k < |r| ==>
      && r[k].Within(text) && from <= r[k].index && r[k].length > 0
      && r[k].contentIndex == r[k].index && r[k].contentLength == r[k].length
      && (forall i :: r[k].index <= i < r[k].End() ==> !IsWhiteSpace(text[i]))
      && (r[k].End() == |text| || IsWhiteSpace(text[r[k].End()]))
      && (r[k].index > from ==> IsWhiteSpace(text[r[k].index - 1]))
    ensures forall k, l :: 0 <= k < l < |r| ==> r[k].End() < r[l].index
    decreases |text| - from
  {
    if from == |text| then []
    else if IsWhiteSpace(text[from]) then NonWsRuns(text, from + 1)
    else
      var e := RunEnd(text, from, IsNonWs);
      [Match(from, e - from, from, e - from)] + NonWsRuns(text, e)
  }

  /** Position `i` lies inside one of the matches. */
  predicate Covered(ms: seq<Match>, i: int) {
    exists k :: 0 <= k < |ms| && ms[k].index <= i < ms[k].End()
  }

  lemma CoveredCons(m: Match, ms: seq<Match>, i: int)
    requires Covered(ms, i) || m.index <= i < m.End()
    ensures Covered([m] + ms, i)
  {
    var all := [m] + ms;
    if m.index <= i < m.End() {
      assert all[0].index <= i < all[0].End();
    } else {
      var k :| 0 <= k < |ms| && ms[k].index <= i < ms[k].End();
      assert all[k + 1] == ms[k];
      assert all[k + 1].index <= i < all[k + 1].End();
    }
  }

  /** Every non-whitespace character from `from` on lies in one of the runs. */
  lemma {:induction false} NonWsRunsCover(text: string, from: nat, i: nat)
    requires from <= i < |text| && !IsWhiteSpace(text[i])
    ensures Covered(NonWsRuns(text, from), i)
    decreases |text| - from
  {
    if IsWhiteSpace(text[from]) {
      assert NonWsRuns(text, from) == NonWsRuns(text, from + 1);
      NonWsRunsCover(text, from + 1, i);
    } else {
      var e := RunEnd(text, from, IsNonWs);
      var m := Match(from, e - from, from, e - from);
      assert NonWsRuns(text, from) == [m] + NonWsRuns(text, e);
      if e <= i {
        NonWsRunsCover(text, e, i);
      }
      CoveredCons(m, NonWsRuns(text, e), i);
    }
  }

  /** SplitNonRazorClasses */
  function SplitNonRazorClasses(text: string): seq<Match> {
    NonWsRuns(text, 0)
  }

  /** Length of one unit of _razorSplitClassRegex at `j`: `@@`, `@("@")`, a
      character that is neither whitespace nor `@`, a balanced `@name(...)`,
      or `@name`; 0 when none matches. */
  function RazorSplitUnit(text: string, j: nat): (n: nat)
    requires j <= |text|
    ensures j + n <= |text|
  {
    if j + 2 <= |text| && text[j..j + 2] == "@@" then 2
    else if j + 6 <= |text| && text[j..j + 6] == "@(\"@\")" then 6
    else if j < |text| && !IsWhiteSpace(text[j]) && text[j] != '@' then 1
    else if RazorGroup(text, j, IsWordOrDot) > 0 then RazorGroup(text, j, IsWordOrDot)
    else if j < |text| && text[j] == '@' && RunEnd(text, j + 1, IsWordOrDot) > j + 1 then RunEnd(text, j + 1, IsWordOrDot) - j
    else 0
  }

  /** The end of the token that starts at `j`: units for as long as one matches. */
  function RazorTokenEnd(text: string, j: nat): (e: nat)
    requires j <= |text|
    ensures j + RazorSplitUnit(text, j) <= e <= |text|
    ensures RazorSplitUnit(text, e) == 0
    decreases |text| - j
  {
    var u := RazorSplitUnit(text, j);
    if u == 0 then j else RazorTokenEnd(text, j + u)
  }

  /** _razorSplitClassRegex, all matches from `from` on. */
  function RazorTokens(text: string, from: nat): (r: seq<Match>)
    requires from <= |text|
    ensures forall k :: 0 <= k < |r| ==>
      && r[k].Within(text) && from <= r[k].index && r[k].length > 0
      && r[k].contentIndex == r[k].index && r[k].contentLength == r[k].length
      && RazorSplitUnit(text, r[k].End()) == 0
    ensures forall k, l :: 0 <= k < l < |r| ==> r[k].End() <= r[l].index
    decreases |text| - from
  {
    if from == |text| then []
    else if RazorSplitUnit(text, from) == 0 then RazorTokens(text, from + 1)
    else
      var e := RazorTokenEnd(text, from);
      [Match(from, e - from, from, e - from)] + RazorTokens(text, e)
  }

  /** SplitRazorClasses */
  function SplitRazorClasses(text: string): seq<Match> {
    RazorTokens(text, 0)
  }

  /** A token that starts with `@@`, `@("@")` or a balanced `@name(...)` group
      keeps that whole unit, whitespace inside the group included. */
  lemma RazorTokenKeepsUnit(text: string, p: nat)
    requires p < |text| && RazorSplitUnit(text, p) > 0
    ensures |RazorTokens(text, p)| > 0
    ensures RazorTokens(text, p)[0].index == p
    ensures RazorTokens(text, p)[0].End() >= p + RazorSplitUnit(text, p)
  {
  }
}
