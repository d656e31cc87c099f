/** The match collectors of src/Helpers/ClassRegexHelper.cs: GetClassesNormal,
    GetClassesRazor and GetClassesJavaScript (lines 23-104), the three
    `*Enumerator` scans (lines 113-203) and the corrected scan they were meant
    to be. The three variants of each differ only in the patterns they use,
    so each is modelled once over a `Context`. */
module ClassRegexHelper {
  import opened Strings
  import opened Wrappers
  import opened ClassRegex

  /** Which family of patterns a collector uses. */
  datatype Context = Normal | Razor | JavaScript {
    /** The class region pattern: _classRegex, _razorClassRegex or _javaScriptClassRegex. */
    function Region(): Pattern {
      match this
      case Normal => ClassAttr
      case Razor => RazorClassAttr
      case JavaScript => ClassNameAttr
    }

    /** The quote pair pattern: _razorQuotePairRegex for Razor, else _normalQuotePairRegex. */
    function Pair(): Pattern {
      if this == Razor then RazorPair else PlainPair
    }
  }

  /** Regex.Match(input, startat) for each pattern. The collectors take the
      engine as a parameter; `Regex` is the engine the scanners of module
      ClassRegex define. */
  type Finder = (Pattern, string, nat) -> Option<Match>

  predicate IsPairPattern(pat: Pattern) {
    pat == PlainPair || pat == RazorPair
  }

  /** What the collectors rely on: a match found lies in the input at or
      after the start, is not empty, and a quote pair holds both quotes. */
  ghost predicate Sound(find: Finder) {
    forall pat: Pattern, t: string, from: nat :: find(pat, t, from).Some? ==>
      && find(pat, t, from).value.Within(t)
      && from <= find(pat, t, from).value.index
      && find(pat, t, from).value.length > 0
      && (IsPairPattern(pat) ==> find(pat, t, from).value.length >= 2)
  }

  const Regex: Finder := (pat: Pattern, t: string, from: nat) => FirstFrom(pat, t, from)

  lemma RegexIsSound()
    ensures Sound(Regex)
  {
  }

  /** Regex.Match(text, beginning, length): the engine sees only the window. */
  function Window(find: Finder, pat: Pattern, text: string, beginning: nat, length: nat): (r: Option<Match>)
    requires beginning + length <= |text|
    ensures Sound(find) && r.Some? ==>
      && r.value.Within(text) && beginning <= r.value.index && r.value.End() <= beginning + length
      && r.value.length > 0 && (IsPairPattern(pat) ==> r.value.length >= 2)
  {
    match find(pat, text[beginning..beginning + length], 0)
    case Some(m) => Some(m.Shift(beginning))
    case None => None
  }

  /** With the scanners as the engine, the window search is FirstInWindow. */
  lemma RegexWindow(pat: Pattern, text: string, beginning: nat, length: nat)
    requires beginning + length <= |text|
    ensures Window(Regex, pat, text, beginning, length) == FirstInWindow(pat, text, beginning, length)
  {
  }

  /** Regex.IsMatch(s) */
  predicate Found(find: Finder, pat: Pattern, s: string) {
    find(pat, s, 0).Some?
  }

  function Min(a: int, b: int): int {
    if a <= b then a else b
  }

  function Max(a: int, b: int): int {
    if a >= b then a else b
  }

  /** Matches that are in increasing order and do not overlap. */
  predicate Ordered(ms: seq<Match>) {
    forall k, l :: 0 <= k < l < |ms| ==> ms[k].End() <= ms[l].index
  }

  /** All matches are non-empty and lie inside `text`, between `lo` and `hi`. */
  predicate AllBetween(ms: seq<Match>, text: string, lo: int, hi: int) {
    forall k :: 0 <= k < |ms| ==> ms[k].Within(text) && ms[k].length > 0 && lo <= ms[k].index && ms[k].End() <= hi
  }

  /** Two runs, the first ending before `mid` and the second starting there,
      together lie between the outer bounds. */
  lemma AppendBetween(a: seq<Match>, b: seq<Match>, text: string, lo: int, mid: int, hi: int)
    requires lo <= mid <= hi && AllBetween(a, text, lo, mid) && AllBetween(b, text, mid, hi)
    ensures AllBetween(a + b, text, lo, hi)
  {
    var all := a + b;
    forall k | 0 <= k < |all|
      ensures all[k].Within(text) && all[k].length > 0 && lo <= all[k].index && all[k].End() <= hi
    {
      if k < |a| {
        assert all[k] == a[k];
      } else {
        assert all[k] == b[k - |a|];
      }
    }
  }

  /** Two ordered runs separated at `mid` make one ordered run. */
  lemma AppendOrdered(a: seq<Match>, b: seq<Match>, text: string, lo: int, mid: int, hi: int)
    requires AllBetween(a, text, lo, mid) && AllBetween(b, text, mid, hi) && Ordered(a) && Ordered(b)
    ensures Ordered(a + b)
  {
    var all := a + b;
    forall k, l | 0 <= k < l < |all|
      ensures all[k].End() <= all[l].index
    {
      if l < |a| {
        assert all[k] == a[k] && all[l] == a[l];
      } else if k < |a| {
        assert all[k] == a[k] && all[l] == b[l - |a|];
      } else {
        assert all[k] == b[k - |a|] && all[l] == b[l - |a|];
      }
    }
  }

  lemma AppendAssoc<T>(a: seq<T>, b: seq<T>, c: seq<T>)
    ensures (a + b) + c == a + (b + c)
  {
  }

  /** A match followed by a run that starts after it. */
  lemma ConsOrdered(m: Match, rest: seq<Match>, text: string, lo: int, hi: int)
    requires m.Within(text) && m.length > 0 && lo <= m.index && m.End() <= hi
    requires AllBetween(rest, text, m.End(), hi) && Ordered(rest)
    ensures AllBetween([m] + rest, text, lo, hi) && Ordered([m] + rest)
  {
    assert AllBetween([m], text, lo, m.End());
    AppendBetween([m], rest, text, lo, m.End(), hi);
    AppendOrdered([m], rest, text, lo, m.End(), hi);
  }

  /** Regex.Matches(text) from `from` on: each search starts where the
      previous match ended. */
  function AllFrom(find: Finder, pat: Pattern, text: string, from: nat): seq<Match>
    requires Sound(find) && from <= |text|
    decreases |text| - from
  {
    match find(pat, text, from)
    case None => []
    case Some(m) => [m] + AllFrom(find, pat, text, m.End())
  }

  /** The matches of Regex.Matches lie in the text, in order, without overlap. */
  lemma {:induction false} AllFromOrdered(find: Finder, pat: Pattern, text: string, from: nat)
    requires Sound(find) && from <= |text|
    ensures AllBetween(AllFrom(find, pat, text, from), text, from, |text|) && Ordered(AllFrom(find, pat, text, from))
    decreases |text| - from
  {
    var first := find(pat, text, from);
    if first.Some? {
      var m := first.value;
      AllFromOrdered(find, pat, text, m.End());
      ConsOrdered(m, AllFrom(find, pat, text, m.End()), text, from, |text|);
    }
  }

  /** The pairs a `while` loop collects from the window text[from..end],
      each search starting where the previous pair ended. */
  function PairsIn(find: Finder, pat: Pattern, text: string, from: nat, end: nat): seq<Match>
    requires Sound(find) && IsPairPattern(pat) && from <= end <= |text|
    decreases end - from
  {
    match Window(find, pat, text, from, end - from)
    case None => []
    case Some(m) => [m] + PairsIn(find, pat, text, m.End(), end)
  }

  /** The pairs collected from a window lie inside it, in order. */
  lemma {:induction false} PairsInOrdered(find: Finder, pat: Pattern, text: string, from: nat, end: nat)
    requires Sound(find) && IsPairPattern(pat) && from <= end <= |text|
    ensures AllBetween(PairsIn(find, pat, text, from, end), text, from, end) && Ordered(PairsIn(find, pat, text, from, end))
    decreases end - from
  {
    var first := Window(find, pat, text, from, end - from);
    if first.Some? {
      var m := first.value;
      PairsInOrdered(find, pat, text, m.End(), end);
      ConsOrdered(m, PairsIn(find, pat, text, m.End(), end), text, from, end);
    }
  }

  /** One turn of the pair loop: the pair found at `last` is the next one the
      whole scan yields. */
  lemma PairsInStep(find: Finder, pat: Pattern, text: string, from: nat, last: nat, end: nat, pairs: seq<Match>)
    requires Sound(find) && IsPairPattern(pat) && from <= last <= end <= |text|
    requires pairs + PairsIn(find, pat, text, last, end) == PairsIn(find, pat, text, from, end)
    requires Window(find, pat, text, last, end - last).Some?
    ensures var qm := Window(find, pat, text, last, end - last).value;
      last < qm.End() <= end
      && (pairs + [qm]) + PairsIn(find, pat, text, qm.End(), end) == PairsIn(find, pat, text, from, end)
  {
    var qm := Window(find, pat, text, last, end - last).value;
    assert PairsIn(find, pat, text, last, end) == [qm] + PairsIn(find, pat, text, qm.End(), end);
  }

  /** The inner `while` loop of GetClasses*: successive searches in the
      window text[from..end], each starting where the previous pair ended. */
  method CollectPairs(find: Finder, pat: Pattern, text: string, from: nat, end: nat) returns (pairs: seq<Match>)
    requires Sound(find) && IsPairPattern(pat) && from <= end <= |text|
    ensures pairs == PairsIn(find, pat, text, from, end)
  {
    var lastQuoteMatchIndex := from;
    pairs := [];
    var quoteMatch := Window(find, pat, text, lastQuoteMatchIndex, Max(0, end - lastQuoteMatchIndex));
    while quoteMatch.Some?
      invariant from <= lastQuoteMatchIndex <= end
      invariant quoteMatch == Window(find, pat, text, lastQuoteMatchIndex, end - lastQuoteMatchIndex)
      invariant pairs + PairsIn(find, pat, text, lastQuoteMatchIndex, end) == PairsIn(find, pat, text, from, end)
      decreases end - lastQuoteMatchIndex
    {
      var qm := quoteMatch.value;
      PairsInStep(find, pat, text, from, lastQuoteMatchIndex, end, pairs);
      lastQuoteMatchIndex := qm.End();
      pairs := pairs + [qm];
      quoteMatch := Window(find, pat, text, lastQuoteMatchIndex, Max(0, end - lastQuoteMatchIndex));
    }
  }

  /** `Regex.Match(searchText, beginning, length)` throws
      ArgumentOutOfRangeException when the window passes the end of the
      search text: the first pair search of a region whose content holds a
      pair does so exactly when the content ends past `searchText`. */
  predicate Throws(find: Finder, ctx: Context, text: string, searchText: string, m: Match)
    requires m.Within(text)
  {
    Found(find, ctx.Pair(), ContentOf(text, m)) && m.ContentEnd() > |searchText|
  }

  /** What GetClasses* yields for one region match `m` that does not throw:
      the quote pairs of its content when the content holds one, searched
      for in `searchText`, else the region match itself. */
  function RegionResults(find: Finder, ctx: Context, text: string, searchText: string, m: Match): seq<Match>
    requires Sound(find) && m.Within(text) && !Throws(find, ctx, text, searchText, m)
  {
    if Found(find, ctx.Pair(), ContentOf(text, m)) then PairsIn(find, ctx.Pair(), searchText, m.contentIndex, m.ContentEnd())
    else [m]
  }

  /** A region whose content holds a quote pair is replaced by pairs inside
      its content, in order; any other region is yielded whole. */
  lemma RegionResultsShape(find: Finder, ctx: Context, text: string, searchText: string, m: Match)
    requires Sound(find) && m.Within(text) && !Throws(find, ctx, text, searchText, m)
    ensures var r := RegionResults(find, ctx, text, searchText, m);
      && (Found(find, ctx.Pair(), ContentOf(text, m)) ==>
            AllBetween(r, searchText, m.contentIndex, m.ContentEnd()) && Ordered(r))
      && (!Found(find, ctx.Pair(), ContentOf(text, m)) ==> r == [m])
  {
    if Found(find, ctx.Pair(), ContentOf(text, m)) {
      PairsInOrdered(find, ctx.Pair(), searchText, m.contentIndex, m.ContentEnd());
    }
  }

  /** Outside Razor the pairs are searched for in the text itself, so a
      content that holds a pair yields at least one, and the first one is the
      first pair of the content. */
  lemma PairsFoundInContent(find: Finder, ctx: Context, text: string, m: Match)
    requires Sound(find) && !ctx.Razor? && m.Within(text)
    requires Found(find, ctx.Pair(), ContentOf(text, m))
    ensures var r := RegionResults(find, ctx, text, text, m);
      |r| > 0 && r[0] == find(ctx.Pair(), ContentOf(text, m), 0).value.Shift(m.contentIndex)
  {
    assert text[m.contentIndex..m.contentIndex + (m.ContentEnd() - m.contentIndex)] == ContentOf(text, m);
  }

  /** Every region match lies in `text`. */
  predicate InText(regions: seq<Match>, text: string) {
    forall k :: 0 <= k < |regions| ==> regions[k].Within(text)
  }

  /** The region matches of a text lie in it, so searching the text itself
      never throws. */
  lemma RegionsFit(find: Finder, ctx: Context, text: string)
    requires Sound(find)
    ensures InText(AllFrom(find, ctx.Region(), text, 0), text)
    ensures forall m :: m in AllFrom(find, ctx.Region(), text, 0) ==> !Throws(find, ctx, text, text, m)
  {
    AllFromOrdered(find, ctx.Region(), text, 0);
  }

  /** The results for the first `n` region matches, in order, or None where
      one of them throws. */
  function ResultsOf(find: Finder, ctx: Context, text: string, searchText: string, regions: seq<Match>, n: nat): Option<seq<Match>>
    requires Sound(find) && InText(regions, text) && n <= |regions|
  {
    if n == 0 then Some([])
    else
      var r := ResultsOf(find, ctx, text, searchText, regions, n - 1);
      if r.None? || Throws(find, ctx, text, searchText, regions[n - 1]) then None
      else Some(r.value + RegionResults(find, ctx, text, searchText, regions[n - 1]))
  }

  /** The results fail exactly when one of the regions throws. */
  lemma {:induction false} ResultsOfNone(find: Finder, ctx: Context, text: string, searchText: string, regions: seq<Match>, n: nat)
    requires Sound(find) && InText(regions, text) && n <= |regions|
    ensures ResultsOf(find, ctx, text, searchText, regions, n).None? <==>
      exists k :: 0 <= k < n && Throws(find, ctx, text, searchText, regions[k])
  {
    if n > 0 {
      ResultsOfNone(find, ctx, text, searchText, regions, n - 1);
    }
  }

  /** One region that throws makes the whole result fail. */
  lemma ThrowsAt(find: Finder, ctx: Context, text: string, searchText: string, regions: seq<Match>, i: nat)
    requires Sound(find) && InText(regions, text) && i < |regions|
    requires Throws(find, ctx, text, searchText, regions[i])
    ensures ResultsOf(find, ctx, text, searchText, regions, |regions|).None?
  {
    ResultsOfNone(find, ctx, text, searchText, regions, |regions|);
  }

  /** Matches(text).SelectMany(...) of GetClasses*: None where the pair
      search of a Razor region throws. */
  function ClassesOf(find: Finder, ctx: Context, text: string, expandedSearchText: string): Option<seq<Match>>
    requires Sound(find)
  {
    var searchText := if ctx.Razor? then expandedSearchText else text;
    RegionsFit(find, ctx, text);
    ResultsOf(find, ctx, text, searchText, AllFrom(find, ctx.Region(), text, 0), |AllFrom(find, ctx.Region(), text, 0)|)
  }

  /** Only the Razor search, in `expandedSearchText`, can throw, and it does
      exactly when a region whose content holds a pair ends past it. */
  lemma ClassesOfThrows(find: Finder, ctx: Context, text: string, expandedSearchText: string)
    requires Sound(find)
    ensures !ctx.Razor? ==> ClassesOf(find, ctx, text, expandedSearchText).Some?
    ensures ClassesOf(find, ctx, text, expandedSearchText).None? <==>
      ctx.Razor? && (exists m :: m in AllFrom(find, ctx.Region(), text, 0) && m.Within(text)
                                  && Throws(find, ctx, text, expandedSearchText, m))
  {
    var regions := AllFrom(find, ctx.Region(), text, 0);
    var searchText := if ctx.Razor? then expandedSearchText else text;
    RegionsFit(find, ctx, text);
    ResultsOfNone(find, ctx, text, searchText, regions, |regions|);
    if ctx.Razor? && exists m :: m in regions && m.Within(text) && Throws(find, ctx, text, expandedSearchText, m) {
      var m :| m in regions && m.Within(text) && Throws(find, ctx, text, expandedSearchText, m);
      var k :| 0 <= k < |regions| && regions[k] == m;
    }
  }

  /** GetClassesNormal, GetClassesRazor and GetClassesJavaScript; None for
      the ArgumentOutOfRangeException of the Razor pair search. */
  method GetClasses(find: Finder, ctx: Context, text: string, expandedSearchText: string) returns (r: Option<seq<Match>>)
    requires Sound(find)
    ensures r == ClassesOf(find, ctx, text, expandedSearchText)
  {
    var searchText := if ctx.Razor? then expandedSearchText else text;
    var regions := AllFrom(find, ctx.Region(), text, 0);
    RegionsFit(find, ctx, text);
    var ms := [];
    for i := 0 to |regions|
      invariant ResultsOf(find, ctx, text, searchText, regions, i) == Some(ms)
    {
      var m := regions[i];
      if Found(find, ctx.Pair(), ContentOf(text, m)) {
        if m.ContentEnd() > |searchText| {
          ThrowsAt(find, ctx, text, searchText, regions, i);
          return None;
        }
        var pairs := CollectPairs(find, ctx.Pair(), searchText, m.contentIndex, m.ContentEnd());
        ms := ms + pairs;
      } else {
        ms := ms + [m];
      }
    }
    r := Some(ms);
  }

  // ---------------------------------------------------------------------------
  // The *Enumerator scans
  // ---------------------------------------------------------------------------

  /** As written: the pair window starts at the region match and keeps the
      match's length while its start moves past each pair found, so it
      reaches beyond the region. */
  function SlidingPairs(find: Finder, pat: Pattern, text: string, lastQuote: nat, len: nat): seq<Match>
    requires Sound(find) && IsPairPattern(pat) && lastQuote <= |text|
    decreases |text| - lastQuote
  {
    match Window(find, pat, text, lastQuote, Min(|text| - lastQuote, len))
    case None => []
    case Some(q) => [q] + SlidingPairs(find, pat, text, q.End(), len)
  }

  /** The sliding window only ever moves right: its pairs are in order, but
      bounded by the end of the text rather than by the region. */
  lemma {:induction false} SlidingPairsOrdered(find: Finder, pat: Pattern, text: string, lastQuote: nat, len: nat)
    requires Sound(find) && IsPairPattern(pat) && lastQuote <= |text|
    ensures AllBetween(SlidingPairs(find, pat, text, lastQuote, len), text, lastQuote, |text|)
    ensures Ordered(SlidingPairs(find, pat, text, lastQuote, len))
    decreases |text| - lastQuote
  {
    var first := Window(find, pat, text, lastQuote, Min(|text| - lastQuote, len));
    if first.Some? {
      var q := first.value;
      SlidingPairsOrdered(find, pat, text, q.End(), len);
      ConsOrdered(q, SlidingPairs(find, pat, text, q.End(), len), text, lastQuote, |text|);
    }
  }

  /** One turn of the sliding pair loop. */
  lemma SlidingPairsStep(find: Finder, pat: Pattern, text: string, start: nat, last: nat, len: nat, pairs: seq<Match>)
    requires Sound(find) && IsPairPattern(pat) && start <= last <= |text|
    requires pairs + SlidingPairs(find, pat, text, last, len) == SlidingPairs(find, pat, text, start, len)
    requires Window(find, pat, text, last, Min(|text| - last, len)).Some?
    ensures var qm := Window(find, pat, text, last, Min(|text| - last, len)).value;
      last < qm.End() <= |text|
      && (pairs + [qm]) + SlidingPairs(find, pat, text, qm.End(), len) == SlidingPairs(find, pat, text, start, len)
  {
    var qm := Window(find, pat, text, last, Min(|text| - last, len)).value;
    assert SlidingPairs(find, pat, text, last, len) == [qm] + SlidingPairs(find, pat, text, qm.End(), len);
  }

  /** The inner `while` loop of the enumerators as written. */
  method CollectSlidingPairs(find: Finder, pat: Pattern, text: string, start: nat, len: nat) returns (pairs: seq<Match>)
    requires Sound(find) && IsPairPattern(pat) && start <= |text|
    ensures pairs == SlidingPairs(find, pat, text, start, len)
  {
    var lastQuoteMatchIndex := start;
    pairs := [];
    var quoteMatch := Window(find, pat, text, lastQuoteMatchIndex, Min(|text| - lastQuoteMatchIndex, len));
    while quoteMatch.Some?
      invariant lastQuoteMatchIndex <= |text|
      invariant quoteMatch == Window(find, pat, text, lastQuoteMatchIndex, Min(|text| - lastQuoteMatchIndex, len))
      invariant pairs + SlidingPairs(find, pat, text, lastQuoteMatchIndex, len) == SlidingPairs(find, pat, text, start, len)
      decreases |text| - lastQuoteMatchIndex
    {
      var qm := quoteMatch.value;
      SlidingPairsStep(find, pat, text, start, lastQuoteMatchIndex, len, pairs);
      lastQuoteMatchIndex := qm.End();
      pairs := pairs + [qm];
      quoteMatch := Window(find, pat, text, lastQuoteMatchIndex, Min(|text| - lastQuoteMatchIndex, len));
    }
  }

  /** What the enumerators, as written, yield for one region match. */
  function SlidingYield(find: Finder, ctx: Context, text: string, m: Match): seq<Match>
    requires Sound(find) && m.Within(text)
  {
    if Found(find, ctx.Pair(), ContentOf(text, m)) then SlidingPairs(find, ctx.Pair(), text, m.index, m.length) else [m]
  }

  /** What the enumerators, as written, yield from the region search at `from` on. */
  function EnumeratedAsWritten(find: Finder, ctx: Context, text: string, from: nat): seq<Match>
    requires Sound(find) && from <= |text|
    decreases |text| - from
  {
    match find(ctx.Region(), text, from)
    case None => []
    case Some(m) => SlidingYield(find, ctx, text, m) + EnumeratedAsWritten(find, ctx, text, m.End())
  }

  /** Corrected: what the enumerators yield for one region match, with its
      pairs searched for inside the match only. */
  function RegionYield(find: Finder, ctx: Context, text: string, m: Match): seq<Match>
    requires Sound(find) && m.Within(text)
  {
    if Found(find, ctx.Pair(), ContentOf(text, m)) then PairsIn(find, ctx.Pair(), text, m.index, m.End()) else [m]
  }

  /** Corrected: the enumerator scan with each region's pairs kept inside it. */
  function Enumerated(find: Finder, ctx: Context, text: string, from: nat): seq<Match>
    requires Sound(find) && from <= |text|
    decreases |text| - from
  {
    match find(ctx.Region(), text, from)
    case None => []
    case Some(m) => RegionYield(find, ctx, text, m) + Enumerated(find, ctx, text, m.End())
  }

  /** Everything the corrected scan yields is in text order, without overlap. */
  lemma {:induction false} EnumeratedOrdered(find: Finder, ctx: Context, text: string, from: nat)
    requires Sound(find) && from <= |text|
    ensures AllBetween(Enumerated(find, ctx, text, from), text, from, |text|)
    ensures Ordered(Enumerated(find, ctx, text, from))
    decreases |text| - from
  {
    var first := find(ctx.Region(), text, from);
    if first.Some? {
      var m := first.value;
      var here := RegionYield(find, ctx, text, m);
      var rest := Enumerated(find, ctx, text, m.End());
      EnumeratedOrdered(find, ctx, text, m.End());
      if Found(find, ctx.Pair(), ContentOf(text, m)) {
        PairsInOrdered(find, ctx.Pair(), text, m.index, m.End());
      }
      assert AllBetween(here, text, from, m.End()) && Ordered(here);
      AppendBetween(here, rest, text, from, m.End(), |text|);
      AppendOrdered(here, rest, text, from, m.End(), |text|);
    }
  }

  /** Two runs inside the same bounds make one run inside them. */
  lemma ConcatBetween(a: seq<Match>, b: seq<Match>, text: string, lo: int, hi: int)
    requires AllBetween(a, text, lo, hi) && AllBetween(b, text, lo, hi)
    ensures AllBetween(a + b, text, lo, hi)
  {
    var all := a + b;
    forall k | 0 <= k < |all|
      ensures all[k].Within(text) && all[k].length > 0 && lo <= all[k].index && all[k].End() <= hi
    {
      if k < |a| {
        assert all[k] == a[k];
      } else {
        assert all[k] == b[k - |a|];
      }
    }
  }

  /** As written, the enumerators still yield matches inside the text, though
      not necessarily in order. */
  lemma {:induction false} EnumeratedAsWrittenBetween(find: Finder, ctx: Context, text: string, from: nat)
    requires Sound(find) && from <= |text|
    ensures AllBetween(EnumeratedAsWritten(find, ctx, text, from), text, from, |text|)
    decreases |text| - from
  {
    var first := find(ctx.Region(), text, from);
    if first.Some? {
      var m := first.value;
      var here := SlidingYield(find, ctx, text, m);
      var rest := EnumeratedAsWritten(find, ctx, text, m.End());
      EnumeratedAsWrittenBetween(find, ctx, text, m.End());
      if Found(find, ctx.Pair(), ContentOf(text, m)) {
        SlidingPairsOrdered(find, ctx.Pair(), text, m.index, m.length);
      }
      assert AllBetween(here, text, from, |text|);
      assert AllBetween(rest, text, from, |text|);
      ConcatBetween(here, rest, text, from, |text|);
    }
  }

  /** `x` lies inside one of the region matches. */
  predicate InsideSome(regions: seq<Match>, x: Match) {
    exists m :: m in regions && m.index <= x.index && x.End() <= m.End()
  }

  /** Every match the corrected scan yields lies inside a class region match. */
  lemma {:induction false} EnumeratedInsideRegions(find: Finder, ctx: Context, text: string, from: nat, k: nat)
    requires Sound(find) && from <= |text| && k < |Enumerated(find, ctx, text, from)|
    ensures InsideSome(AllFrom(find, ctx.Region(), text, from), Enumerated(find, ctx, text, from)[k])
    decreases |text| - from
  {
    var m := find(ctx.Region(), text, from).value;
    EnumeratedUnfold(find, ctx, text, from);
    var here := RegionYield(find, ctx, text, m);
    var rest := Enumerated(find, ctx, text, m.End());
    var regions := AllFrom(find, ctx.Region(), text, from);
    var later := AllFrom(find, ctx.Region(), text, m.End());
    assert regions == [m] + later;
    var x := Enumerated(find, ctx, text, from)[k];
    if k < |here| {
      if Found(find, ctx.Pair(), ContentOf(text, m)) {
        PairsInOrdered(find, ctx.Pair(), text, m.index, m.End());
      }
      assert x == here[k];
      assert m in regions && m.index <= x.index && x.End() <= m.End();
    } else {
      EnumeratedInsideRegions(find, ctx, text, m.End(), k - |here|);
      assert x == rest[k - |here|];
      var m' :| m' in later && m'.index <= x.index && x.End() <= m'.End();
      assert m' in regions;
    }
  }

  /** The enumerator loop as written takes one region match at a time. */
  lemma EnumeratedAsWrittenUnfold(find: Finder, ctx: Context, text: string, last: nat)
    requires Sound(find) && last <= |text| && find(ctx.Region(), text, last).Some?
    ensures var m := find(ctx.Region(), text, last).value;
      last < m.End() <= |text|
      && EnumeratedAsWritten(find, ctx, text, last) == SlidingYield(find, ctx, text, m) + EnumeratedAsWritten(find, ctx, text, m.End())
  {
  }

  /** The corrected loop takes one region match at a time. */
  lemma EnumeratedUnfold(find: Finder, ctx: Context, text: string, last: nat)
    requires Sound(find) && last <= |text| && find(ctx.Region(), text, last).Some?
    ensures var m := find(ctx.Region(), text, last).value;
      last < m.End() <= |text|
      && Enumerated(find, ctx, text, last) == RegionYield(find, ctx, text, m) + Enumerated(find, ctx, text, m.End())
  {
  }

  /** GetClassesNormalEnumerator, GetClassesRazorEnumerator and
      GetClassesJavaScriptEnumerator as written. */
  method GetClassesEnumeratorAsWritten(find: Finder, ctx: Context, text: string) returns (ms: seq<Match>)
    requires Sound(find)
    ensures ms == EnumeratedAsWritten(find, ctx, text, 0)
  {
    ms := [];
    var lastMatchIndex := 0;
    var match_ := find(ctx.Region(), text, lastMatchIndex);
    while match_.Some?
      invariant lastMatchIndex <= |text|
      invariant match_ == find(ctx.Region(), text, lastMatchIndex)
      invariant ms + EnumeratedAsWritten(find, ctx, text, lastMatchIndex) == EnumeratedAsWritten(find, ctx, text, 0)
      decreases |text| - lastMatchIndex
    {
      var m := match_.value;
      EnumeratedAsWrittenUnfold(find, ctx, text, lastMatchIndex);
      var here;
      if Found(find, ctx.Pair(), ContentOf(text, m)) {
        here := CollectSlidingPairs(find, ctx.Pair(), text, m.index, m.length);
      } else {
        here := [m];
      }
      assert here == SlidingYield(find, ctx, text, m);
      AppendAssoc(ms, here, EnumeratedAsWritten(find, ctx, text, m.End()));
      lastMatchIndex := m.End();
      ms := ms + here;
      match_ := find(ctx.Region(), text, lastMatchIndex);
    }
  }

  /** The enumerator scan with each region's pairs kept inside the region. */
  method GetClassesEnumerator(find: Finder, ctx: Context, text: string) returns (ms: seq<Match>)
    requires Sound(find)
    ensures ms == Enumerated(find, ctx, text, 0)
  {
    ms := [];
    var lastMatchIndex := 0;
    var match_ := find(ctx.Region(), text, lastMatchIndex);
    while match_.Some?
      invariant lastMatchIndex <= |text|
      invariant match_ == find(ctx.Region(), text, lastMatchIndex)
      invariant ms + Enumerated(find, ctx, text, lastMatchIndex) == Enumerated(find, ctx, text, 0)
      decreases |text| - lastMatchIndex
    {
      var m := match_.value;
      EnumeratedUnfold(find, ctx, text, lastMatchIndex);
      var here;
      if Found(find, ctx.Pair(), ContentOf(text, m)) {
        here := CollectPairs(find, ctx.Pair(), text, m.index, m.End());
      } else {
        here := [m];
      }
      assert here == RegionYield(find, ctx, text, m);
      AppendAssoc(ms, here, Enumerated(find, ctx, text, m.End()));
      lastMatchIndex := m.End();
      ms := ms + here;
      match_ := find(ctx.Region(), text, lastMatchIndex);
    }
  }

  // ---------------------------------------------------------------------------
  // The sliding window leaves the region: `class="'a'"'b'`
  // ---------------------------------------------------------------------------

  const Sample := "class=\"'a'\"'b'"

  /** What the engine reports on the sample: one class attribute
      `class="'a'"` (content `'a'`), the pair `'a'` in the attribute, the pair
      `'b'` after it. */
  predicate SampleEngine(find: Finder) {
    && find(ClassAttr, Sample, 0) == Some(Match(0, 11, 7, 3))
    && find(ClassAttr, Sample, 11) == None
    && find(PlainPair, "'a'", 0).Some?
    && find(PlainPair, Sample[0..11], 0) == Some(Match(7, 3, 8, 1))
    && find(PlainPair, Sample[10..14], 0) == Some(Match(1, 3, 2, 1))
    && find(PlainPair, Sample[10..11], 0) == None
    && find(PlainPair, Sample[14..14], 0) == None
  }

  /** As written, the enumerator yields the pair `'b'` (index 11, end 14),
      which lies after the only class attribute (end 11); the corrected scan
      yields only `'a'`. */
  lemma SlidingWindowLeavesRegion(find: Finder)
    requires Sound(find) && SampleEngine(find)
    ensures AllFrom(find, ClassAttr, Sample, 0) == [Match(0, 11, 7, 3)]
    ensures EnumeratedAsWritten(find, Normal, Sample, 0) == [Match(7, 3, 8, 1), Match(11, 3, 12, 1)]
    ensures Enumerated(find, Normal, Sample, 0) == [Match(7, 3, 8, 1)]
  {
    var region := Match(0, 11, 7, 3);
    assert ContentOf(Sample, region) == "'a'";
    assert Window(find, PlainPair, Sample, 0, 11) == Some(Match(7, 3, 8, 1));
    assert Window(find, PlainPair, Sample, 10, 4) == Some(Match(11, 3, 12, 1));
    assert Window(find, PlainPair, Sample, 14, 0) == None;
    assert Window(find, PlainPair, Sample, 10, 1) == None;
    assert SlidingPairs(find, PlainPair, Sample, 10, 11) == [Match(11, 3, 12, 1)];
    assert SlidingYield(find, Normal, Sample, region) == [Match(7, 3, 8, 1), Match(11, 3, 12, 1)];
    assert RegionYield(find, Normal, Sample, region) == [Match(7, 3, 8, 1)];
    EnumeratedAsWrittenUnfold(find, Normal, Sample, 0);
    EnumeratedUnfold(find, Normal, Sample, 0);
  }

  // The scanners of module ClassRegex are such an engine.

  lemma SampleContentEnd()
    ensures PlainContent(Sample, '"', 9) == Some((10, 11))
  {
    assert Sample[9] == '\'' && Sample[10] == '"';
    assert PlainContent(Sample, '"', 10) == Some((10, 11));
  }

  lemma SampleContent()
    ensures PlainContent(Sample, '"', 7) == Some((10, 11))
  {
    SampleContentEnd();
    assert Sample[7] == '\'' && Sample[8] == 'a';
    assert PlainContent(Sample, '"', 8) == Some((10, 11));
  }

  lemma SampleOpening()
    ensures KeywordAt(Sample, 0, "lass") && Sample[5] == '=' && Sample[6] == '"'
    ensures SkipWs(Sample, 5) == 5 && SkipWs(Sample, 6) == 6 && SkipWs(Sample, 7) == 7
  {
  }

  lemma SampleRegion()
    ensures FirstFrom(ClassAttr, Sample, 0) == Some(Match(0, 11, 7, 3))
  {
    SampleContent();
    assert PlainLead(Sample, '"', 7, 7) == Some((7, 10, 11));
    SampleOpening();
    assert PlainRegionAt(Sample, 0, "lass") == Some(Match(0, 11, 7, 3));
  }

  lemma SampleNoRegionAfter()
    ensures FirstFrom(ClassAttr, Sample, 11) == None
  {
  }

  lemma SampleFirstPair()
    ensures FirstFrom(PlainPair, Sample[0..11], 0) == Some(Match(7, 3, 8, 1))
  {
    var w := "class=\"'a'\"";
    assert Sample[0..11] == w;
    assert FirstFrom(PlainPair, w, 7) == Some(Match(7, 3, 8, 1));
    assert FirstFrom(PlainPair, w, 5) == Some(Match(7, 3, 8, 1));
    assert FirstFrom(PlainPair, w, 3) == Some(Match(7, 3, 8, 1));
    assert FirstFrom(PlainPair, w, 1) == Some(Match(7, 3, 8, 1));
  }

  lemma SampleSecondPair()
    ensures FirstFrom(PlainPair, Sample[10..14], 0) == Some(Match(1, 3, 2, 1))
  {
    var w := "\"'b'";
    assert Sample[10..14] == w;
    assert FirstFrom(PlainPair, w, 1) == Some(Match(1, 3, 2, 1));
  }

  lemma SampleNoPair()
    ensures FirstFrom(PlainPair, Sample[10..11], 0) == None
    ensures FirstFrom(PlainPair, Sample[14..14], 0) == None
  {
    assert Sample[10..11] == "\"";
    assert Sample[14..14] == "";
  }

  lemma SampleContentPair()
    ensures FirstFrom(PlainPair, "'a'", 0).Some?
  {
  }

  /** The scanners report on the sample what .NET's engine reports. */
  lemma RegexOnSample()
    ensures SampleEngine(Regex)
  {
    SampleRegion();
    SampleNoRegionAfter();
    SampleContentPair();
    SampleFirstPair();
    SampleSecondPair();
    SampleNoPair();
  }

  /** With the scanners as the engine, the enumerator as written leaves the region. */
  lemma EnumeratorLeavesRegion()
    ensures AllFrom(Regex, ClassAttr, Sample, 0) == [Match(0, 11, 7, 3)]
    ensures EnumeratedAsWritten(Regex, Normal, Sample, 0) == [Match(7, 3, 8, 1), Match(11, 3, 12, 1)]
    ensures Enumerated(Regex, Normal, Sample, 0) == [Match(7, 3, 8, 1)]
  {
    RegexIsSound();
    RegexOnSample();
    SlidingWindowLeavesRegion(Regex);
  }
}
