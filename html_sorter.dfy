/** GetSegments of src/Sorters/HtmlSorter.cs: one pass over the class matches
    of a document that alternates verbatim copies of the document with the
    sorted content of each class attribute. The comparator (SortSegment of the
    Sorter base class) is a parameter `sort`; the walk is stated for any
    sequence of matches inside the document and then applied to the
    enumerator of module ClassRegexHelper. */
module HtmlSorter {
  import opened Strings
  import opened Wrappers
  import opened ClassRegex
  import opened ClassRegexHelper

  /** Where a processed match is cut around its content: as written, at the
      first occurrence of the content string in the match text; corrected,
      at the content group itself. */
  datatype Cut = FirstOccurrence | ContentGroup

  // ---------------------------------------------------------------------------
  // The tag check (lines 24-30)
  // ---------------------------------------------------------------------------

  /** `i` is inside a tag: the last `<` at or before `i` exists and the last
      `>` at or before `i` does not come after it. */
  predicate InTag(content: string, i: nat)
    requires i < |content|
  {
    var close := LastIndexOfChar(content, '>', i);
    var open := LastIndexOfChar(content, '<', i);
    !(open == -1 || close > open)
  }

  /** The tag check holds exactly when some `<` at or before `i` is followed
      by no `>` up to `i`. */
  lemma InTagMeaning(content: string, i: nat)
    requires i < |content|
    ensures InTag(content, i) <==>
      exists o :: 0 <= o <= i && content[o] == '<' && forall j :: o < j <= i ==> content[j] != '>'
  {
    var close := LastIndexOfChar(content, '>', i);
    var open := LastIndexOfChar(content, '<', i);
    if InTag(content, i) {
      assert forall j :: open < j <= i ==> content[j] != '>';
    }
    if o :| 0 <= o <= i && content[o] == '<' && forall j :: o < j <= i ==> content[j] != '>' {
      assert o <= open;
      if close > open {
        assert content[close] == '>';
      }
    }
  }

  // ---------------------------------------------------------------------------
  // The segments of one processed match (lines 43-48)
  // ---------------------------------------------------------------------------

  /** The offset in the match text where the content is cut out. */
  function CutOf(content: string, m: Match, cut: Cut): (c: nat)
    requires m.Within(content)
    ensures OccursAt(ValueOf(content, m), ContentOf(content, m), c)
    ensures c <= m.contentIndex - m.index
    ensures cut == ContentGroup ==> c == m.contentIndex - m.index
  {
    var total := ValueOf(content, m);
    var classContent := ContentOf(content, m);
    if cut == ContentGroup then m.contentIndex - m.index
    else
      assert OccursAt(total, classContent, m.contentIndex - m.index);
      IndexOf(total, classContent)
  }

  /** The text before the content, the sorted content, the text after it. */
  function MatchSegments(content: string, m: Match, sort: string -> string, cut: Cut): (r: seq<string>)
    requires m.Within(content)
    ensures |r| == 3 && r[1] == sort(ContentOf(content, m))
    ensures r[0] + ContentOf(content, m) + r[2] == ValueOf(content, m)
    ensures cut == ContentGroup ==>
      r[0] == content[m.index..m.contentIndex] && r[2] == content[m.ContentEnd()..m.End()]
  {
    var total := ValueOf(content, m);
    var classContent := ContentOf(content, m);
    var c := CutOf(content, m, cut);
    assert total[c..c + |classContent|] == classContent;
    assert total[..c] + total[c..c + |classContent|] + total[c + |classContent|..] == total;
    [total[..c], sort(classContent), total[c + |classContent|..]]
  }

  // ---------------------------------------------------------------------------
  // The walk (lines 10-51)
  // ---------------------------------------------------------------------------

  /** A match is processed when it starts at or after the end of the last
      processed match (`last`) and inside a tag. */
  predicate Processed(content: string, m: Match, last: nat)
    requires m.Within(content) && m.length > 0
  {
    last <= m.index && InTag(content, m.index)
  }

  /** The segments yielded for the matches `ms` when the last processed match
      ended at `last`. A processed match that reaches the end of the text is
      copied verbatim and ends the walk. */
  function Walk(content: string, ms: seq<Match>, sort: string -> string, cut: Cut, last: nat): seq<string>
    requires AllBetween(ms, content, 0, |content|) && last <= |content|
    decreases |ms|
  {
    if ms == [] then [content[last..]]
    else
      var m := ms[0];
      if !Processed(content, m, last) then Walk(content, ms[1..], sort, cut, last)
      else if m.End() >= |content| then [content[last..m.index], content[m.index..]]
      else [content[last..m.index]] + MatchSegments(content, m, sort, cut) + Walk(content, ms[1..], sort, cut, m.End())
  }

  /** The matches the walk processes, in the order it meets them. */
  function Selected(content: string, ms: seq<Match>, last: nat): seq<Match>
    requires AllBetween(ms, content, 0, |content|) && last <= |content|
    decreases |ms|
  {
    if ms == [] then []
    else
      var m := ms[0];
      if !Processed(content, m, last) then Selected(content, ms[1..], last)
      else if m.End() >= |content| then [m]
      else [m] + Selected(content, ms[1..], m.End())
  }

  /** One step of the walk. */
  lemma WalkStep(content: string, ms: seq<Match>, sort: string -> string, cut: Cut, last: nat)
    requires AllBetween(ms, content, 0, |content|) && last <= |content| && ms != []
    ensures AllBetween(ms[1..], content, 0, |content|)
    ensures var m := ms[0];
      Walk(content, ms, sort, cut, last) ==
        (if !Processed(content, m, last) then Walk(content, ms[1..], sort, cut, last)
         else if m.End() >= |content| then [content[last..m.index], content[m.index..]]
         else [content[last..m.index]] + MatchSegments(content, m, sort, cut) + Walk(content, ms[1..], sort, cut, m.End()))
  {
  }

  /** One step of the selection. */
  lemma SelectedStep(content: string, ms: seq<Match>, last: nat)
    requires AllBetween(ms, content, 0, |content|) && last <= |content| && ms != []
    ensures AllBetween(ms[1..], content, 0, |content|)
    ensures var m := ms[0];
      Selected(content, ms, last) ==
        (if !Processed(content, m, last) then Selected(content, ms[1..], last)
         else if m.End() >= |content| then [m]
         else [m] + Selected(content, ms[1..], m.End()))
  {
  }

  /** Every selected match is one of the given matches and starts inside a tag. */
  lemma {:induction false} SelectedFromTags(content: string, ms: seq<Match>, last: nat)
    requires AllBetween(ms, content, 0, |content|) && last <= |content|
    ensures forall x :: x in Selected(content, ms, last) ==> x in ms && x.Within(content) && InTag(content, x.index)
    decreases |ms|
  {
    if ms != [] {
      var m := ms[0];
      SelectedStep(content, ms, last);
      var next := if Processed(content, m, last) then m.End() else last;
      SelectedFromTags(content, ms[1..], next);
    }
  }

  /** Only the last selected match may reach the end of the text. */
  lemma {:induction false} SelectedCutOffLast(content: string, ms: seq<Match>, last: nat)
    requires AllBetween(ms, content, 0, |content|) && last <= |content|
    ensures var sel := Selected(content, ms, last);
      forall k :: 0 <= k < |sel| - 1 ==> sel[k].End() < |content|
    decreases |ms|
  {
    if ms != [] {
      var m := ms[0];
      SelectedStep(content, ms, last);
      var next := if Processed(content, m, last) then m.End() else last;
      SelectedCutOffLast(content, ms[1..], next);
      var sel := Selected(content, ms, last);
      var rest := Selected(content, ms[1..], next);
      if Processed(content, m, last) && m.End() < |content| {
        forall k | 0 <= k < |sel| - 1
          ensures sel[k].End() < |content|
        {
          if k > 0 {
            assert sel[k] == rest[k - 1];
          }
        }
      }
    }
  }

  /** The selected matches start at or after `last`, come in text order and
      do not overlap. */
  lemma {:induction false} SelectedOrdered(content: string, ms: seq<Match>, last: nat)
    requires AllBetween(ms, content, 0, |content|) && last <= |content|
    ensures AllBetween(Selected(content, ms, last), content, last, |content|)
    ensures Ordered(Selected(content, ms, last))
    decreases |ms|
  {
    if ms != [] {
      var m := ms[0];
      SelectedStep(content, ms, last);
      if !Processed(content, m, last) {
        SelectedOrdered(content, ms[1..], last);
      } else if m.End() >= |content| {
        assert Selected(content, ms, last) == [m];
      } else {
        SelectedOrdered(content, ms[1..], m.End());
        ConsOrdered(m, Selected(content, ms[1..], m.End()), content, last, |content|);
      }
    }
  }

  /** The walk skips a match exactly when it starts before the end of the
      last processed match or outside a tag: matches before the first
      processed one play no part. */
  lemma {:induction false} SelectedSkips(content: string, ms: seq<Match>, last: nat, j: nat)
    requires AllBetween(ms, content, 0, |content|) && last <= |content|
    requires j <= |ms| && forall i :: 0 <= i < j ==> !Processed(content, ms[i], last)
    ensures Selected(content, ms, last) == Selected(content, ms[j..], last)
    decreases j
  {
    if j > 0 {
      SelectedStep(content, ms, last);
      SelectedSkips(content, ms[1..], last, j - 1);
      assert ms[1..][j - 1..] == ms[j..];
    }
  }

  /** A processed match heads the selection. */
  lemma SelectedHead(content: string, ms: seq<Match>, last: nat, j: nat)
    requires AllBetween(ms, content, 0, |content|) && last <= |content|
    requires j < |ms| && forall i :: 0 <= i < j ==> !Processed(content, ms[i], last)
    requires Processed(content, ms[j], last)
    ensures Selected(content, ms, last) != [] && Selected(content, ms, last)[0] == ms[j]
  {
    SelectedSkips(content, ms, last, j);
    SelectedStep(content, ms[j..], last);
  }

  // ---------------------------------------------------------------------------
  // What the walk produces
  // ---------------------------------------------------------------------------

  /** The document from `last` on with the content of each selected match
      replaced by its sorted form; a match that reaches the end of the text
      is left as it is, and so is all text outside the contents. */
  function Substituted(content: string, sel: seq<Match>, sort: string -> string, last: nat): string
    requires AllBetween(sel, content, last, |content|) && Ordered(sel) && last <= |content|
    decreases |sel|
  {
    if sel == [] then content[last..]
    else
      var m := sel[0];
      if m.End() >= |content| then content[last..]
      else
        assert AllBetween(sel[1..], content, m.End(), |content|) by {
          forall k | 0 <= k < |sel[1..]|
            ensures m.End() <= sel[1..][k].index
          {
            assert sel[1..][k] == sel[k + 1];
          }
        }
        content[last..m.contentIndex] + sort(ContentOf(content, m)) + content[m.ContentEnd()..m.End()]
          + Substituted(content, sel[1..], sort, m.End())
  }

  /** The text a processed match contributes, put together, cut at its
      content group. */
  lemma GroupSegments(content: string, last: nat, m: Match, sort: string -> string)
    requires m.Within(content) && last <= m.index
    ensures Concat([content[last..m.index]] + MatchSegments(content, m, sort, ContentGroup))
      == content[last..m.contentIndex] + sort(ContentOf(content, m)) + content[m.ContentEnd()..m.End()]
  {
    var parts := MatchSegments(content, m, sort, ContentGroup);
    ConcatCons(content[last..m.index], parts);
    assert parts == [parts[0], parts[1], parts[2]];
    ConcatThree(parts[0], parts[1], parts[2]);
    assert content[last..m.index] + content[m.index..m.contentIndex] == content[last..m.contentIndex];
  }

  lemma SliceJoin(s: string, i: nat, j: nat)
    requires i <= j <= |s|
    ensures s[i..j] + s[j..] == s[i..]
  {
  }

  /** A processed match that reaches the end of the text and the gap before
      it put together are the rest of the document. */
  lemma CutOffSegments(content: string, last: nat, i: nat)
    requires last <= i <= |content|
    ensures Concat([content[last..i], content[i..]]) == content[last..]
  {
    ConcatTwo(content[last..i], content[i..]);
    assert content[last..i] + content[i..] == content[last..];
  }

  /** Cutting at the content group, the yielded segments put together are
      the document with the content of every selected match sorted in place. */
  lemma {:induction false} WalkSubstitutes(content: string, ms: seq<Match>, sort: string -> string, last: nat)
    requires AllBetween(ms, content, 0, |content|) && last <= |content|
    ensures AllBetween(Selected(content, ms, last), content, last, |content|) && Ordered(Selected(content, ms, last))
    ensures Concat(Walk(content, ms, sort, ContentGroup, last)) == Substituted(content, Selected(content, ms, last), sort, last)
    decreases |ms|
  {
    SelectedOrdered(content, ms, last);
    if ms == [] {
      ConcatCons(content[last..], []);
    } else {
      var m := ms[0];
      WalkStep(content, ms, sort, ContentGroup, last);
      SelectedStep(content, ms, last);
      if !Processed(content, m, last) {
        WalkSubstitutes(content, ms[1..], sort, last);
      } else if m.End() >= |content| {
        CutOffSegments(content, last, m.index);
      } else {
        WalkSubstitutes(content, ms[1..], sort, m.End());
        var here := [content[last..m.index]] + MatchSegments(content, m, sort, ContentGroup);
        ConcatAppend(here, Walk(content, ms[1..], sort, ContentGroup, m.End()));
        GroupSegments(content, last, m, sort);
        var sel := Selected(content, ms, last);
        assert sel[1..] == Selected(content, ms[1..], m.End());
      }
    }
  }

  /** Sorting nothing changes nothing: with the identity as comparator the
      yielded segments put together are the document, whichever cut is used. */
  lemma {:induction false} IdentityReproduces(content: string, ms: seq<Match>, sort: string -> string, cut: Cut, last: nat)
    requires AllBetween(ms, content, 0, |content|) && last <= |content|
    requires forall s :: sort(s) == s
    ensures Concat(Walk(content, ms, sort, cut, last)) == content[last..]
    decreases |ms|
  {
    if ms == [] {
      ConcatCons(content[last..], []);
    } else {
      var m := ms[0];
      WalkStep(content, ms, sort, cut, last);
      if !Processed(content, m, last) {
        IdentityReproduces(content, ms[1..], sort, cut, last);
      } else if m.End() >= |content| {
        CutOffSegments(content, last, m.index);
      } else {
        IdentityReproduces(content, ms[1..], sort, cut, m.End());
        var here := [content[last..m.index]] + MatchSegments(content, m, sort, cut);
        ConcatAppend(here, Walk(content, ms[1..], sort, cut, m.End()));
        UnsortedSegments(content, last, m, sort, cut);
        SliceJoin(content, last, m.End());
      }
    }
  }

  /** A processed match whose content the comparator keeps contributes, with
      the gap before it, exactly the document text, wherever it is cut. */
  lemma UnsortedSegments(content: string, last: nat, m: Match, sort: string -> string, cut: Cut)
    requires m.Within(content) && last <= m.index
    requires sort(ContentOf(content, m)) == ContentOf(content, m)
    ensures Concat([content[last..m.index]] + MatchSegments(content, m, sort, cut)) == content[last..m.End()]
  {
    var parts := MatchSegments(content, m, sort, cut);
    ConcatCons(content[last..m.index], parts);
    assert parts == [parts[0], parts[1], parts[2]];
    ConcatThree(parts[0], parts[1], parts[2]);
    assert content[last..m.index] + content[m.index..m.End()] == content[last..m.End()];
  }

  /** The text before the first selected match is copied verbatim, and with
      nothing selected the whole rest of the document is. */
  lemma {:induction false} FirstGapVerbatim(content: string, ms: seq<Match>, sort: string -> string, cut: Cut, last: nat)
    requires AllBetween(ms, content, 0, |content|) && last <= |content|
    ensures Selected(content, ms, last) == [] ==> Walk(content, ms, sort, cut, last) == [content[last..]]
    ensures Selected(content, ms, last) != [] ==>
      && last <= Selected(content, ms, last)[0].index <= |content|
      && |Walk(content, ms, sort, cut, last)| > 0
      && Walk(content, ms, sort, cut, last)[0] == content[last..Selected(content, ms, last)[0].index]
    decreases |ms|
  {
    if ms != [] {
      WalkStep(content, ms, sort, cut, last);
      SelectedStep(content, ms, last);
      if !Processed(content, ms[0], last) {
        FirstGapVerbatim(content, ms[1..], sort, cut, last);
      }
    }
  }

  /** A processed match that reaches the end of the text is not sorted: the
      walk yields the text before it and then the rest of the document. */
  lemma EndOfTextCutOff(content: string, ms: seq<Match>, sort: string -> string, cut: Cut, last: nat)
    requires AllBetween(ms, content, 0, |content|) && last <= |content| && ms != []
    requires Processed(content, ms[0], last) && ms[0].End() >= |content|
    ensures Walk(content, ms, sort, cut, last) == [content[last..ms[0].index], content[ms[0].index..]]
    ensures Concat(Walk(content, ms, sort, cut, last)) == content[last..]
  {
    WalkStep(content, ms, sort, cut, last);
    CutOffSegments(content, last, ms[0].index);
  }

  /** GetSegments over a given sequence of matches. */
  method GetSegments(content: string, ms: seq<Match>, sort: string -> string, cut: Cut) returns (segs: seq<string>)
    requires AllBetween(ms, content, 0, |content|)
    ensures segs == Walk(content, ms, sort, cut, 0)
  {
    segs := [];
    var lastIndex: nat := 0;
    var i := 0;
    while i < |ms|
      invariant i <= |ms| && lastIndex <= |content|
      invariant AllBetween(ms[i..], content, 0, |content|)
      invariant segs + Walk(content, ms[i..], sort, cut, lastIndex) == Walk(content, ms, sort, cut, 0)
    {
      var m := ms[i];
      WalkStep(content, ms[i..], sort, cut, lastIndex);
      assert ms[i..][0] == m && ms[i..][1..] == ms[i + 1..];
      var indexOfClass := m.index;
      if indexOfClass < lastIndex {
        i := i + 1;
        continue;
      }
      var closeAngleBracket := LastIndexOfChar(content, '>', indexOfClass);
      var openAngleBracket := LastIndexOfChar(content, '<', indexOfClass);
      if openAngleBracket == -1 || closeAngleBracket > openAngleBracket {
        i := i + 1;
        continue;
      }
      var gap := content[lastIndex..indexOfClass];
      if m.End() >= |content| {
        segs := segs + [gap, content[indexOfClass..]];
        return;
      }
      var here := [gap] + MatchSegments(content, m, sort, cut);
      AppendAssoc(segs, here, Walk(content, ms[i + 1..], sort, cut, m.End()));
      segs := segs + here;
      lastIndex := m.End();
      i := i + 1;
    }
    segs := segs + [content[lastIndex..]];
  }

  // ---------------------------------------------------------------------------
  // The sorter over a whole document
  // ---------------------------------------------------------------------------

  /** HtmlSorter.GetSegments as written: the normal enumerator with its
      sliding pair window, each match cut at the first occurrence of its
      content. */
  function SegmentsAsWritten(content: string, sort: string -> string): seq<string> {
    RegexIsSound();
    EnumeratedAsWrittenBetween(Regex, Normal, content, 0);
    Walk(content, EnumeratedAsWritten(Regex, Normal, content, 0), sort, FirstOccurrence, 0)
  }

  /** Corrected: pairs searched for inside their class attribute, each match
      cut at its content group. */
  function Segments(content: string, sort: string -> string): seq<string> {
    RegexIsSound();
    EnumeratedOrdered(Regex, Normal, content, 0);
    Walk(content, Enumerated(Regex, Normal, content, 0), sort, ContentGroup, 0)
  }

  /** The corrected sorter rewrites exactly the contents of the class
      attributes and quote pairs it selects, in tags, and nothing else. */
  lemma SegmentsSubstitute(content: string, sort: string -> string)
    ensures Sound(Regex) && AllBetween(Enumerated(Regex, Normal, content, 0), content, 0, |content|)
      && var sel := Selected(content, Enumerated(Regex, Normal, content, 0), 0);
      AllBetween(sel, content, 0, |content|) && Ordered(sel)
      && Concat(Segments(content, sort)) == Substituted(content, sel, sort, 0)
  {
    RegexIsSound();
    EnumeratedOrdered(Regex, Normal, content, 0);
    WalkSubstitutes(content, Enumerated(Regex, Normal, content, 0), sort, 0);
  }

  /** Both versions leave a document unchanged when sorting changes nothing. */
  lemma SegmentsIdentity(content: string, sort: string -> string)
    requires forall s :: sort(s) == s
    ensures Concat(SegmentsAsWritten(content, sort)) == content
    ensures Concat(Segments(content, sort)) == content
  {
    RegexIsSound();
    EnumeratedAsWrittenBetween(Regex, Normal, content, 0);
    EnumeratedOrdered(Regex, Normal, content, 0);
    IdentityReproduces(content, EnumeratedAsWritten(Regex, Normal, content, 0), sort, FirstOccurrence, 0);
    IdentityReproduces(content, Enumerated(Regex, Normal, content, 0), sort, ContentGroup, 0);
  }

  /** GetSegments as written: the enumerator loop feeding the walk. */
  method GetSegmentsAsWritten(content: string, sort: string -> string) returns (segs: seq<string>)
    ensures segs == SegmentsAsWritten(content, sort)
  {
    RegexIsSound();
    var ms := GetClassesEnumeratorAsWritten(Regex, Normal, content);
    EnumeratedAsWrittenBetween(Regex, Normal, content, 0);
    segs := GetSegments(content, ms, sort, FirstOccurrence);
  }

  /** The corrected GetSegments. */
  method GetSegmentsCorrected(content: string, sort: string -> string) returns (segs: seq<string>)
    ensures segs == Segments(content, sort)
  {
    RegexIsSound();
    var ms := GetClassesEnumerator(Regex, Normal, content);
    EnumeratedOrdered(Regex, Normal, content, 0);
    segs := GetSegments(content, ms, sort, ContentGroup);
  }

  // ---------------------------------------------------------------------------
  // As written, the cut can fall in the attribute name
  // ---------------------------------------------------------------------------

  const Doc := "<a class = \"s =\">"

  /** The class attribute of Doc, `class = "s ="`, whose content is `s =`. */
  const DocAttr := Match(3, 13, 12, 3)

  /** A comparator that puts `=` before `s`. */
  function SortSample(s: string): string {
    if s == "s =" then "= s" else s
  }

  /** What the engine reports on Doc: the one class attribute, no other, and
      no quote pair in its content. */
  predicate DocEngine(find: Finder) {
    && find(ClassAttr, Doc, 0) == Some(DocAttr)
    && find(ClassAttr, Doc, 16) == None
    && find(PlainPair, "s =", 0) == None
  }

  /** Both enumerators yield just the attribute. */
  lemma DocEnumerated(find: Finder)
    requires Sound(find) && DocEngine(find)
    ensures EnumeratedAsWritten(find, Normal, Doc, 0) == [DocAttr]
    ensures Enumerated(find, Normal, Doc, 0) == [DocAttr]
  {
    DocValue();
    EnumeratedAsWrittenUnfold(find, Normal, Doc, 0);
    EnumeratedUnfold(find, Normal, Doc, 0);
  }

  lemma DocValue()
    ensures ValueOf(Doc, DocAttr) == "class = \"s =\""
    ensures ContentOf(Doc, DocAttr) == "s ="
  {
  }

  /** The content `s =` first occurs inside `class = `, four characters into
      the match, while the content group starts nine characters in. */
  lemma DocFirstOccurrence()
    ensures CutOf(Doc, DocAttr, FirstOccurrence) == 4
  {
    DocValue();
    var total := "class = \"s =\"";
    var sub := "s =";
    assert total[4..7] == sub;
    assert IndexOfFrom(total, sub, 4) == 4;
    IndexOfFromSkip(total, sub, 3, 1);
    IndexOfFromSkip(total, sub, 2, 0);
    IndexOfFromSkip(total, sub, 1, 0);
    IndexOfFromSkip(total, sub, 0, 0);
  }

  lemma DocInTag()
    ensures InTag(Doc, 3)
  {
    assert LastIndexOfChar(Doc, '>', 3) == -1;
    assert LastIndexOfChar(Doc, '<', 3) == 0;
  }

  lemma DocSegmentsAsWritten()
    ensures MatchSegments(Doc, DocAttr, SortSample, FirstOccurrence) == ["clas", "= s", " \"s =\""]
  {
    DocValue();
    DocFirstOccurrence();
    var t := "class = \"s =\"";
    assert t[..4] == "clas";
    assert t[7..] == " \"s =\"";
    assert SortSample("s =") == "= s";
  }

  lemma DocSegmentsCorrected()
    ensures MatchSegments(Doc, DocAttr, SortSample, ContentGroup) == ["class = \"", "= s", "\""]
  {
    DocValue();
    var t := "class = \"s =\"";
    assert t[..9] == "class = \"";
    assert t[12..] == "\"";
    assert SortSample("s =") == "= s";
  }

  /** The walk over the attribute: the text before it, its three segments,
      the text after it. */
  lemma DocWalk(cut: Cut)
    ensures Walk(Doc, [DocAttr], SortSample, cut, 0) ==
      ["<a "] + MatchSegments(Doc, DocAttr, SortSample, cut) + [">"]
  {
    DocInTag();
    WalkStep(Doc, [DocAttr], SortSample, cut, 0);
    assert [DocAttr][1..] == [];
    assert Doc[0..3] == "<a ";
    assert Doc[16..] == ">";
  }

  lemma ConcatFive(a: string, b: string, c: string, d: string, e: string)
    ensures Concat([a] + [b, c, d] + [e]) == a + b + c + d + e
  {
    ConcatTwo(d, e);
    assert [c, d, e] == [c] + [d, e];
    ConcatCons(c, [d, e]);
    assert [b, c, d, e] == [b] + [c, d, e];
    ConcatCons(b, [c, d, e]);
    assert [a] + [b, c, d] + [e] == [a] + [b, c, d, e];
    ConcatCons(a, [b, c, d, e]);
  }

  lemma DocWalkAsWritten()
    ensures Walk(Doc, [DocAttr], SortSample, FirstOccurrence, 0) == ["<a "] + ["clas", "= s", " \"s =\""] + [">"]
  {
    DocWalk(FirstOccurrence);
    DocSegmentsAsWritten();
  }

  lemma DocWalkCorrected()
    ensures Walk(Doc, [DocAttr], SortSample, ContentGroup, 0) == ["<a "] + ["class = \"", "= s", "\""] + [">"]
  {
    DocWalk(ContentGroup);
    DocSegmentsCorrected();
  }

  lemma ConcatAsWritten(w: seq<string>)
    requires w == ["<a "] + ["clas", "= s", " \"s =\""] + [">"]
    ensures Concat(w) == "<a clas= s \"s =\">"
  {
    ConcatFive("<a ", "clas", "= s", " \"s =\"", ">");
  }

  lemma ConcatCorrected(w: seq<string>)
    requires w == ["<a "] + ["class = \"", "= s", "\""] + [">"]
    ensures Concat(w) == "<a class = \"= s\">"
  {
    ConcatFive("<a ", "class = \"", "= s", "\"", ">");
  }

  /** Cut at the first occurrence, the sorted content replaces `s =` in the
      attribute name and the real content stays unsorted. */
  lemma CutInAttributeName()
    ensures Concat(Walk(Doc, [DocAttr], SortSample, FirstOccurrence, 0)) == "<a clas= s \"s =\">"
  {
    DocWalkAsWritten();
    ConcatAsWritten(Walk(Doc, [DocAttr], SortSample, FirstOccurrence, 0));
  }

  /** Cut at the content group, the content is sorted in place. */
  lemma CutAtContentGroup()
    ensures Concat(Walk(Doc, [DocAttr], SortSample, ContentGroup, 0)) == "<a class = \"= s\">"
  {
    DocWalkCorrected();
    ConcatCorrected(Walk(Doc, [DocAttr], SortSample, ContentGroup, 0));
  }

  // The scanners of module ClassRegex are such an engine. They are evaluated
  // on any text with the characters of Doc.

  predicate DocText(d: string) {
    && |d| == 17
    && d[0] == '<' && d[1] == 'a' && d[2] == ' ' && d[3] == 'c' && d[4] == 'l' && d[5] == 'a'
    && d[6] == 's' && d[7] == 's' && d[8] == ' ' && d[9] == '=' && d[10] == ' ' && d[11] == '"'
    && d[12] == 's' && d[13] == ' ' && d[14] == '=' && d[15] == '"' && d[16] == '>'
  }

  lemma DocHasItsText()
    ensures DocText(Doc)
  {
  }

  lemma DocAttrContent(d: string)
    requires DocText(d)
    ensures PlainContent(d, '"', 12) == Some((15, 16))
  {
    PlainContentQuote(d, 15);
    PlainContentUnit(d, '"', 14);
    PlainContentUnit(d, '"', 13);
    PlainContentUnit(d, '"', 12);
  }

  lemma DocAttrAt(d: string)
    requires DocText(d)
    ensures PlainRegionAt(d, 3, "lass") == Some(DocAttr)
  {
    DocAttrContent(d);
    SkipWsStep(d, 8);
    SkipWsHere(d, 9);
    SkipWsStep(d, 10);
    SkipWsHere(d, 11);
    SkipWsHere(d, 12);
    assert d[4..8] == "lass";
  }

  lemma DocAttrFound(d: string)
    requires DocText(d)
    ensures FirstFrom(ClassAttr, d, 0) == Some(DocAttr)
  {
    DocAttrAt(d);
    NoClassKeyword(d, 0);
    NoClassKeyword(d, 1);
    NoClassKeyword(d, 2);
    FirstFromSkip(ClassAttr, d, 0);
    FirstFromSkip(ClassAttr, d, 1);
    FirstFromSkip(ClassAttr, d, 2);
  }

  lemma DocNoAttrAfter(d: string)
    requires DocText(d)
    ensures FirstFrom(ClassAttr, d, 16) == None
  {
    NoClassKeyword(d, 16);
    FirstFromSkip(ClassAttr, d, 16);
  }

  lemma DocNoPair()
    ensures FirstFrom(PlainPair, "s =", 0) == None
  {
  }

  lemma RegexOnDoc()
    ensures DocEngine(Regex)
  {
    DocHasItsText();
    DocAttrFound(Doc);
    DocNoAttrAfter(Doc);
    DocNoPair();
  }

  /** The sorter as written, on `<a class = "s =">` with a comparator that
      puts `=` first, writes the sorted content over the attribute name; the
      corrected sorter sorts the content in place. */
  lemma SorterCutsAttributeName()
    ensures Concat(SegmentsAsWritten(Doc, SortSample)) == "<a clas= s \"s =\">"
    ensures Concat(Segments(Doc, SortSample)) == "<a class = \"= s\">"
  {
    RegexIsSound();
    RegexOnDoc();
    DocEnumerated(Regex);
    CutInAttributeName();
    CutAtContentGroup();
  }
}
