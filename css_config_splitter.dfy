/** CssConfigSplitter.Split (src/Helpers/CssConfigSplitter.cs): a CSS value is
    cut at every `;` that is not escaped by a backslash and is followed by an
    even number of quote characters (so lies outside any quoted string); the
    pieces are trimmed and blank ones dropped. */
module CssConfigSplitter {
  import opened Strings

  predicate IsQuote(c: char) {
    c == '"' || c == '\''
  }

  function CountQuotes(s: string): nat {
    if s == [] then 0 else (if IsQuote(s[0]) then 1 else 0) + CountQuotes(s[1..])
  }

  /** The splitter pattern matches the `;` at `i`: no `\` right before it and an
      even number of `'`/`"` characters from there to the end of the text. */
  predicate IsSplitPoint(css: string, i: int) {
    0 <= i < |css| && css[i] == ';'
    && (i == 0 || css[i - 1] != '\\')
    && CountQuotes(css[i + 1..]) % 2 == 0
  }

  /** Regex.Split as a left-to-right scan: `start` is where the current piece
      began and `i` the next position to test. */
  function SplitFrom(css: string, start: nat, i: nat): seq<string>
    requires start <= i <= |css|
    decreases |css| - i
  {
    if i == |css| then [css[start..]]
    else if IsSplitPoint(css, i) then [css[start..i]] + SplitFrom(css, i + 1, i + 1)
    else SplitFrom(css, start, i + 1)
  }

  function RawSplit(css: string): seq<string> {
    SplitFrom(css, 0, 0)
  }

  /** Reference reading: the split points from `i` on, in increasing order. */
  function CutsFrom(css: string, i: nat): (cuts: seq<int>)
    ensures forall k :: 0 <= k < |cuts| ==> i <= cuts[k] < |css| && IsSplitPoint(css, cuts[k])
    ensures forall k, l :: 0 <= k < l < |cuts| ==> cuts[k] < cuts[l]
    ensures forall j :: i <= j && IsSplitPoint(css, j) ==> j in cuts
    decreases |css| - i
  {
    if i >= |css| then []
    else (if IsSplitPoint(css, i) then [i] else []) + CutsFrom(css, i + 1)
  }

  /** Reference reading: the text between consecutive cuts. */
  function Between(css: string, start: nat, cuts: seq<int>): seq<string>
    requires start <= |css|
    requires forall k :: 0 <= k < |cuts| ==> start <= cuts[k] < |css|
    requires forall k, l :: 0 <= k < l < |cuts| ==> cuts[k] < cuts[l]
    decreases |cuts|
  {
    if cuts == [] then [css[start..]]
    else [css[start..cuts[0]]] + Between(css, cuts[0] + 1, cuts[1..])
  }

  /** The scan yields exactly the pieces between consecutive split points. */
  lemma {:induction false} SplitFromIsBetween(css: string, start: nat, i: nat)
    requires start <= i <= |css|
    ensures SplitFrom(css, start, i) == Between(css, start, CutsFrom(css, i))
    decreases |css| - i
  {
    if i < |css| {
      var rest := CutsFrom(css, i + 1);
      if IsSplitPoint(css, i) {
        SplitFromIsBetween(css, i + 1, i + 1);
        assert CutsFrom(css, i) == [i] + rest;
        calc {
          SplitFrom(css, start, i);
          [css[start..i]] + SplitFrom(css, i + 1, i + 1);
          [css[start..i]] + Between(css, i + 1, rest);
          { assert ([i] + rest)[1..] == rest; }
          Between(css, start, [i] + rest);
        }
      } else {
        SplitFromIsBetween(css, start, i + 1);
        assert CutsFrom(css, i) == rest;
      }
    }
  }

  lemma RawSplitIsBetween(css: string)
    ensures RawSplit(css) == Between(css, 0, CutsFrom(css, 0))
    ensures |RawSplit(css)| == |CutsFrom(css, 0)| + 1
  {
    SplitFromIsBetween(css, 0, 0);
    BetweenLength(css, 0, CutsFrom(css, 0));
  }

  lemma {:induction false} BetweenLength(css: string, start: nat, cuts: seq<int>)
    requires start <= |css|
    requires forall k :: 0 <= k < |cuts| ==> start <= cuts[k] < |css|
    requires forall k, l :: 0 <= k < l < |cuts| ==> cuts[k] < cuts[l]
    ensures |Between(css, start, cuts)| == |cuts| + 1
    decreases |cuts|
  {
    if cuts != [] {
      BetweenLength(css, cuts[0] + 1, cuts[1..]);
    }
  }

  /** Joining the raw pieces with `;` gives back the text: nothing is lost and
      the pieces keep their order. */
  lemma {:induction false} BetweenJoin(css: string, start: nat, cuts: seq<int>)
    requires start <= |css|
    requires forall k :: 0 <= k < |cuts| ==> start <= cuts[k] < |css| && css[cuts[k]] == ';'
    requires forall k, l :: 0 <= k < l < |cuts| ==> cuts[k] < cuts[l]
    ensures Join(Between(css, start, cuts), ";") == css[start..]
    decreases |cuts|
  {
    if cuts != [] {
      var c := cuts[0];
      var rest := Between(css, c + 1, cuts[1..]);
      BetweenJoin(css, c + 1, cuts[1..]);
      BetweenLength(css, c + 1, cuts[1..]);
      calc {
        Join(Between(css, start, cuts), ";");
        { assert Between(css, start, cuts) == [css[start..c]] + rest; }
        css[start..c] + ";" + Join(rest, ";");
        { assert css[c] == ';'; }
        css[start..c] + [css[c]] + css[c + 1..];
        css[start..];
      }
    }
  }

  lemma RawSplitJoin(css: string)
    ensures Join(RawSplit(css), ";") == css
  {
    RawSplitIsBetween(css);
    BetweenJoin(css, 0, CutsFrom(css, 0));
  }

  /** A `;` right after a backslash is never a cut. */
  lemma EscapedSemicolonNeverSplits(css: string, i: int)
    requires 0 < i < |css| && css[i] == ';' && css[i - 1] == '\\'
    ensures i !in CutsFrom(css, 0)
  {
  }

  /** Without a split point the text comes back as one raw piece. */
  lemma NoSplitPointSinglePiece(css: string)
    requires forall i :: !IsSplitPoint(css, i)
    ensures RawSplit(css) == [css]
  {
    RawSplitIsBetween(css);
    assert CutsFrom(css, 0) == [];
  }

  /** A piece that is not empty and has no whitespace at either end. */
  predicate Trimmed(p: string) {
    p != [] && !IsWhiteSpace(p[0]) && !IsWhiteSpace(p[|p| - 1])
  }

  /** `.Select(s => s.Trim()).Where(s => !string.IsNullOrWhiteSpace(s))` */
  function TrimNonBlank(pieces: seq<string>): (r: seq<string>)
    ensures |r| <= |pieces|
  {
    if pieces == [] then []
    else
      var t := Trim(pieces[0]);
      (if IsBlank(t) then [] else [t]) + TrimNonBlank(pieces[1..])
  }

  /** Every piece kept is trimmed and not empty. */
  lemma {:induction false} TrimNonBlankTrimmed(pieces: seq<string>)
    ensures forall k :: 0 <= k < |TrimNonBlank(pieces)| ==> Trimmed(TrimNonBlank(pieces)[k])
  {
    if pieces != [] {
      var t := Trim(pieces[0]);
      var head := if IsBlank(t) then [] else [t];
      var tail := TrimNonBlank(pieces[1..]);
      TrimNonBlankTrimmed(pieces[1..]);
      assert TrimNonBlank(pieces) == head + tail;
      forall k | 0 <= k < |head + tail|
        ensures Trimmed((head + tail)[k])
      {
        if k < |head| {
          assert (head + tail)[k] == t;
        } else {
          assert (head + tail)[k] == tail[k - |head|];
        }
      }
    }
  }

  /** CssConfigSplitter.Split */
  function Split(css: string): (r: seq<string>)
    ensures forall k :: 0 <= k < |r| ==> Trimmed(r[k])
  {
    TrimNonBlankTrimmed(RawSplit(css));
    TrimNonBlank(RawSplit(css))
  }

  /** Text with no split point yields its trimmed self, or nothing when blank. */
  lemma NoSplitPointResult(css: string)
    requires forall i :: !IsSplitPoint(css, i)
    ensures IsBlank(css) ==> Split(css) == []
    ensures !IsBlank(css) ==> Split(css) == [Trim(css)]
  {
    NoSplitPointSinglePiece(css);
    TrimBlank(css);
    assert IsBlank(Trim(css)) <==> Trim(css) == [];
    assert TrimNonBlank([css]) == (if IsBlank(Trim(css)) then [] else [Trim(css)]) + TrimNonBlank([]);
  }
}
