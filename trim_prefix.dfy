/** string.TrimPrefix of src/Helpers/TrimPrefixHelper.cs. The comparison is
    ordinal, or ordinal ignoring case when `ignoreCase` holds. */
module TrimPrefixHelper {
  import opened Strings

  /** s.StartsWith(prefix, comparison) for the two comparisons modelled. */
  predicate Matches(s: string, prefix: string, ignoreCase: bool) {
    if ignoreCase then StartsWithIgnoreCase(s, prefix) else StartsWith(s, prefix)
  }

  function TrimPrefix(s: string, prefix: string, ignoreCase: bool): (r: string)
    ensures Matches(s, prefix, ignoreCase) ==>
      |prefix| + |r| == |s| && r == s[|prefix|..] && EqualsIgnoreCase(s[..|prefix|], prefix)
    ensures Matches(s, prefix, ignoreCase) && !ignoreCase ==> prefix + r == s
    ensures !Matches(s, prefix, ignoreCase) ==> r == s
  {
    if Matches(s, prefix, ignoreCase) then
      assert ignoreCase ==> Lower(s)[..|prefix|] == Lower(s[..|prefix|]);
      s[|prefix|..]
    else
      s
  }

  /** The result is always a suffix of the input. */
  lemma ResultIsSuffix(s: string, prefix: string, ignoreCase: bool)
    ensures EndsWith(s, TrimPrefix(s, prefix, ignoreCase))
  {
  }

  lemma EmptyPrefix(s: string, ignoreCase: bool)
    ensures TrimPrefix(s, "", ignoreCase) == s
  {
    assert Lower(s)[..0] == Lower("");
  }

  /** Ignoring case removes whatever the exact comparison removes, and the
      same prefix in any case. */
  lemma IgnoreCaseWider(s: string, prefix: string)
    ensures StartsWith(s, prefix) ==> TrimPrefix(s, prefix, true) == TrimPrefix(s, prefix, false)
    ensures TrimPrefix(s, Lower(prefix), true) == TrimPrefix(s, prefix, true)
  {
    IgnoreCaseMeaning(s, prefix);
  }

  /** At most one copy of the prefix is removed: the result is the input, or
      exactly |prefix| characters shorter. */
  lemma RemovesAtMostOnce(s: string, prefix: string, ignoreCase: bool)
    ensures TrimPrefix(s, prefix, ignoreCase) == s || |TrimPrefix(s, prefix, ignoreCase)| == |s| - |prefix|
    ensures StartsWith(s, prefix + prefix) ==>
      TrimPrefix(s, prefix, false) == s[|prefix|..] && StartsWith(TrimPrefix(s, prefix, false), prefix)
  {
    if StartsWith(s, prefix + prefix) {
      assert s[..|prefix|] == (prefix + prefix)[..|prefix|] == prefix;
      assert s[|prefix|..][..|prefix|] == (prefix + prefix)[|prefix|..] == prefix;
    }
  }
}
