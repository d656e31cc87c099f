# twsort core, modelled in Dafny

twsort rewrites the Tailwind CSS class lists found in markup into a canonical
order and leaves every other character of a file as it was. This project
models the logic that decides what gets sorted and the tables it is sorted
against:

- **Extraction and reassembly.** The class-bearing regions of a document are
  `class="…"`, `className="…"` and Razor `class(es)="…"` attributes, plus the
  single-quoted pairs inside them. Each regular expression is written as a
  total scanner, with an integer depth counter for the balancing groups.
  `GetSegments` walks the document once and alternates verbatim copies with
  sorted class contents. The comparator (`SortSegment`) is a parameter.
- **Per-token helpers and ordering tables.** These cover the `!important`
  marker, prefix trimming, the V3 blocklist check, and the per-version class
  and variant rank tables with their cache.
- **Configuration to completion tables.** This covers:
  - the character scanner over a Tailwind CSS v4 stylesheet, and the split of
    its `@theme` text into variable/value pairs;
  - the mapping of a CSS variable to its namespace and class stem;
  - the quote-aware `;` splitter;
  - the flattening of nested colour tables, and core-plugin filtering;
  - the override/extend loaders, the plugin and `@utility` loader, and the
    `--spacing(…)` rewrite;
  - the expansion of the resource class definitions into the unset project of
    each version;
  - the manager that caches those projects, copies them per configuration
    file, and finds the configuration a file belongs to.

Operations that loop or update objects are methods with loop invariants. Each
is proved against a function that specifies it, and the lemmas state the
properties of that function. Objects whose fields the source updates are
classes: `ProjectCompletionValues`, `ProjectConfigurationManager` and the
ordering cache. Where the source throws, the model returns `None` or an error
`Result`.

## Model

| member | source | states |
|---|---|---|
| Versions.ToFormattedString | src/Helpers/TailwindVersionStringConverter.cs:4-15 | V4_1 shows as "4.1.x", V4 as "4.0.x", every earlier version as "3.0.x"; the string always has five characters, starts with the major digit and ends in ".x" |
| Versions.FormattedStringInjective | src/Helpers/TailwindVersionStringConverter.cs:4-15 | two versions with the same display string are the same version |
| ImportantModifier.LeadingBang | src/Helpers/ImportantModifierHelper.cs:4-7 | a token made of `!` followed by text not starting with `!` is an important modifier |
| ImportantModifier.TrailingBang | src/Helpers/ImportantModifierHelper.cs:4-7 | text not ending in `!`, followed by one `!`, is an important modifier |
| ImportantModifier.DoubleBang | src/Helpers/ImportantModifierHelper.cs:4-7 | a token starting with `!!` is not important unless it also ends in a single `!` |
| ImportantModifier.SmallCases | src/Helpers/ImportantModifierHelper.cs:6 | "" and "!!" are not important modifiers and "!" is one |
| ImportantModifier.DependsOnlyOnEdges | src/Helpers/ImportantModifierHelper.cs:6 | two tokens with the same first two and last two characters get the same answer |
| TrimPrefixHelper.TrimPrefix | src/Helpers/TrimPrefixHelper.cs:4-12 | when the text starts with the prefix under the comparison (ordinal, or ordinal ignoring case), the result is the text after the prefix's length and the part removed equals the prefix ignoring case, prefix + result being the text for the ordinal comparison; otherwise the result is the text unchanged |
| TrimPrefixHelper.ResultIsSuffix | src/Helpers/TrimPrefixHelper.cs:4-12 | the result is always a suffix of the input |
| TrimPrefixHelper.EmptyPrefix | src/Helpers/TrimPrefixHelper.cs:6-8 | trimming the empty prefix returns the text unchanged under either comparison |
| TrimPrefixHelper.IgnoreCaseWider | src/Helpers/TrimPrefixHelper.cs:4-12 | ignoring case removes what the ordinal comparison removes, and the case of the prefix makes no difference to it |
| TrimPrefixHelper.RemovesAtMostOnce | src/Helpers/TrimPrefixHelper.cs:4-12 | the result is the input or exactly one prefix length shorter; a doubled prefix leaves one copy behind |
| HashSetAddRange.HashSet.constructor | src/Helpers/HashSetAddRange.cs:5 | a set object holding the given elements |
| HashSetAddRange.AddEachIsUnion | src/Helpers/HashSetAddRange.cs:10-13 | adding the items one at a time yields the union of the set and the items |
| HashSetAddRange.KeepsExisting | src/Helpers/HashSetAddRange.cs:10-13 | no element is removed and every item ends up in the set |
| HashSetAddRange.Idempotent | src/Helpers/HashSetAddRange.cs:10-13 | adding the same items again changes nothing |
| HashSetAddRange.AddRange | src/Helpers/HashSetAddRange.cs:5-13 | a null set or a null item sequence throws ArgumentNullException (naming the argument) before any change; otherwise the set in place becomes the old set with each item added |
| CssConfigSplitter.CutsFrom | src/Helpers/CssConfigSplitter.cs:6 | the split points from a position on: each is a `;` the pattern matches, they increase, and none is missed |
| CssConfigSplitter.SplitFromIsBetween | src/Helpers/CssConfigSplitter.cs:10 | the left-to-right scan yields exactly the texts between consecutive split points |
| CssConfigSplitter.RawSplitIsBetween | src/Helpers/CssConfigSplitter.cs:10 | Regex.Split yields the texts between the split points, one more piece than there are split points |
| CssConfigSplitter.BetweenLength | src/Helpers/CssConfigSplitter.cs:10 | n cuts give n + 1 pieces |
| CssConfigSplitter.BetweenJoin | src/Helpers/CssConfigSplitter.cs:10 | joining the pieces between `;` cuts with `;` gives back the text from the start position |
| CssConfigSplitter.RawSplitJoin | src/Helpers/CssConfigSplitter.cs:6-10 | joining the raw pieces with `;` gives back the whole text: nothing is lost and the order is kept |
| CssConfigSplitter.EscapedSemicolonNeverSplits | src/Helpers/CssConfigSplitter.cs:6 | a `;` right after a backslash is never a split point |
| CssConfigSplitter.NoSplitPointSinglePiece | src/Helpers/CssConfigSplitter.cs:6-10 | text without a split point comes back as one raw piece |
| CssConfigSplitter.TrimNonBlank | src/Helpers/CssConfigSplitter.cs:11-12 | trimming and dropping blank pieces never yields more pieces than it was given |
| CssConfigSplitter.TrimNonBlankTrimmed | src/Helpers/CssConfigSplitter.cs:11-12 | every piece kept is non-empty and has no whitespace at either end |
| CssConfigSplitter.Split | src/Helpers/CssConfigSplitter.cs:8-13 | every piece of the result is non-empty and trimmed |
| CssConfigSplitter.NoSplitPointResult | src/Helpers/CssConfigSplitter.cs:8-13 | text with no split point yields nothing when blank and its trimmed self otherwise |
| ClassSortUtilities.RankTableKeys | src/Files/ClassSortUtilities.cs:22-26 | the table built from the order list has exactly the listed names as keys |
| ClassSortUtilities.RankTableMeaning | src/Files/ClassSortUtilities.cs:23-26 | each name's rank is the scale times the index of its last occurrence, since later writes overwrite earlier ones |
| ClassSortUtilities.VariantRanksScaled | src/Files/ClassSortUtilities.cs:43-47 | every variant rank is a non-negative multiple of 100 |
| ClassSortUtilities.OrderPreserving | src/Files/ClassSortUtilities.cs:23-26 | for a list without duplicates, an earlier name always gets a smaller rank than a later one |
| ClassSortUtilities.OrderCache.constructor | src/Files/ClassSortUtilities.cs:9-10 | both caches start empty |
| ClassSortUtilities.OrderCache.GetClassOrder | src/Files/ClassSortUtilities.cs:12-30 | a cached version returns its table unchanged; otherwise the rank table of the version's order list (scale 1) is built, cached for that version only, and returned; the variant cache is untouched |
| ClassSortUtilities.OrderCache.GetVariantOrder | src/Files/ClassSortUtilities.cs:32-51 | as GetClassOrder with each index multiplied by 100; the class cache is untouched |
| HtmlSorter.InTagMeaning | src/Sorters/HtmlSorter.cs:24-30 | the tag check passes exactly when some `<` at or before the match is followed by no `>` up to it |
| HtmlSorter.CutOf | src/Sorters/HtmlSorter.cs:43-45 | the cut offset is a place where the class content occurs in the match text, never after the content group; cut at the group it is the group's offset |
| HtmlSorter.MatchSegments | src/Sorters/HtmlSorter.cs:43-48 | three segments whose middle is the sorted content and whose outer two, around the unsorted content, give back the match text; cut at the group they are the text before and after the group |
| HtmlSorter.WalkStep | src/Sorters/HtmlSorter.cs:13-49 | one pass of the loop: a match before the last one processed, or outside a tag, is skipped; one reaching the end of the text yields the gap and the rest and stops; any other yields the gap and its three segments and moves past it |
| HtmlSorter.SelectedStep | src/Sorters/HtmlSorter.cs:13-40 | the matches processed, pass by pass, by the same rule as WalkStep |
| HtmlSorter.SelectedFromTags | src/Sorters/HtmlSorter.cs:18-30 | every processed match is one of the enumerated matches, lies in the text and starts inside a tag |
| HtmlSorter.SelectedCutOffLast | src/Sorters/HtmlSorter.cs:36-40 | only the last processed match can reach the end of the text |
| HtmlSorter.SelectedOrdered | src/Sorters/HtmlSorter.cs:18-21 | the processed matches start at or after the last position, come in text order and never overlap |
| HtmlSorter.SelectedSkips | src/Sorters/HtmlSorter.cs:18-30 | matches skipped before the first processed one play no part |
| HtmlSorter.SelectedHead | src/Sorters/HtmlSorter.cs:13-34 | the first match that passes both checks heads the processed matches |
| HtmlSorter.GroupSegments | src/Sorters/HtmlSorter.cs:32-48 | a processed match, cut at its content group, together with the gap before it, is the document text with its content sorted |
| HtmlSorter.CutOffSegments | src/Sorters/HtmlSorter.cs:32-39 | the gap and the rest yielded for a match reaching the end put together are the rest of the document |
| HtmlSorter.WalkSubstitutes | src/Sorters/HtmlSorter.cs:8-52 | cut at the content group, the segments put together are the document with the content of every processed match sorted in place and all other text unchanged |
| HtmlSorter.IdentityReproduces | src/Sorters/HtmlSorter.cs:8-52 | when sorting changes nothing, the segments put together are the document, whichever cut is used |
| HtmlSorter.UnsortedSegments | src/Sorters/HtmlSorter.cs:32-48 | a processed match whose content the comparator keeps contributes exactly the document text, wherever it is cut |
| HtmlSorter.FirstGapVerbatim | src/Sorters/HtmlSorter.cs:32-51 | the text before the first processed match is yielded verbatim; with nothing processed the walk yields the rest of the document alone |
| HtmlSorter.EndOfTextCutOff | src/Sorters/HtmlSorter.cs:34-40 | a processed match reaching the end of the text is not sorted: the walk yields the gap and the rest of the document and stops |
| HtmlSorter.GetSegments | src/Sorters/HtmlSorter.cs:8-52 | the loop over the matches yields the walk's segments |
| HtmlSorter.SegmentsSubstitute | src/Sorters/HtmlSorter.cs:8-52 | the corrected sorter rewrites exactly the contents of the attributes and quote pairs it selects, in order and inside tags, and nothing else |
| HtmlSorter.SegmentsIdentity | src/Sorters/HtmlSorter.cs:8-52 | with a comparator that changes nothing, both the as-written and the corrected sorter give back the document |
| HtmlSorter.GetSegmentsAsWritten | src/Sorters/HtmlSorter.cs:8-52 | the method yields the as-written segments: the as-written enumerator feeding the walk cut at the first occurrence of the content |
| HtmlSorter.GetSegmentsCorrected | src/Sorters/HtmlSorter.cs:8-52 | the method yields the corrected segments: pairs searched inside their attribute, each match cut at its content group |
| HtmlSorter.DocFirstOccurrence | src/Sorters/HtmlSorter.cs:45 | in `<a class = "s =">` the content `s =` first occurs four characters into the match, inside the attribute name |
| HtmlSorter.CutInAttributeName | src/Sorters/HtmlSorter.cs:45-48 | cut at the first occurrence, the sorted content replaces `s =` in the attribute name and the real content stays unsorted |
| HtmlSorter.CutAtContentGroup | src/Sorters/HtmlSorter.cs:45-48 | cut at the content group, the content is sorted in place |
| HtmlSorter.SorterCutsAttributeName | src/Sorters/HtmlSorter.cs:45-48 | the as-written sorter turns `<a class = "s =">` into `<a clas= s "s =">`; the corrected one into `<a class = "= s">` |
| ClassRegex.ContentOf | src/Helpers/ClassRegexHelper.cs:227-231 | the `content` group's text has the group's length and occurs inside the match's value at the group's offset |
| ClassRegex.BalancedCloseIsBalanced | src/Helpers/ClassRegexHelper.cs:10 | the balancing groups `(?<c>)`/`(?<-c>)` close an `@(...)` group only at a `)` where the parentheses between are balanced: the depth never goes negative and is zero at the close |
| ClassRegex.PlainContent | src/Helpers/ClassRegexHelper.cs:8-9 | the content loop `(?:\n.\|(?!\1).)*` ends before the match end, the match ends at the end of the text or just after the opening quote character, and a quote inside the content only ever follows a newline |
| ClassRegex.PlainContentUnit | src/Helpers/ClassRegexHelper.cs:8-9 | a character that is neither a newline nor the opening quote extends the content without changing where the value ends |
| ClassRegex.PlainContentQuote | src/Helpers/ClassRegexHelper.cs:8-9 | at the opening quote character the content ends and the quote closes the match |
| ClassRegex.PlainLead | src/Helpers/ClassRegexHelper.cs:8-9 | after backtracking the leading `\s*`, the content lies between the quote and the match end, and the match ends at the text's end or on the quote |
| ClassRegex.PlainRegionAt | src/Helpers/ClassRegexHelper.cs:8-9 | a `class=` / `className=` match found at a position starts there with `c` or `C` and the keyword, lies inside the text with its content, and ends at the end of the text or on a quote |
| ClassRegex.PlainRegionShape | src/Helpers/ClassRegexHelper.cs:8-9 | a region match has `=` and then an opening quote (after optional whitespace) before its content, and the content holds that quote only right after a newline |
| ClassRegex.RunEnd | src/Helpers/ClassRegexHelper.cs:11 | a greedy run such as `[\w.]*` stops at the first character outside the class, or at the end of the text |
| ClassRegex.RazorGroup | src/Helpers/ClassRegexHelper.cs:10 | an `@name(...)` unit starts with `@`, ends with `)` and lies inside the text |
| ClassRegex.RazorContent | src/Helpers/ClassRegexHelper.cs:10 | the Razor content loop ends either at the end anchor `$` or right before the closing quote, which then ends the match |
| ClassRegex.RazorGroupKeepsQuotes | src/Helpers/ClassRegexHelper.cs:10 | a balanced `@name(...)` group is consumed whole, so a quote inside it does not end the attribute value |
| ClassRegex.RazorRegionAt | src/Helpers/ClassRegexHelper.cs:10 | a Razor `class=` / `classes=` match found at a position starts there with the keyword and lies inside the text with its content |
| ClassRegex.PlainPairClose | src/Helpers/ClassRegexHelper.cs:17 | the pair scan stops at a `'` whose body, escapes included, is a well-formed quote-pair body |
| ClassRegex.PlainPairCloseComplete | src/Helpers/ClassRegexHelper.cs:17 | conversely, the first `'` that ends a well-formed body is exactly where the scan stops |
| ClassRegex.PlainPairAt | src/Helpers/ClassRegexHelper.cs:17 | a normal quote pair starts and ends with `'`, its content is everything between them, and the content is a well-formed escaped body |
| ClassRegex.RazorPairClose | src/Helpers/ClassRegexHelper.cs:16 | the Razor pair scan stops only at a `'` |
| ClassRegex.RazorPairAt | src/Helpers/ClassRegexHelper.cs:16 | a Razor quote pair starts and ends with `'`, its content is everything between them, and its opening quote is not inside an open `@(` group (the negative lookbehind) |
| ClassRegex.RazorPairGroupKeepsQuotes | src/Helpers/ClassRegexHelper.cs:16 | a quote inside a balanced `@(...)` does not close a Razor pair |
| ClassRegex.MatchAt | src/Helpers/ClassRegexHelper.cs:8-17 | a match of any of the five patterns at a position is non-empty and lies inside the text; a quote pair has at least its two quotes |
| ClassRegex.FirstFrom | src/Helpers/ClassRegexHelper.cs:150 | `Regex.Match(text, from)` reports a non-empty match inside the text that starts at or after `from` |
| ClassRegex.FirstFromSkip | src/Helpers/ClassRegexHelper.cs:150 | when the pattern does not match at `from`, the search gives the same result as one started a character later |
| ClassRegex.FirstFromIsLeftmost | src/Helpers/ClassRegexHelper.cs:150 | the search finds the leftmost position at which the pattern matches, and reports no match only when the pattern matches nowhere from `from` on |
| ClassRegex.NoClassKeyword | src/Helpers/ClassRegexHelper.cs:8 | the class pattern cannot match at a character other than `c` or `C` |
| ClassRegex.FirstInWindow | src/Helpers/ClassRegexHelper.cs:35 | `Regex.Match(text, beginning, length)` reports a match that lies entirely inside the window, in the text's own positions |
| ClassRegex.NonWsRuns | src/Helpers/ClassRegexHelper.cs:12 | the `([^\s]+)` matches are maximal runs of non-whitespace characters, each bounded by whitespace or the text's ends, in increasing order and not adjacent |
| ClassRegex.NonWsRunsCover | src/Helpers/ClassRegexHelper.cs:221-225 | every non-whitespace character lies inside one of the runs that `SplitNonRazorClasses` returns |
| ClassRegex.RazorSplitUnit | src/Helpers/ClassRegexHelper.cs:11 | one unit of the Razor split pattern lies inside the text |
| ClassRegex.RazorTokenEnd | src/Helpers/ClassRegexHelper.cs:11 | a Razor class token runs at least over its first unit and stops where no further unit can match |
| ClassRegex.RazorTokens | src/Helpers/ClassRegexHelper.cs:11 | the Razor split matches are non-empty, lie inside the text in increasing order without overlap, and none can be extended by another unit |
| ClassRegex.RazorTokenKeepsUnit | src/Helpers/ClassRegexHelper.cs:210-214 | a token that begins with `@@`, `@("@")` or a balanced `@name(...)` keeps that whole unit, whitespace inside the group included |
| ClassRegexHelper.RegexIsSound | src/Helpers/ClassRegexHelper.cs:8-17 | the pattern scanners behave as the collectors assume the engine does: matches start at or after the start position, lie inside the text and are non-empty |
| ClassRegexHelper.Window | src/Helpers/ClassRegexHelper.cs:35 | a search restricted to a window reports only matches that lie inside the window |
| ClassRegexHelper.RegexWindow | src/Helpers/ClassRegexHelper.cs:35 | with the scanners as the engine, the window search is exactly the scanner's window search |
| ClassRegexHelper.AllFromOrdered | src/Helpers/ClassRegexHelper.cs:25 | the matches of `Regex.Matches(text)` lie inside the text in increasing order without overlap |
| ClassRegexHelper.PairsInOrdered | src/Helpers/ClassRegexHelper.cs:35-39 | the quote pairs collected from a window lie inside that window, in order, without overlap |
| ClassRegexHelper.PairsInStep | src/Helpers/ClassRegexHelper.cs:35-39 | each search of the pair loop finds the next pair the whole scan yields, and moves the start strictly forward |
| ClassRegexHelper.CollectPairs | src/Helpers/ClassRegexHelper.cs:31-41 | the pair loop of GetClasses* returns exactly the pairs of the window, in order |
| ClassRegexHelper.RegionResultsShape | src/Helpers/ClassRegexHelper.cs:27-44 | a class region whose content holds a quote pair is replaced by ordered pairs that lie inside its content; any other region is returned whole |
| ClassRegexHelper.PairsFoundInContent | src/Helpers/ClassRegexHelper.cs:29-41 | when the content holds a quote pair, the first pair collected is that pair, at its position in the text |
| ClassRegexHelper.RegionsFit | src/Helpers/ClassRegexHelper.cs:25 | every region match lies inside the text, so a pair search in the text itself never throws |
| ClassRegexHelper.ResultsOfNone | src/Helpers/ClassRegexHelper.cs:53-74 | the regions' results fail exactly when one of the regions throws |
| ClassRegexHelper.ThrowsAt | src/Helpers/ClassRegexHelper.cs:64 | a region whose pair search throws makes the whole result fail |
| ClassRegexHelper.ClassesOfThrows | src/Helpers/ClassRegexHelper.cs:51-75 | outside Razor the classes are always found; in Razor the search throws exactly when a region whose content holds a quote pair ends past `expandedSearchText` |
| ClassRegexHelper.GetClasses | src/Helpers/ClassRegexHelper.cs:23-104 | GetClassesNormal, GetClassesRazor and GetClassesJavaScript return, region by region, the region's pairs or the region itself, and fail where the Razor pair search throws |
| ClassRegexHelper.SlidingPairsOrdered | src/Helpers/ClassRegexHelper.cs:158-164 | the enumerators' sliding window yields pairs in order, but bounded only by the end of the text, not by the region |
| ClassRegexHelper.SlidingPairsStep | src/Helpers/ClassRegexHelper.cs:160-164 | each search of the sliding loop finds the next pair of the scan and moves strictly forward |
| ClassRegexHelper.CollectSlidingPairs | src/Helpers/ClassRegexHelper.cs:158-164 | the inner loop of the enumerators, as written, returns exactly the sliding-window pairs |
| ClassRegexHelper.EnumeratedAsWrittenBetween | src/Helpers/ClassRegexHelper.cs:146-170 | as written, the enumerators yield matches inside the text, though not necessarily in order |
| ClassRegexHelper.EnumeratedAsWrittenUnfold | src/Helpers/ClassRegexHelper.cs:150-169 | as written, the enumerator loop handles one region match per turn and resumes at its end |
| ClassRegexHelper.GetClassesEnumeratorAsWritten | src/Helpers/ClassRegexHelper.cs:113-203 | the three enumerators as written yield the as-written enumeration |
| ClassRegexHelper.EnumeratedOrdered | src/Helpers/ClassRegexHelper.cs:143-145 | with each region's pairs searched inside the region, everything yielded is in text order without overlap |
| ClassRegexHelper.EnumeratedInsideRegions | src/Helpers/ClassRegexHelper.cs:139-145 | with the correction, every match yielded lies inside a class region match |
| ClassRegexHelper.EnumeratedUnfold | src/Helpers/ClassRegexHelper.cs:150-169 | the corrected loop handles one region match per turn and resumes at its end |
| ClassRegexHelper.GetClassesEnumerator | src/Helpers/ClassRegexHelper.cs:146-170 | the corrected enumerator yields the corrected enumeration |
| ClassRegexHelper.SlidingWindowLeavesRegion | src/Helpers/ClassRegexHelper.cs:160 | on `class="'a'"'b'`, any engine that reports what .NET reports makes the as-written enumerator yield the pair `'b'` outside the only class region, while the corrected one yields only `'a'` |
| ClassRegexHelper.RegexOnSample | src/Helpers/ClassRegexHelper.cs:8-17 | the pattern scanners report on that sample the region and pairs that .NET's engine reports |
| ClassRegexHelper.EnumeratorLeavesRegion | src/Helpers/ClassRegexHelper.cs:160 | with the scanners as the engine, the as-written enumerator yields a pair after the only class region |
| CompletionConfiguration.ContentPathsPartition | src/Project/CompletionConfiguration.cs:40-41 | a content path is applicable exactly when it is listed and does not start with `!`; an excluded folder is exactly an entry starting with `!`, with the `!` trimmed from both ends; every path goes to exactly one side |
| CompletionConfiguration.NotApplicableUnmarked | src/Project/CompletionConfiguration.cs:41 | an excluded folder never starts or ends with `!` |
| CompletionConfiguration.ProjectPrefix | src/Project/CompletionConfiguration.cs:43-50 | from v4 on, a prefix that is not blank becomes `prefix:`; otherwise the configured prefix, or its absence, is kept as it is |
| CompletionConfiguration.ProjectPrefixRoundTrip | src/Project/CompletionConfiguration.cs:43-46 | dropping the trailing `:` from a v4 prefix gives back the configured prefix |
| CompletionConfiguration.DedupMeaning | src/Project/CompletionConfiguration.cs:52 | `Variants.Distinct()` keeps every variant once, loses none, and leaves a list without duplicates unchanged |
| CompletionConfiguration.ReloadIgnoresPreviousValues | src/Project/CompletionConfiguration.cs:32-58 | a reload rebuilds everything from the template and the configuration: two projects that agree on path, flag, version and stem table end up identical |
| CompletionConfiguration.ReloadIdempotent | src/Project/CompletionConfiguration.cs:32-58 | reloading twice with the same configuration gives what reloading once gives |
| CompletionConfiguration.DistinctLeavesNoTrace | src/Project/CompletionConfiguration.cs:52-54 | the de-duplication of the variants is overwritten by the overrides, which start again from the template's variants |
| CompletionConfiguration.LoadPaths | src/Project/CompletionConfiguration.cs:40-50 | sets the applicable paths, the excluded folders and the prefix, and nothing else; the template is untouched |
| CompletionConfiguration.LoadGlobalDistinct | src/Project/CompletionConfiguration.cs:51-52 | performs the global load from the template and then de-duplicates the variants; the template is untouched |
| CompletionConfiguration.LoadIndividualConfiguration | src/Project/CompletionConfiguration.cs:54-55 | applies the overrides and then the extensions, and changes only the classes, variants and custom tables |
| CompletionConfiguration.LoadIndividualAndPlugins | src/Project/CompletionConfiguration.cs:54-57 | applies the overrides, the extensions and the plugins; the template is untouched |
| CompletionConfiguration.ReloadCustomAttributesImpl | src/Project/CompletionConfiguration.cs:32-58 | the project's new state is the reload of its old state, given the template, the version and the parsed configuration |
| CompletionConfiguration.ReloadCustomAttributes | src/Project/CompletionConfiguration.cs:17-27 | when the configuration cannot be obtained the project is left unchanged; otherwise it is reloaded |
| TailwindConfig.Keys | src/Project/Configuration/TailwindConfiguration.cs:18 | the keys of a dictionary are listed one per entry, in insertion order |
| TailwindConfig.Lookup | src/Project/Configuration/TailwindConfiguration.cs:18 | a lookup finds a value exactly when the key is present, and the value found is stored under that key |
| TailwindConfig.Put | src/Project/Configuration/ConfigFileParser.cs:515 | `dict[key] = value` makes the key map to the value and leaves every other key's value alone; an existing key keeps its place and a new key goes last |
| TailwindConfig.EmptyConfiguration | src/Project/Configuration/TailwindConfiguration.cs:9-50 | a new configuration has no content paths and no theme values, and its prefix, blocklist and core-plugin lists are null |
| ConfigFileParser.CssVariableNamespace | src/Project/Configuration/ConfigFileParser.cs:544-627 | the namespace found for a theme variable is a prefix of the variable's name |
| ConfigFileParser.NamespaceAndStemTogether | src/Project/Configuration/ConfigFileParser.cs:544-713 | a theme variable has a namespace exactly when it has a configuration stem |
| ConfigFileParser.FontWeightBeforeFont | src/Project/Configuration/ConfigFileParser.cs:550-553 | a `--font-weight-` variable configures `fontWeight` under the namespace `--font-weight-`, not `--font-` |
| ConfigFileParser.TextShadowFromV41 | src/Project/Configuration/ConfigFileParser.cs:558-561 | from 4.1 on `--text-shadow` configures text shadows; before 4.1 it is a font size in the `--text-` namespace |
| ConfigFileParser.ThemePairOf | src/Project/Configuration/ConfigFileParser.cs:409-414 | a theme piece splits into a trimmed key and a trimmed value at its first colon, and has no pair when it holds no colon |
| ConfigFileParser.ThemePairsAsWritten | src/Project/Configuration/ConfigFileParser.cs:409-414 | as written, the pairing keeps one pair per piece when it succeeds |
| ConfigFileParser.AsWrittenFailsOnColonFreePiece | src/Project/Configuration/ConfigFileParser.cs:411-413 | as written, the pairing fails exactly when some theme piece holds no colon |
| ConfigFileParser.ThemePairs | src/Project/Configuration/ConfigFileParser.cs:409-414 | the corrected pairing skips colon-free pieces and yields trimmed keys |
| ConfigFileParser.ThemePairsAgree | src/Project/Configuration/ConfigFileParser.cs:409-414 | where every piece holds a colon, the as-written pairing and the corrected pairing agree |
| ConfigFileParser.KeyframesPieceFails | src/Project/Configuration/ConfigFileParser.cs:411-413 | a theme with a nested `@keyframes spin` piece makes the as-written pairing fail |
| ConfigFileParser.ColonFreeLastPieceFails | src/Project/Configuration/ConfigFileParser.cs:411-413 | a colon-free last piece makes the as-written pairing fail, whatever precedes it |
| ConfigFileParser.LookupsOf | src/Project/Configuration/ConfigFileParser.cs:482-483 | the two lookups of a theme key agree on whether the key configures anything, and a namespace found is a prefix of the key |
| ConfigFileParser.ThemeStepMeaning | src/Project/Configuration/ConfigFileParser.cs:480-516 | a variable without a stem becomes a theme variable; a `*` variable resets the stem's override and extension; any other variable is stored, under its name less the namespace, in the override when the stem has been overridden and in the extension otherwise |
| ConfigFileParser.ApplyThemePairs | src/Project/Configuration/ConfigFileParser.cs:480-516 | the theme-pair loop builds the left fold of the pairs |
| ConfigFileParser.ApplyThemePair | src/Project/Configuration/ConfigFileParser.cs:482-515 | one pass of the loop makes the dictionary updates of one theme pair |
| ConfigFileParser.OverriddenOnlyAfterReset | src/Project/Configuration/ConfigFileParser.cs:493-505 | a stem has an overridden dictionary only when some `*` variable of that stem reset it |
| ConfigFileParser.Words | src/Project/Configuration/ConfigFileParser.cs:473 | splitting on whitespace with empty entries removed yields words without whitespace |
| ConfigFileParser.JoinedWords | src/Project/Configuration/ConfigFileParser.cs:473 | joining whitespace-free words with single spaces leaves no whitespace but those spaces, none doubled |
| ConfigFileParser.OneLineIsOneLine | src/Project/Configuration/ConfigFileParser.cs:471-473 | a variant description put on one line holds single spaces between words and no other whitespace |
| ConfigFileParser.PrefixSetting | src/Project/Configuration/ConfigFileParser.cs:477 | a blank prefix becomes null; any other prefix is trimmed and so starts with a non-space character |
| ConfigFileParser.ConfigurationOf | src/Project/Configuration/ConfigFileParser.cs:463-478 | the configuration takes the trimmed prefix, the utilities and variants in insertion order as plugin classes and variants, their descriptions put on one line, the theme's stems, and the scanned blocklist; the core-plugin lists stay null |
| ConfigFileParser.CssConfigurationAsWritten | src/Project/Configuration/ConfigFileParser.cs:130-542 | as written, the load of a stylesheet fails exactly when some theme piece holds no colon |
| ConfigFileParser.CssConfigurationAgrees | src/Project/Configuration/ConfigFileParser.cs:130-542 | when every theme piece holds a colon, the as-written and the corrected load give the same configuration |
| ConfigFileParser.AtSignInThemeIsText | src/Project/Configuration/ConfigFileParser.cs:198-203 | an `@` inside a theme block is kept as theme text; only an `@` at level 0 starts a directive |
| ConfigFileParser.GetCssConfiguration | src/Project/Configuration/ConfigFileParser.cs:130-542 | scanning, splitting the theme text, applying the pairs and assembling give the corrected configuration of the stylesheet |
| CssDirectiveScanner.IndexOfQuote | src/Project/Configuration/ConfigFileParser.cs:226-227 | `IndexOfAny` finds the first quote character at or after the start, or reports that there is none |
| CssDirectiveScanner.QuotedSpan | src/Project/Configuration/ConfigFileParser.cs:226-234 | the span is delimited by the first two quote characters after the start, with none between them |
| CssDirectiveScanner.TailwindImportOf | src/Project/Configuration/ConfigFileParser.cs:249-286 | after `@import "tailwindcss"`, a `source(...)` wins over a `prefix(...)`; a prefix is the trimmed text between `prefix(` and the next `)`; with neither, the stylesheet's directory becomes content |
| CssDirectiveScanner.PrefixOf | src/Project/Configuration/ConfigFileParser.cs:272-286 | a `prefix(` with a closing `)` gives its trimmed text, one without it leaves the directive incomplete, and none at all makes the directory content |
| CssDirectiveScanner.PrefixWordUnclosed | src/Project/Configuration/ConfigFileParser.cs:274 | the first `)` after `prefix(` lies after its opening parenthesis |
| CssDirectiveScanner.ImportOf | src/Project/Configuration/ConfigFileParser.cs:224-288 | a quoted path other than `tailwindcss` that is not a `url(...)` is an import; `tailwindcss` is read for its source and prefix |
| CssDirectiveScanner.Unparenthesised | src/Project/Configuration/ConfigFileParser.cs:314-316 | the inner text with its parentheses put back is the value |
| CssDirectiveScanner.ShorthandVariant | src/Project/Configuration/ConfigFileParser.cs:302-319 | a shorthand `@custom-variant` needs a space: the name is the text before the first space and the body is the parenthesised value's inside followed by ` { @slot; }` |
| CssDirectiveScanner.ShorthandRecorded | src/Project/Configuration/ConfigFileParser.cs:306-318 | a parameter whose first space is followed by a parenthesised value records exactly that variant |
| CssDirectiveScanner.SourceOf | src/Project/Configuration/ConfigFileParser.cs:320-365 | a leading `not` is noted and removed; an `inline(` parameter is a blocklist and any other quoted parameter a content path |
| CssDirectiveScanner.Terminate | src/Project/Configuration/ConfigFileParser.cs:221-372 | the `;` that ends a parameter changes the prefix only for `@import`, the variants only for `@custom-variant`, the blocklist only for `@source` from 4.1 on, and clears any other directive |
| CssDirectiveScanner.AppendTo | src/Project/Configuration/ConfigFileParser.cs:385-402 | a character is appended to one dictionary entry, created empty when absent, and no other entry changes |
| CssDirectiveScanner.ParameterChar | src/Project/Configuration/ConfigFileParser.cs:219-384 | inside a parameter only a `{` outside quotes opens a block and raises the level; only a 4.1 `@source inline` changes the blocklist |
| CssDirectiveScanner.Step | src/Project/Configuration/ConfigFileParser.cs:162-407 | one character: the theme text grows by that character only inside a `@theme` block at level 1 and never by a brace; a comment leaves everything unchanged; the level moves by one at a brace outside a parameter; reaching level 0 clears the directive |
| CssDirectiveScanner.ScanCss | src/Project/Configuration/ConfigFileParser.cs:162-407 | the character loop computes the scan of the whole stylesheet |
| CssDirectiveScanner.ScanChar | src/Project/Configuration/ConfigFileParser.cs:162-406 | the loop body for one character computes one scanner step |
| CssDirectiveScanner.ProcessChar | src/Project/Configuration/ConfigFileParser.cs:183-405 | the part of the body after the comment handling computes the step for a character outside comments |
| CssDirectiveScanner.ReadParameterChar | src/Project/Configuration/ConfigFileParser.cs:219-384 | the parameter branch computes the parameter step |
| CssDirectiveScanner.ThemeHasNoBraces | src/Project/Configuration/ConfigFileParser.cs:378-381 | however the stylesheet runs, the collected theme text holds no brace |
| CssDirectiveScanner.BlocklistNeedsV41 | src/Project/Configuration/ConfigFileParser.cs:343-349 | before Tailwind 4.1 the blocklist stays empty |
| ThemeOverrides.RemainingVariantsMembers | src/Project/ConfigurationClassGenerator.cs:256 | a variant survives the override's `RemoveAll` exactly when it was there and is not one the variant stem describes |
| ThemeOverrides.VariantNamesMembers | src/Project/ConfigurationClassGenerator.cs:260 | the variants added are exactly those the dictionary's keys name below the stem (`DEFAULT` naming the stem itself) |
| ThemeOverrides.DescribedMembers | src/Project/ConfigurationClassGenerator.cs:286-336 | the classes a class stem describes are exactly those its rule selects that take no arbitrary value |
| ThemeOverrides.OverrideClassesMembers | src/Project/ConfigurationClassGenerator.cs:336-360 | the override adds exactly the classes the keys name below the stem, less the keys the custom spacing or colour table excludes |
| ThemeOverrides.WithoutMembers | src/Project/ConfigurationClassGenerator.cs:367 | `RemoveAll(toRemove.Contains)` keeps exactly the classes not to be removed |
| ThemeOverrides.OverrideStepMeaning | src/Project/ConfigurationClassGenerator.cs:251-362 | one stem: a variant stem replaces the variants it describes with those the keys name; a spacing or colour stem sets its custom table (empty when the value is not a dictionary); a class stem marks the classes it describes for removal and the ones the keys name for addition |
| ThemeOverrides.OverriddenClassesMembers | src/Project/ConfigurationClassGenerator.cs:367-368 | after the override a class is present exactly when it was present and not removed, or was added |
| ThemeOverrides.LoadIndividualConfigurationOverride | src/Project/ConfigurationClassGenerator.cs:228-369 | the classes are the core-plugin classes with the described ones removed and the new ones appended; the variants restart from the template's and the custom tables from empty |
| ThemeOverrides.OverrideKey | src/Project/ConfigurationClassGenerator.cs:251-363 | the loop over the stems of one key applies each stem in order |
| ThemeOverrides.InsertAbsentMeaning | src/Project/ConfigurationClassGenerator.cs:393-399 | inserting only absent variants keeps the old ones in front, holds every item afterwards, and adds no duplicate |
| ThemeOverrides.InsertEach | src/Project/ConfigurationClassGenerator.cs:393-399 | the insertion loop computes the insertion of every absent item |
| ThemeOverrides.ScreensInsertedMeaning | src/Project/ConfigurationClassGenerator.cs:387-401 | afterwards every extended screen has its five variants, no variant is lost and none is duplicated |
| ThemeOverrides.InsertScreens | src/Project/ConfigurationClassGenerator.cs:389-400 | the loop over the screens inserts every screen's variants |
| ThemeOverrides.ExtendClassesMembers | src/Project/ConfigurationClassGenerator.cs:450-509 | extending adds exactly the non-blank class names the keys name that no existing class has |
| ThemeOverrides.ExtendStepKeeps | src/Project/ConfigurationClassGenerator.cs:409-512 | one stem of an extension keeps every variant, adds no duplicate variant and adds only fresh classes |
| ThemeOverrides.ExtendStemsKeeps | src/Project/ConfigurationClassGenerator.cs:409-512 | so does the loop over the stems of one key |
| ThemeOverrides.ExtendAllKeeps | src/Project/ConfigurationClassGenerator.cs:405-513 | the whole extension keeps every variant, adds no duplicate variant and adds only fresh, non-blank classes |
| ThemeOverrides.LoadIndividualConfigurationExtend | src/Project/ConfigurationClassGenerator.cs:378-514 | the classes gain exactly the extension's new classes, after the existing ones; the variants and custom tables are the extension's |
| ThemeOverrides.ExtendKey | src/Project/ConfigurationClassGenerator.cs:409-512 | the loop over the stems of one key applies each stem in order |
| ThemeOverrides.ExtendStem | src/Project/ConfigurationClassGenerator.cs:411-512 | one stem, with variant keys inserted one by one when absent, computes the extension step |
| ConfigurationClassGenerator.GetDictionary | src/Project/CompletionConfiguration.cs:60-69 | reports true with the entries exactly when the value is a dictionary, and false with no entries otherwise |
| ConfigurationClassGenerator.DictionaryAt | src/Project/ConfigurationClassGenerator.cs:28 | a dictionary is found under a key exactly when the key is present and its value is a dictionary |
| ConfigurationClassGenerator.AssignedAt | src/Project/ConfigurationClassGenerator.cs:41-44 | after assigning a dictionary's entries, a key is present exactly when it was before or the dictionary has it; a key the dictionary lacks keeps its old value |
| ConfigurationClassGenerator.AssignedLast | src/Project/ConfigurationClassGenerator.cs:41-44 | the last entry with a key decides that key's text |
| ConfigurationClassGenerator.AssignEach | src/Project/ConfigurationClassGenerator.cs:41-44 | the `foreach` loop over a dictionary's entries computes the assignment of all of them |
| ConfigurationClassGenerator.KeySet | src/Project/ConfigurationClassGenerator.cs:74 | the key set holds exactly the dictionary's keys |
| ConfigurationClassGenerator.GetColors | src/Project/ConfigurationClassGenerator.cs:801-832 | the recursive walk returns exactly the colour names of the dictionary's string leaves |
| ConfigurationClassGenerator.GlobalTableKeys | src/Project/ConfigurationClassGenerator.cs:37-70 | an overridden `screens` or `v4-container` table holds exactly the overriding and extending keys; without an override every template key stays |
| ConfigurationClassGenerator.GlobalTableExtensionWins | src/Project/ConfigurationClassGenerator.cs:47-53 | an extension entry's text wins over the override and the template |
| ConfigurationClassGenerator.LoadGlobalConfiguration | src/Project/ConfigurationClassGenerator.cs:11-86 | spacing, breakpoints, containers, colours, blocklist and CSS variables are rebuilt from the template and the configuration; the CSS variables take the theme variables merged over the template's only from v4 on; nothing else changes |
| ConfigurationClassGenerator.LoadColors | src/Project/ConfigurationClassGenerator.cs:28-35 | the colours are the template's, replaced by an override and added to by an extension |
| ConfigurationClassGenerator.LoadTable | src/Project/ConfigurationClassGenerator.cs:37-70 | a screens or container table is emptied by an override before its entries are assigned, then extended |
| ConfigurationClassGenerator.LoadSpacing | src/Project/ConfigurationClassGenerator.cs:72-79 | the spacing is the template's, replaced by an override's keys and added to by an extension's |
| ConfigurationClassGenerator.AnyOfMeaning | src/Project/ConfigurationClassGenerator.cs:101-103 | some element of the list passes the test exactly when one at some index does |
| ConfigurationClassGenerator.StemsSelectMeaning | src/Project/ConfigurationClassGenerator.cs:105-152 | some stem selects the class exactly when the rule of one of the stems selects it |
| ConfigurationClassGenerator.PluginsSelectMeaning | src/Project/ConfigurationClassGenerator.cs:99-154 | some listed plugin selects the class exactly when some stem of one of them selects it |
| ConfigurationClassGenerator.EnabledStemsMembers | src/Project/ConfigurationClassGenerator.cs:105-152 | the classes enabled by a plugin's stems are exactly the template classes one of its stems selects |
| ConfigurationClassGenerator.EnabledForMembers | src/Project/ConfigurationClassGenerator.cs:97-155 | with an enabled-plugins list, the classes are exactly the template classes that a stem of an enabled plugin selects |
| ConfigurationClassGenerator.RemovedStemsMembers | src/Project/ConfigurationClassGenerator.cs:168-215 | a class survives a plugin's stems exactly when it was there and no stem selects it |
| ConfigurationClassGenerator.RemovedForMembers | src/Project/ConfigurationClassGenerator.cs:160-217 | with a disabled-plugins list, the classes are exactly the template classes that no stem of a disabled plugin selects |
| ConfigurationClassGenerator.DroppedSubMultiset | src/Project/ConfigurationClassGenerator.cs:174 | `RemoveAll` only removes: what is left is a sub-multiset of the classes |
| ConfigurationClassGenerator.RemovedStemsSubMultiset | src/Project/ConfigurationClassGenerator.cs:168-215 | the stems of a disabled plugin only remove classes |
| ConfigurationClassGenerator.RemovedForSubMultiset | src/Project/ConfigurationClassGenerator.cs:160-217 | disabling plugins never adds or duplicates a class |
| ConfigurationClassGenerator.CorePluginClassesMeaning | src/Project/ConfigurationClassGenerator.cs:88-222 | an enabled list keeps exactly the template classes it selects; otherwise a disabled list removes exactly those it selects; with neither list, or an empty disabled list, the template's classes are kept as they are |
| ConfigurationClassGenerator.HandleCorePlugins | src/Project/ConfigurationClassGenerator.cs:93-222 | the classes become what the core-plugin lists leave of the template's classes |
| ConfigurationClassGenerator.CollectEnabled | src/Project/ConfigurationClassGenerator.cs:99-154 | the loop over the enabled plugins computes the enabled classes |
| ConfigurationClassGenerator.CollectSelected | src/Project/ConfigurationClassGenerator.cs:105-152 | the loop over one plugin's stems collects what each stem selects, stem after stem |
| ConfigurationClassGenerator.RemoveDisabled | src/Project/ConfigurationClassGenerator.cs:162-217 | the loop over the disabled plugins computes what is left of the classes |
| ConfigurationClassGenerator.RemoveSelected | src/Project/ConfigurationClassGenerator.cs:168-215 | the loop over one plugin's stems removes what each stem selects |
| GeneratorRules.ColorsMembers | src/Project/ConfigurationClassGenerator.cs:805-829 | a colour name is exactly what some entry of the dictionary contributes |
| GeneratorRules.ColorsFromMembers | src/Project/ConfigurationClassGenerator.cs:805-829 | the same holds for the entries from any index on |
| GeneratorRules.ColorsAppend | src/Project/ConfigurationClassGenerator.cs:805-829 | the colour names of two dictionaries laid end to end are the union of their names |
| GeneratorRules.StringLeafNamed | src/Project/ConfigurationClassGenerator.cs:809-824 | a string leaf is named by its hyphen-joined key path, and a top-level `DEFAULT` leaf is named `DEFAULT` |
| GeneratorRules.NestedDefaultNamesParent | src/Project/ConfigurationClassGenerator.cs:811-819 | a `DEFAULT` leaf of a nested dictionary names its parent |
| GeneratorRules.OtherAddsNothing | src/Project/ConfigurationClassGenerator.cs:821-828 | a value that is neither a string nor a dictionary contributes no colour |
| GeneratorRules.ColorsExtendParent | src/Project/ConfigurationClassGenerator.cs:809-828 | below a named parent, every colour name is the parent's name or extends it after a hyphen |
| GeneratorRules.ListValues | src/Project/ConfigurationClassGenerator.cs:128-135 | a `{a\|b}` list has at least one value, and a negated list's first value has its `!` trimmed |
| GeneratorRules.Hyphenated | src/Project/ConfigurationClassGenerator.cs:137 | every value `v` becomes `s-v`, in order |
| GeneratorRules.KeptMembers | src/Project/ConfigurationClassGenerator.cs:111-150 | `Where` keeps exactly the classes the stem's rule selects |
| GeneratorRules.DroppedMembers | src/Project/ConfigurationClassGenerator.cs:174-213 | `RemoveAll` keeps exactly the classes the stem's rule does not select |
| GeneratorRules.ClassNameKeyRoundTrip | src/Project/ConfigurationClassGenerator.cs:338-358 | a key's class name gives the key back; `DEFAULT` names the stem itself, a key `-k` names `-stem-k` and any other key `k` names `stem-k` |
| GeneratorRules.ClassNamesDistinct | src/Project/ConfigurationClassGenerator.cs:338-358 | distinct keys name distinct classes below a stem |
| GeneratorRules.SpanSuffixDropped | src/Project/ConfigurationClassGenerator.cs:329-333 | a stem whose only `-span` is its end loses exactly that suffix, so `row-span` adds classes below `row` |
| SpacingCalls.CallTextPieces | src/Project/ConfigurationClassGenerator.cs:720-724 | a call is `--spacing(` then the parameter and `)` |
| SpacingCalls.CalcTextPieces | src/Project/ConfigurationClassGenerator.cs:755 | the replacement is `calc(var(--spacing) * ` then the parameter and `)` |
| SpacingCalls.ClosingParen | src/Project/ConfigurationClassGenerator.cs:726-744 | the closing parenthesis found is a `)` inside the text after the start |
| SpacingCalls.ClosingParenMeaning | src/Project/ConfigurationClassGenerator.cs:726-744 | the close found is the first point where the open count reaches zero; none is found exactly when the count never does |
| SpacingCalls.BalancedCloses | src/Project/ConfigurationClassGenerator.cs:726-744 | conversely, a balanced parameter followed by `)` is closed exactly there |
| SpacingCalls.ReplaceLosesHooks | src/Project/ConfigurationClassGenerator.cs:755 | `Replace` with a replacement that has fewer `g(` pairs than the target never adds one and removes one when the target occurs |
| SpacingCalls.CallHooks | src/Project/ConfigurationClassGenerator.cs:720 | a call has one `g(` pair more than its parameter |
| SpacingCalls.CalcHooks | src/Project/ConfigurationClassGenerator.cs:755 | the replacement has as many `g(` pairs as the parameter |
| SpacingCalls.RewriteLosesHook | src/Project/ConfigurationClassGenerator.cs:752-755 | each rewrite removes a `g(` pair, so the `while` loop terminates |
| SpacingCalls.StepLosesHook | src/Project/ConfigurationClassGenerator.cs:720-756 | each pass of the loop that rewrites removes a `g(` pair |
| SpacingCalls.RewrittenNext | src/Project/ConfigurationClassGenerator.cs:720-756 | a pass that rewrites leaves the final result unchanged |
| SpacingCalls.RewrittenClean | src/Project/ConfigurationClassGenerator.cs:720 | a description with no call is kept as it is |
| SpacingCalls.RewrittenHasNoCall | src/Project/ConfigurationClassGenerator.cs:720-756 | a rewritten description holds no `--spacing(` |
| SpacingCalls.OvershootAfterClose | src/Project/ConfigurationClassGenerator.cs:736-742 | past the balancing `)` the open count has dropped below its opening level |
| SpacingCalls.UnclosedIsSkipped | src/Project/ConfigurationClassGenerator.cs:746-761 | when the first call is never closed the value type is skipped |
| SpacingCalls.CalcHoldsNoCall | src/Project/ConfigurationClassGenerator.cs:755 | the replacement holds no call when the parameter holds none |
| SpacingCalls.SingleCallFound | src/Project/ConfigurationClassGenerator.cs:720-744 | in a lone balanced call, the call starts the text and closes at its last character |
| SpacingCalls.WholeCallRewritten | src/Project/ConfigurationClassGenerator.cs:752-755 | a text that is one closed call is rewritten in a single step |
| SpacingCalls.SingleCallRewritten | src/Project/ConfigurationClassGenerator.cs:716-756 | a lone balanced `--spacing(e)` whose parameter holds no further call becomes `calc(var(--spacing) * e)` |
| SpacingCalls.FindClosing | src/Project/ConfigurationClassGenerator.cs:726-744 | the `for` loop ends with no level open exactly at the balancing `)`, or at the end of the text with levels still open when there is none |
| SpacingCalls.RewriteSpacing | src/Project/ConfigurationClassGenerator.cs:716-761 | the loop asks to skip the value type exactly when some call is never closed, and otherwise leaves the fully rewritten description |
| PluginLoader.Types | src/Project/ConfigurationClassGenerator.cs:580 | the described types are listed one per entry, in insertion order |
| PluginLoader.AppendAll | src/Project/ConfigurationClassGenerator.cs:606-609 | text added to every description keeps the types and their order and extends each description by exactly that text |
| PluginLoader.AddFormat | src/Project/ConfigurationClassGenerator.cs:682-686 | adding a format to a type keeps the types in order and appends the type when it is new |
| PluginLoader.AddFormatValue | src/Project/ConfigurationClassGenerator.cs:682-686 | the type's description becomes its old description, or `standard` when the type is new, followed by the format; every other entry is unchanged |
| PluginLoader.AddFormatsTypes | src/Project/ConfigurationClassGenerator.cs:669-707 | the `--value(...)` entries add only accepted value types (`--x-*`, `integer`, `number`, `ratio`, `[...]`), each once, and forget none |
| PluginLoader.Tail | src/Project/ConfigurationClassGenerator.cs:595 | the text from a position on, empty past the end |
| PluginLoader.TrimmedBrace | src/Project/ConfigurationClassGenerator.cs:597-600 | an attribute whose trimmed text starts with `}` contains a `}` |
| PluginLoader.CloseAfterCall | src/Project/ConfigurationClassGenerator.cs:652-663 | the `)` found after `--value(` lies at or after the call's opening, so the value list is well defined |
| PluginLoader.FoldAsWrittenMeaning | src/Project/ConfigurationClassGenerator.cs:587-709 | as written, parsing a description fails exactly when some piece throws, and otherwise agrees with the corrected parse |
| PluginLoader.ApplyTypes | src/Project/ConfigurationClassGenerator.cs:587-709 | every piece keeps the recorded types accepted value types, each recorded once, and never forgets one |
| PluginLoader.FoldTypes | src/Project/ConfigurationClassGenerator.cs:587-709 | the parse of a description records only accepted value types, each once |
| PluginLoader.DescriptionTypesAreValueTypes | src/Project/ConfigurationClassGenerator.cs:580-709 | every type in `valueToDescription` is an accepted value type, and none appears twice |
| PluginLoader.ColorClass | src/Project/ConfigurationClassGenerator.cs:771-775 | a `--color-*` utility adds a colour class named after the utility, with no other flag set |
| PluginLoader.VariableClassesMembers | src/Project/ConfigurationClassGenerator.cs:781-784 | a theme-namespace utility adds exactly one class per CSS variable of the namespace, the variable's suffix put where the name has `-*` |
| PluginLoader.TypeShapes | src/Project/ConfigurationClassGenerator.cs:711-787 | one handling per described type |
| PluginLoader.Utilities | src/Project/ConfigurationClassGenerator.cs:554 | one utility per plugin description |
| PluginLoader.TypesFoldGrows | src/Project/ConfigurationClassGenerator.cs:711-787 | handling the described types only appends, and the classes it appends are colour classes named after the utility |
| PluginLoader.PluginsFoldGrows | src/Project/ConfigurationClassGenerator.cs:554-789 | the plugin loop only appends to the plugin classes and to the classes |
| PluginLoader.PlainUtilityListed | src/Project/ConfigurationClassGenerator.cs:568-571 | every utility named without `*` becomes a plugin class |
| PluginLoader.PluginClassesAreColorClasses | src/Project/ConfigurationClassGenerator.cs:771-791 | every class the plugins add is a colour class named after a wildcard utility, `*` replaced by `{0}` |
| PluginLoader.PluginStepAgrees | src/Project/ConfigurationClassGenerator.cs:568-788 | as written, a utility fails exactly when it has a wildcard, a `--value(` call and a piece that throws; otherwise it does what the corrected parse does |
| PluginLoader.ClosingBraceCloses | src/Project/ConfigurationClassGenerator.cs:613-617 | a piece that is just `}` throws as written; as intended it closes the block in `standard` and in every description |
| PluginLoader.LastBlockRawSplit | src/Helpers/CssConfigSplitter.cs:5-14 | a text without `;` followed by `; }` is cut once, before the closing brace |
| PluginLoader.ScanToSplit | src/Helpers/CssConfigSplitter.cs:5-14 | with no `;` before a split point, the scan cuts first at that point |
| PluginLoader.LastBlockSplit | src/Helpers/CssConfigSplitter.cs:5-14 | such a text splits into the trimmed text and the piece `}` |
| PluginLoader.NestedLastDeclarationThrows | src/Project/ConfigurationClassGenerator.cs:613-616 | a wildcard `--value` utility whose description ends `...; }` throws as written; in the source the reload then keeps the plugin classes of the utilities handled before it and loses the colour classes and the plugin variants |
| PluginLoader.AppendEach | src/Project/ConfigurationClassGenerator.cs:606-609 | the loop over the keys appends the text to every description |
| PluginLoader.AddEach | src/Project/ConfigurationClassGenerator.cs:669-707 | the loop over the `--value(...)` entries adds the format to every accepted type |
| PluginLoader.AddAttribute | src/Project/ConfigurationClassGenerator.cs:625-708 | the attribute part of the piece loop computes the attribute's effect |
| PluginLoader.AddBrace | src/Project/ConfigurationClassGenerator.cs:592-623 | the brace text, when there is one, is added to `standard` and to every description |
| PluginLoader.ApplyPiece | src/Project/ConfigurationClassGenerator.cs:587-708 | the body of the piece loop computes the corrected effect of one piece |
| PluginLoader.ParseDescription | src/Project/ConfigurationClassGenerator.cs:580-709 | the piece loop builds the description table of the trimmed description |
| PluginLoader.TypeClasses | src/Project/ConfigurationClassGenerator.cs:711-787 | the body of the type loop computes the handling of one described type |
| PluginLoader.UtilityClasses | src/Project/ConfigurationClassGenerator.cs:556-788 | the body of the plugin loop computes the classes of one utility |
| PluginLoader.TypesClasses | src/Project/ConfigurationClassGenerator.cs:711-787 | the type loop handles the described types in order |
| PluginLoader.PluginsFoldSnoc | src/Project/ConfigurationClassGenerator.cs:554-789 | the utilities are handled in order, each on the state the earlier ones left |
| PluginLoader.CollectUtilities | src/Project/ConfigurationClassGenerator.cs:551-789 | the loop over the plugin descriptions computes the plugin fold from empty |
| PluginLoader.LoadPlugins | src/Project/ConfigurationClassGenerator.cs:543-799 | from v4 on the plugin classes are rebuilt from the utilities and the generated classes are appended; before v4 the configuration's plugin classes are taken as they are; the plugin variants are always the configuration's |
| ProjectCompletion.Plain | src/Project/TailwindClass.cs:3-20 | a class made from a name alone has that name and every flag (colours, opacity, spacing, percent, fractions, numbers, arbitrary) false |
| ProjectCompletion.LastSegment | src/Project/ProjectCompletionValues.cs:60 | the segment after the last `:` is a suffix of the class name and holds no `:` |
| ProjectCompletion.StripPrefix | src/Project/ProjectCompletionValues.cs:62-72 | stripping the prefix leaves a suffix of the segment |
| ProjectCompletion.PrefixStripping | src/Project/ProjectCompletionValues.cs:62-72 | with a non-blank prefix: a segment starting with the prefix loses exactly the prefix; one starting with `-` and the prefix loses both; any other segment is looked up unchanged |
| ProjectCompletion.BlankPrefixKeepsSegment | src/Project/ProjectCompletionValues.cs:58-73 | with a blank prefix the V3 key is the last `:` segment of the `!`-trimmed class name |
| ProjectCompletion.V3KeyIsColonFreeSuffix | src/Project/ProjectCompletionValues.cs:58-73 | the V3 lookup key is a suffix of the `!`-trimmed name and holds no `:`, so variants never reach the blocklist lookup |
| ProjectCompletion.ProjectCompletionValues.constructor | src/Project/ProjectCompletionValues.cs:9-50 | a new project has the given version, every collection empty, no path and no prefix |
| ProjectCompletion.ProjectCompletionValues.FromState | src/Project/ProjectCompletionValues.cs:9-50 | the object a loader fills has exactly the field values given |
| ProjectCompletion.ProjectCompletionValues.IsClassAllowed | src/Project/ProjectCompletionValues.cs:56-76 | outside V3 a class is allowed iff it is not in the blocklist; in V3 with a blank prefix iff its last `:` segment with `!` trimmed is not; a class in the blocklist is allowed only when V3 looks up a different key |
| ProjectCompletion.ProjectCompletionValues.CopyOf | src/Project/ProjectCompletionValues.cs:80-105 | the copy carries every field of the original except the path, the applicable and not-applicable paths and the containers, which start empty |
| ProjectCompletion.ProjectCompletionValues.Copy | src/Project/ProjectCompletionValues.cs:78-106 | the copy is a fresh object with the original's values except path fields and containers, and it allows exactly the classes the original allows |
| ProjectCompletion.ProjectCompletionValues.SetFilePath | src/Project/ProjectConfigurationManager.cs:72 | setting the path changes the path and no other field |
| ConfigurationManager.KindInMeaning | src/Project/ProjectConfigurationManager.cs:424-464 | the kind picked for a variant is one whose placeholder the variant holds; none is picked only when it holds no placeholder |
| ConfigurationManager.OfKindMeaning | src/Project/ProjectConfigurationManager.cs:424-464 | a placeholder class takes its kind and no other, no arbitrary value, and takes opacity exactly when it takes colours |
| ConfigurationManager.DirectClassMeaning | src/Project/ProjectConfigurationManager.cs:413-473 | a blank variant gives the bare stem; otherwise the name starts with `stem-`; a variant with a placeholder takes that kind and holds `{0}`; one without is `stem-v` with no value |
| ConfigurationManager.DirectClasses | src/Project/ProjectConfigurationManager.cs:411-474 | one class per direct variant |
| ConfigurationManager.SubVariantClasses | src/Project/ProjectConfigurationManager.cs:482-501 | one class per variant of a sub-stem |
| ConfigurationManager.ArbitraryName | src/Project/ProjectConfigurationManager.cs:554-558 | the arbitrary entry's name ends in exactly one `-` |
| ConfigurationManager.BareTypeClasses | src/Project/ProjectConfigurationManager.cs:514-561 | a type without variants or sub-stems yields its bare class, then the arbitrary entry exactly when it takes any value |
| ConfigurationManager.BareClassMeaning | src/Project/ProjectConfigurationManager.cs:514-547 | the bare class is the plain stem when the type takes no value; otherwise it takes the first kind in source order and holds `{0}` where the stem held that placeholder |
| ConfigurationManager.ArbitraryEntry | src/Project/ProjectConfigurationManager.cs:407-561 | a type taking values ends with its arbitrary entry; the class count is direct variants plus sub-stem classes plus the bare class plus the arbitrary entry; the entry takes arbitrary values only and ends in `-` |
| ConfigurationManager.Negatives | src/Project/ProjectConfigurationManager.cs:565-583 | one negative copy per class |
| ConfigurationManager.NegativesMeaning | src/Project/ProjectConfigurationManager.cs:565-583 | each V4 negative copy is `-` before the class's name, and taking the `-` away gives back the class with every flag |
| ConfigurationManager.FlatMapMembers | src/Project/ProjectConfigurationManager.cs:407-584 | a class is in the project's list exactly when some definition yields it |
| ConfigurationManager.FlatMapSnoc | src/Project/ProjectConfigurationManager.cs:563 | one more definition appends its classes at the end |
| ConfigurationManager.FlatMapAppend | src/Project/ProjectConfigurationManager.cs:563 | the definitions' lists follow each other in order |
| ConfigurationManager.AddDirectClasses | src/Project/ProjectConfigurationManager.cs:411-474 | the loop over the direct variants builds their classes in order |
| ConfigurationManager.AddSubVariantClasses | src/Project/ProjectConfigurationManager.cs:482-501 | the loop over a sub-stem's variants builds their classes in order |
| ConfigurationManager.AddSubClasses | src/Project/ProjectConfigurationManager.cs:476-512 | the loop over the sub-stems builds each one's classes, then its arbitrary entry when it takes arbitrary values |
| ConfigurationManager.ExpandClassType | src/Project/ProjectConfigurationManager.cs:409-561 | one class type's classes are its direct classes, its sub-stem classes, the bare class when it has neither, then its arbitrary entry |
| ConfigurationManager.ExpandWithNegatives | src/Project/ProjectConfigurationManager.cs:563-583 | a type with negatives adds its classes and then their negative copies |
| ConfigurationManager.ExpandClassTypes | src/Project/ProjectConfigurationManager.cs:405-584 | the project's V4 class list is every type's classes, in order |
| ConfigurationManager.V3DirectClassMeaning | src/Project/ProjectConfigurationManager.cs:199-235 | a blank V3 variant gives the bare stem; `{s}` wins over `{c}`; a colour class takes opacity as its definition says; a variant without either takes no value |
| ConfigurationManager.V3DirectClasses | src/Project/ProjectConfigurationManager.cs:197-236 | one class per V3 direct variant |
| ConfigurationManager.V3SubsSnoc | src/Project/ProjectConfigurationManager.cs:242-284 | one more sub-stem appends its variants' classes and its placeholder class |
| ConfigurationManager.V3Negatives | src/Project/ProjectConfigurationManager.cs:309-322 | one V3 negative copy per class |
| ConfigurationManager.V3NegativesMeaning | src/Project/ProjectConfigurationManager.cs:309-322 | a V3 negative copy is `-` before the name, keeps the colour and spacing flags and drops opacity and arbitrary values |
| ConfigurationManager.AddV3DirectClasses | src/Project/ProjectConfigurationManager.cs:197-236 | the loop over a V3 definition's direct variants builds their classes in order |
| ConfigurationManager.AddV3SubClasses | src/Project/ProjectConfigurationManager.cs:238-285 | the loop over a V3 definition's sub-stems builds their classes in order |
| ConfigurationManager.ExpandV3Definition | src/Project/ProjectConfigurationManager.cs:195-305 | one V3 definition's classes are its direct classes, its sub-stem classes, then the bare class when it has neither |
| ConfigurationManager.ExpandV3WithNegatives | src/Project/ProjectConfigurationManager.cs:307-322 | a definition with negatives adds its classes and then their V3 negative copies |
| ConfigurationManager.ExpandV3Definitions | src/Project/ProjectConfigurationManager.cs:191-323 | the V3 class list is every definition's classes, in order |
| ConfigurationManager.StemNameMeaning | src/Project/ProjectConfigurationManager.cs:328-337 | a stem without `{` names itself with exactly one trailing `-`; the name is missing (the source throws) exactly when the stem has `{` and no `}` after it |
| ConfigurationManager.StemsFoldFailed | src/Project/ProjectConfigurationManager.cs:326-354 | after a failed stem the rest of an entry's stems are not loaded |
| ConfigurationManager.TableFoldFailed | src/Project/ProjectConfigurationManager.cs:324-355 | after a failed stem the rest of the table is not loaded |
| ConfigurationManager.StemsFoldFails | src/Project/ProjectConfigurationManager.cs:326-354 | an entry's stems fail to load exactly when one of them is malformed |
| ConfigurationManager.TableFoldFails | src/Project/ProjectConfigurationManager.cs:324-355 | the class stems fail to load exactly when some stem is malformed |
| ConfigurationManager.ExtendsTransitive | src/Project/ProjectConfigurationManager.cs:324-355 | keeping what was loaded is transitive |
| ConfigurationManager.StemStepExtends | src/Project/ProjectConfigurationManager.cs:339-353 | one stem only appends to the classes and variants |
| ConfigurationManager.StemsFoldExtends | src/Project/ProjectConfigurationManager.cs:326-354 | an entry's stems only append |
| ConfigurationManager.TableFoldExtends | src/Project/ProjectConfigurationManager.cs:324-355 | loading the class stems keeps every class and variant loaded before |
| ConfigurationManager.ExtendsKeepsArbitrary | src/Project/ProjectConfigurationManager.cs:345 | an arbitrary entry present before is present after |
| ConfigurationManager.StemStepAdds | src/Project/ProjectConfigurationManager.cs:343-352 | after a stem without `:` the class list holds an arbitrary entry of its name, added only when none was there |
| ConfigurationManager.StemsFoldAdds | src/Project/ProjectConfigurationManager.cs:326-354 | after an entry's stems, each stem without `:` has its arbitrary entry |
| ConfigurationManager.TableFoldAdds | src/Project/ProjectConfigurationManager.cs:324-355 | after the table, every stem without `:` has its arbitrary entry |
| ConfigurationManager.AddStems | src/Project/ProjectConfigurationManager.cs:326-354 | the loop over one entry's stems loads them in order, failing where the source throws |
| ConfigurationManager.AddArbitraryStems | src/Project/ProjectConfigurationManager.cs:324-355 | the loop over the table loads every entry's stems, failing where the source throws |
| ConfigurationManager.ThemeTableKeys | src/Project/ProjectConfigurationManager.cs:586-596 | a name is a breakpoint (container) exactly when some `--breakpoint-` (`--container-`) variable gives it |
| ConfigurationManager.ThemeTableLastWins | src/Project/ProjectConfigurationManager.cs:586-596 | the value of a name is that of the last variable giving it |
| ConfigurationManager.PrefixedName | src/Project/ProjectConfigurationManager.cs:588 | `--breakpoint-X` gives the name `X` when `X` does not itself hold the prefix |
| ConfigurationManager.ThemeTableOf | src/Project/ProjectConfigurationManager.cs:586-596 | the loop over the prefixed variables fills the table the variables define |
| ConfigurationManager.Elements | src/Project/ProjectConfigurationManager.cs:184 | the spacing set holds exactly the values of the spacing list |
| ConfigurationManager.V3TemplateMeaning | src/Project/ProjectConfigurationManager.cs:163-367 | the V3 project loads exactly when every class stem is well formed; then it has the fixed five breakpoints, its definitions' classes come first, and every stem without `:` has its arbitrary entry |
| ConfigurationManager.V4TemplateClasses | src/Project/ProjectConfigurationManager.cs:405-584 | a class is in a V4 project exactly when some class type of its version's folder yields it |
| ConfigurationManager.V4TemplateBreakpoint | src/Project/ProjectConfigurationManager.cs:586-590 | the last `--breakpoint-X` variable sets breakpoint `X` |
| ConfigurationManager.V4TemplateContainer | src/Project/ProjectConfigurationManager.cs:592-596 | the last `--container-X` variable sets container `X` |
| ConfigurationManager.BuildV3 | src/Project/ProjectConfigurationManager.cs:163-367 | the V3 loader yields a fresh project holding the V3 template, and nothing exactly when a stem makes it throw |
| ConfigurationManager.BuildV4 | src/Project/ProjectConfigurationManager.cs:369-599 | the V4 loader yields a fresh project holding its version's template |
| ConfigurationManager.Build | src/Project/ProjectConfigurationManager.cs:163-599 | the loader of a version yields a fresh project holding that version's template, or nothing exactly when the template fails |
| ConfigurationManager.IndexOfKey | src/Project/ProjectConfigurationManager.cs:53 | the position found holds the key |
| ConfigurationManager.IndexOfKeyMissing | src/Project/ProjectConfigurationManager.cs:53 | no position is found exactly when no entry has the key |
| ConfigurationManager.IndexOfKeyAppend | src/Project/ProjectConfigurationManager.cs:69 | a new key appended is found at the end |
| ConfigurationManager.ValuesAppend | src/Project/ProjectConfigurationManager.cs:121 | entries appended only add their own values |
| ConfigurationManager.HasKeysStep | src/Project/ProjectConfigurationManager.cs:69 | appending entries keeps every key found before |
| ConfigurationManager.SelectsMeaning | src/Project/ProjectConfigurationManager.cs:121-145 | for a V4 project a not-applicable folder wins over everything but its own path; an applicable folder takes the file; a V3 project takes its own path or a glob match |
| ConfigurationManager.ProjectConfigurationManager.constructor | src/Project/ProjectConfigurationManager.cs:25-40 | a new manager has no entries, no default, no unset projects and no opacity values |
| ConfigurationManager.ProjectConfigurationManager.LoadClasses | src/Project/ProjectConfigurationManager.cs:163-599 | a loaded version is left alone; otherwise the version's template is built, stored as its unset project and put last in load order, and the opacity list is read |
| ConfigurationManager.ProjectConfigurationManager.Cache | src/Project/ProjectConfigurationManager.cs:366 | storing an unset project records it under its version and last in load order |
| ConfigurationManager.ProjectConfigurationManager.GetUnsetCompletionConfiguration | src/Project/ProjectConfigurationManager.cs:80-88 | a cached unset project is returned as is; otherwise it is loaded and returned, and nothing is returned exactly when the load fails |
| ConfigurationManager.ProjectConfigurationManager.ByConfigFilePath | src/Project/ProjectConfigurationManager.cs:93-96 | the project returned is one of the entries |
| ConfigurationManager.ProjectConfigurationManager.ByConfigFilePathMeaning | src/Project/ProjectConfigurationManager.cs:93-96 | a project is returned exactly when an entry is keyed by the lower-cased path, and it is that entry's project |
| ConfigurationManager.ProjectConfigurationManager.FirstSelecting | src/Project/ProjectConfigurationManager.cs:121-145 | the position found is an entry at or after the start |
| ConfigurationManager.ProjectConfigurationManager.FirstSelectingMeaning | src/Project/ProjectConfigurationManager.cs:121-145 | no position is found exactly when no entry from the start takes the file; otherwise the entry found takes it and none before it does |
| ConfigurationManager.ProjectConfigurationManager.FindConfig | src/Project/ProjectConfigurationManager.cs:121-145 | the loop returns the project of the first entry, in insertion order, that takes the file, and nothing when none does |
| ConfigurationManager.ProjectConfigurationManager.Fallback | src/Project/ProjectConfigurationManager.cs:147-160 | the default project when there is one; else the first unset project loaded; else the V3 project, loaded |
| ConfigurationManager.ProjectConfigurationManager.ByFilePath | src/Project/ProjectConfigurationManager.cs:101-160 | a file some entry takes gets the first such entry's project and nothing is loaded; a missing path or a file no entry takes gets the default project, else the first unset project loaded, else a freshly loaded V3 project, which is nothing exactly when that load fails |
| ConfigurationManager.ProjectConfigurationManager.EnsureLoaded | src/Project/ProjectConfigurationManager.cs:62-66 | afterwards the version is loaded exactly when the result says so, and every unset project loaded before is kept |
| ConfigurationManager.ProjectConfigurationManager.CopyUnset | src/Project/ProjectConfigurationManager.cs:62-68 | a new entry's project is a fresh copy of its version's unset project; nothing when that project cannot be loaded |
| ConfigurationManager.ProjectConfigurationManager.Enter | src/Project/ProjectConfigurationManager.cs:69-74 | a new key is appended last with its project, which becomes the default |
| ConfigurationManager.ProjectConfigurationManager.Reenter | src/Project/ProjectConfigurationManager.cs:72-74 | an existing entry takes its key as its path again and becomes the default |
| ConfigurationManager.ProjectConfigurationManager.RegisterNew | src/Project/ProjectConfigurationManager.cs:55-74 | a file not seen before gets a fresh copy of its version's unset project, entered under its lower-cased path as the default; nothing changes when the copy fails |
| ConfigurationManager.ProjectConfigurationManager.Register | src/Project/ProjectConfigurationManager.cs:51-75 | after one file, its lower-cased path has an entry that is the default; an entry is added only for a path not seen before, and it is a fresh copy of the unset project of the file's version with the lower-cased path as its path; an entry found before takes that path only when it has that key, every other entry and every unset project loaded before are left as they were |
| ConfigurationManager.ProjectConfigurationManager.Revisit | src/Project/ProjectConfigurationManager.cs:72-74 | the entry of a key seen before takes the key as its path and becomes the default; the other entries and the unset projects are left as they were |
| ConfigurationManager.ProjectConfigurationManager.InitializedNext | src/Project/ProjectConfigurationManager.cs:51-77 | one more registered file extends the keys found so far by its lower-cased path and makes it the default |
| ConfigurationManager.ProjectConfigurationManager.InitializedMeaning | src/Project/ProjectConfigurationManager.cs:42-78 | once every file is through, each has an entry, the default is the last file's project (none for no files) and earlier entries are kept |
| ConfigurationManager.ProjectConfigurationManager.InitializeStep | src/Project/ProjectConfigurationManager.cs:51-77 | one pass of the loop extends what the first files established to one more file |
| ConfigurationManager.ProjectConfigurationManager.Initialize | src/Project/ProjectConfigurationManager.cs:42-78 | earlier entries are kept; on success every file has an entry, the default is the last file's project, or none for no files, and every entry added is a fresh project |
| Strings.Lower | src/Project/ProjectConfigurationManager.cs:53 | lower-casing keeps the length |
| Strings.LowerIdempotent | src/Project/ProjectConfigurationManager.cs:69-72 | lower-casing a lower-cased path changes nothing |
| Strings.IgnoreCaseMeaning | src/Project/ProjectConfigurationManager.cs:123-135 | an exact prefix is a case-insensitive one, and lower-casing either side does not change a case-insensitive comparison |
| Strings.IndexOf | src/Project/Configuration/ConfigFileParser.cs:252 | the position found is the first occurrence, and none is found exactly when the text does not occur |
| Strings.TrimBlank | src/Project/Configuration/ConfigFileParser.cs:412 | trimming leaves nothing exactly when the text is blank |
| Strings.TrimIdempotent | src/Project/Configuration/ConfigFileParser.cs:487 | trimming twice is trimming once |
| Strings.TrimChar | src/Project/CompletionConfiguration.cs:41 | the result neither starts nor ends with the trimmed character and occurs in the original |
| Strings.SplitJoin | src/Project/ProjectCompletionValues.cs:60 | joining the pieces of a split with the separator gives back the text |

## Left out

- The comparator: `SortSegment` and the CSS, JavaScript and Razor sorters are not part of this model. The sorter takes any function `sort: string -> string`.
- The regular-expression engine and its one-second timeouts. Each pattern is a deterministic scanner that tries alternatives in the engine's order. Backtracking corners are not modelled, such as a backslash before a line break inside a Razor value. `\s` and `\w` are ASCII.
- File and process I/O are given as values or parameters:
  - reading and writing files (`ClassSorter.SortAsync`, `FileFinder`);
  - `LoadJsonAsync` and the resource JSON files: the manager takes them as `Resources`, and the rank tables take them as `orderFile` / `variantOrderFile`;
  - `DirectoryVersionFinder`: `Initialize` takes the version of a configuration file as `versionOf`.
- JavaScript configuration files and the JSON object model are not part of this model:
  - `GetJavaScriptConfigurationAsync`, `GetConfigJsonNodeAsync`, `GetGlobalPackageLocationAsync` and `GetNodeModulesFromConfigFilePathAsync`, which start processes;
  - `GetTotalValue`, `GetValueKind` and `GetKeys`.

  The parsed configuration is a `TailwindConfiguration` value whose theme entries are a small datatype of strings, lists and nested tables.
- Recursive `@import`/`@config` loading: the scanner collects the import names, but the imported files are not read or merged. `DictionaryHelpers.MergeDictionaries` is a parameter `merge` of the reload.
- `PathHelper`: the scanner takes absolute-path resolution as `absolutePath`. File lookup takes `PathMatchesGlob` as `glob`.
- `BraceExpander`: the scanner takes it as `expand`.
- Culture-sensitive string comparison: `ToLower`, `ToLowerInvariant` and the case-insensitive comparisons fold ASCII letters only.
- Culture-sensitive matching: every string `IndexOf`, `StartsWith` and `EndsWith` called without a `StringComparison` compares under the current culture, which ignores zero-width characters and soft hyphens. The model matches all of them ordinally, throughout the parser, the scanner, the class generator, the project values, the manager and the HTML sorter (for instance src/Project/Configuration/ConfigFileParser.cs:244 and src/Sorters/HtmlSorter.cs:45).
- Unicode white space: `Trim()` and `string.IsNullOrWhiteSpace` treat every Unicode white-space character as blank, U+00A0 included. The model's `IsWhiteSpace` accepts the ASCII white space only.
- Unicode letters: `char.IsLetter` (src/Project/Configuration/ConfigFileParser.cs:208) accepts any Unicode letter. The model's `IsLetter` accepts the ASCII letters only.
- TrimPrefixHelper.TrimPrefix: the `StringComparison` parameter becomes `ignoreCase`. The culture-sensitive comparisons are modelled by their ordinal counterparts.
- `async`/`Task` plumbing, the `Instance` singleton, console output, `ProgressBar`, `ExceptionLogger`, `Program.cs` and `SorterAggregator`. These hold no sorting or table logic.
- Exceptions are modelled as outcomes:
  - `None` or an error `Result` for the exception the source throws;
  - `ReloadCustomAttributes` receives a failure to find the version or to parse the configuration as a `None` configuration, and then leaves the project unchanged;
  - `ByConfigFilePath` returns `None` for a missing key, where the source throws `KeyNotFoundException`.
- The loaders' object initialisers: a loader fills a fresh `ProjectCompletionValues` through the `FromState` constructor rather than field by field.
- ThemeOverrides.LoadIndividualConfigurationExtend: does not model the final `OrderBy`/`ThenBy` of the class list. That ordering parses numbers as `double`, and the model keeps the insertion order.
- ClassRegexHelper.GetClasses: the source's `SelectMany` is lazy, so a caller receives the results of the regions before a throwing one before the exception; the model returns None for the whole call.
- CompletionConfiguration.ReloadCustomAttributes: composes only the corrected plugin parse (`PluginsFold`). The partial state that the as-written throw of src/Project/ConfigurationClassGenerator.cs:614 leaves on the project is described, not modelled.
- ConfigurationManager.ProjectConfigurationManager.Initialize: does not restate, over the whole loop, what each entry holds. `Register` states it for each file: a new entry is a fresh copy of its version's unset project with the lower-cased path as its path, and an entry found before only takes its own key as its path. `Initialize` states that the entries it adds are fresh, and which entry is the default.
- ConfigurationManager.ProjectConfigurationManager.Initialize: does not model the reload of custom attributes that ends each pass of the loop (`ReloadCustomAttributesAsync`), which is modelled on its own as `CompletionConfiguration.ReloadCustomAttributes`. It also does not model the verbose console output.
- ConfigurationManager.ProjectConfigurationManager.GetUnsetCompletionConfiguration: the cached object itself is handed out. The model does not follow changes that callers make to it afterwards.
- Dictionary order is kept (as a sequence of pairs) only where the source's result depends on it. Everywhere else a dictionary is a `map` and a hash set is a `set`.

## Findings

| source | as written | input that shows it | evidently intended | confidence | as-written member | corrected member |
|---|---|---|---|---|---|---|
| src/Helpers/ClassRegexHelper.cs:160 | the quote-pair search window of each enumerator is `Math.Min(text.Length - lastQuoteMatchIndex, match.Length)` measured from the pair position, so it slides past the end of the class attribute | `class="'a'"'b'` yields the pair `'b'`, which lies outside the only class attribute | quote pairs are searched only inside the class attribute they belong to | high (proved in the model; not executed) | ClassRegexHelper.EnumeratorLeavesRegion | ClassRegexHelper.EnumeratedInsideRegions |
| src/Project/Configuration/ConfigFileParser.cs:411-413 | every piece of the `@theme` text is split with `Substring(0, IndexOf(':'))`, which throws on a piece without `:` and loses the whole stylesheet | `@keyframes spin { … }` as the last item of a `@theme` block leaves the piece `@keyframes spin` | pieces without `:` are skipped | high (proved in the model; not executed) | ConfigFileParser.KeyframesPieceFails | ConfigFileParser.ThemePairs |
| src/Project/ConfigurationClassGenerator.cs:613-616 | a piece that is just `}` (or ends with `{`) reaches `Substring(bracket.Length + 1)` past its end and throws. The exception is caught and logged (src/Project/CompletionConfiguration.cs:17-27). The paths, prefix, global values, overrides and extensions written before (src/Project/CompletionConfiguration.cs:38-57) stay on the project. The plugin classes were reset (line 551) and keep those added for the utilities handled before the throwing one (lines 570 and 783). The colour classes (line 791) and the plugin variants (line 798) are not assigned | a wildcard `@utility tab-*` whose body ends `@media (x) { tab-size: --value(integer); }` | the attribute after a bracket is empty when nothing follows it | high (proved in the model; not executed) | PluginLoader.NestedLastDeclarationThrows | PluginLoader.ClosingBraceCloses |
| src/Sorters/HtmlSorter.cs:45-48 | a match is cut at `IndexOf(classContent)`, the first occurrence of the content in the match, which can fall inside the attribute name | `<a class = "s =">` becomes `<a clas= s "s =">` | the match is cut at its content group | high (proved in the model; not executed) | HtmlSorter.SorterCutsAttributeName | HtmlSorter.GetSegmentsCorrected |
