/** The CSS side of src/Project/Configuration/ConfigFileParser.cs: the
    character scanner that walks a Tailwind CSS v4 stylesheet collecting
    `@import`, `@config`, `@source`, `@custom-variant`, `@utility` and the
    text of `@theme` blocks; the split of the theme text into variable/value
    pairs; and the mapping of a CSS variable to the theme namespace and the
    configuration stem it configures. */
module ConfigFileParser {
  import opened Strings
  import opened Wrappers
  import opened Versions
  import opened TailwindConfig
  import CssConfigSplitter
  import ClassRegex
  import opened CssDirectiveScanner

  // ---------------------------------------------------------------------
  // CSS variable namespaces (GetCssVariableNamespace and
  // GetConfigurationClassStemFromCssVariable)
  // ---------------------------------------------------------------------

  /** The namespace prefix of a theme variable, or None when it configures
      no theme key. */
  function CssVariableNamespace(variable: string, version: TailwindVersion): (r: Option<string>)
    ensures r.Some? ==> StartsWith(variable, r.value)
  {
    if StartsWith(variable, "--color-") then Some("--color-")
    else if StartsWith(variable, "--font-weight-") then Some("--font-weight-")
    else if StartsWith(variable, "--font-") then Some("--font-")
    else if StartsWith(variable, "--text-shadow") && version.AtLeast(V4_1) then Some("--text-shadow")
    else if StartsWith(variable, "--text-") then Some("--text-")
    else if StartsWith(variable, "--tracking-") then Some("--tracking-")
    else if StartsWith(variable, "--leading-") then Some("--leading-")
    else if StartsWith(variable, "--breakpoint-") then Some("--breakpoint-")
    else if StartsWith(variable, "--container-") then Some("--container-")
    else if StartsWith(variable, "--spacing-") then Some("--spacing-")
    else if StartsWith(variable, "--radius-") then Some("--radius-")
    else if StartsWith(variable, "--shadow-") then Some("--shadow-")
    else if StartsWith(variable, "--inset-shadow-") then Some("--inset-shadow-")
    else if StartsWith(variable, "--drop-shadow-") then Some("--drop-shadow-")
    else if StartsWith(variable, "--blur-") then Some("--blur-")
    else if StartsWith(variable, "--perspective-") then Some("--perspective-")
    else if StartsWith(variable, "--aspect-") then Some("--aspect-")
    else if StartsWith(variable, "--ease-") then Some("--ease-")
    else if StartsWith(variable, "--animate-") then Some("--animate-")
    else None
  }

  /** The configuration key (theme.____) a theme variable configures. */
  function ClassStemFromCssVariable(variable: string, version: TailwindVersion): Option<string> {
    if StartsWith(variable, "--color-") then Some("colors")
    else if StartsWith(variable, "--font-weight-") then Some("fontWeight")
    else if StartsWith(variable, "--font-") then Some("fontFamily")
    else if StartsWith(variable, "--text-shadow") && version.AtLeast(V4_1) then Some("v4_1-text-shadow")
    else if StartsWith(variable, "--text-") then Some("fontSize")
    else if StartsWith(variable, "--tracking-") then Some("letterSpacing")
    else if StartsWith(variable, "--leading-") then Some("lineHeight")
    else if StartsWith(variable, "--breakpoint-") then Some("screens")
    else if StartsWith(variable, "--container-") then Some("v4-container")
    else if StartsWith(variable, "--spacing-") then Some("spacing")
    else if StartsWith(variable, "--radius-") then Some("borderRadius")
    else if StartsWith(variable, "--shadow-") then Some("boxShadow")
    else if StartsWith(variable, "--inset-shadow-") then Some("v4-insetShadow")
    else if StartsWith(variable, "--drop-shadow-") then Some("dropShadow")
    else if StartsWith(variable, "--blur-") then Some("blur")
    else if StartsWith(variable, "--perspective-") then Some("v4-perspective")
    else if StartsWith(variable, "--aspect-") then Some("aspectRatio")
    else if StartsWith(variable, "--ease-") then Some("transitionTimingFunction")
    else if StartsWith(variable, "--animate-") then Some("animation")
    else None
  }

  /** The two chains test the same prefixes in the same order, so a variable
      has a namespace exactly when it has a configuration stem. */
  lemma NamespaceAndStemTogether(variable: string, version: TailwindVersion)
    ensures CssVariableNamespace(variable, version).None? <==> ClassStemFromCssVariable(variable, version).None?
  {
    if StartsWith(variable, "--color-") {
    } else if StartsWith(variable, "--font-weight-") {
    } else if StartsWith(variable, "--font-") {
    } else if StartsWith(variable, "--text-shadow") && version.AtLeast(V4_1) {
    } else if StartsWith(variable, "--text-") {
    } else if StartsWith(variable, "--tracking-") {
    } else if StartsWith(variable, "--leading-") {
    } else if StartsWith(variable, "--breakpoint-") {
    } else if StartsWith(variable, "--container-") {
    } else if StartsWith(variable, "--spacing-") {
    } else if StartsWith(variable, "--radius-") {
    } else if StartsWith(variable, "--shadow-") {
    } else if StartsWith(variable, "--inset-shadow-") {
    } else if StartsWith(variable, "--drop-shadow-") {
    } else if StartsWith(variable, "--blur-") {
    } else if StartsWith(variable, "--perspective-") {
    } else if StartsWith(variable, "--aspect-") {
    } else if StartsWith(variable, "--ease-") {
    } else if StartsWith(variable, "--animate-") {
    }
  }

  /** `--font-weight-` is checked before `--font-`. */
  lemma FontWeightBeforeFont(variable: string, version: TailwindVersion)
    requires StartsWith(variable, "--font-weight-")
    ensures CssVariableNamespace(variable, version) == Some("--font-weight-")
    ensures ClassStemFromCssVariable(variable, version) == Some("fontWeight")
  {
    assert !StartsWith(variable, "--color-") by {
      assert variable[2] == 'f';
    }
  }

  /** `--text-shadow` has a namespace of its own from 4.1 on; before, it is
      a font size. */
  lemma TextShadowFromV41(variable: string, version: TailwindVersion)
    requires StartsWith(variable, "--text-shadow")
    ensures version.AtLeast(V4_1) ==> ClassStemFromCssVariable(variable, version) == Some("v4_1-text-shadow")
    ensures !version.AtLeast(V4_1) ==>
      ClassStemFromCssVariable(variable, version) == Some("fontSize") && CssVariableNamespace(variable, version) == Some("--text-")
  {
    assert StartsWith(variable, "--text-") by {
      assert variable[..7] == variable[..13][..7];
    }
    assert !StartsWith(variable, "--color-") by {
      assert variable[2] == 't';
    }
    assert !StartsWith(variable, "--font-weight-") && !StartsWith(variable, "--font-") by {
      assert variable[2] == 't';
    }
  }

  // ---------------------------------------------------------------------
  // Theme pairs (lines 409-414 and 480-516)
  // ---------------------------------------------------------------------

  /** A theme piece cut at its first colon, both halves trimmed; None when
      the piece holds no colon. */
  function ThemePairOf(piece: string): (r: Option<(string, string)>)
    ensures r.None? <==> forall j :: 0 <= j < |piece| ==> piece[j] != ':'
    ensures r.Some? ==> Trim(r.value.0) == r.value.0 && Trim(r.value.1) == r.value.1
    ensures r.Some? ==> forall j :: 0 <= j < |r.value.0| ==> r.value.0[j] != ':'
  {
    var k := IndexOfChar(piece, ':', 0);
    if k == -1 then None
    else
      var before := piece[..k];
      TrimIdempotent(before);
      TrimIdempotent(piece[k + 1..]);
      ContainedAvoids(before, Trim(before), ':');
      Some((Trim(before), Trim(piece[k + 1..])))
  }

  /** The theme pairs as the source builds them: `s.Substring(0,
      s.IndexOf(':'))` throws on the first piece that holds no colon, and
      the exception ends the whole configuration load. */
  function ThemePairsAsWritten(pieces: seq<string>): (r: Result<seq<(string, string)>>)
    ensures r.Success? ==> |r.value| == |pieces|
  {
    if pieces == [] then Success([])
    else
      match ThemePairOf(pieces[0])
      case None => Failure("ArgumentOutOfRangeException: length cannot be less than zero")
      case Some(pair) =>
        var rest := ThemePairsAsWritten(pieces[1..]);
        if rest.Failure? then rest else Success([pair] + rest.value)
  }

  /** The source's pairing fails exactly when some piece holds no colon. */
  lemma {:induction false} AsWrittenFailsOnColonFreePiece(pieces: seq<string>)
    ensures ThemePairsAsWritten(pieces).Failure? <==> exists k :: 0 <= k < |pieces| && ThemePairOf(pieces[k]).None?
  {
    if pieces != [] {
      AsWrittenFailsOnColonFreePiece(pieces[1..]);
      assert forall k :: 0 < k < |pieces| ==> pieces[k] == pieces[1..][k - 1];
      if ThemePairOf(pieces[0]).Some? && exists k :: 0 <= k < |pieces| && ThemePairOf(pieces[k]).None? {
        var k :| 0 <= k < |pieces| && ThemePairOf(pieces[k]).None?;
        assert pieces[1..][k - 1] == pieces[k];
      }
    }
  }

  /** The theme pairs with pieces that hold no colon (a nested at-rule such
      as `@keyframes spin`) skipped. */
  function ThemePairs(pieces: seq<string>): (r: seq<(string, string)>)
    ensures |r| <= |pieces|
    ensures forall k :: 0 <= k < |r| ==> Trim(r[k].0) == r[k].0
  {
    if pieces == [] then []
    else
      var rest := ThemePairs(pieces[1..]);
      match ThemePairOf(pieces[0])
      case None => rest
      case Some(pair) => [pair] + rest
  }

  /** Where every piece holds a colon both readings agree. */
  lemma {:induction false} ThemePairsAgree(pieces: seq<string>)
    requires forall k :: 0 <= k < |pieces| ==> ThemePairOf(pieces[k]).Some?
    ensures ThemePairsAsWritten(pieces) == Success(ThemePairs(pieces))
  {
    if pieces != [] {
      assert forall k :: 0 <= k < |pieces[1..]| ==> pieces[1..][k] == pieces[k + 1];
      ThemePairsAgree(pieces[1..]);
    }
  }

  /** What the theme pairs configure: theme.____ and theme.extend.____
      dictionaries keyed by configuration stem, and the other variables. */
  datatype Theme = Theme(
    overridden: map<string, seq<(string, ConfigValue)>>,
    extended: map<string, seq<(string, ConfigValue)>>,
    variables: map<string, string>)

  /** What the two lookups say about a theme variable. */
  datatype Lookups = Lookups(stem: Option<string>, ns: Option<string>)

  function LookupsOf(key: string, version: TailwindVersion): (r: Lookups)
    ensures r.ns.Some? ==> StartsWith(key, r.ns.value)
    ensures r.stem.None? <==> r.ns.None?
  {
    NamespaceAndStemTogether(key, version);
    Lookups(ClassStemFromCssVariable(key, version), CssVariableNamespace(key, version))
  }

  /** The body of the theme-pair loop for one variable and value, given the
      variable's stem and namespace. Both arrive trimmed from ThemePairOf,
      so the source's second `Trim()` (lines 487, 491 and 515) is the
      identity (Strings.TrimIdempotent) and is not repeated here. */
  function ThemeStep(t: Theme, key: string, value: string, l: Lookups): Theme
    requires l.ns.Some? ==> StartsWith(key, l.ns.value)
  {
    if l.stem.None? || l.ns.None? then t.(variables := t.variables[key := value])
    else
      var valueKey := key[|l.ns.value|..];
      if EndsWith(key, "*") then
        t.(overridden := t.overridden[l.stem.value := []], extended := t.extended[l.stem.value := []])
      else if l.stem.value in t.overridden then
        t.(overridden := t.overridden[l.stem.value := Put(t.overridden[l.stem.value], valueKey, Str(value))])
      else
        var d := if l.stem.value in t.extended then t.extended[l.stem.value] else [];
        t.(extended := t.extended[l.stem.value := Put(d, valueKey, Str(value))])
  }

  /** One step: an unknown variable becomes a theme variable; a `*` key
      resets both dictionaries of its stem; any other key lands in the
      overridden dictionary when its stem has one, else in the extended one,
      under the variable name less its namespace. */
  lemma ThemeStepMeaning(t: Theme, key: string, value: string, l: Lookups)
    requires l.ns.Some? ==> StartsWith(key, l.ns.value)
    requires l.stem.None? <==> l.ns.None?
    ensures var r := ThemeStep(t, key, value, l);
      && (l.stem.None? ==>
            r.overridden == t.overridden && r.extended == t.extended && r.variables == t.variables[key := value])
      && (l.stem.Some? && EndsWith(key, "*") ==>
            r.overridden == t.overridden[l.stem.value := []] && r.extended == t.extended[l.stem.value := []])
      && (l.stem.Some? && !EndsWith(key, "*") && l.stem.value in t.overridden ==>
            key == l.ns.value + key[|l.ns.value|..]
            && r.overridden.Keys == t.overridden.Keys && r.extended == t.extended
            && Lookup(r.overridden[l.stem.value], key[|l.ns.value|..]) == Some(Str(value)))
      && (l.stem.Some? && !EndsWith(key, "*") && l.stem.value !in t.overridden ==>
            r.overridden == t.overridden && l.stem.value in r.extended
            && Lookup(r.extended[l.stem.value], key[|l.ns.value|..]) == Some(Str(value)))
  {
    if l.ns.Some? {
      assert key == key[..|l.ns.value|] + key[|l.ns.value|..];
    }
  }

  /** The theme-pair loop as a left fold over the pairs. */
  function ThemeFold(pairs: seq<(string, string)>, version: TailwindVersion): Theme
    decreases |pairs|
  {
    if pairs == [] then Theme(map[], map[], map[])
    else
      var n := |pairs| - 1;
      ThemeStep(ThemeFold(pairs[..n], version), pairs[n].0, pairs[n].1, LookupsOf(pairs[n].0, version))
  }

  /** The theme-pair loop of the source (lines 480-516). */
  method ApplyThemePairs(pairs: seq<(string, string)>, version: TailwindVersion) returns (t: Theme)
    ensures t == ThemeFold(pairs, version)
  {
    t := Theme(map[], map[], map[]);
    for i := 0 to |pairs|
      invariant t == ThemeFold(pairs[..i], version)
    {
      t := ApplyThemePair(t, pairs[i].0, pairs[i].1, LookupsOf(pairs[i].0, version));
      assert pairs[..i + 1][..i] == pairs[..i];
    }
    assert pairs[..|pairs|] == pairs;
  }

  /** One pass of the theme-pair loop, given the variable's stem and
      namespace: the dictionary updates of lines 485-515. */
  method ApplyThemePair(t0: Theme, key: string, value: string, l: Lookups) returns (t: Theme)
    requires l.ns.Some? ==> StartsWith(key, l.ns.value)
    ensures t == ThemeStep(t0, key, value, l)
  {
    t := t0;
    var stem := l.stem;
    var ns := l.ns;
    if stem.None? || ns.None? {
      t := t.(variables := t.variables[key := value]);
      return;
    }
    var valueKey := key[|ns.value|..];
    if EndsWith(key, "*") {
      t := t.(overridden := t.overridden[stem.value := []], extended := t.extended[stem.value := []]);
      return;
    }
    if stem.value in t.overridden {
      var dict := Put(t.overridden[stem.value], valueKey, Str(value));
      t := t.(overridden := t.overridden[stem.value := dict]);
    } else {
      if stem.value !in t.extended {
        t := t.(extended := t.extended[stem.value := []]);
      }
      var dict := Put(t.extended[stem.value], valueKey, Str(value));
      t := t.(extended := t.extended[stem.value := dict]);
    }
  }

  /** A stem has an overridden dictionary only when some `*` variable of
      that stem reset it. */
  lemma {:induction false} OverriddenOnlyAfterReset(pairs: seq<(string, string)>, version: TailwindVersion, stem: string)
    requires stem in ThemeFold(pairs, version).overridden
    ensures exists k :: 0 <= k < |pairs| && EndsWith(pairs[k].0, "*") && LookupsOf(pairs[k].0, version).stem == Some(stem)
    decreases |pairs|
  {
    var n := |pairs| - 1;
    var init := pairs[..n];
    var prev := ThemeFold(init, version);
    ThemeStepMeaning(prev, pairs[n].0, pairs[n].1, LookupsOf(pairs[n].0, version));
    if stem in prev.overridden {
      OverriddenOnlyAfterReset(init, version, stem);
      var k :| 0 <= k < |init| && EndsWith(init[k].0, "*") && LookupsOf(init[k].0, version).stem == Some(stem);
      assert pairs[k] == init[k];
    } else {
      assert EndsWith(pairs[n].0, "*") && LookupsOf(pairs[n].0, version).stem == Some(stem);
    }
  }

  // ---------------------------------------------------------------------
  // Assembling the configuration (lines 409-414 and 463-516)
  // ---------------------------------------------------------------------

  /** `v.Split(whitespace, RemoveEmptyEntries)`: the whitespace-free words
      of `v`, in order. */
  function Words(v: string): (r: seq<string>)
    ensures AllWords(r)
  {
    var runs := ClassRegex.NonWsRuns(v, 0);
    seq(|runs|, k requires 0 <= k < |runs| => v[runs[k].index..runs[k].End()])
  }

  /** A variant body put on one line: its words joined by single spaces. */
  function OneLine(v: string): string {
    Join(Words(v), " ")
  }

  /** No whitespace but single spaces, none at either end. */
  predicate SingleSpaced(r: string) {
    && (forall j :: 0 <= j < |r| && IsWhiteSpace(r[j]) ==> r[j] == ' ')
    && (forall j :: 0 <= j < |r| - 1 ==> !(r[j] == ' ' && r[j + 1] == ' '))
    && (r == [] || (r[0] != ' ' && r[|r| - 1] != ' '))
  }

  /** Words with no whitespace in them. */
  predicate AllWords(words: seq<string>) {
    forall k :: 0 <= k < |words| ==> words[k] != [] && forall j :: 0 <= j < |words[k]| ==> !IsWhiteSpace(words[k][j])
  }

  /** Joining whitespace-free words with single spaces leaves no whitespace
      but those spaces, and no two of them side by side. */
  lemma {:induction false} JoinedWords(words: seq<string>)
    requires AllWords(words)
    ensures SingleSpaced(Join(words, " "))
  {
    if |words| == 1 {
      assert Join(words, " ") == words[0];
    } else if |words| > 1 {
      var rest := words[1..];
      assert AllWords(rest) by {
        forall k | 0 <= k < |rest|
          ensures rest[k] == words[k + 1]
        {
        }
      }
      JoinedWords(rest);
      var r := Join(words, " ");
      var w := words[0];
      var tail := Join(rest, " ");
      assert r == w + " " + tail;
      assert tail != [] && tail[0] == rest[0][0] by {
        if |rest| == 1 {
          assert tail == rest[0];
        } else {
          assert tail == rest[0] + " " + Join(rest[1..], " ");
        }
      }
      forall j | 0 <= j < |w|
        ensures r[j] == w[j]
      {
      }
      forall j | |w| < j < |r|
        ensures r[j] == tail[j - |w| - 1]
      {
      }
      assert r[|w|] == ' ';
    }
  }

  /** OneLine leaves single spaces between words and nothing else of the
      body's whitespace. */
  lemma OneLineIsOneLine(v: string)
    ensures SingleSpaced(OneLine(v))
  {
    JoinedWords(Words(v));
  }

  /** `string.IsNullOrWhiteSpace(prefix) ? null : prefix.Trim()` */
  function PrefixSetting(prefix: string): (r: Option<string>)
    ensures r.None? <==> IsBlank(prefix)
    ensures r.Some? ==> r.value == Trim(prefix) && r.value != [] && !IsWhiteSpace(r.value[0])
  {
    TrimBlank(prefix);
    if IsBlank(prefix) then None else Some(Trim(prefix))
  }

  /** An import entry with its `@import`/`@config` tag removed. */
  function ImportName(entry: string): string {
    Replace(Replace(entry, "@import", ""), "@config", "")
  }

  /** The configuration built from the scanner's state and the theme. */
  function ConfigurationOf(s: ScanState, t: Theme): (c: TailwindConfiguration)
    ensures c.prefix == PrefixSetting(s.prefix)
    ensures c.pluginClasses == Keys(s.utilities) && c.pluginVariants == Keys(s.variants)
    ensures |c.pluginVariantDescriptions| == |s.variants|
    ensures forall k :: 0 <= k < |s.variants| ==> c.pluginVariantDescriptions[k] == (s.variants[k].0, OneLine(s.variants[k].1))
    ensures c.overridenValues.Keys == t.overridden.Keys && c.extendedValues.Keys == t.extended.Keys
    ensures c.blocklist == Some(s.blocklist) && c.enabledCorePlugins.None? && c.disabledCorePlugins.None?
  {
    TailwindConfiguration(
      s.content,
      map k | k in t.overridden :: Dict(t.overridden[k]),
      map k | k in t.extended :: Dict(t.extended[k]),
      t.variables,
      PrefixSetting(s.prefix),
      Keys(s.utilities),
      Keys(s.variants),
      s.utilities,
      seq(|s.variants|, k requires 0 <= k < |s.variants| => (s.variants[k].0, OneLine(s.variants[k].1))),
      Some(s.blocklist),
      None,
      None,
      seq(|s.imports|, k requires 0 <= k < |s.imports| => ImportName(s.imports[k])))
  }

  /** The theme pieces of a scanned stylesheet. */
  function ThemePieces(env: Env, text: string): seq<string> {
    CssConfigSplitter.Split(Scan(env, text).theme)
  }

  /** GetCssConfigurationAsync as written, imports aside: the load fails
      when a theme piece holds no colon. */
  function CssConfigurationAsWritten(env: Env, text: string): (r: Result<TailwindConfiguration>)
    ensures r.Failure? <==> exists k :: 0 <= k < |ThemePieces(env, text)| && ThemePairOf(ThemePieces(env, text)[k]).None?
  {
    var pieces := ThemePieces(env, text);
    AsWrittenFailsOnColonFreePiece(pieces);
    match ThemePairsAsWritten(pieces)
    case Failure(e) => Failure(e)
    case Success(pairs) => Success(ConfigurationOf(Scan(env, text), ThemeFold(pairs, env.version)))
  }

  /** GetCssConfigurationAsync with colon-free theme pieces skipped,
      imports aside. */
  function CssConfiguration(env: Env, text: string): TailwindConfiguration {
    ConfigurationOf(Scan(env, text), ThemeFold(ThemePairs(ThemePieces(env, text)), env.version))
  }

  /** When every theme piece holds a colon, both readings give the same
      configuration. */
  lemma CssConfigurationAgrees(env: Env, text: string)
    requires forall k :: 0 <= k < |ThemePieces(env, text)| ==> ThemePairOf(ThemePieces(env, text)[k]).Some?
    ensures CssConfigurationAsWritten(env, text) == Success(CssConfiguration(env, text))
  {
    ThemePairsAgree(ThemePieces(env, text));
  }

  /** A nested at-rule as the last item of a theme block, such as
      `@keyframes spin { ... }`, leaves the colon-free piece
      `@keyframes spin` and the source's pairing fails. */
  lemma KeyframesPieceFails()
    ensures ThemePairsAsWritten(["--animate-spin: spin 1s", "@keyframes spin"]).Failure?
  {
    ColonFreeLastPieceFails(["--animate-spin: spin 1s"], "@keyframes spin");
    assert ["--animate-spin: spin 1s"] + ["@keyframes spin"] == ["--animate-spin: spin 1s", "@keyframes spin"];
  }

  /** A colon-free last piece makes the source's pairing fail, whatever
      comes before it. */
  lemma ColonFreeLastPieceFails(init: seq<string>, last: string)
    requires forall j :: 0 <= j < |last| ==> last[j] != ':'
    ensures ThemePairsAsWritten(init + [last]).Failure?
  {
    var pieces := init + [last];
    assert pieces[|init|] == last;
    AsWrittenFailsOnColonFreePiece(pieces);
  }

  /** An `@` inside a theme block at level 1 is theme text: only an `@` at
      level 0 starts a directive. */
  lemma AtSignInThemeIsText(env: Env, text: string, i: nat, s: ScanState)
    requires i < |text| && text[i] == '@'
    requires !s.inComment && !s.buildingDirective && !s.buildingParameter
    requires s.directive == "theme" && s.level == 1
    ensures Step(env, text, i, s).theme == s.theme + ['@']
  {
  }

  /** The source's steps with the pairing corrected: scan, split the theme
      text, apply the pairs, assemble. */
  method GetCssConfiguration(env: Env, text: string) returns (config: TailwindConfiguration)
    ensures config == CssConfiguration(env, text)
  {
    var s := ScanCss(env, text);
    var pairs := ThemePairs(CssConfigSplitter.Split(s.theme));
    var theme := ApplyThemePairs(pairs, env.version);
    config := ConfigurationOf(s, theme);
  }
}
