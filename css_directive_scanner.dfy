/** The character loop of GetCssConfigurationAsync
    (src/Project/Configuration/ConfigFileParser.cs): a state machine over the
    brace level, comments, the `@directive parameter` being read, and what
    the directives collect: `@theme` text, `@utility` and `@custom-variant`
    bodies, `@import`/`@config` paths, `@source` content paths and inline
    blocklists, and the `prefix(...)` of `@import "tailwindcss"`. */
module CssDirectiveScanner {
  import opened Strings
  import opened Wrappers
  import opened Versions
  import opened TailwindConfig
  import CssConfigSplitter

  /** What the loop takes from outside: the version, the directory of the
      stylesheet (`Path.GetDirectoryName(path)`), PathHelper.GetAbsolutePath
      and BraceExpander.Expand. */
  datatype Env = Env(
    version: TailwindVersion,
    dir: string,
    absolutePath: (string, string) -> string,
    expand: string -> seq<string>)

  /** The loop's local variables. The dictionaries are insertion-ordered. */
  datatype ScanState = ScanState(
    level: int,
    inComment: bool,
    directive: string,
    buildingDirective: bool,
    parameter: string,
    buildingParameter: bool,
    prefix: string,
    theme: string,
    utilities: seq<(string, string)>,
    variants: seq<(string, string)>,
    content: seq<string>,
    imports: seq<string>,
    blocklist: seq<string>)

  function Initial(): ScanState {
    ScanState(0, false, "", false, "", false, "", "", [], [], [], [], [])
  }

  /** A parameter with exactly one `'` or exactly one `"` has a quote open. */
  predicate QuoteOpen(p: string) {
    CountChar(p, '\'') == 1 || CountChar(p, '"') == 1
  }

  /** `IndexOfAny(['\'', '"'], from)` */
  function IndexOfQuote(s: string, from: nat): (r: int)
    ensures r == -1 || (from <= r < |s| && CssConfigSplitter.IsQuote(s[r]))
    ensures r == -1 ==> forall j :: from <= j < |s| ==> !CssConfigSplitter.IsQuote(s[j])
    ensures r != -1 ==> forall j :: from <= j < r ==> !CssConfigSplitter.IsQuote(s[j])
    decreases |s| - from
  {
    if from >= |s| then -1
    else if CssConfigSplitter.IsQuote(s[from]) then from
    else IndexOfQuote(s, from + 1)
  }

  /** The first two quote characters at or after `from`, if there are two. */
  function QuotedSpan(p: string, from: nat): (r: Option<(nat, nat)>)
    ensures r.Some? ==> from <= r.value.0 < r.value.1 < |p|
    ensures r.Some? ==> CssConfigSplitter.IsQuote(p[r.value.0]) && CssConfigSplitter.IsQuote(p[r.value.1])
    ensures r.Some? ==> forall j :: from <= j < r.value.1 && j != r.value.0 ==> !CssConfigSplitter.IsQuote(p[j])
  {
    var fq := IndexOfQuote(p, from);
    if fq == -1 then None
    else
      var sq := IndexOfQuote(p, fq + 1);
      if sq == -1 then None else Some((fq, sq))
  }

  /** The text between two quote positions, trimmed. */
  function Quoted(p: string, span: (nat, nat)): string
    requires span.0 < span.1 <= |p|
  {
    Trim(p[span.0 + 1..span.1])
  }

  /** What `@import "tailwindcss" ...` configures after the closing quote at
      `sq`. */
  datatype TailwindImportResult =
    | SourceNone                 // source(none)
    | SourcePath(path: string)   // source("path"), trimmed, not yet absolute
    | Prefix(prefix: string)     // prefix(p), trimmed
    | Incomplete                 // an unquoted source( or an unclosed prefix(
    | WholeDirectory             // neither: the stylesheet's directory is content

  /** `prefix(` occurs at `pi`, at or after `from`, and `e` is the first `)`
      after it. */
  predicate PrefixAt(p: string, from: nat, pi: int, e: int) {
    from <= pi && OccursAt(p, "prefix(", pi) && pi + 7 <= e < |p| && p[e] == ')'
    && forall j :: pi <= j < e ==> p[j] != ')'
  }

  /** A `source(...)` wins over a `prefix(...)`. */
  function TailwindImportOf(p: string, sq: nat): (r: TailwindImportResult)
    ensures r.Prefix? ==> exists pi, e :: PrefixAt(p, sq, pi, e) && r.prefix == Trim(p[pi + 7..e])
    ensures r.Prefix? || r.WholeDirectory? ==> IndexOfFrom(p, "source(", sq) == -1
    ensures r.WholeDirectory? ==> IndexOfFrom(p, "prefix(", sq) == -1
  {
    var index := IndexOfFrom(p, "source(", sq);
    if index != -1 then
      if StartsWith(Trim(p[index + 7..]), "none") then SourceNone
      else
        match QuotedSpan(p, index)
        case None => Incomplete
        case Some(span) => SourcePath(Quoted(p, span))
    else PrefixOf(p, sq)
  }

  /** The trimmed text between the first `prefix(` at or after `from` and
      the next `)`. */
  function PrefixOf(p: string, from: nat): (r: TailwindImportResult)
    ensures r.Prefix? || r.Incomplete? || r.WholeDirectory?
    ensures r.Prefix? ==> exists pi, e :: PrefixAt(p, from, pi, e) && r.prefix == Trim(p[pi + 7..e])
    ensures r.WholeDirectory? <==> IndexOfFrom(p, "prefix(", from) == -1
  {
    var prefixIndex := IndexOfFrom(p, "prefix(", from);
    if prefixIndex == -1 then WholeDirectory
    else
      var endParen := IndexOfChar(p, ')', prefixIndex);
      if endParen == -1 then Incomplete
      else
        PrefixWordUnclosed(p, prefixIndex);
        assert PrefixAt(p, from, prefixIndex, endParen);
        Prefix(Trim(p[prefixIndex + 7..endParen]))
  }

  /** `prefix(` holds no `)`, so the first `)` after it comes after its
      opening parenthesis. */
  lemma PrefixWordUnclosed(p: string, pi: int)
    requires OccursAt(p, "prefix(", pi)
    ensures forall j :: pi <= j < pi + 7 ==> p[j] != ')'
  {
    forall j | pi <= j < pi + 7
      ensures p[j] != ')'
    {
      assert p[j] == p[pi..pi + 7][j - pi];
    }
  }

  /** What an `@import` parameter configures. */
  datatype ImportResult =
    | ImportPath(path: string)                  // a quoted path other than tailwindcss
    | Tailwind(result: TailwindImportResult)    // "tailwindcss"
    | NoImport                                  // no two quotes, or a url(...)

  function ImportOf(p: string): (r: ImportResult)
    ensures r.ImportPath? ==> r.path != "tailwindcss" && !StartsWith(p, "url")
    ensures r.Tailwind? ==> exists span :: QuotedSpan(p, 0) == Some(span) && r.result == TailwindImportOf(p, span.1)
  {
    match QuotedSpan(p, 0)
    case None => NoImport
    case Some(span) =>
      var imported := Quoted(p, span);
      if imported != "tailwindcss" && !StartsWith(p, "url") then ImportPath(imported)
      else if imported == "tailwindcss" then Tailwind(TailwindImportOf(p, span.1))
      else NoImport
  }

  /** The path of `@config "...";`: quotes removed, trailing `;` trimmed. */
  function ConfigPath(p: string): string {
    Trim(TrimEndChar(Replace(Replace(p, "\"", ""), "'", ""), ';'))
  }

  predicate Parenthesised(v: string) {
    StartsWith(v, "(") && EndsWith(v, ")")
  }

  /** The text inside the outer parentheses. */
  function Unparenthesised(v: string): (r: string)
    requires Parenthesised(v)
    ensures "(" + r + ")" == v
  {
    assert v[0] == '(' && v[|v| - 1] == ')';
    assert v == [v[0]] + v[1..|v| - 1] + [v[|v| - 1]];
    v[1..|v| - 1]
  }

  /** The shorthand `@custom-variant name (body);`: the name before the
      first space and `body { @slot; }`, or None when there is no space or
      the value after it is not parenthesised. */
  function ShorthandVariant(p: string): (r: Option<(string, string)>)
    ensures (forall k :: 0 <= k < |p| ==> p[k] != ' ') ==> r.None?
    ensures r.Some? ==> FirstSpace(p, |r.value.0|) && r.value.0 == p[..|r.value.0|]
    ensures r.Some? ==> var v := Trim(p[|r.value.0| + 1..]); Parenthesised(v) && r.value.1 == Unparenthesised(v) + " { @slot; }"
  {
    var splitAt := IndexOfChar(p, ' ', 0);
    if splitAt == -1 then None
    else
      var v := Trim(p[splitAt + 1..]);
      if !Parenthesised(v) then None
      else Some((p[..splitAt], Unparenthesised(v) + " { @slot; }"))
  }

  /** A parameter whose first space is followed by a parenthesised value
      records that variant. */
  lemma ShorthandRecorded(p: string, k: int)
    requires FirstSpace(p, k) && Parenthesised(Trim(p[k + 1..]))
    ensures ShorthandVariant(p) == Some((p[..k], Unparenthesised(Trim(p[k + 1..])) + " { @slot; }"))
  {
    assert IndexOfChar(p, ' ', 0) == k;
  }

  /** `k` is the position of the first space. */
  predicate FirstSpace(p: string, k: int) {
    0 <= k < |p| && p[k] == ' ' && forall j :: 0 <= j < k ==> p[j] != ' '
  }

  /** What an `@source` parameter configures. */
  datatype SourceResult =
    | SourceContent(path: string)      // a quoted path, not yet absolute
    | Inline(items: string)            // the quoted text of inline("...")
    | Unquoted                         // fewer than two quotes: the directive stays open

  /** The parameter after an optional leading `not`, whether it was there,
      and what the rest configures. */
  function SourceOf(p: string): (r: (string, bool, SourceResult))
    ensures r.1 <==> StartsWith(p, "not")
    ensures r.2.Inline? ==> StartsWith(r.0, "inline(")
    ensures r.2.SourceContent? ==> !StartsWith(r.0, "inline(")
  {
    var negated := StartsWith(p, "not");
    var q := if negated then Trim(p[3..]) else p;
    match QuotedSpan(q, 0)
    case None => (q, negated, Unquoted)
    case Some(span) =>
      if StartsWith(q, "inline(") then (q, negated, Inline(Quoted(q, span)))
      else (q, negated, SourceContent(Quoted(q, span)))
  }

  /** A `;` ends the directive parameter: the parameter is trimmed and the
      directive interpreted. `@import`, `@config`, `@custom-variant` and an
      unquoted `@source` leave the directive open; every other directive is
      reset. The theme text, the level, the comment flag, the utilities and
      the directive-name flag are never touched. */
  function Terminate(env: Env, s: ScanState): (r: ScanState)
    ensures r.theme == s.theme && r.level == s.level && r.inComment == s.inComment
    ensures r.buildingDirective == s.buildingDirective && r.utilities == s.utilities && !r.buildingParameter
    ensures r.prefix != s.prefix ==> s.directive == "import"
    ensures r.variants != s.variants ==> s.directive == "custom-variant"
    ensures r.blocklist != s.blocklist ==> s.directive == "source" && env.version.AtLeast(V4_1)
    ensures s.directive !in {"import", "config", "custom-variant", "source"} ==> r.directive == "" && r.parameter == ""
  {
    var p := Trim(s.parameter);
    var t := s.(parameter := p, buildingParameter := false);
    if t.directive == "import" then
      match ImportOf(p)
      case ImportPath(path) => t.(imports := t.imports + ["@import" + env.absolutePath(env.dir, path)])
      case Tailwind(SourcePath(path)) => t.(content := t.content + [env.absolutePath(env.dir, path)])
      case Tailwind(Prefix(prefix)) => t.(prefix := prefix)
      case Tailwind(WholeDirectory) => t.(content := t.content + [env.dir])
      case _ => t
    else if t.directive == "config" then t.(imports := t.imports + ["@config" + env.absolutePath(env.dir, ConfigPath(p))])
    else if t.directive == "custom-variant" then
      match ShorthandVariant(p)
      case None => t
      case Some((name, body)) => t.(variants := Put(t.variants, name, body))
    else if t.directive == "source" then
      var (q, negated, result) := SourceOf(p);
      match result
      case Unquoted => t.(parameter := q)
      case Inline(items) =>
        if env.version.AtLeast(V4_1) then t.(blocklist := env.expand(items), directive := "", parameter := "")
        else t.(directive := "", parameter := "")
      case SourceContent(path) =>
        t.(content := t.content + [(if negated then "!" else "") + env.absolutePath(env.dir, path)], directive := "", parameter := "")
    else t.(directive := "", parameter := "")
  }

  /** Appends a character to a dictionary entry, creating it empty first. */
  function AppendTo(d: seq<(string, string)>, key: string, c: char): (r: seq<(string, string)>)
    ensures Lookup(r, key) == Some(Lookup(d, key).GetOr("") + [c])
    ensures forall k :: k != key ==> Lookup(r, k) == Lookup(d, k)
  {
    Put(d, key, Lookup(d, key).GetOr("") + [c])
  }

  /** The brace-level update for a character read outside a directive
      parameter; reaching level 0 clears the directive and parameter. */
  function Brace(c: char, s: ScanState): ScanState {
    if c == '{' && !s.buildingParameter then s.(level := s.level + 1)
    else if c == '}' && !s.buildingParameter then
      if s.level - 1 == 0 then s.(level := 0, directive := "", parameter := "") else s.(level := s.level - 1)
    else s
  }

  /** What a character inside a block is collected into. */
  function Collect(c: char, t: ScanState): ScanState {
    if t.directive == "theme" && t.level == 1 && c != '{' && c != '}' then t.(theme := t.theme + [c])
    else if t.directive == "utility" then t.(utilities := AppendTo(t.utilities, t.parameter, c))
    else if t.directive == "custom-variant" then t.(variants := AppendTo(t.variants, t.parameter, c))
    else t
  }

  /** A character of a directive parameter: `;` ends it, `{` outside quotes
      opens the directive's block, anything else is appended. */
  function ParameterChar(env: Env, c: char, t: ScanState): (r: ScanState)
    ensures r.theme == t.theme && r.inComment == t.inComment
    ensures r.level == if c == '{' && !QuoteOpen(t.parameter) then t.level + 1 else t.level
    ensures r.blocklist != t.blocklist ==> env.version.AtLeast(V4_1)
  {
    if c == ';' then Terminate(env, t)
    else if c == '{' && !QuoteOpen(t.parameter) then t.(parameter := Trim(t.parameter), buildingParameter := false, level := t.level + 1)
    else t.(parameter := t.parameter + [c])
  }

  /** A character outside any comment. */
  function Process(env: Env, c: char, s: ScanState): ScanState {
    var t := Brace(c, s);
    if c == '@' && t.level == 0 && !t.buildingParameter then t.(directive := "", buildingDirective := true)
    else if t.buildingDirective then
      if IsLetter(c) || c == '-' then t.(directive := t.directive + [c])
      else t.(buildingDirective := false, buildingParameter := true, parameter := "")
    else if t.buildingParameter then ParameterChar(env, c, t)
    else if t.level >= 1 then Collect(c, t)
    else t
  }

  /** A `/` may open or close a comment, except inside a parameter with an
      open quote. */
  predicate SlashCounts(text: string, i: nat, s: ScanState)
    requires i < |text|
  {
    text[i] == '/' && (!s.buildingParameter || !QuoteOpen(s.parameter))
  }

  predicate OpensComment(text: string, i: nat, s: ScanState)
    requires i < |text|
  {
    SlashCounts(text, i, s) && i + 1 < |text| && text[i + 1] == '*'
  }

  predicate ClosesComment(text: string, i: nat, s: ScanState)
    requires i < |text|
  {
    SlashCounts(text, i, s) && !OpensComment(text, i, s) && i > 0 && text[i - 1] == '*'
  }

  /** One pass of the loop, for the character at `i`. The theme text grows
      by at most that character, and only by one that is not a brace, read
      outside any comment with the theme directive open at level 1. The
      level moves by at most one: up on `{`, down on `}` read outside a
      directive parameter, and a `}` that reaches level 0 clears the
      directive and parameter. Inside a parameter only `{` changes it. */
  function Step(env: Env, text: string, i: nat, s: ScanState): (r: ScanState)
    requires i < |text|
    ensures r.theme == s.theme || r.theme == s.theme + [text[i]]
    ensures r.theme != s.theme ==> text[i] != '{' && text[i] != '}' && !s.inComment && !r.inComment && r.directive == "theme" && r.level == 1
    ensures s.inComment || OpensComment(text, i, s) ==> r.theme == s.theme
    ensures r.level == s.level || (text[i] == '{' && r.level == s.level + 1) || (text[i] == '}' && !s.buildingParameter && r.level == s.level - 1)
    ensures s.buildingParameter && text[i] != '{' ==> r.level == s.level
    ensures text[i] == '}' && r.level == 0 && r.level != s.level ==> r.directive == "" && r.parameter == ""
    ensures s.inComment && !ClosesComment(text, i, s) ==> r == s
    ensures r.blocklist != s.blocklist ==> env.version.AtLeast(V4_1)
  {
    if OpensComment(text, i, s) then s.(inComment := true)
    else if ClosesComment(text, i, s) then s.(inComment := false)
    else if s.inComment then s
    else Process(env, text[i], s)
  }

  /** The state after the first `n` characters. */
  function Run(env: Env, text: string, n: nat): ScanState
    requires n <= |text|
  {
    if n == 0 then Initial() else Step(env, text, n - 1, Run(env, text, n - 1))
  }

  /** The state after the whole stylesheet. */
  function Scan(env: Env, text: string): ScanState {
    Run(env, text, |text|)
  }

  /** The loop of lines 160-407. */
  method ScanCss(env: Env, text: string) returns (s: ScanState)
    ensures s == Scan(env, text)
  {
    s := Initial();
    for i := 0 to |text|
      invariant s == Run(env, text, i)
    {
      s := ScanChar(env, text, i, s);
    }
  }

  /** The body of the loop for the character at `i`, with `continue` as an
      early return. */
  method ScanChar(env: Env, text: string, i: nat, s: ScanState) returns (r: ScanState)
    requires i < |text|
    ensures r == Step(env, text, i, s)
  {
    r := s;
    var current := text[i];
    if current == '/' && (!r.buildingParameter || !QuoteOpen(r.parameter)) {
      if i + 1 < |text| && text[i + 1] == '*' {
        r := r.(inComment := true);
      } else if i > 0 && text[i - 1] == '*' {
        r := r.(inComment := false);
        return;
      }
    }
    if r.inComment {
      return;
    }
    r := ProcessChar(env, current, r);
  }

  /** The part of the loop body after the comment handling. */
  method ProcessChar(env: Env, current: char, s: ScanState) returns (r: ScanState)
    ensures r == Process(env, current, s)
  {
    r := s;
    if current == '{' && !r.buildingParameter {
      r := r.(level := r.level + 1);
    } else if current == '}' && !r.buildingParameter {
      r := r.(level := r.level - 1);
      if r.level == 0 {
        r := r.(directive := "", parameter := "");
      }
    }
    if current == '@' && r.level == 0 && !r.buildingParameter {
      r := r.(directive := "", buildingDirective := true);
      return;
    }
    if r.buildingDirective {
      if IsLetter(current) || current == '-' {
        r := r.(directive := r.directive + [current]);
      } else {
        r := r.(buildingDirective := false, buildingParameter := true, parameter := "");
      }
      return;
    }
    if r.buildingParameter {
      r := ReadParameterChar(env, current, r);
      return;
    }
    if r.level >= 1 {
      if r.directive == "theme" && r.level == 1 && current != '{' && current != '}' {
        r := r.(theme := r.theme + [current]);
      } else if r.directive == "utility" {
        r := r.(utilities := AppendTo(r.utilities, r.parameter, current));
      } else if r.directive == "custom-variant" {
        r := r.(variants := AppendTo(r.variants, r.parameter, current));
      }
    }
  }

  /** The directive-parameter branch of the loop body. */
  method ReadParameterChar(env: Env, current: char, s: ScanState) returns (r: ScanState)
    ensures r == ParameterChar(env, current, s)
  {
    r := s;
    if current == ';' {
      r := Terminate(env, r);
    } else if current == '{' && !QuoteOpen(r.parameter) {
      r := r.(parameter := Trim(r.parameter), buildingParameter := false, level := r.level + 1);
    } else {
      r := r.(parameter := r.parameter + [current]);
    }
  }

  /** The theme text holds no brace, however the stylesheet runs. */
  lemma {:induction false} ThemeHasNoBraces(env: Env, text: string, n: nat)
    requires n <= |text|
    ensures forall k :: 0 <= k < |Run(env, text, n).theme| ==> Run(env, text, n).theme[k] != '{' && Run(env, text, n).theme[k] != '}'
  {
    if n > 0 {
      ThemeHasNoBraces(env, text, n - 1);
    }
  }

  /** Before 4.1 the blocklist stays empty. */
  lemma {:induction false} BlocklistNeedsV41(env: Env, text: string, n: nat)
    requires n <= |text|
    requires !env.version.AtLeast(V4_1)
    ensures Run(env, text, n).blocklist == []
  {
    if n > 0 {
      BlocklistNeedsV41(env, text, n - 1);
    }
  }
}
