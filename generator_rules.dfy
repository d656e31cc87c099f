/** The value-level rules of src/Project/ConfigurationClassGenerator.cs: the
    colour names a nested colour dictionary defines (`GetColors`), how a
    configuration stem picks classes of the unset configuration, and how a
    theme key becomes a class or variant name. */
module GeneratorRules {
  import opened Strings
  import opened TailwindConfig
  import opened ProjectCompletion

  // ---------------------------------------------------------------- colours

  /** The name of `key` below a parent named `prev`: hyphen-joined, except
      that a `DEFAULT` key below the root adds nothing. */
  function ColorName(prev: string, key: string): string {
    if prev == "" || key != "DEFAULT" then (if prev != "" then prev + "-" else "") + key
    else prev
  }

  /** GetColors: the names of the string leaves of a colour dictionary whose
      parent is named `prev`. Values that are neither strings nor
      dictionaries add nothing. */
  function Colors(entries: seq<(string, ConfigValue)>, prev: string): set<string> {
    ColorsFrom(entries, 0, prev)
  }

  /** The colour names of the entries from index `i` on. */
  function ColorsFrom(entries: seq<(string, ConfigValue)>, i: nat, prev: string): set<string>
    decreases Dict(entries), |entries| - i
  {
    if i >= |entries| then {}
    else
      var actual := ColorName(prev, entries[i].0);
      assert entries[i] in entries;
      (match entries[i].1
       case Str(_) => {actual}
       case Dict(sub) => ColorsFrom(sub, 0, actual)
       case Other(_) => {})
      + ColorsFrom(entries, i + 1, prev)
  }

  /** What one entry contributes to the colour names. */
  predicate NamedBy(entry: (string, ConfigValue), prev: string, x: string) {
    match entry.1
    case Str(_) => x == ColorName(prev, entry.0)
    case Dict(sub) => x in Colors(sub, ColorName(prev, entry.0))
    case Other(_) => false
  }

  /** A colour name is exactly what some entry contributes. */
  lemma ColorsMembers(entries: seq<(string, ConfigValue)>, prev: string, x: string)
    ensures x in Colors(entries, prev) <==> exists i :: 0 <= i < |entries| && NamedBy(entries[i], prev, x)
  {
    ColorsFromMembers(entries, 0, prev, x);
  }

  lemma {:induction false} ColorsFromMembers(entries: seq<(string, ConfigValue)>, k: nat, prev: string, x: string)
    ensures x in ColorsFrom(entries, k, prev) <==> exists i :: k <= i < |entries| && NamedBy(entries[i], prev, x)
    decreases |entries| - k
  {
    if k < |entries| {
      ColorsFromMembers(entries, k + 1, prev, x);
    }
  }

  /** The colour names of two dictionaries laid end to end. */
  lemma ColorsAppend(a: seq<(string, ConfigValue)>, b: seq<(string, ConfigValue)>, prev: string)
    ensures Colors(a + b, prev) == Colors(a, prev) + Colors(b, prev)
  {
    forall x
      ensures x in Colors(a + b, prev) <==> x in Colors(a, prev) + Colors(b, prev)
    {
      ColorsMembers(a + b, prev, x);
      ColorsMembers(a, prev, x);
      ColorsMembers(b, prev, x);
      if exists i :: 0 <= i < |a + b| && NamedBy((a + b)[i], prev, x) {
        var i :| 0 <= i < |a + b| && NamedBy((a + b)[i], prev, x);
        if i >= |a| {
          assert (a + b)[i] == b[i - |a|];
        } else {
          assert (a + b)[i] == a[i];
        }
      }
      if exists i :: 0 <= i < |a| && NamedBy(a[i], prev, x) {
        var i :| 0 <= i < |a| && NamedBy(a[i], prev, x);
        assert (a + b)[i] == a[i];
      }
      if exists i :: 0 <= i < |b| && NamedBy(b[i], prev, x) {
        var i :| 0 <= i < |b| && NamedBy(b[i], prev, x);
        assert (a + b)[|a| + i] == b[i];
      }
    }
  }

  /** A string leaf is named by its hyphen-joined key path; a top-level
      `DEFAULT` leaf is named `DEFAULT`. */
  lemma StringLeafNamed(entries: seq<(string, ConfigValue)>, prev: string, i: nat)
    requires i < |entries| && entries[i].1.Str?
    ensures ColorName(prev, entries[i].0) in Colors(entries, prev)
    ensures prev == "" ==> entries[i].0 in Colors(entries, prev)
    ensures prev != "" && entries[i].0 != "DEFAULT" ==> prev + "-" + entries[i].0 in Colors(entries, prev)
  {
    ColorsMembers(entries, prev, ColorName(prev, entries[i].0));
    assert NamedBy(entries[i], prev, ColorName(prev, entries[i].0));
    if prev == "" {
      assert ColorName(prev, entries[i].0) == entries[i].0;
    }
  }

  /** A `DEFAULT` string leaf of a nested dictionary names its parent. */
  lemma NestedDefaultNamesParent(entries: seq<(string, ConfigValue)>, prev: string, i: nat, j: nat)
    requires i < |entries| && entries[i].1.Dict? && j < |entries[i].1.entries|
    requires entries[i].1.entries[j] == ("DEFAULT", entries[i].1.entries[j].1) && entries[i].1.entries[j].1.Str?
    requires prev != "" || entries[i].0 != ""
    ensures ColorName(prev, entries[i].0) in Colors(entries, prev)
  {
    var parent := ColorName(prev, entries[i].0);
    var sub := entries[i].1.entries;
    StringLeafNamed(sub, parent, j);
    ColorsMembers(entries, prev, parent);
    assert NamedBy(entries[i], prev, parent);
  }

  /** Replacing an entry by a value that is neither a string nor a
      dictionary is the same as leaving the entry out. */
  lemma OtherAddsNothing(a: seq<(string, ConfigValue)>, key: string, text: string, b: seq<(string, ConfigValue)>, prev: string)
    ensures Colors(a + [(key, Other(text))] + b, prev) == Colors(a + b, prev)
  {
    ColorsAppend(a + [(key, Other(text))], b, prev);
    ColorsAppend(a, [(key, Other(text))], prev);
    ColorsAppend(a, b, prev);
    assert Colors([(key, Other(text))], prev) == ColorsFrom([(key, Other(text))], 1, prev) == {};
  }

  /** Below a named parent, every colour name is the parent's name or
      extends it with a hyphen. */
  lemma {:induction false} ColorsExtendParent(entries: seq<(string, ConfigValue)>, prev: string, x: string)
    requires prev != "" && x in Colors(entries, prev)
    ensures x == prev || StartsWith(x, prev + "-")
    decreases Dict(entries)
  {
    ColorsMembers(entries, prev, x);
    var i :| 0 <= i < |entries| && NamedBy(entries[i], prev, x);
    var actual := ColorName(prev, entries[i].0);
    assert entries[i] in entries;
    match entries[i].1
    case Str(_) =>
      assert actual == prev || actual == prev + "-" + entries[i].0;
    case Dict(sub) =>
      assert actual == prev || actual == prev + "-" + entries[i].0;
      ColorsExtendParent(sub, actual, x);
      if actual != prev && x != actual {
        assert x[..|prev| + 1] == actual[..|prev| + 1];
      }
  }

  // ------------------------------------------------------------ stem rules

  /** The text after the last `-` of a stem is a `{a|b|...}` value list; the
      stem proper is what precedes it. */
  function ListStem(stem: string): string {
    Replace(stem, "-" + AfterLast(stem, '-'), "")
  }

  /** The values of a `{a|b|...}` list, the first one stripped of `!` and the
      list negated when it starts with `!`. */
  function ListValues(stem: string): (r: (seq<string>, bool))
    ensures |r.0| >= 1
    ensures r.1 ==> r.0[0] == [] || (r.0[0][0] != '!' && r.0[0][|r.0[0]| - 1] != '!')
  {
    var values := Split(TrimAny(AfterLast(stem, '-'), {'{', '}'}), '|');
    if StartsWith(values[0], "!") then (values[0 := TrimChar(values[0], '!')], true)
    else (values, false)
  }

  /** `s-v` for every value `v`. */
  function Hyphenated(s: string, values: seq<string>): (r: seq<string>)
    ensures |r| == |values| && forall i :: 0 <= i < |values| ==> r[i] == s + "-" + values[i]
  {
    seq(|values|, i requires 0 <= i < |values| => s + "-" + values[i])
  }

  /** How a core-plugin stem selects classes. */
  datatype StemRule =
    /** `-{*}`, `-{s}` or `-{c}`: classes starting with `s` whose colour and
        spacing flags are as given */
    | Prefixed(s: string, colors: bool, spacing: bool)
    /** `-{a|b}`: the classes `s-a`, `s-b`; `-{!a|b}`: the classes starting
        with `s` other than those */
    | Listed(s: string, names: seq<string>, negate: bool)
    /** `stem` itself or `stem-x` where `x` has no further `-` */
    | Exact(stem: string)

  /** The rule of a stem, checked in the order `{*}`, `{s}`, `{c}`, `{`. */
  function RuleOf(stem: string): StemRule {
    if Contains(stem, "{*}") then Prefixed(Replace(stem, "-{*}", ""), false, false)
    else if Contains(stem, "{s}") then Prefixed(Replace(stem, "-{s}", ""), false, true)
    else if Contains(stem, "{c}") then Prefixed(Replace(stem, "-{c}", ""), true, false)
    else if Contains(stem, "{") then
      var s := ListStem(stem);
      var (values, negate) := ListValues(stem);
      Listed(s, Hyphenated(s, values), negate)
    else Exact(stem)
  }

  /** Does the rule select the class? */
  predicate Selects(rule: StemRule, c: TailwindClass) {
    match rule
    case Prefixed(s, colors, spacing) => StartsWith(c.name, s) && c.useColors == colors && c.useSpacing == spacing
    case Listed(s, names, negate) =>
      !c.useColors && !c.useSpacing && (if negate then StartsWith(c.name, s) && c.name !in names else c.name in names)
    case Exact(stem) =>
      StartsWith(c.name, stem) && CountChar(Replace(c.name, stem + "-", ""), '-') == 0 && !c.useColors && !c.useSpacing
  }

  /** `classes.Where(rule)`, in order. */
  function Kept(classes: seq<TailwindClass>, rule: StemRule): (r: seq<TailwindClass>)
    ensures |r| <= |classes|
  {
    if classes == [] then []
    else (if Selects(rule, classes[0]) then [classes[0]] else []) + Kept(classes[1..], rule)
  }

  /** `classes.RemoveAll(rule)`, in order. */
  function Dropped(classes: seq<TailwindClass>, rule: StemRule): (r: seq<TailwindClass>)
    ensures |r| <= |classes|
  {
    if classes == [] then []
    else (if Selects(rule, classes[0]) then [] else [classes[0]]) + Dropped(classes[1..], rule)
  }

  /** Where keeps exactly the selected classes. */
  lemma {:induction false} KeptMembers(classes: seq<TailwindClass>, rule: StemRule, c: TailwindClass)
    ensures c in Kept(classes, rule) <==> c in classes && Selects(rule, c)
    decreases |classes|
  {
    if classes != [] {
      KeptMembers(classes[1..], rule, c);
      assert classes == [classes[0]] + classes[1..];
    }
  }

  /** RemoveAll keeps exactly the classes not selected. */
  lemma {:induction false} DroppedMembers(classes: seq<TailwindClass>, rule: StemRule, c: TailwindClass)
    ensures c in Dropped(classes, rule) <==> c in classes && !Selects(rule, c)
    decreases |classes|
  {
    if classes != [] {
      DroppedMembers(classes[1..], rule, c);
      assert classes == [classes[0]] + classes[1..];
    }
  }

  // ---------------------------------------------------------------- naming

  /** The stem a theme key extends, when it is neither a variant, spacing
      nor colour stem: `-{*}` and a trailing `{...}` list are dropped. */
  function BaseStem(stem: string): string {
    if Contains(stem, "{*}") then Replace(stem, "-{*}", "")
    else if Contains(stem, "{") then ListStem(stem)
    else stem
  }

  /** row-span and col-span are row and col publicly. */
  function InsertStem(s: string): string {
    if EndsWith(s, "-span") then Replace(s, "-span", "") else s
  }

  /** The class a theme key names below stem `s`. */
  function ClassNameFor(s: string, key: string): string {
    if key == "DEFAULT" then s
    else if StartsWith(key, "-") then "-" + s + "-" + key[1..]
    else s + "-" + key
  }

  /** The variant a theme key names below the variant stem `s`. */
  function VariantNameFor(s: string, key: string): string {
    if key == "DEFAULT" then s else s + "-" + key
  }

  /** The key a class name was made from: the partner of ClassNameFor. */
  function KeyOfClassName(s: string, name: string): string {
    if name == s then "DEFAULT"
    else if StartsWith(name, "-" + s + "-") then "-" + name[|s| + 2..]
    else if StartsWith(name, s + "-") then name[|s| + 1..]
    else name
  }

  /** Below a stem that does not start with `-`, the key can be read back
      from the class name: `DEFAULT` is the stem itself, `-k` is
      `-stem-k` and every other key `k` is `stem-k`. */
  lemma ClassNameKeyRoundTrip(s: string, key: string)
    requires s != [] && s[0] != '-'
    ensures KeyOfClassName(s, ClassNameFor(s, key)) == key
    ensures key == "DEFAULT" ==> ClassNameFor(s, key) == s
    ensures key != "DEFAULT" && StartsWith(key, "-") ==> ClassNameFor(s, key) == "-" + s + "-" + key[1..]
    ensures key != "DEFAULT" && !StartsWith(key, "-") ==> ClassNameFor(s, key) == s + "-" + key
  {
    var name := ClassNameFor(s, key);
    if key == "DEFAULT" {
    } else if StartsWith(key, "-") {
      assert name != s by {
        assert |name| > |s|;
      }
      assert name[..|s| + 2] == "-" + s + "-";
      assert "-" + name[|s| + 2..] == key;
    } else {
      assert name != s by {
        assert |name| > |s|;
      }
      assert !StartsWith(name, "-" + s + "-") by {
        assert name[0] == s[0];
      }
      assert name[..|s| + 1] == s + "-";
      assert name[|s| + 1..] == key;
    }
  }

  /** Distinct keys name distinct classes below such a stem. */
  lemma ClassNamesDistinct(s: string, k1: string, k2: string)
    requires s != [] && s[0] != '-' && k1 != k2
    ensures ClassNameFor(s, k1) != ClassNameFor(s, k2)
  {
    ClassNameKeyRoundTrip(s, k1);
    ClassNameKeyRoundTrip(s, k2);
  }

  /** A stem whose only `-span` is its end loses exactly that suffix. */
  lemma SpanSuffixDropped(s: string)
    requires EndsWith(s, "-span") && forall j :: 0 <= j < |s| - 5 ==> !OccursAt(s, "-span", j)
    ensures InsertStem(s) == s[..|s| - 5]
  {
    assert OccursAt(s, "-span", |s| - 5);
    assert IndexOf(s, "-span") == |s| - 5;
    FindIsIndexOf(s, "-span", 0);
    assert s[|s| - 5 + 5..] == [];
    assert Replace([], "-span", "") == [];
    assert s[..|s| - 5] + "" + [] == s[..|s| - 5];
  }
}
