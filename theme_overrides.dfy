/** The theme-value loaders of src/Project/ConfigurationClassGenerator.cs:
    LoadIndividualConfigurationOverride, where `theme.X` replaces the
    template's classes, variants and custom tables for every stem of X, and
    LoadIndividualConfigurationExtend, where `theme.extend.X` adds to them. */
module ThemeOverrides {
  import opened Strings
  import opened Wrappers
  import opened Versions
  import opened TailwindConfig
  import opened ProjectCompletion
  import opened GeneratorRules
  import opened ConfigurationClassGenerator

  // ------------------------------------------------------------ stem kinds

  /** How both loaders treat one stem of the stem table. */
  datatype StemKind =
    /** contains `:`; `s` is the stem with `:` trimmed from both ends */
    | VariantStem(s: string)
    /** contains `{s}`; `key` is the stem with `{s}` turned into `{0}` */
    | SpacingStem(key: string)
    /** contains `{c}`; `key` is the stem with `{c}` turned into `{0}` */
    | ColorStem(key: string)
    /** any other stem: the rule selecting the classes it describes, the
        stem new class names hang below, and the custom-table key
        `stem-{0}` the override consults */
    | ClassStem(rule: StemRule, insert: string, filterKey: string)

  /** The tests of both loaders, in their order `:`, `{s}`, `{c}`. */
  function KindOf(stem: string): StemKind {
    if Contains(stem, ":") then VariantStem(TrimChar(stem, ':'))
    else if Contains(stem, "{s}") then SpacingStem(Replace(stem, "{s}", "{0}"))
    else if Contains(stem, "{c}") then ColorStem(Replace(stem, "{c}", "{0}"))
    else ClassStem(RuleOf(stem), InsertStem(BaseStem(stem)), stem + "-{0}")
  }

  // ------------------------------------------------------------ variants

  /** The variants the override's RemoveAll drops below variant stem `s`:
      those starting with `s` with no further `-` once `s-` is removed, and
      without `[]`. */
  predicate VariantSelected(s: string, v: string) {
    StartsWith(v, s) && CountChar(Replace(v, s + "-", ""), '-') == 0 && !Contains(v, "[]")
  }

  /** `variants.RemoveAll(v => VariantSelected(s, v))`, in order. */
  function RemainingVariants(variants: seq<string>, s: string): seq<string>
    decreases |variants|
  {
    if variants == [] then []
    else (if VariantSelected(s, variants[0]) then [] else [variants[0]]) + RemainingVariants(variants[1..], s)
  }

  lemma {:induction false} RemainingVariantsMembers(variants: seq<string>, s: string, v: string)
    ensures v in RemainingVariants(variants, s) <==> v in variants && !VariantSelected(s, v)
    decreases |variants|
  {
    if variants != [] {
      RemainingVariantsMembers(variants[1..], s, v);
      assert variants == [variants[0]] + variants[1..];
    }
  }

  /** The variant each key names below `s`, in key order. */
  function VariantNames(s: string, keys: seq<string>): seq<string>
    decreases |keys|
  {
    if keys == [] then [] else [VariantNameFor(s, keys[0])] + VariantNames(s, keys[1..])
  }

  lemma {:induction false} VariantNamesMembers(s: string, keys: seq<string>, v: string)
    ensures v in VariantNames(s, keys) <==> exists k :: k in keys && v == VariantNameFor(s, k)
    decreases |keys|
  {
    if keys != [] {
      VariantNamesMembers(s, keys[1..], v);
      assert keys == [keys[0]] + keys[1..];
    }
  }

  /** `dict.Select(p => p.Key == "DEFAULT" ? "" : p.Key)`. */
  function SpacingValues(keys: seq<string>): set<string> {
    set k | k in keys :: if k == "DEFAULT" then "" else k
  }

  // ------------------------------------------------------------ override

  /** The classes of `classes` an override class stem describes: those its
      rule selects that are not arbitrary-value entries. */
  function Described(classes: seq<TailwindClass>, rule: StemRule): seq<TailwindClass>
    decreases |classes|
  {
    if classes == [] then []
    else (if Selects(rule, classes[0]) && !classes[0].hasArbitrary then [classes[0]] else []) + Described(classes[1..], rule)
  }

  lemma {:induction false} DescribedMembers(classes: seq<TailwindClass>, rule: StemRule, c: TailwindClass)
    ensures c in Described(classes, rule) <==> c in classes && Selects(rule, c) && !c.hasArbitrary
    decreases |classes|
  {
    if classes != [] {
      DescribedMembers(classes[1..], rule, c);
      assert classes == [classes[0]] + classes[1..];
    }
  }

  /** The class each key names below `s`, for the keys not excluded. */
  function OverrideClasses(s: string, keys: seq<string>, excluded: set<string>): seq<TailwindClass>
    decreases |keys|
  {
    if keys == [] then []
    else (if keys[0] in excluded then [] else [Plain(ClassNameFor(s, keys[0]))]) + OverrideClasses(s, keys[1..], excluded)
  }

  lemma {:induction false} OverrideClassesMembers(s: string, keys: seq<string>, excluded: set<string>, c: TailwindClass)
    ensures c in OverrideClasses(s, keys, excluded) <==> exists k :: k in keys && k !in excluded && c == Plain(ClassNameFor(s, k))
    decreases |keys|
  {
    if keys != [] {
      OverrideClassesMembers(s, keys[1..], excluded, c);
      assert keys == [keys[0]] + keys[1..];
    }
  }

  /** `classes.RemoveAll(remove.Contains)`, in order. */
  function Without(classes: seq<TailwindClass>, remove: seq<TailwindClass>): seq<TailwindClass>
    decreases |classes|
  {
    if classes == [] then []
    else (if classes[0] in remove then [] else [classes[0]]) + Without(classes[1..], remove)
  }

  lemma {:induction false} WithoutMembers(classes: seq<TailwindClass>, remove: seq<TailwindClass>, c: TailwindClass)
    ensures c in Without(classes, remove) <==> c in classes && c !in remove
    decreases |classes|
  {
    if classes != [] {
      WithoutMembers(classes[1..], remove, c);
      assert classes == [classes[0]] + classes[1..];
    }
  }

  /** What the override has built so far. */
  datatype Overriding = Overriding(
    variants: seq<string>,
    customSpacing: map<string, set<string>>,
    customColors: map<string, set<string>>,
    toRemove: seq<TailwindClass>,
    toAdd: seq<TailwindClass>)

  /** The keys the override leaves out below a class stem: those the custom
      spacing or colour table holds at `stem-{0}`. */
  function Excluded(st: Overriding, filterKey: string): set<string> {
    (if filterKey in st.customSpacing then st.customSpacing[filterKey] else {})
    + (if filterKey in st.customColors then st.customColors[filterKey] else {})
  }

  /** One stem of an overridden theme value. */
  function OverrideStep(st: Overriding, classes: seq<TailwindClass>, kind: StemKind, value: ConfigValue): Overriding {
    match kind
    case VariantStem(s) =>
      st.(variants := RemainingVariants(st.variants, s) + (if value.Dict? then VariantNames(s, Keys(value.entries)) else []))
    case SpacingStem(key) =>
      st.(customSpacing := st.customSpacing[key := if value.Dict? then SpacingValues(Keys(value.entries)) else {}])
    case ColorStem(key) =>
      st.(customColors := st.customColors[key := if value.Dict? then Colors(value.entries, "") else {}])
    case ClassStem(rule, insert, filterKey) =>
      st.(toRemove := st.toRemove + Described(classes, rule),
          toAdd := st.toAdd + (if value.Dict? then OverrideClasses(insert, Keys(value.entries), Excluded(st, filterKey)) else []))
  }

  /** The effect of one override step, element by element: a variant stem
      drops the variants it selects and adds one per key; a spacing or
      colour stem replaces its custom table entry; a class stem marks the
      classes it describes for removal and adds one class per key not
      excluded. */
  lemma OverrideStepMeaning(st: Overriding, classes: seq<TailwindClass>, kind: StemKind, value: ConfigValue, v: string, c: TailwindClass)
    ensures kind.VariantStem? ==>
      (v in OverrideStep(st, classes, kind, value).variants <==>
        (v in st.variants && !VariantSelected(kind.s, v))
        || (value.Dict? && exists k :: k in Keys(value.entries) && v == VariantNameFor(kind.s, k)))
    ensures kind.SpacingStem? ==>
      OverrideStep(st, classes, kind, value).customSpacing[kind.key] == (if value.Dict? then SpacingValues(Keys(value.entries)) else {})
    ensures kind.ColorStem? ==>
      OverrideStep(st, classes, kind, value).customColors[kind.key] == (if value.Dict? then Colors(value.entries, "") else {})
    ensures kind.ClassStem? ==>
      (c in OverrideStep(st, classes, kind, value).toRemove <==>
        c in st.toRemove || (c in classes && Selects(kind.rule, c) && !c.hasArbitrary))
    ensures kind.ClassStem? ==>
      (c in OverrideStep(st, classes, kind, value).toAdd <==>
        c in st.toAdd
        || (value.Dict? && exists k :: k in Keys(value.entries) && k !in Excluded(st, kind.filterKey) && c == Plain(ClassNameFor(kind.insert, k))))
  {
    match kind {
      case VariantStem(s) =>
        RemainingVariantsMembers(st.variants, s, v);
        if value.Dict? {
          VariantNamesMembers(s, Keys(value.entries), v);
        }
      case SpacingStem(_) =>
      case ColorStem(_) =>
      case ClassStem(rule, insert, filterKey) =>
        DescribedMembers(classes, rule, c);
        if value.Dict? {
          OverrideClassesMembers(insert, Keys(value.entries), Excluded(st, filterKey), c);
        }
    }
  }

  /** The stems of one overridden key. */
  function OverrideStems(st: Overriding, classes: seq<TailwindClass>, stems: seq<string>, value: ConfigValue): Overriding
    decreases |stems|
  {
    if stems == [] then st
    else OverrideStep(OverrideStems(st, classes, stems[..|stems| - 1], value), classes, KindOf(stems[|stems| - 1]), value)
  }

  /** Every applicable key, in table order. */
  function OverrideAll(st: Overriding, classes: seq<TailwindClass>, table: seq<(string, seq<string>)>, values: map<string, ConfigValue>): Overriding
    decreases |table|
  {
    if table == [] then st
    else
      var prev := OverrideAll(st, classes, table[..|table| - 1], values);
      var (key, stems) := table[|table| - 1];
      if key in values then OverrideStems(prev, classes, stems, values[key]) else prev
  }

  /** The classes after the override: the described ones removed, the new
      ones appended. */
  lemma OverriddenClassesMembers(classes: seq<TailwindClass>, st: Overriding, c: TailwindClass)
    ensures c in Without(classes, st.toRemove) + st.toAdd <==> (c in classes && c !in st.toRemove) || c in st.toAdd
  {
    WithoutMembers(classes, st.toRemove, c);
  }

  /** LoadIndividualConfigurationOverride: first the core-plugin filter,
      then every stem of every overridden key, starting from the template's
      variants and empty custom tables; the described classes are removed
      from the filtered classes and the new ones appended. */
  method LoadIndividualConfigurationOverride(project: ProjectCompletionValues, original: ProjectCompletionValues, config: TailwindConfiguration)
    modifies project`classes, project`variants, project`customSpacing, project`customColors
    ensures var classes := CorePluginClasses(old(original.classes), old(project.configurationValueToClassStems), config);
            var st := OverrideAll(Overriding(old(original.variants), map[], map[], [], []), classes,
                                  old(project.configurationValueToClassStems), config.overridenValues);
            && project.classes == Without(classes, st.toRemove) + st.toAdd
            && project.variants == st.variants
            && project.customSpacing == st.customSpacing
            && project.customColors == st.customColors
  {
    var variants, table := original.variants, project.configurationValueToClassStems;
    HandleCorePlugins(project, original, config);
    var classes := project.classes;
    var st := Overriding(variants, map[], map[], [], []);
    for i := 0 to |table|
      invariant st == OverrideAll(Overriding(variants, map[], map[], [], []), classes, table[..i], config.overridenValues)
    {
      assert table[..i + 1][..i] == table[..i];
      var (key, stems) := table[i];
      if key in config.overridenValues {
        st := OverrideKey(st, classes, stems, config.overridenValues[key]);
      }
    }
    assert table[..|table|] == table;
    project.variants, project.customSpacing, project.customColors := st.variants, st.customSpacing, st.customColors;
    project.classes := Without(classes, st.toRemove) + st.toAdd;
  }

  /** The loop over the stems of one overridden key. */
  method OverrideKey(st0: Overriding, classes: seq<TailwindClass>, stems: seq<string>, value: ConfigValue) returns (st: Overriding)
    ensures st == OverrideStems(st0, classes, stems, value)
  {
    st := st0;
    for j := 0 to |stems|
      invariant st == OverrideStems(st0, classes, stems[..j], value)
    {
      assert stems[..j + 1][..j] == stems[..j];
      st := OverrideStep(st, classes, KindOf(stems[j]), value);
    }
    assert stems[..|stems|] == stems;
  }

  // ------------------------------------------------------------ extend

  /** `if (!variants.Contains(x)) variants.Add(x)` for every item in turn. */
  function InsertAbsent(variants: seq<string>, items: seq<string>): seq<string>
    decreases |items|
  {
    if items == [] then variants
    else
      var prev := InsertAbsent(variants, items[..|items| - 1]);
      var x := items[|items| - 1];
      if x in prev then prev else prev + [x]
  }

  /** Inserting only what is absent keeps the old variants in front, holds
      every item afterwards and adds no duplicate. */
  lemma {:induction false} InsertAbsentMeaning(variants: seq<string>, items: seq<string>)
    ensures |variants| <= |InsertAbsent(variants, items)| && InsertAbsent(variants, items)[..|variants|] == variants
    ensures forall x :: x in InsertAbsent(variants, items) <==> x in variants || x in items
    ensures Distinct(variants) ==> Distinct(InsertAbsent(variants, items))
    decreases |items|
  {
    if items != [] {
      var init := items[..|items| - 1];
      InsertAbsentMeaning(variants, init);
      assert items == init + [items[|items| - 1]];
    }
  }

  /** The loop inserting each item that is absent. */
  method InsertEach(variants: seq<string>, items: seq<string>) returns (r: seq<string>)
    ensures r == InsertAbsent(variants, items)
  {
    r := variants;
    for i := 0 to |items|
      invariant r == InsertAbsent(variants, items[..i])
    {
      assert items[..i + 1][..i] == items[..i];
      if items[i] !in r {
        r := r + [items[i]];
      }
    }
    assert items[..|items|] == items;
  }

  /** The five variants a V4 screen gets. */
  function ScreenVariants(screen: string): seq<string> {
    ["not-" + screen, "max-" + screen, "min-" + screen, "@max-" + screen, "@min-" + screen]
  }

  /** Every screen's variants, screen after screen. */
  function ScreensInserted(variants: seq<string>, screens: seq<string>): seq<string>
    decreases |screens|
  {
    if screens == [] then variants
    else InsertAbsent(ScreensInserted(variants, screens[..|screens| - 1]), ScreenVariants(screens[|screens| - 1]))
  }

  /** Afterwards every screen has its five variants, nothing was lost and
      nothing is duplicated. */
  lemma {:induction false} ScreensInsertedMeaning(variants: seq<string>, screens: seq<string>)
    ensures forall v :: v in variants ==> v in ScreensInserted(variants, screens)
    ensures forall i, v :: 0 <= i < |screens| && v in ScreenVariants(screens[i]) ==> v in ScreensInserted(variants, screens)
    ensures Distinct(variants) ==> Distinct(ScreensInserted(variants, screens))
    decreases |screens|
  {
    if screens != [] {
      var n := |screens| - 1;
      var prev := ScreensInserted(variants, screens[..n]);
      ScreensInsertedMeaning(variants, screens[..n]);
      InsertAbsentMeaning(prev, ScreenVariants(screens[n]));
      forall i, v | 0 <= i < n && v in ScreenVariants(screens[i])
        ensures v in ScreensInserted(variants, screens)
      {
        assert screens[..n][i] == screens[i];
      }
    }
  }

  /** The names of the classes. */
  function Names(classes: seq<TailwindClass>): set<string> {
    set c | c in classes :: c.name
  }

  /** The classes each key names below `insert`, those with a non-blank
      name no existing class has. */
  function ExtendClasses(insert: string, keys: seq<string>, existing: set<string>): seq<TailwindClass>
    decreases |keys|
  {
    if keys == [] then []
    else
      var name := ClassNameFor(insert, keys[0]);
      (if !IsBlank(name) && name !in existing then [Plain(name)] else []) + ExtendClasses(insert, keys[1..], existing)
  }

  /** Extend adds exactly the non-blank names, not already among the
      classes, that a key names. */
  lemma {:induction false} ExtendClassesMembers(insert: string, keys: seq<string>, existing: set<string>, c: TailwindClass)
    ensures c in ExtendClasses(insert, keys, existing) <==>
      (exists k :: k in keys && c == Plain(ClassNameFor(insert, k))) && !IsBlank(c.name) && c.name !in existing
    decreases |keys|
  {
    if keys != [] {
      ExtendClassesMembers(insert, keys[1..], existing, c);
      assert keys == [keys[0]] + keys[1..];
    }
  }

  /** What the extension has built so far. */
  datatype Extending = Extending(
    variants: seq<string>,
    customSpacing: map<string, set<string>>,
    customColors: map<string, set<string>>,
    toAdd: seq<TailwindClass>)

  /** One stem of an extended theme value; `spacing`, `colors` and
      `existing` are the project's spacing, colours and class names. A
      value that is not a dictionary changes nothing. */
  function ExtendStep(st: Extending, spacing: set<string>, colors: set<string>, existing: set<string>, kind: StemKind, value: ConfigValue): Extending {
    if !value.Dict? then st
    else
      match kind
      case VariantStem(s) => st.(variants := InsertAbsent(st.variants, VariantNames(s, Keys(value.entries))))
      case SpacingStem(key) => st.(customSpacing := st.customSpacing[key := spacing + SpacingValues(Keys(value.entries))])
      case ColorStem(key) => st.(customColors := st.customColors[key := colors + Colors(value.entries, "")])
      case ClassStem(_, insert, _) => st.(toAdd := st.toAdd + ExtendClasses(insert, Keys(value.entries), existing))
  }

  function ExtendStems(st: Extending, spacing: set<string>, colors: set<string>, existing: set<string>, stems: seq<string>, value: ConfigValue): Extending
    decreases |stems|
  {
    if stems == [] then st
    else ExtendStep(ExtendStems(st, spacing, colors, existing, stems[..|stems| - 1], value), spacing, colors, existing, KindOf(stems[|stems| - 1]), value)
  }

  function ExtendAll(st: Extending, spacing: set<string>, colors: set<string>, existing: set<string>, table: seq<(string, seq<string>)>, values: map<string, ConfigValue>): Extending
    decreases |table|
  {
    if table == [] then st
    else
      var prev := ExtendAll(st, spacing, colors, existing, table[..|table| - 1], values);
      var (key, stems) := table[|table| - 1];
      if key in values then ExtendStems(prev, spacing, colors, existing, stems, values[key]) else prev
  }

  /** The invariant every extension step keeps: variants are never lost
      nor duplicated, and every class to add has a non-blank name no
      existing class has. */
  predicate Fresh(st: Extending, existing: set<string>) {
    forall c :: c in st.toAdd ==> !IsBlank(c.name) && c.name !in existing
  }

  lemma ExtendStepKeeps(st: Extending, spacing: set<string>, colors: set<string>, existing: set<string>, kind: StemKind, value: ConfigValue)
    ensures forall v :: v in st.variants ==> v in ExtendStep(st, spacing, colors, existing, kind, value).variants
    ensures Distinct(st.variants) ==> Distinct(ExtendStep(st, spacing, colors, existing, kind, value).variants)
    ensures Fresh(st, existing) ==> Fresh(ExtendStep(st, spacing, colors, existing, kind, value), existing)
  {
    if value.Dict? {
      match kind {
        case VariantStem(s) => InsertAbsentMeaning(st.variants, VariantNames(s, Keys(value.entries)));
        case SpacingStem(_) =>
        case ColorStem(_) =>
        case ClassStem(_, insert, _) =>
          forall c | c in ExtendClasses(insert, Keys(value.entries), existing)
            ensures !IsBlank(c.name) && c.name !in existing
          {
            ExtendClassesMembers(insert, Keys(value.entries), existing, c);
          }
      }
    }
  }

  lemma {:induction false} ExtendStemsKeeps(st: Extending, spacing: set<string>, colors: set<string>, existing: set<string>, stems: seq<string>, value: ConfigValue)
    ensures forall v :: v in st.variants ==> v in ExtendStems(st, spacing, colors, existing, stems, value).variants
    ensures Distinct(st.variants) ==> Distinct(ExtendStems(st, spacing, colors, existing, stems, value).variants)
    ensures Fresh(st, existing) ==> Fresh(ExtendStems(st, spacing, colors, existing, stems, value), existing)
    decreases |stems|
  {
    if stems != [] {
      var n := |stems| - 1;
      ExtendStemsKeeps(st, spacing, colors, existing, stems[..n], value);
      ExtendStepKeeps(ExtendStems(st, spacing, colors, existing, stems[..n], value), spacing, colors, existing, KindOf(stems[n]), value);
    }
  }

  /** Extending keeps every variant, adds no duplicate variant and adds
      only fresh, non-blank classes. */
  lemma {:induction false} ExtendAllKeeps(st: Extending, spacing: set<string>, colors: set<string>, existing: set<string>, table: seq<(string, seq<string>)>, values: map<string, ConfigValue>)
    ensures forall v :: v in st.variants ==> v in ExtendAll(st, spacing, colors, existing, table, values).variants
    ensures Distinct(st.variants) ==> Distinct(ExtendAll(st, spacing, colors, existing, table, values).variants)
    ensures Fresh(st, existing) ==> Fresh(ExtendAll(st, spacing, colors, existing, table, values), existing)
    decreases |table|
  {
    if table != [] {
      var n := |table| - 1;
      ExtendAllKeeps(st, spacing, colors, existing, table[..n], values);
      if table[n].0 in values {
        ExtendStemsKeeps(ExtendAll(st, spacing, colors, existing, table[..n], values), spacing, colors, existing, table[n].1, values[table[n].0]);
      }
    }
  }

  /** The variants Extend starts from: from V4 on, an extended `screens`
      dictionary first inserts its screens' variants. */
  function ScreenStart(variants: seq<string>, version: TailwindVersion, config: TailwindConfiguration): seq<string> {
    if version.AtLeast(V4) && DictionaryAt(config.extendedValues, "screens").Some?
    then ScreensInserted(variants, Keys(DictionaryAt(config.extendedValues, "screens").value))
    else variants
  }

  /** LoadIndividualConfigurationExtend: the V4 screen variants, then every
      stem of every extended key; the new classes are appended to the
      project's. */
  method LoadIndividualConfigurationExtend(project: ProjectCompletionValues, config: TailwindConfiguration)
    modifies project`classes, project`variants, project`customSpacing, project`customColors
    ensures var st := ExtendAll(Extending(ScreenStart(old(project.variants), old(project.version), config),
                                          old(project.customSpacing), old(project.customColors), []),
                                old(project.spacing), old(project.colors), Names(old(project.classes)),
                                old(project.configurationValueToClassStems), config.extendedValues);
            && project.classes == old(project.classes) + st.toAdd
            && project.variants == st.variants
            && project.customSpacing == st.customSpacing
            && project.customColors == st.customColors
  {
    var variants, table, version := project.variants, project.configurationValueToClassStems, project.version;
    var spacing, colors, classes := project.spacing, project.colors, project.classes;
    if version.AtLeast(V4) {
      match DictionaryAt(config.extendedValues, "screens") {
        case Some(screens) => variants := InsertScreens(variants, Keys(screens));
        case None =>
      }
    }
    var existing := Names(classes);
    var start := Extending(variants, project.customSpacing, project.customColors, []);
    var st := start;
    for i := 0 to |table|
      invariant st == ExtendAll(start, spacing, colors, existing, table[..i], config.extendedValues)
    {
      assert table[..i + 1][..i] == table[..i];
      var (key, stems) := table[i];
      if key in config.extendedValues {
        st := ExtendKey(st, spacing, colors, existing, stems, config.extendedValues[key]);
      }
    }
    assert table[..|table|] == table;
    project.variants, project.customSpacing, project.customColors := st.variants, st.customSpacing, st.customColors;
    project.classes := classes + st.toAdd;
  }

  /** The loop over the screens. */
  method InsertScreens(variants: seq<string>, screens: seq<string>) returns (r: seq<string>)
    ensures r == ScreensInserted(variants, screens)
  {
    r := variants;
    for i := 0 to |screens|
      invariant r == ScreensInserted(variants, screens[..i])
    {
      assert screens[..i + 1][..i] == screens[..i];
      r := InsertEach(r, ScreenVariants(screens[i]));
    }
    assert screens[..|screens|] == screens;
  }

  /** The loop over the stems of one extended key. */
  method ExtendKey(st0: Extending, spacing: set<string>, colors: set<string>, existing: set<string>, stems: seq<string>, value: ConfigValue)
    returns (st: Extending)
    ensures st == ExtendStems(st0, spacing, colors, existing, stems, value)
  {
    st := st0;
    for j := 0 to |stems|
      invariant st == ExtendStems(st0, spacing, colors, existing, stems[..j], value)
    {
      assert stems[..j + 1][..j] == stems[..j];
      st := ExtendStem(st, spacing, colors, existing, KindOf(stems[j]), value);
    }
    assert stems[..|stems|] == stems;
  }

  /** One stem: variant keys are inserted one by one when absent. */
  method ExtendStem(st: Extending, spacing: set<string>, colors: set<string>, existing: set<string>, kind: StemKind, value: ConfigValue)
    returns (r: Extending)
    ensures r == ExtendStep(st, spacing, colors, existing, kind, value)
  {
    r := st;
    if value.Dict? {
      match kind {
        case VariantStem(s) =>
          var variants := InsertEach(st.variants, VariantNames(s, Keys(value.entries)));
          r := st.(variants := variants);
        case SpacingStem(key) =>
          r := st.(customSpacing := st.customSpacing[key := spacing + SpacingValues(Keys(value.entries))]);
        case ColorStem(key) =>
          r := st.(customColors := st.customColors[key := colors + Colors(value.entries, "")]);
        case ClassStem(_, insert, _) =>
          r := st.(toAdd := st.toAdd + ExtendClasses(insert, Keys(value.entries), existing));
      }
    }
  }
}
