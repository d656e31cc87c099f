/** The loaders of src/Project/ConfigurationClassGenerator.cs (with
    `GetDictionary` of src/Project/CompletionConfiguration.cs, the other half
    of the same partial class): how a parsed configuration reshapes a
    project's completion values, starting from the unset template of its
    Tailwind CSS version. */
module ConfigurationClassGenerator {
  import opened Strings
  import opened Wrappers
  import opened Versions
  import opened TailwindConfig
  import opened ProjectCompletion
  import opened GeneratorRules

  // ------------------------------------------------------------ dictionaries

  /** GetDictionary: true and the value's entries when it is a dictionary,
      false and no entries otherwise. */
  function GetDictionary(value: ConfigValue): (r: (bool, seq<(string, ConfigValue)>))
    ensures r.0 <==> value.Dict?
    ensures r.0 ==> r.1 == value.entries
    ensures !r.0 ==> r.1 == []
  {
    match value
    case Dict(entries) => (true, entries)
    case _ => (false, [])
  }

  /** `values.TryGetValue(key, out var v) && GetDictionary(v, out var dict)`. */
  function DictionaryAt(values: map<string, ConfigValue>, key: string): (r: Option<seq<(string, ConfigValue)>>)
    ensures r.Some? <==> key in values && values[key].Dict?
    ensures r.Some? ==> r.value == values[key].entries
  {
    if key in values && GetDictionary(values[key]).0 then Some(GetDictionary(values[key]).1) else None
  }

  /** `value.ToString()`: a string is itself, a dictionary prints its type
      name, anything else its own text. */
  function ValueText(value: ConfigValue): string {
    match value
    case Str(s) => s
    case Dict(_) => "System.Collections.Generic.Dictionary`2[System.String,System.Object]"
    case Other(text) => text
  }

  /** No later entry has the key of entry `i`. */
  predicate LastWithKey<V>(entries: seq<(string, V)>, i: int)
    requires 0 <= i < |entries|
  {
    forall j :: i < j < |entries| ==> entries[j].0 != entries[i].0
  }

  /** `foreach (var pair in dict) table[pair.Key] = pair.Value.ToString()`. */
  function Assigned(table: map<string, string>, entries: seq<(string, ConfigValue)>): map<string, string>
    decreases |entries|
  {
    if entries == [] then table
    else
      var last := entries[|entries| - 1];
      Assigned(table, entries[..|entries| - 1])[last.0 := ValueText(last.1)]
  }

  /** A key is in the table afterwards iff it was before or the dictionary
      has it; a key the dictionary lacks keeps its old value. */
  lemma {:induction false} AssignedAt(table: map<string, string>, entries: seq<(string, ConfigValue)>, k: string)
    ensures k in Assigned(table, entries) <==> k in table || k in Keys(entries)
    ensures k in table && k !in Keys(entries) ==> Assigned(table, entries)[k] == table[k]
    decreases |entries|
  {
    if entries != [] {
      var init := entries[..|entries| - 1];
      AssignedAt(table, init, k);
      KeysSnoc(entries);
    }
  }

  /** The last entry with a key decides that key's text. */
  lemma {:induction false} AssignedLast(table: map<string, string>, entries: seq<(string, ConfigValue)>, i: nat)
    requires i < |entries| && LastWithKey(entries, i)
    ensures entries[i].0 in Assigned(table, entries)
    ensures Assigned(table, entries)[entries[i].0] == ValueText(entries[i].1)
    decreases |entries|
  {
    if i < |entries| - 1 {
      var init := entries[..|entries| - 1];
      assert LastWithKey(init, i);
      AssignedLast(table, init, i);
    }
  }

  /** The keys of a non-empty dictionary: those of all but its last entry,
      then the last entry's. */
  lemma KeysSnoc(entries: seq<(string, ConfigValue)>)
    requires entries != []
    ensures Keys(entries) == Keys(entries[..|entries| - 1]) + [entries[|entries| - 1].0]
  {
    var init := entries[..|entries| - 1];
    var whole, front := Keys(entries), Keys(init) + [entries[|entries| - 1].0];
    assert |whole| == |front|;
    forall i | 0 <= i < |whole|
      ensures whole[i] == front[i]
    {
      if i < |init| {
        assert front[i] == Keys(init)[i] == init[i].0;
      }
    }
  }

  /** The `foreach` loop over a dictionary's entries. */
  method AssignEach(table: map<string, string>, entries: seq<(string, ConfigValue)>) returns (r: map<string, string>)
    ensures r == Assigned(table, entries)
  {
    r := table;
    var i := 0;
    while i < |entries|
      invariant 0 <= i <= |entries|
      invariant r == Assigned(table, entries[..i])
    {
      assert entries[..i + 1][..i] == entries[..i];
      r := r[entries[i].0 := ValueText(entries[i].1)];
      i := i + 1;
    }
    assert entries[..i] == entries;
  }

  /** The keys of a dictionary, as a set. */
  function KeySet(entries: seq<(string, ConfigValue)>): (r: set<string>)
    ensures forall k :: k in r <==> k in Keys(entries)
  {
    set k | k in Keys(entries)
  }

  // ------------------------------------------------------------ colours

  /** GetColors, the recursive walk: the names of the string leaves, as
      ColorsFrom specifies them. */
  method GetColors(entries: seq<(string, ConfigValue)>, prev: string) returns (result: set<string>)
    ensures result == Colors(entries, prev)
    decreases Dict(entries)
  {
    result := {};
    var i := 0;
    while i < |entries|
      invariant 0 <= i <= |entries|
      invariant result + ColorsFrom(entries, i, prev) == Colors(entries, prev)
    {
      var (key, value) := entries[i];
      var actual := ColorName(prev, key);
      assert entries[i] in entries;
      match value {
        case Str(_) =>
          result := result + {actual};
        case Dict(variants) =>
          var nested := GetColors(variants, actual);
          result := result + nested;
        case Other(_) =>
      }
      i := i + 1;
    }
  }

  // ------------------------------------------------------------ global load

  /** The spacing, breakpoint/container and colour tables after the global
      load: an override replaces the template's table, an extension adds
      to whatever is there. */
  function GlobalSpacing(template: set<string>, config: TailwindConfiguration): set<string> {
    var base := match DictionaryAt(config.overridenValues, "spacing")
      case Some(e) => KeySet(e)
      case None => template;
    match DictionaryAt(config.extendedValues, "spacing")
    case Some(e) => base + KeySet(e)
    case None => base
  }

  function GlobalTable(template: map<string, string>, config: TailwindConfiguration, name: string): map<string, string> {
    var base := match DictionaryAt(config.overridenValues, name)
      case Some(e) => Assigned(map[], e)
      case None => template;
    match DictionaryAt(config.extendedValues, name)
    case Some(e) => Assigned(base, e)
    case None => base
  }

  function GlobalColors(template: set<string>, config: TailwindConfiguration): set<string> {
    var base := match DictionaryAt(config.overridenValues, "colors")
      case Some(e) => Colors(e, "")
      case None => template;
    match DictionaryAt(config.extendedValues, "colors")
    case Some(e) => base + Colors(e, "")
    case None => base
  }

  /** An overridden table holds exactly the overriding and extending keys;
      without an override the template's keys all stay. */
  lemma GlobalTableKeys(template: map<string, string>, config: TailwindConfiguration, name: string, k: string)
    ensures DictionaryAt(config.overridenValues, name).Some? ==>
      (k in GlobalTable(template, config, name) <==>
        k in Keys(DictionaryAt(config.overridenValues, name).value)
        || (DictionaryAt(config.extendedValues, name).Some? && k in Keys(DictionaryAt(config.extendedValues, name).value)))
    ensures DictionaryAt(config.overridenValues, name).None? && k in template ==> k in GlobalTable(template, config, name)
  {
    var base := match DictionaryAt(config.overridenValues, name)
      case Some(e) => Assigned(map[], e)
      case None => template;
    if DictionaryAt(config.overridenValues, name).Some? {
      AssignedAt(map[], DictionaryAt(config.overridenValues, name).value, k);
    }
    if DictionaryAt(config.extendedValues, name).Some? {
      AssignedAt(base, DictionaryAt(config.extendedValues, name).value, k);
    }
  }

  /** An extension entry wins over the override and the template. */
  lemma GlobalTableExtensionWins(template: map<string, string>, config: TailwindConfiguration, name: string, i: nat)
    requires DictionaryAt(config.extendedValues, name).Some?
    requires i < |DictionaryAt(config.extendedValues, name).value|
    requires LastWithKey(DictionaryAt(config.extendedValues, name).value, i)
    ensures DictionaryAt(config.extendedValues, name).value[i].0 in GlobalTable(template, config, name)
    ensures GlobalTable(template, config, name)[DictionaryAt(config.extendedValues, name).value[i].0]
      == ValueText(DictionaryAt(config.extendedValues, name).value[i].1)
  {
    var base := match DictionaryAt(config.overridenValues, name)
      case Some(e) => Assigned(map[], e)
      case None => template;
    AssignedLast(base, DictionaryAt(config.extendedValues, name).value, i);
  }

  /** The configured blocklist, or none. */
  function BlocklistOf(config: TailwindConfiguration): set<string> {
    match config.blocklist
    case Some(items) => set x | x in items
    case None => {}
  }

  /** LoadGlobalConfiguration: every theme table restarts from the unset
      template `original` and then takes the configuration's overrides and
      extensions; the blocklist is the configured one; from V4 on the CSS
      variables are the theme variables merged with the template's. The
      dictionary merge is a helper outside this model, passed as `merge`.
      No other field changes. */
  method LoadGlobalConfiguration(project: ProjectCompletionValues, original: ProjectCompletionValues,
                                 config: TailwindConfiguration,
                                 merge: (map<string, string>, seq<(string, string)>) -> seq<(string, string)>)
    modifies project`spacing, project`breakpoints, project`containers, project`colors
    modifies project`blocklist, project`cssVariables
    ensures project.spacing == GlobalSpacing(old(original.spacing), config)
    ensures project.breakpoints == GlobalTable(old(original.breakpoints), config, "screens")
    ensures project.containers == GlobalTable(old(original.containers), config, "v4-container")
    ensures project.colors == GlobalColors(old(original.colors), config)
    ensures project.blocklist == BlocklistOf(config)
    ensures project.cssVariables == if old(project.version).AtLeast(V4) then merge(config.themeVariables, old(original.cssVariables)) else old(original.cssVariables)
  {
    var spacing, breakpoints, containers := original.spacing, original.breakpoints, original.containers;
    var colors, cssVariables, version := original.colors, original.cssVariables, project.version;
    spacing := LoadSpacing(spacing, config);
    breakpoints := LoadTable(breakpoints, config, "screens");
    containers := LoadTable(containers, config, "v4-container");
    colors := LoadColors(colors, config);
    if version.AtLeast(V4) {
      cssVariables := merge(config.themeVariables, cssVariables);
    }
    project.spacing, project.breakpoints, project.containers := spacing, breakpoints, containers;
    project.colors, project.blocklist, project.cssVariables := colors, BlocklistOf(config), cssVariables;
  }

  /** The colour part of the global load. */
  method LoadColors(template: set<string>, config: TailwindConfiguration) returns (colors: set<string>)
    ensures colors == GlobalColors(template, config)
  {
    colors := template;
    match DictionaryAt(config.overridenValues, "colors") {
      case Some(dict) => colors := GetColors(dict, "");
      case None =>
    }
    match DictionaryAt(config.extendedValues, "colors") {
      case Some(dict) =>
        var more := GetColors(dict, "");
        colors := colors + more;
      case None =>
    }
  }

  /** The screens and container part of the global load: an override
      empties the table before its entries are assigned. */
  method LoadTable(template: map<string, string>, config: TailwindConfiguration, name: string) returns (table: map<string, string>)
    ensures table == GlobalTable(template, config, name)
  {
    table := template;
    match DictionaryAt(config.overridenValues, name) {
      case Some(dict) => table := AssignEach(map[], dict);
      case None =>
    }
    match DictionaryAt(config.extendedValues, name) {
      case Some(dict) => table := AssignEach(table, dict);
      case None =>
    }
  }

  /** The spacing part of the global load. */
  method LoadSpacing(template: set<string>, config: TailwindConfiguration) returns (spacing: set<string>)
    ensures spacing == GlobalSpacing(template, config)
  {
    spacing := template;
    match DictionaryAt(config.overridenValues, "spacing") {
      case Some(dict) => spacing := KeySet(dict);
      case None =>
    }
    match DictionaryAt(config.extendedValues, "spacing") {
      case Some(dict) => spacing := spacing + KeySet(dict);
      case None =>
    }
  }

  // ------------------------------------------------------------ core plugins

  /** The stems a plugin names in the stem table, none when it has no entry. */
  function StemsAt(table: seq<(string, seq<string>)>, plugin: string): seq<string> {
    match Lookup(table, plugin)
    case Some(stems) => stems
    case None => []
  }

  /** The template classes each stem selects, stem after stem. */
  function EnabledStems(original: seq<TailwindClass>, stems: seq<string>): seq<TailwindClass>
    decreases |stems|
  {
    if stems == [] then []
    else EnabledStems(original, stems[..|stems| - 1]) + Kept(original, RuleOf(stems[|stems| - 1]))
  }

  /** `enabledClasses` after the loop over the enabled plugins. */
  function EnabledFor(original: seq<TailwindClass>, table: seq<(string, seq<string>)>, plugins: seq<string>): seq<TailwindClass>
    decreases |plugins|
  {
    if plugins == [] then []
    else EnabledFor(original, table, plugins[..|plugins| - 1]) + EnabledStems(original, StemsAt(table, plugins[|plugins| - 1]))
  }

  /** The classes left after each stem has removed what it selects. */
  function RemovedStems(classes: seq<TailwindClass>, stems: seq<string>): seq<TailwindClass>
    decreases |stems|
  {
    if stems == [] then classes
    else Dropped(RemovedStems(classes, stems[..|stems| - 1]), RuleOf(stems[|stems| - 1]))
  }

  /** `enabledClasses` after the loop over the disabled plugins. */
  function RemovedFor(classes: seq<TailwindClass>, table: seq<(string, seq<string>)>, plugins: seq<string>): seq<TailwindClass>
    decreases |plugins|
  {
    if plugins == [] then classes
    else RemovedStems(RemovedFor(classes, table, plugins[..|plugins| - 1]), StemsAt(table, plugins[|plugins| - 1]))
  }

  /** Some stem of the list selects the class. */
  predicate StemsSelect(stems: seq<string>, c: TailwindClass)
    decreases |stems|
  {
    stems != [] && (StemsSelect(stems[..|stems| - 1], c) || Selects(RuleOf(stems[|stems| - 1]), c))
  }

  /** Some element of the list passes the test. */
  predicate AnyOf<T>(xs: seq<T>, test: T -> bool)
    decreases |xs|
  {
    xs != [] && (AnyOf(xs[..|xs| - 1], test) || test(xs[|xs| - 1]))
  }

  lemma {:induction false} AnyOfMeaning<T>(xs: seq<T>, test: T -> bool)
    ensures AnyOf(xs, test) <==> exists i :: 0 <= i < |xs| && test(xs[i])
    decreases |xs|
  {
    if xs != [] {
      var n := |xs| - 1;
      AnyOfMeaning(xs[..n], test);
      if AnyOf(xs[..n], test) {
        var i :| 0 <= i < n && test(xs[..n][i]);
        assert xs[..n][i] == xs[i];
      }
    }
  }

  /** Some stem of some listed plugin selects the class. */
  predicate PluginsSelect(table: seq<(string, seq<string>)>, plugins: seq<string>, c: TailwindClass) {
    AnyOf(plugins, plugin => StemsSelect(StemsAt(table, plugin), c))
  }

  lemma {:induction false} StemsSelectMeaning(stems: seq<string>, c: TailwindClass)
    ensures StemsSelect(stems, c) <==> exists stem :: stem in stems && Selects(RuleOf(stem), c)
    decreases |stems|
  {
    if stems != [] {
      var init, last := stems[..|stems| - 1], stems[|stems| - 1];
      StemsSelectMeaning(init, c);
      assert stems == init + [last];
      if exists stem :: stem in stems && Selects(RuleOf(stem), c) {
        var stem :| stem in stems && Selects(RuleOf(stem), c);
        assert stem in init || stem == last;
      }
    }
  }

  lemma PluginsSelectMeaning(table: seq<(string, seq<string>)>, plugins: seq<string>, c: TailwindClass)
    ensures PluginsSelect(table, plugins, c) <==> exists i :: 0 <= i < |plugins| && StemsSelect(StemsAt(table, plugins[i]), c)
  {
    AnyOfMeaning(plugins, plugin => StemsSelect(StemsAt(table, plugin), c));
  }

  /** An enabled class is a template class that some stem selects, and
      every such class is enabled. */
  lemma {:induction false} EnabledStemsMembers(original: seq<TailwindClass>, stems: seq<string>, c: TailwindClass)
    ensures c in EnabledStems(original, stems) <==> c in original && StemsSelect(stems, c)
    decreases |stems|
  {
    if stems != [] {
      EnabledStemsMembers(original, stems[..|stems| - 1], c);
      KeptMembers(original, RuleOf(stems[|stems| - 1]), c);
    }
  }

  /** With an enabled-plugins list, Classes holds exactly the template
      classes that a stem of an enabled plugin selects. */
  lemma {:induction false} EnabledForMembers(original: seq<TailwindClass>, table: seq<(string, seq<string>)>, plugins: seq<string>, c: TailwindClass)
    ensures c in EnabledFor(original, table, plugins) <==> c in original && PluginsSelect(table, plugins, c)
    decreases |plugins|
  {
    if plugins != [] {
      EnabledForMembers(original, table, plugins[..|plugins| - 1], c);
      EnabledStemsMembers(original, StemsAt(table, plugins[|plugins| - 1]), c);
    }
  }

  /** A class survives the disabled stems iff it was there and no stem
      selects it. */
  lemma {:induction false} RemovedStemsMembers(classes: seq<TailwindClass>, stems: seq<string>, c: TailwindClass)
    ensures c in RemovedStems(classes, stems) <==> c in classes && !StemsSelect(stems, c)
    decreases |stems|
  {
    if stems != [] {
      var init := stems[..|stems| - 1];
      RemovedStemsMembers(classes, init, c);
      DroppedMembers(RemovedStems(classes, init), RuleOf(stems[|stems| - 1]), c);
    }
  }

  /** With a disabled-plugins list, Classes holds exactly the template
      classes that no stem of a disabled plugin selects. */
  lemma {:induction false} RemovedForMembers(classes: seq<TailwindClass>, table: seq<(string, seq<string>)>, plugins: seq<string>, c: TailwindClass)
    ensures c in RemovedFor(classes, table, plugins) <==> c in classes && !PluginsSelect(table, plugins, c)
    decreases |plugins|
  {
    if plugins != [] {
      var init := plugins[..|plugins| - 1];
      RemovedForMembers(classes, table, init, c);
      RemovedStemsMembers(RemovedFor(classes, table, init), StemsAt(table, plugins[|plugins| - 1]), c);
    }
  }

  /** RemoveAll only removes: what is left is a sub-multiset. */
  lemma {:induction false} DroppedSubMultiset(classes: seq<TailwindClass>, rule: StemRule)
    ensures multiset(Dropped(classes, rule)) <= multiset(classes)
    decreases |classes|
  {
    if classes != [] {
      DroppedSubMultiset(classes[1..], rule);
      assert classes == [classes[0]] + classes[1..];
    }
  }

  lemma {:induction false} RemovedStemsSubMultiset(classes: seq<TailwindClass>, stems: seq<string>)
    ensures multiset(RemovedStems(classes, stems)) <= multiset(classes)
    decreases |stems|
  {
    if stems != [] {
      RemovedStemsSubMultiset(classes, stems[..|stems| - 1]);
      DroppedSubMultiset(RemovedStems(classes, stems[..|stems| - 1]), RuleOf(stems[|stems| - 1]));
    }
  }

  /** Disabling plugins only removes classes, never adds or duplicates. */
  lemma {:induction false} RemovedForSubMultiset(classes: seq<TailwindClass>, table: seq<(string, seq<string>)>, plugins: seq<string>)
    ensures multiset(RemovedFor(classes, table, plugins)) <= multiset(classes)
    decreases |plugins|
  {
    if plugins != [] {
      var init := plugins[..|plugins| - 1];
      RemovedForSubMultiset(classes, table, init);
      RemovedStemsSubMultiset(RemovedFor(classes, table, init), StemsAt(table, plugins[|plugins| - 1]));
    }
  }

  /** The classes HandleCorePlugins leaves: with an enabled-plugins list,
      what its stems select from the template; otherwise the template's
      classes, less what the stems of a non-empty disabled-plugins list
      select. */
  function CorePluginClasses(original: seq<TailwindClass>, table: seq<(string, seq<string>)>, config: TailwindConfiguration): seq<TailwindClass> {
    match config.enabledCorePlugins
    case Some(plugins) => EnabledFor(original, table, plugins)
    case None =>
      if config.disabledCorePlugins.Some? && |config.disabledCorePlugins.value| > 0
      then RemovedFor(original, table, config.disabledCorePlugins.value)
      else original
  }

  /** What the core-plugin lists do to the template's classes: an enabled
      list keeps exactly what its stems select, a disabled list removes
      exactly what its stems select and nothing else, and with neither the
      template is kept as it is. */
  lemma CorePluginClassesMeaning(original: seq<TailwindClass>, table: seq<(string, seq<string>)>, config: TailwindConfiguration, c: TailwindClass)
    ensures config.enabledCorePlugins.Some? ==>
      (c in CorePluginClasses(original, table, config) <==> c in original && PluginsSelect(table, config.enabledCorePlugins.value, c))
    ensures config.enabledCorePlugins.None? && config.disabledCorePlugins.Some? ==>
      (c in CorePluginClasses(original, table, config) <==> c in original && !PluginsSelect(table, config.disabledCorePlugins.value, c))
    ensures config.enabledCorePlugins.None? ==> multiset(CorePluginClasses(original, table, config)) <= multiset(original)
    ensures config.enabledCorePlugins.None? && (config.disabledCorePlugins.None? || config.disabledCorePlugins.value == []) ==>
      CorePluginClasses(original, table, config) == original
  {
    match config.enabledCorePlugins {
      case Some(plugins) => EnabledForMembers(original, table, plugins, c);
      case None =>
        if config.disabledCorePlugins.Some? {
          var plugins := config.disabledCorePlugins.value;
          RemovedForMembers(original, table, plugins, c);
          RemovedForSubMultiset(original, table, plugins);
        }
    }
  }

  /** HandleCorePlugins: Classes becomes what the core-plugin lists leave
      of the template's classes. */
  method HandleCorePlugins(project: ProjectCompletionValues, original: ProjectCompletionValues, config: TailwindConfiguration)
    modifies project`classes
    ensures project.classes == CorePluginClasses(old(original.classes), old(project.configurationValueToClassStems), config)
  {
    var template, table := original.classes, project.configurationValueToClassStems;
    var enabledClasses: seq<TailwindClass>;
    match config.enabledCorePlugins {
      case Some(plugins) =>
        enabledClasses := CollectEnabled(template, table, plugins);
      case None =>
        enabledClasses := template;
        if config.disabledCorePlugins.Some? && |config.disabledCorePlugins.value| > 0 {
          enabledClasses := RemoveDisabled(template, table, config.disabledCorePlugins.value);
        }
    }
    project.classes := enabledClasses;
  }

  /** The loop over the enabled plugins. */
  method CollectEnabled(original: seq<TailwindClass>, table: seq<(string, seq<string>)>, plugins: seq<string>)
    returns (enabledClasses: seq<TailwindClass>)
    ensures enabledClasses == EnabledFor(original, table, plugins)
  {
    enabledClasses := [];
    for i := 0 to |plugins|
      invariant enabledClasses == EnabledFor(original, table, plugins[..i])
    {
      assert plugins[..i + 1][..i] == plugins[..i];
      var selected := CollectSelected(original, StemsAt(table, plugins[i]));
      enabledClasses := enabledClasses + selected;
    }
    assert plugins[..|plugins|] == plugins;
  }

  /** The loop over one enabled plugin's stems. */
  method CollectSelected(original: seq<TailwindClass>, stems: seq<string>) returns (selected: seq<TailwindClass>)
    ensures selected == EnabledStems(original, stems)
  {
    selected := [];
    for j := 0 to |stems|
      invariant selected == EnabledStems(original, stems[..j])
    {
      assert stems[..j + 1][..j] == stems[..j];
      selected := selected + Kept(original, RuleOf(stems[j]));
    }
    assert stems[..|stems|] == stems;
  }

  /** The loop over the disabled plugins. */
  method RemoveDisabled(original: seq<TailwindClass>, table: seq<(string, seq<string>)>, plugins: seq<string>)
    returns (enabledClasses: seq<TailwindClass>)
    ensures enabledClasses == RemovedFor(original, table, plugins)
  {
    enabledClasses := original;
    for i := 0 to |plugins|
      invariant enabledClasses == RemovedFor(original, table, plugins[..i])
    {
      assert plugins[..i + 1][..i] == plugins[..i];
      enabledClasses := RemoveSelected(enabledClasses, StemsAt(table, plugins[i]));
    }
    assert plugins[..|plugins|] == plugins;
  }

  /** The loop over one disabled plugin's stems. */
  method RemoveSelected(classes: seq<TailwindClass>, stems: seq<string>) returns (left: seq<TailwindClass>)
    ensures left == RemovedStems(classes, stems)
  {
    left := classes;
    for j := 0 to |stems|
      invariant left == RemovedStems(classes, stems[..j])
    {
      assert stems[..j + 1][..j] == stems[..j];
      left := Dropped(left, RuleOf(stems[j]));
    }
    assert stems[..|stems|] == stems;
  }
}
