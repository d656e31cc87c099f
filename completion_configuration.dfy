/** src/Project/CompletionConfiguration.cs: reloading the completion values
    of one project after its configuration file changed. The content paths
    are split into applicable and excluded folders, the prefix gets its v4
    `:` separator, and then the global load, the variant de-duplication,
    the overrides, the extensions and the plugins run in that order (the
    loaders are in configuration_class_generator.dfy, theme_overrides.dfy
    and plugin_loader.dfy). */
module CompletionConfiguration {
  import opened Strings
  import opened Wrappers
  import opened Versions
  import opened TailwindConfig
  import opened ProjectCompletion
  import opened ConfigurationClassGenerator
  import opened ThemeOverrides
  import opened PluginLoader

  // ------------------------------------------------------------ content paths

  /** `ContentPaths.Where(c => !c.StartsWith('!'))` */
  function Applicable(paths: seq<string>): (r: seq<string>)
    ensures |r| <= |paths|
  {
    if paths == [] then []
    else (if StartsWith(paths[0], "!") then [] else [paths[0]]) + Applicable(paths[1..])
  }

  /** `ContentPaths.Where(c => c.StartsWith('!')).Select(c => c.Trim('!'))` */
  function NotApplicable(paths: seq<string>): (r: seq<string>)
    ensures |r| <= |paths|
  {
    if paths == [] then []
    else (if StartsWith(paths[0], "!") then [TrimChar(paths[0], '!')] else []) + NotApplicable(paths[1..])
  }

  /** Is `p` what an excluded entry of `paths` becomes? */
  predicate ExcludedAs(paths: seq<string>, p: string) {
    exists c :: c in paths && StartsWith(c, "!") && TrimChar(c, '!') == p
  }

  /** The content paths are partitioned: the ones without a leading `!` are
      applicable as they are, the others are excluded with every `!` at
      either end trimmed; each path goes to exactly one side. */
  lemma {:induction false} ContentPathsPartition(paths: seq<string>, p: string)
    ensures p in Applicable(paths) <==> p in paths && !StartsWith(p, "!")
    ensures p in NotApplicable(paths) <==> ExcludedAs(paths, p)
    ensures |Applicable(paths)| + |NotApplicable(paths)| == |paths|
  {
    if paths != [] {
      ContentPathsPartition(paths[1..], p);
      var c := paths[0];
      var a := if StartsWith(c, "!") then [] else [c];
      var n := if StartsWith(c, "!") then [TrimChar(c, '!')] else [];
      assert Applicable(paths) == a + Applicable(paths[1..]);
      assert NotApplicable(paths) == n + NotApplicable(paths[1..]);
      assert paths == [c] + paths[1..];
      if ExcludedAs(paths, p) && !ExcludedAs(paths[1..], p) {
        var x :| x in paths && StartsWith(x, "!") && TrimChar(x, '!') == p;
        assert x == c;
      }
      if ExcludedAs(paths[1..], p) {
        var x :| x in paths[1..] && StartsWith(x, "!") && TrimChar(x, '!') == p;
        assert x in paths;
      }
    }
  }

  /** An excluded folder never starts or ends with `!`. */
  lemma {:induction false} NotApplicableUnmarked(paths: seq<string>, k: nat)
    requires k < |NotApplicable(paths)|
    ensures var p := NotApplicable(paths)[k]; p == [] || (p[0] != '!' && p[|p| - 1] != '!')
  {
    var c := paths[0];
    var n := if StartsWith(c, "!") then [TrimChar(c, '!')] else [];
    assert NotApplicable(paths) == n + NotApplicable(paths[1..]);
    if k >= |n| {
      NotApplicableUnmarked(paths[1..], k - |n|);
    }
  }

  // ------------------------------------------------------------ prefix

  /** From v4 on a non-blank prefix is used as a variant, `prefix:`;
      otherwise the configured prefix is kept as it is. */
  function ProjectPrefix(version: TailwindVersion, prefix: Option<string>): (r: Option<string>)
    ensures r.Some? <==> prefix.Some?
    ensures version.AtLeast(V4) && !BlankPrefix(prefix) ==>
      |r.value| == |prefix.value| + 1 && EndsWith(r.value, ":") && StartsWith(r.value, prefix.value)
    ensures !(version.AtLeast(V4) && !BlankPrefix(prefix)) ==> r == prefix
  {
    if version.AtLeast(V4) && !BlankPrefix(prefix) then Some(prefix.value + ":") else prefix
  }

  /** Dropping the separator gives back the configured prefix. */
  lemma ProjectPrefixRoundTrip(version: TailwindVersion, prefix: Option<string>)
    requires version.AtLeast(V4) && !BlankPrefix(prefix)
    ensures var r := ProjectPrefix(version, prefix).value; Some(r[..|r| - 1]) == prefix
  {
    var r := ProjectPrefix(version, prefix).value;
    assert r[..|r| - 1] == r[..|prefix.value|];
  }

  // ------------------------------------------------------------ variants

  /** Enumerable.Distinct: the first occurrence of every value, in order. */
  function Dedup(s: seq<string>): (r: seq<string>)
    ensures |r| <= |s|
  {
    if s == [] then []
    else
      var front := Dedup(s[..|s| - 1]);
      if s[|s| - 1] in front then front else front + [s[|s| - 1]]
  }

  /** The de-duplicated list holds the same values, each once, and leaves
      a duplicate-free list as it is. */
  lemma {:induction false} DedupMeaning(s: seq<string>)
    ensures Distinct(Dedup(s))
    ensures forall x :: x in Dedup(s) <==> x in s
    ensures Distinct(s) ==> Dedup(s) == s
  {
    if s != [] {
      var front := s[..|s| - 1];
      DedupMeaning(front);
      assert s == front + [s[|s| - 1]];
      if Distinct(s) {
        assert Distinct(front);
      }
    }
  }

  // ------------------------------------------------------------ reload

  /** The classes, variants and custom tables the overrides leave, from
      the template's classes and variants. */
  function Overridden(classes: seq<TailwindClass>, variants: seq<string>, table: seq<(string, seq<string>)>,
                      config: TailwindConfiguration): Overriding
  {
    OverrideAll(Overriding(variants, map[], map[], [], []), CorePluginClasses(classes, table, config),
                table, config.overridenValues)
  }

  /** The project classes after the overrides. */
  function OverriddenClasses(classes: seq<TailwindClass>, variants: seq<string>, table: seq<(string, seq<string>)>,
                             config: TailwindConfiguration): seq<TailwindClass>
  {
    var ov := Overridden(classes, variants, table, config);
    Without(CorePluginClasses(classes, table, config), ov.toRemove) + ov.toAdd
  }

  /** What the extensions make of the overrides, given the loaded spacing
      and colours. */
  function Extended(classes: seq<TailwindClass>, variants: seq<string>, spacing: set<string>, colors: set<string>,
                    version: TailwindVersion, table: seq<(string, seq<string>)>, config: TailwindConfiguration): Extending
  {
    var ov := Overridden(classes, variants, table, config);
    ExtendAll(Extending(ScreenStart(ov.variants, version, config), ov.customSpacing, ov.customColors, []),
              spacing, colors, Names(OverriddenClasses(classes, variants, table, config)), table, config.extendedValues)
  }

  /** The CSS variables after the global load, from the template's. */
  function LoadedVariables(variables: seq<(string, string)>, version: TailwindVersion, config: TailwindConfiguration,
                           merge: (map<string, string>, seq<(string, string)>) -> seq<(string, string)>): seq<(string, string)>
  {
    if version.AtLeast(V4) then merge(config.themeVariables, variables) else variables
  }

  // ------------------------------------------------------------ the reload as a whole

  /** The first three statements of the reload: the content paths and the
      prefix, whose `:` follows the version the finder reported. */
  function WithPaths(s: ProjectState, version: TailwindVersion, config: TailwindConfiguration): ProjectState {
    s.(applicablePaths := Applicable(config.contentPaths), notApplicablePaths := NotApplicable(config.contentPaths),
       prefix := ProjectPrefix(version, config.prefix))
  }

  /** The global load from the template `t`, then the de-duplicated
      variants. */
  function GloballyLoaded(s: ProjectState, t: ProjectState, config: TailwindConfiguration,
                          merge: (map<string, string>, seq<(string, string)>) -> seq<(string, string)>): ProjectState
  {
    s.(spacing := GlobalSpacing(t.spacing, config), colors := GlobalColors(t.colors, config),
       breakpoints := GlobalTable(t.breakpoints, config, "screens"),
       containers := GlobalTable(t.containers, config, "v4-container"),
       blocklist := BlocklistOf(config), cssVariables := LoadedVariables(t.cssVariables, s.version, config, merge),
       variants := Dedup(s.variants))
  }

  /** The overrides and then the extensions, both from the template `t`. */
  function IndividuallyConfigured(s: ProjectState, t: ProjectState, config: TailwindConfiguration): ProjectState {
    var ext := Extended(t.classes, t.variants, s.spacing, s.colors, s.version, s.configurationValueToClassStems, config);
    s.(classes := OverriddenClasses(t.classes, t.variants, s.configurationValueToClassStems, config) + ext.toAdd,
       variants := ext.variants, customSpacing := ext.customSpacing, customColors := ext.customColors)
  }

  /** The plugins: from V4 on, the classes the `@utility` descriptions
      generate over the loaded CSS variables; before, the configuration's. */
  function PluginsLoaded(s: ProjectState, config: TailwindConfiguration): ProjectState {
    var gen := PluginsFold(Generated([], []), Utilities(config.pluginDescriptions), s.cssVariables);
    s.(classes := if s.version.AtLeast(V4) then s.classes + gen.classes else s.classes,
       pluginClasses := if s.version.AtLeast(V4) then gen.pluginClasses else config.pluginClasses,
       pluginVariants := config.pluginVariants)
  }

  /** The overrides, the extensions and the plugins. */
  function IndividuallyLoaded(s: ProjectState, t: ProjectState, config: TailwindConfiguration): ProjectState {
    PluginsLoaded(IndividuallyConfigured(s, t, config), config)
  }

  /** What the reload makes of state `s`, given the template `t`. */
  function Reloaded(s: ProjectState, t: ProjectState, version: TailwindVersion, config: TailwindConfiguration,
                    merge: (map<string, string>, seq<(string, string)>) -> seq<(string, string)>): ProjectState
  {
    IndividuallyLoaded(GloballyLoaded(WithPaths(s, version, config), t, config, merge), t, config)
  }

  /** Only the project's path, flag, version and stem table survive a reload:
      everything else is rebuilt from the template and the configuration. */
  lemma ReloadIgnoresPreviousValues(s1: ProjectState, s2: ProjectState, t: ProjectState, version: TailwindVersion,
                                    config: TailwindConfiguration,
                                    merge: (map<string, string>, seq<(string, string)>) -> seq<(string, string)>)
    requires s1.filePath == s2.filePath && s1.initialized == s2.initialized && s1.version == s2.version
    requires s1.configurationValueToClassStems == s2.configurationValueToClassStems
    ensures Reloaded(s1, t, version, config, merge) == Reloaded(s2, t, version, config, merge)
  {
  }

  /** Reloading twice with the same configuration gives what reloading once
      gives. */
  lemma ReloadIdempotent(s: ProjectState, t: ProjectState, version: TailwindVersion, config: TailwindConfiguration,
                         merge: (map<string, string>, seq<(string, string)>) -> seq<(string, string)>)
    ensures Reloaded(Reloaded(s, t, version, config, merge), t, version, config, merge) == Reloaded(s, t, version, config, merge)
  {
    ReloadIgnoresPreviousValues(Reloaded(s, t, version, config, merge), s, t, version, config, merge);
  }

  /** `Variants = [.. Variants.Distinct()]` leaves no trace: the overrides
      start again from the template's variants. */
  lemma DistinctLeavesNoTrace(s: ProjectState, t: ProjectState, config: TailwindConfiguration,
                              merge: (map<string, string>, seq<(string, string)>) -> seq<(string, string)>)
    ensures IndividuallyLoaded(GloballyLoaded(s, t, config, merge), t, config)
         == IndividuallyLoaded(GloballyLoaded(s, t, config, merge).(variants := s.variants), t, config)
  {
  }

  /** The content paths and the prefix. */
  method LoadPaths(project: ProjectCompletionValues, original: ProjectCompletionValues,
                   version: TailwindVersion, config: TailwindConfiguration)
    requires project != original
    modifies project`applicablePaths, project`notApplicablePaths, project`prefix
    ensures project.State() == WithPaths(old(project.State()), version, config)
    ensures original.State() == old(original.State())
  {
    project.applicablePaths := Applicable(config.contentPaths);
    project.notApplicablePaths := NotApplicable(config.contentPaths);
    project.prefix := ProjectPrefix(version, config.prefix);
  }

  /** The global load, then `Variants = [.. Variants.Distinct()]`. */
  method LoadGlobalDistinct(project: ProjectCompletionValues, original: ProjectCompletionValues,
                            config: TailwindConfiguration,
                            merge: (map<string, string>, seq<(string, string)>) -> seq<(string, string)>)
    requires project != original
    modifies project`spacing, project`breakpoints, project`containers, project`colors
    modifies project`blocklist, project`cssVariables, project`variants
    ensures project.State() == GloballyLoaded(old(project.State()), old(original.State()), config, merge)
    ensures original.State() == old(original.State())
  {
    LoadGlobalConfiguration(project, original, config, merge);
    project.variants := Dedup(project.variants);
  }

  /** LoadIndividualConfiguration: the overrides, then the extensions. */
  method LoadIndividualConfiguration(project: ProjectCompletionValues, original: ProjectCompletionValues,
                                     config: TailwindConfiguration)
    requires project != original
    modifies project`classes, project`variants, project`customSpacing, project`customColors
    ensures project.State() == IndividuallyConfigured(old(project.State()), old(original.State()), config)
  {
    LoadIndividualConfigurationOverride(project, original, config);
    LoadIndividualConfigurationExtend(project, config);
  }

  /** The overrides, the extensions and the plugins. */
  method LoadIndividualAndPlugins(project: ProjectCompletionValues, original: ProjectCompletionValues,
                                  config: TailwindConfiguration)
    requires project != original
    modifies project`classes, project`variants, project`customSpacing, project`customColors
    modifies project`pluginClasses, project`pluginVariants
    ensures project.State() == IndividuallyLoaded(old(project.State()), old(original.State()), config)
    ensures original.State() == old(original.State())
  {
    LoadIndividualConfiguration(project, original, config);
    LoadPlugins(project, config);
  }

  /** ReloadCustomAttributesImplAsync: the project takes its paths and
      prefix from the configuration and the rest from the version's unset
      template `original` run through the loaders in order. The version and
      configuration come from the version finder and the parser, outside
      this model; `merge` is the dictionary merge. */
  method ReloadCustomAttributesImpl(project: ProjectCompletionValues, original: ProjectCompletionValues,
                                    version: TailwindVersion, config: TailwindConfiguration,
                                    merge: (map<string, string>, seq<(string, string)>) -> seq<(string, string)>)
    requires project != original
    modifies project`applicablePaths, project`notApplicablePaths, project`prefix
    modifies project`spacing, project`breakpoints, project`containers, project`colors
    modifies project`blocklist, project`cssVariables, project`variants, project`classes
    modifies project`customSpacing, project`customColors, project`pluginClasses, project`pluginVariants
    ensures project.State() == Reloaded(old(project.State()), old(original.State()), version, config, merge)
  {
    LoadPaths(project, original, version, config);
    LoadGlobalDistinct(project, original, config, merge);
    LoadIndividualAndPlugins(project, original, config);
  }

  /** ReloadCustomAttributesAsync: every failure of the reload is caught and
      logged. `config` is None when finding the version or parsing the
      configuration failed (or gave no configuration); the reload then
      stops before it changes anything. */
  method ReloadCustomAttributes(project: ProjectCompletionValues, original: ProjectCompletionValues,
                                version: TailwindVersion, config: Option<TailwindConfiguration>,
                                merge: (map<string, string>, seq<(string, string)>) -> seq<(string, string)>)
    requires project != original
    modifies project`applicablePaths, project`notApplicablePaths, project`prefix
    modifies project`spacing, project`breakpoints, project`containers, project`colors
    modifies project`blocklist, project`cssVariables, project`variants, project`classes
    modifies project`customSpacing, project`customColors, project`pluginClasses, project`pluginVariants
    ensures config.None? ==> unchanged(project)
    ensures config.Some? ==> project.State() == Reloaded(old(project.State()), old(original.State()), version, config.value, merge)
  {
    if config.Some? {
      ReloadCustomAttributesImpl(project, original, version, config.value, merge);
    }
  }
}
