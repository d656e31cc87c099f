/** The per-configuration completion values of
    src/Project/ProjectCompletionValues.cs: the class and variant lists, the
    theme tables, the prefix and the blocklist of one Tailwind CSS project,
    with the blocklist check and the copy taken from a version's unset
    template. Lists, sets and dictionaries are fields holding values, so a
    copy never shares a collection with its original. */
module ProjectCompletion {
  import opened Strings
  import opened Wrappers
  import opened Versions

  /** src/Project/TailwindClass.cs: a class name, possibly holding the `{0}`
      placeholder, and what may fill it. */
  datatype TailwindClass = TailwindClass(
    name: string,
    useColors: bool,
    useOpacity: bool,
    useSpacing: bool,
    usePercent: bool,
    useFractions: bool,
    useNumbers: bool,
    hasArbitrary: bool)

  /** `new TailwindClass { Name = name }`: every flag at its default. */
  function Plain(name: string): (c: TailwindClass)
    ensures c.name == name
    ensures !c.useColors && !c.useOpacity && !c.useSpacing && !c.usePercent
    ensures !c.useFractions && !c.useNumbers && !c.hasArbitrary
  {
    TailwindClass(name, false, false, false, false, false, false, false)
  }

  /** `string.IsNullOrWhiteSpace(prefix)` */
  predicate BlankPrefix(prefix: Option<string>) {
    prefix.None? || IsBlank(prefix.value)
  }

  /** `s.Split(':').Last()`: the text after the last colon, or all of `s`. */
  function LastSegment(s: string): (r: string)
    ensures EndsWith(s, r)
    ensures forall i :: 0 <= i < |r| ==> r[i] != ':'
  {
    AfterLast(s, ':')
  }

  /** The V3 prefix rule applied to the last segment: a leading prefix, or a
      leading `-` followed by the prefix, is removed when the prefix is not
      blank. */
  function StripPrefix(prefix: Option<string>, last: string): (r: string)
    ensures EndsWith(last, r)
  {
    if BlankPrefix(prefix) then last
    else if StartsWith(last, prefix.value) then last[|prefix.value|..]
    else if StartsWith(last, "-" + prefix.value) then last[|prefix.value| + 1..]
    else last
  }

  /** The text the V3 branch of `IsClassAllowed` looks up: `!` trimmed from
      both ends, variants dropped, then the prefix rule. */
  function V3Key(prefix: Option<string>, className: string): string {
    StripPrefix(prefix, LastSegment(TrimChar(className, '!')))
  }

  /** The key looked up in the blocklist for a given version. */
  function BlocklistKey(version: TailwindVersion, prefix: Option<string>, className: string): string {
    if version == V3 then V3Key(prefix, className) else className
  }

  /** With a blank prefix, V3 only strips `!` and variants. */
  lemma BlankPrefixKeepsSegment(prefix: Option<string>, className: string)
    requires BlankPrefix(prefix)
    ensures V3Key(prefix, className) == LastSegment(TrimChar(className, '!'))
  {
  }

  /** With a non-blank prefix, exactly one of three cases applies to the
      segment: it starts with the prefix, it starts with `-` and the prefix,
      or it is looked up unchanged. */
  lemma PrefixStripping(p: string, last: string)
    requires !IsBlank(p)
    ensures StartsWith(last, p) ==> p + StripPrefix(Some(p), last) == last
    ensures !StartsWith(last, p) && StartsWith(last, "-" + p) ==> "-" + p + StripPrefix(Some(p), last) == last
    ensures !StartsWith(last, p) && !StartsWith(last, "-" + p) ==> StripPrefix(Some(p), last) == last
  {
    if StartsWith(last, p) {
      assert last == last[..|p|] + last[|p|..];
    } else if StartsWith(last, "-" + p) {
      assert last == last[..|p| + 1] + last[|p| + 1..];
    }
  }

  /** The V3 key is a colon-free suffix of the `!`-trimmed class name. */
  lemma V3KeyIsColonFreeSuffix(prefix: Option<string>, className: string)
    ensures EndsWith(TrimChar(className, '!'), V3Key(prefix, className))
    ensures forall i :: 0 <= i < |V3Key(prefix, className)| ==> V3Key(prefix, className)[i] != ':'
  {
    var t := TrimChar(className, '!');
    ColonFreeSuffix(prefix, t);
  }

  lemma ColonFreeSuffix(prefix: Option<string>, t: string)
    ensures EndsWith(t, StripPrefix(prefix, LastSegment(t)))
    ensures forall i :: 0 <= i < |StripPrefix(prefix, LastSegment(t))| ==> StripPrefix(prefix, LastSegment(t))[i] != ':'
  {
    SuffixOfSuffix(t, LastSegment(t), StripPrefix(prefix, LastSegment(t)));
  }

  /** A suffix of a colon-free suffix is a colon-free suffix. */
  lemma SuffixOfSuffix(t: string, last: string, key: string)
    requires EndsWith(t, last) && EndsWith(last, key)
    requires forall i :: 0 <= i < |last| ==> last[i] != ':'
    ensures EndsWith(t, key)
    ensures forall i :: 0 <= i < |key| ==> key[i] != ':'
  {
    forall i | 0 <= i < |key|
      ensures key[i] != ':'
    {
      assert key[i] == last[|last| - |key| + i];
    }
    assert t[|t| - |key|..] == last[|last| - |key|..];
  }

  /** Every field of a project's completion values at one moment, so that
      a loader's whole effect can be stated as one value: the new state
      as a function of the old. */
  datatype ProjectState = ProjectState(
    filePath: Option<string>,
    applicablePaths: seq<string>,
    notApplicablePaths: seq<string>,
    initialized: bool,
    classes: seq<TailwindClass>,
    variants: seq<string>,
    breakpoints: map<string, string>,
    containers: map<string, string>,
    prefix: Option<string>,
    colors: set<string>,
    spacing: set<string>,
    configurationValueToClassStems: seq<(string, seq<string>)>,
    customColors: map<string, set<string>>,
    customSpacing: map<string, set<string>>,
    cssVariables: seq<(string, string)>,
    pluginClasses: seq<string>,
    pluginVariants: seq<string>,
    blocklist: set<string>,
    version: TailwindVersion)

  /** What `Copy` carries over from a project: everything except the path
      fields and the containers, which start empty. */
  function Copied(s: ProjectState): ProjectState {
    s.(filePath := None, applicablePaths := [], notApplicablePaths := [], containers := map[])
  }

  /** A project's completion values. The collections are value fields. */
  class ProjectCompletionValues {
    /** Lower-cased configuration file path; None while unset (null). */
    var filePath: Option<string>
    var applicablePaths: seq<string>
    /** V4+ only */
    var notApplicablePaths: seq<string>
    var initialized: bool
    var classes: seq<TailwindClass>
    var variants: seq<string>
    var breakpoints: map<string, string>
    var containers: map<string, string>
    var prefix: Option<string>
    var colors: set<string>
    var spacing: set<string>
    /** Removed in V4. An insertion-ordered dictionary: the loaders walk
        it in order. */
    var configurationValueToClassStems: seq<(string, seq<string>)>
    /** Removed in V4 */
    var customColors: map<string, set<string>>
    /** Removed in V4 */
    var customSpacing: map<string, set<string>>
    /** V4 only. An insertion-ordered dictionary: plugin classes are
        generated in its order. */
    var cssVariables: seq<(string, string)>
    var pluginClasses: seq<string>
    var pluginVariants: seq<string>
    var blocklist: set<string>
    var version: TailwindVersion

    /** `new ProjectCompletionValues { Version = version }`: every collection
        empty, no path and no prefix. */
    constructor (version: TailwindVersion)
      ensures this.version == version && IsEmpty()
    {
      this.version := version;
      filePath := None;
      applicablePaths := [];
      notApplicablePaths := [];
      initialized := false;
      classes := [];
      variants := [];
      breakpoints := map[];
      containers := map[];
      prefix := None;
      colors := {};
      spacing := {};
      configurationValueToClassStems := [];
      customColors := map[];
      customSpacing := map[];
      cssVariables := [];
      pluginClasses := [];
      pluginVariants := [];
      blocklist := {};
    }

    /** A project whose fields hold the values of `s`: the object a loader
        builds once it has read every resource file. */
    constructor FromState(s: ProjectState)
      ensures State() == s
    {
      filePath := s.filePath;
      applicablePaths := s.applicablePaths;
      notApplicablePaths := s.notApplicablePaths;
      initialized := s.initialized;
      classes := s.classes;
      variants := s.variants;
      breakpoints := s.breakpoints;
      containers := s.containers;
      prefix := s.prefix;
      colors := s.colors;
      spacing := s.spacing;
      configurationValueToClassStems := s.configurationValueToClassStems;
      customColors := s.customColors;
      customSpacing := s.customSpacing;
      cssVariables := s.cssVariables;
      pluginClasses := s.pluginClasses;
      pluginVariants := s.pluginVariants;
      blocklist := s.blocklist;
      version := s.version;
    }

    /** The current values of every field. */
    function State(): ProjectState
      reads this
    {
      ProjectState(filePath, applicablePaths, notApplicablePaths, initialized, classes, variants,
                   breakpoints, containers, prefix, colors, spacing, configurationValueToClassStems,
                   customColors, customSpacing, cssVariables, pluginClasses, pluginVariants, blocklist, version)
    }

    /** Every field at its default except the version. */
    predicate IsEmpty()
      reads this
    {
      filePath == None && applicablePaths == [] && notApplicablePaths == [] && !initialized
      && classes == [] && variants == [] && breakpoints == map[] && containers == map[]
      && prefix == None && colors == {} && spacing == {}
      && configurationValueToClassStems == [] && customColors == map[] && customSpacing == map[]
      && cssVariables == [] && pluginClasses == [] && pluginVariants == [] && blocklist == {}
    }

    /** Is the class outside the blocklist? Non-V3 projects look the class
        up verbatim; V3 projects look up its V3 key. */
    function IsClassAllowed(className: string): (r: bool)
      reads this
      ensures version != V3 ==> (r <==> className !in blocklist)
      ensures version == V3 && BlankPrefix(prefix) ==> (r <==> LastSegment(TrimChar(className, '!')) !in blocklist)
      ensures r ==> className !in blocklist || (version == V3 && V3Key(prefix, className) != className)
    {
      BlocklistKey(version, prefix, className) !in blocklist
    }

    /** The object initialiser of `Copy`: everything except the path fields
        and the containers is carried over from `source`. */
    constructor CopyOf(source: ProjectCompletionValues)
      ensures initialized == source.initialized && classes == source.classes && variants == source.variants
      ensures breakpoints == source.breakpoints && prefix == source.prefix && colors == source.colors
      ensures spacing == source.spacing && configurationValueToClassStems == source.configurationValueToClassStems
      ensures customColors == source.customColors && customSpacing == source.customSpacing
      ensures pluginClasses == source.pluginClasses && pluginVariants == source.pluginVariants
      ensures blocklist == source.blocklist && version == source.version && cssVariables == source.cssVariables
      ensures filePath == None && applicablePaths == [] && notApplicablePaths == [] && containers == map[]
    {
      filePath := None;
      applicablePaths := [];
      notApplicablePaths := [];
      containers := map[];
      initialized := source.initialized;
      classes := source.classes;
      variants := source.variants;
      breakpoints := source.breakpoints;
      prefix := source.prefix;
      colors := source.colors;
      spacing := source.spacing;
      configurationValueToClassStems := source.configurationValueToClassStems;
      customColors := source.customColors;
      customSpacing := source.customSpacing;
      pluginClasses := source.pluginClasses;
      pluginVariants := source.pluginVariants;
      blocklist := source.blocklist;
      version := source.version;
      cssVariables := source.cssVariables;
    }

    /** Copy: a fresh object sharing no collection with this one, carrying
        everything except the path fields and the containers, and so
        answering every blocklist question as this one does. */
    method Copy() returns (c: ProjectCompletionValues)
      ensures fresh(c)
      ensures c.initialized == initialized && c.classes == classes && c.variants == variants
      ensures c.breakpoints == breakpoints && c.prefix == prefix && c.colors == colors
      ensures c.spacing == spacing && c.configurationValueToClassStems == configurationValueToClassStems
      ensures c.customColors == customColors && c.customSpacing == customSpacing
      ensures c.pluginClasses == pluginClasses && c.pluginVariants == pluginVariants
      ensures c.blocklist == blocklist && c.version == version && c.cssVariables == cssVariables
      ensures c.filePath == None && c.applicablePaths == [] && c.notApplicablePaths == []
      ensures c.containers == map[]
      ensures forall s :: c.IsClassAllowed(s) == IsClassAllowed(s)
      ensures c.State() == Copied(State())
    {
      c := new ProjectCompletionValues.CopyOf(this);
    }

    /** `FilePath = path`: only the path changes. */
    method SetFilePath(path: Option<string>)
      modifies this`filePath
      ensures State() == old(State()).(filePath := path)
    {
      filePath := path;
    }
  }
}
