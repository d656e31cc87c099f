/** The unset configurations of src/Project/ProjectConfigurationManager.cs:
    each version's class list expanded from the class definitions of its
    resource files, the V3 arbitrary-value stems, the V4 breakpoints and
    containers read from the theme variables, the per-version cache and the
    lookup of the configuration a file belongs to. The resource files are
    given as already-deserialised values. */
module ConfigurationManager {
  import opened Strings
  import opened Wrappers
  import opened Versions
  import opened ProjectCompletion

  // ------------------------------------------------------------ resource files

  /** A V4 `ClassSubType`: a sub-stem, its variants (null read as none) and
      whether it takes arbitrary values (null read as false). */
  datatype ClassSubType = ClassSubType(stem: string, variants: seq<string>, hasArbitrary: bool)

  /** A V4 class type of `classes.json`. Null lists are read as empty and
      null flags as false, as the source's `== true` and null checks do. */
  datatype ClassType = ClassType(
    stem: string,
    directVariants: seq<string>,
    subvariants: seq<ClassSubType>,
    useColors: bool,
    useSpacing: bool,
    useNumbers: bool,
    usePercent: bool,
    useFractions: bool,
    hasArbitrary: bool,
    hasNegative: bool)

  /** src/Project/Subvariant.cs */
  datatype Subvariant = Subvariant(stem: string, variants: seq<string>)

  /** A V3 class definition of `classes.json`. */
  datatype Variant = Variant(
    stem: string,
    directVariants: seq<string>,
    subvariants: seq<Subvariant>,
    useColors: bool,
    useSpacing: bool,
    useOpacity: bool,
    hasNegative: bool)

  /** The files every version reads: `spacing.json`, `opacity.json` and
      `tailwindconfig.json` (an insertion-ordered dictionary). */
  datatype SharedFiles = SharedFiles(spacing: seq<string>, opacity: seq<int>, classStems: seq<(string, seq<string>)>)

  /** The V3 folder: class definitions, variants, and the keys of `colors.json`. */
  datatype V3Files = V3Files(classes: seq<Variant>, variants: seq<string>, colors: set<string>)

  /** A V4 folder: class types, the keys of `colors.json`, the theme
      variables of `theme.json` in order, and the keys of `variants.json`. */
  datatype V4Files = V4Files(classes: seq<ClassType>, colors: set<string>, theme: seq<(string, string)>, variants: seq<string>)

  /** Everything under `Resources/`. */
  datatype Resources = Resources(shared: SharedFiles, v3: V3Files, v4: V4Files, v41: V4Files) {
    /** The folder named after a V4 version. */
    function FolderOf(version: TailwindVersion): V4Files {
      if version == V4_1 then v41 else v4
    }
  }

  // ------------------------------------------------------------ V4 class types

  /** The value kinds a placeholder stands for, in the order the source
      tests them. */
  datatype Kind = Spacing | Colors | Numbers | Percent | Fractions

  /** The placeholder of a kind in a class definition. */
  function Token(k: Kind): string {
    match k
    case Spacing => "{s}"
    case Colors => "{c}"
    case Numbers => "{n}"
    case Percent => "{%}"
    case Fractions => "{f}"
  }

  /** The first kind, in the source's order, whose placeholder `v` holds. */
  function KindIn(v: string): Option<Kind> {
    if Contains(v, "{s}") then Some(Spacing)
    else if Contains(v, "{c}") then Some(Colors)
    else if Contains(v, "{n}") then Some(Numbers)
    else if Contains(v, "{%}") then Some(Percent)
    else if Contains(v, "{f}") then Some(Fractions)
    else None
  }

  /** The kind found is one whose placeholder `v` holds; no kind is found
      only when `v` holds none. */
  lemma KindInMeaning(v: string)
    ensures KindIn(v).Some? ==> Contains(v, Token(KindIn(v).value))
    ensures KindIn(v).None? ==> forall k :: !Contains(v, Token(k))
  {
  }

  /** A class that takes values of kind `k`; colours also take an opacity. */
  function OfKind(name: string, k: Kind): TailwindClass {
    match k
    case Spacing => Plain(name).(useSpacing := true)
    case Colors => Plain(name).(useColors := true, useOpacity := true)
    case Numbers => Plain(name).(useNumbers := true)
    case Percent => Plain(name).(usePercent := true)
    case Fractions => Plain(name).(useFractions := true)
  }

  /** The one value kind a class takes, if it takes exactly one. */
  function SetKind(c: TailwindClass): Option<Kind> {
    var n := (if c.useSpacing then 1 else 0) + (if c.useColors then 1 else 0) + (if c.useNumbers then 1 else 0)
      + (if c.usePercent then 1 else 0) + (if c.useFractions then 1 else 0);
    if n != 1 then None
    else if c.useSpacing then Some(Spacing)
    else if c.useColors then Some(Colors)
    else if c.useNumbers then Some(Numbers)
    else if c.usePercent then Some(Percent)
    else Some(Fractions)
  }

  /** A class made for kind `k` takes that kind and no other, and no
      arbitrary value. */
  lemma OfKindMeaning(name: string, k: Kind)
    ensures OfKind(name, k).name == name && !OfKind(name, k).hasArbitrary
    ensures SetKind(OfKind(name, k)) == Some(k)
    ensures OfKind(name, k).useOpacity == OfKind(name, k).useColors
  {
  }

  /** No value kind at all. */
  predicate NoKind(c: TailwindClass) {
    !c.useSpacing && !c.useColors && !c.useNumbers && !c.usePercent && !c.useFractions
  }

  /** The class for one direct variant `v` of a class type. */
  function DirectClass(stem: string, v: string): TailwindClass {
    if IsBlank(v) then Plain(stem)
    else match KindIn(v)
      case Some(k) => OfKind(stem + "-" + Replace(v, Token(k), "{0}"), k)
      case None => Plain(stem + "-" + v)
  }

  /** A blank variant gives the bare stem; any other gives `stem-…`, which
      takes the kind of the first placeholder `v` holds, and then holds `{0}`
      in its place; with no placeholder it is `stem-v` and takes no value. */
  lemma DirectClassMeaning(stem: string, v: string)
    ensures IsBlank(v) ==> DirectClass(stem, v) == Plain(stem)
    ensures !IsBlank(v) ==> StartsWith(DirectClass(stem, v).name, stem + "-")
    ensures !IsBlank(v) && KindIn(v).Some? ==>
      SetKind(DirectClass(stem, v)) == KindIn(v) && Contains(DirectClass(stem, v).name, "{0}")
    ensures !IsBlank(v) && KindIn(v).None? ==> DirectClass(stem, v) == Plain(stem + "-" + v)
    ensures !DirectClass(stem, v).hasArbitrary
    ensures DirectClass(stem, v).useOpacity == DirectClass(stem, v).useColors
  {
    if !IsBlank(v) {
      match KindIn(v)
      case None =>
        JoinedStartsWith(stem, v);
      case Some(k) =>
        KindInMeaning(v);
        OfKindMeaning(stem + "-" + Replace(v, Token(k), "{0}"), k);
        var r := Replace(v, Token(k), "{0}");
        ReplacePresent(v, Token(k), "{0}");
        JoinedStartsWith(stem, r);
        JoinedContains(stem, r, "{0}");
    }
  }

  /** `stem-rest` starts with `stem-`. */
  lemma JoinedStartsWith(stem: string, rest: string)
    ensures StartsWith(stem + "-" + rest, stem + "-")
  {
    assert (stem + "-" + rest)[..|stem| + 1] == stem + "-";
  }

  /** What `rest` holds, `stem-rest` holds. */
  lemma JoinedContains(stem: string, rest: string, t: string)
    requires Contains(rest, t)
    ensures Contains(stem + "-" + rest, t)
  {
    var o :| 0 <= o <= |rest| && OccursAt(rest, t, o);
    var j := stem + "-" + rest;
    assert j[|stem| + 1 + o..|stem| + 1 + o + |t|] == rest[o..o + |t|];
    assert OccursAt(j, t, |stem| + 1 + o);
  }

  /** The direct variants' classes, in order. */
  function DirectClasses(stem: string, vs: seq<string>): (r: seq<TailwindClass>)
    ensures |r| == |vs|
  {
    if vs == [] then [] else DirectClasses(stem, vs[..|vs| - 1]) + [DirectClass(stem, vs[|vs| - 1])]
  }

  /** The class of variant `v` of sub-stem `sub`: `stem-sub`, or
      `stem-sub-v` when `v` is not blank. */
  function SubVariantClass(stem: string, sub: string, v: string): TailwindClass {
    if IsBlank(v) then Plain(stem + "-" + sub) else Plain(stem + "-" + sub + "-" + v)
  }

  function SubVariantClasses(stem: string, sub: string, vs: seq<string>): (r: seq<TailwindClass>)
    ensures |r| == |vs|
  {
    if vs == [] then [] else SubVariantClasses(stem, sub, vs[..|vs| - 1]) + [SubVariantClass(stem, sub, vs[|vs| - 1])]
  }

  /** The arbitrary-value entry of a sub-stem that takes arbitrary values. */
  function SubArbitrary(stem: string, sub: string): TailwindClass {
    Plain(stem + "-" + sub + "-").(hasArbitrary := true)
  }

  /** One sub-stem's classes: its variants', then its arbitrary entry. */
  function SubClasses(stem: string, s: ClassSubType): seq<TailwindClass> {
    SubVariantClasses(stem, s.stem, s.variants) + (if s.hasArbitrary then [SubArbitrary(stem, s.stem)] else [])
  }

  function SubsClasses(stem: string, subs: seq<ClassSubType>): seq<TailwindClass> {
    if subs == [] then [] else SubsClasses(stem, subs[..|subs| - 1]) + SubClasses(stem, subs[|subs| - 1])
  }

  /** The first kind, in the source's order, a class type takes. */
  function TypeKind(ct: ClassType): Option<Kind> {
    if ct.useColors then Some(Colors)
    else if ct.useSpacing then Some(Spacing)
    else if ct.useNumbers then Some(Numbers)
    else if ct.usePercent then Some(Percent)
    else if ct.useFractions then Some(Fractions)
    else None
  }

  /** The one class of a type without variants or sub-stems: the stem, with
      the placeholder of its first kind replaced by `{0}`. */
  function BareClass(ct: ClassType): TailwindClass {
    match TypeKind(ct)
    case Some(k) => OfKind(Replace(ct.stem, Token(k), "{0}"), k)
    case None => Plain(ct.stem)
  }

  /** Does the type take any value at all? */
  predicate TakesValues(ct: ClassType) {
    ct.hasArbitrary || ct.useFractions || ct.useSpacing || ct.usePercent || ct.useColors || ct.useNumbers
  }

  /** The stem with the five placeholders removed, trailing `-` trimmed,
      and one `-` added. */
  function ArbitraryName(stem: string): (r: string)
    ensures EndsWith(r, "-") && (|r| == 1 || r[|r| - 2] != '-')
  {
    TrimEndChar(WithoutPlaceholders(stem, [Colors, Spacing, Numbers, Percent, Fractions]), '-') + "-"
  }

  /** `.Replace(token, "")` for each kind in turn. */
  function WithoutPlaceholders(s: string, ks: seq<Kind>): string
    decreases ks
  {
    if ks == [] then s else WithoutPlaceholders(Replace(s, Token(ks[0]), ""), ks[1..])
  }

  function ArbitraryClass(ct: ClassType): TailwindClass {
    Plain(ArbitraryName(ct.stem)).(hasArbitrary := true)
  }

  /** `classes` for one class type: the direct variants, the sub-stems, the
      bare class when there are neither, then the arbitrary entry. */
  function ClassesOf(ct: ClassType): seq<TailwindClass> {
    DirectClasses(ct.stem, ct.directVariants) + SubsClasses(ct.stem, ct.subvariants)
    + (if ct.directVariants == [] && ct.subvariants == [] then [BareClass(ct)] else [])
    + (if TakesValues(ct) then [ArbitraryClass(ct)] else [])
  }

  /** A type without variants or sub-stems yields exactly its bare class and,
      when it takes any value, its arbitrary entry after it. */
  lemma BareTypeClasses(ct: ClassType)
    requires ct.directVariants == [] && ct.subvariants == []
    ensures ClassesOf(ct) == if TakesValues(ct) then [BareClass(ct), ArbitraryClass(ct)] else [BareClass(ct)]
  {
    assert DirectClasses(ct.stem, []) + SubsClasses(ct.stem, []) == [];
  }

  /** The bare class is the stem itself when the type takes no kind of
      value; otherwise it takes the type's first kind and holds `{0}` where
      the stem held that kind's placeholder. */
  lemma BareClassMeaning(ct: ClassType)
    ensures TypeKind(ct).None? ==> BareClass(ct) == Plain(ct.stem)
    ensures TypeKind(ct).Some? ==> SetKind(BareClass(ct)) == TypeKind(ct)
    ensures TypeKind(ct).Some? && Contains(ct.stem, Token(TypeKind(ct).value)) ==> Contains(BareClass(ct).name, "{0}")
  {
    if TypeKind(ct).Some? {
      var k := TypeKind(ct).value;
      OfKindMeaning(Replace(ct.stem, Token(k), "{0}"), k);
      if Contains(ct.stem, Token(k)) {
        ReplacePresent(ct.stem, Token(k), "{0}");
      }
    }
  }

  /** A type that takes any value ends with its arbitrary entry, and has
      exactly one more class than it would have without. */
  lemma ArbitraryEntry(ct: ClassType)
    ensures TakesValues(ct) ==> ClassesOf(ct)[|ClassesOf(ct)| - 1] == ArbitraryClass(ct)
    ensures |ClassesOf(ct)| == |ct.directVariants| + |SubsClasses(ct.stem, ct.subvariants)|
      + (if ct.directVariants == [] && ct.subvariants == [] then 1 else 0) + (if TakesValues(ct) then 1 else 0)
    ensures ArbitraryClass(ct).hasArbitrary && NoKind(ArbitraryClass(ct)) && EndsWith(ArbitraryClass(ct).name, "-")
  {
  }

  /** The negative copy of a V4 class: `-` before the name, every flag kept. */
  function Negative(c: TailwindClass): TailwindClass {
    c.(name := "-" + c.name)
  }

  function Negatives(cs: seq<TailwindClass>): (r: seq<TailwindClass>)
    ensures |r| == |cs|
  {
    if cs == [] then [] else Negatives(cs[..|cs| - 1]) + [Negative(cs[|cs| - 1])]
  }

  /** Each negative copy is its class with `-` before the name, and taking
      the `-` away gives the class back. */
  lemma {:induction false} NegativesMeaning(cs: seq<TailwindClass>, i: nat)
    requires i < |cs|
    ensures Negatives(cs)[i].name == "-" + cs[i].name
    ensures Negatives(cs)[i].(name := Negatives(cs)[i].name[1..]) == cs[i]
  {
    if i < |cs| - 1 {
      NegativesMeaning(cs[..|cs| - 1], i);
    }
  }

  /** What one class type adds to the project: its classes, then their
      negative copies when it has negatives. */
  function TypeClasses(ct: ClassType): seq<TailwindClass> {
    var cs := ClassesOf(ct);
    cs + (if ct.hasNegative then Negatives(cs) else [])
  }

  /** The lists `f` gives for the elements of `xs`, one after another: the
      project's class list, built definition by definition. */
  function FlatMap<T>(xs: seq<T>, f: T -> seq<TailwindClass>): seq<TailwindClass> {
    if xs == [] then [] else FlatMap(xs[..|xs| - 1], f) + f(xs[|xs| - 1])
  }

  /** A class is in the list exactly when some definition yields it. */
  lemma {:induction false} FlatMapMembers<T>(xs: seq<T>, f: T -> seq<TailwindClass>, c: TailwindClass)
    ensures c in FlatMap(xs, f) <==> exists i :: 0 <= i < |xs| && c in f(xs[i])
  {
    if xs != [] {
      var n := |xs| - 1;
      var front := xs[..n];
      FlatMapMembers(front, f, c);
      assert FlatMap(xs, f) == FlatMap(front, f) + f(xs[n]);
      if c in FlatMap(front, f) {
        var i :| 0 <= i < n && c in f(front[i]);
        assert front[i] == xs[i];
      } else if c !in f(xs[n]) {
        forall i | 0 <= i < |xs|
          ensures c !in f(xs[i])
        {
          if i < n {
            assert front[i] == xs[i];
          }
        }
      }
    }
  }

  lemma FlatMapSnoc<T>(xs: seq<T>, i: nat, f: T -> seq<TailwindClass>)
    requires i < |xs|
    ensures FlatMap(xs[..i + 1], f) == FlatMap(xs[..i], f) + f(xs[i])
  {
    assert xs[..i + 1][..i] == xs[..i];
  }

  /** The definitions' lists follow each other in order. */
  lemma {:induction false} FlatMapAppend<T>(xs: seq<T>, ys: seq<T>, f: T -> seq<TailwindClass>)
    ensures FlatMap(xs + ys, f) == FlatMap(xs, f) + FlatMap(ys, f)
  {
    if ys != [] {
      var n := |ys| - 1;
      assert (xs + ys)[..|xs| + n] == xs + ys[..n];
      FlatMapAppend(xs, ys[..n], f);
    } else {
      assert xs + ys == xs;
    }
  }

  /** `foreach (var v in classType.DirectVariants)` */
  method AddDirectClasses(stem: string, vs: seq<string>) returns (classes: seq<TailwindClass>)
    ensures classes == DirectClasses(stem, vs)
  {
    classes := [];
    for i := 0 to |vs|
      invariant classes == DirectClasses(stem, vs[..i])
    {
      assert vs[..i + 1][..i] == vs[..i];
      classes := classes + [DirectClass(stem, vs[i])];
    }
    assert vs[..|vs|] == vs;
  }

  /** `foreach (var v in subvariant.Variants)` */
  method AddSubVariantClasses(stem: string, sub: string, vs: seq<string>) returns (classes: seq<TailwindClass>)
    ensures classes == SubVariantClasses(stem, sub, vs)
  {
    classes := [];
    for i := 0 to |vs|
      invariant classes == SubVariantClasses(stem, sub, vs[..i])
    {
      assert vs[..i + 1][..i] == vs[..i];
      classes := classes + [SubVariantClass(stem, sub, vs[i])];
    }
    assert vs[..|vs|] == vs;
  }

  /** `foreach (var subvariant in classType.Subvariants)` */
  method AddSubClasses(stem: string, subs: seq<ClassSubType>) returns (classes: seq<TailwindClass>)
    ensures classes == SubsClasses(stem, subs)
  {
    classes := [];
    for i := 0 to |subs|
      invariant classes == SubsClasses(stem, subs[..i])
    {
      var own := AddSubVariantClasses(stem, subs[i].stem, subs[i].variants);
      classes := classes + own;
      if subs[i].hasArbitrary {
        classes := classes + [SubArbitrary(stem, subs[i].stem)];
      }
      assert subs[..i + 1][..i] == subs[..i];
    }
    assert subs[..|subs|] == subs;
  }

  /** The classes of one class type, as the body of the loop over
      `classTypes` builds them. */
  method ExpandClassType(ct: ClassType) returns (classes: seq<TailwindClass>)
    ensures classes == ClassesOf(ct)
  {
    var direct := AddDirectClasses(ct.stem, ct.directVariants);
    var subs := AddSubClasses(ct.stem, ct.subvariants);
    classes := direct + subs;
    if ct.directVariants == [] && ct.subvariants == [] {
      classes := classes + [BareClass(ct)];
    }
    if TakesValues(ct) {
      classes := classes + [ArbitraryClass(ct)];
    }
  }

  /** One class type with its negative copies. */
  method ExpandWithNegatives(ct: ClassType) returns (classes: seq<TailwindClass>)
    ensures classes == TypeClasses(ct)
  {
    classes := ExpandClassType(ct);
    if ct.hasNegative {
      classes := classes + Negatives(classes);
    }
  }

  method ExpandClassTypes(types: seq<ClassType>) returns (classes: seq<TailwindClass>)
    ensures classes == FlatMap(types, TypeClasses)
  {
    classes := [];
    for i := 0 to |types|
      invariant classes == FlatMap(types[..i], TypeClasses)
    {
      var own := ExpandWithNegatives(types[i]);
      FlatMapSnoc(types, i, TypeClasses);
      classes := classes + own;
    }
    assert types[..|types|] == types;
  }

  // ------------------------------------------------------------ V3 class definitions

  /** The class for one direct variant `v` of a V3 definition: only the
      spacing and colour placeholders are recognised, and a colour class
      takes an opacity only when the definition says so. */
  function V3DirectClass(def: Variant, v: string): TailwindClass {
    if IsBlank(v) then Plain(def.stem)
    else if Contains(v, "{s}") then Plain(def.stem + "-" + Replace(v, "{s}", "{0}")).(useSpacing := true)
    else if Contains(v, "{c}") then
      Plain(def.stem + "-" + Replace(v, "{c}", "{0}")).(useColors := true, useOpacity := def.useOpacity)
    else Plain(def.stem + "-" + v)
  }

  /** A blank variant gives the bare stem; a spacing placeholder wins over a
      colour one, and either leaves `{0}` in the name; a colour class takes
      an opacity exactly when its definition does. */
  lemma V3DirectClassMeaning(def: Variant, v: string)
    ensures IsBlank(v) ==> V3DirectClass(def, v) == Plain(def.stem)
    ensures !IsBlank(v) ==> StartsWith(V3DirectClass(def, v).name, def.stem + "-")
    ensures !IsBlank(v) && Contains(v, "{s}") ==>
      V3DirectClass(def, v).useSpacing && !V3DirectClass(def, v).useColors && Contains(V3DirectClass(def, v).name, "{0}")
    ensures !IsBlank(v) && !Contains(v, "{s}") && Contains(v, "{c}") ==>
      V3DirectClass(def, v).useColors && V3DirectClass(def, v).useOpacity == def.useOpacity
      && Contains(V3DirectClass(def, v).name, "{0}")
    ensures !Contains(v, "{s}") && !Contains(v, "{c}") ==> NoKind(V3DirectClass(def, v))
  {
    if !IsBlank(v) {
      if Contains(v, "{s}") {
        ReplacePresent(v, "{s}", "{0}");
        JoinedStartsWith(def.stem, Replace(v, "{s}", "{0}"));
        JoinedContains(def.stem, Replace(v, "{s}", "{0}"), "{0}");
      } else if Contains(v, "{c}") {
        ReplacePresent(v, "{c}", "{0}");
        JoinedStartsWith(def.stem, Replace(v, "{c}", "{0}"));
        JoinedContains(def.stem, Replace(v, "{c}", "{0}"), "{0}");
      } else {
        JoinedStartsWith(def.stem, v);
      }
    }
  }

  function V3DirectClasses(def: Variant, vs: seq<string>): (r: seq<TailwindClass>)
    ensures |r| == |vs|
  {
    if vs == [] then [] else V3DirectClasses(def, vs[..|vs| - 1]) + [V3DirectClass(def, vs[|vs| - 1])]
  }

  /** The class a V3 sub-stem holding a colour or spacing placeholder adds
      after its variants; the colour placeholder is checked first. */
  function V3SubPlaceholder(def: Variant, sub: string): seq<TailwindClass> {
    if Contains(sub, "{c}") then
      [Plain(def.stem + "-" + Replace(sub, "{c}", "{0}")).(useColors := true, useOpacity := def.useOpacity)]
    else if Contains(sub, "{s}") then [Plain(def.stem + "-" + Replace(sub, "{s}", "{0}")).(useSpacing := true)]
    else []
  }

  function V3SubsClasses(def: Variant, subs: seq<Subvariant>): seq<TailwindClass> {
    if subs == [] then []
    else
      var sub := subs[|subs| - 1];
      V3SubsClasses(def, subs[..|subs| - 1]) + SubVariantClasses(def.stem, sub.stem, sub.variants)
      + V3SubPlaceholder(def, sub.stem)
  }

  lemma V3SubsSnoc(def: Variant, subs: seq<Subvariant>, i: nat)
    requires i < |subs|
    ensures V3SubsClasses(def, subs[..i + 1])
      == V3SubsClasses(def, subs[..i]) + SubVariantClasses(def.stem, subs[i].stem, subs[i].variants)
         + V3SubPlaceholder(def, subs[i].stem)
  {
    assert subs[..i + 1][..i] == subs[..i];
  }

  /** The one class of a V3 definition without variants or sub-stems: the
      stem, followed by `-{0}` when it takes colours or spacing. */
  function V3BareClass(def: Variant): TailwindClass {
    if def.useColors then Plain(def.stem + "-{0}").(useColors := true, useOpacity := def.useOpacity)
    else if def.useSpacing then Plain(def.stem + "-{0}").(useSpacing := true)
    else Plain(def.stem)
  }

  /** `classes` for one V3 definition. V3 definitions have no arbitrary
      entry of their own: those come from the class stems. */
  function V3ClassesOf(def: Variant): seq<TailwindClass> {
    V3DirectClasses(def, def.directVariants) + V3SubsClasses(def, def.subvariants)
    + (if def.directVariants == [] && def.subvariants == [] then [V3BareClass(def)] else [])
  }

  /** The V3 negative copy: `-` before the name, and only the colour and
      spacing flags carried over. */
  function V3Negative(c: TailwindClass): TailwindClass {
    Plain("-" + c.name).(useColors := c.useColors, useSpacing := c.useSpacing)
  }

  function V3Negatives(cs: seq<TailwindClass>): (r: seq<TailwindClass>)
    ensures |r| == |cs|
  {
    if cs == [] then [] else V3Negatives(cs[..|cs| - 1]) + [V3Negative(cs[|cs| - 1])]
  }

  /** A V3 negative copy keeps the name behind its `-` and the colour and
      spacing flags, and loses the opacity a colour class had. */
  lemma {:induction false} V3NegativesMeaning(cs: seq<TailwindClass>, i: nat)
    requires i < |cs|
    ensures V3Negatives(cs)[i].name == "-" + cs[i].name
    ensures V3Negatives(cs)[i].useColors == cs[i].useColors && V3Negatives(cs)[i].useSpacing == cs[i].useSpacing
    ensures !V3Negatives(cs)[i].useOpacity && !V3Negatives(cs)[i].hasArbitrary
  {
    if i < |cs| - 1 {
      V3NegativesMeaning(cs[..|cs| - 1], i);
    }
  }

  /** What one V3 definition adds to the project. */
  function V3DefinitionClasses(def: Variant): seq<TailwindClass> {
    var cs := V3ClassesOf(def);
    cs + (if def.hasNegative then V3Negatives(cs) else [])
  }

  /** `foreach (var v in variant.DirectVariants)` */
  method AddV3DirectClasses(def: Variant) returns (classes: seq<TailwindClass>)
    ensures classes == V3DirectClasses(def, def.directVariants)
  {
    classes := [];
    var vs := def.directVariants;
    for i := 0 to |vs|
      invariant classes == V3DirectClasses(def, vs[..i])
    {
      assert vs[..i + 1][..i] == vs[..i];
      classes := classes + [V3DirectClass(def, vs[i])];
    }
    assert vs[..|vs|] == vs;
  }

  /** `foreach (var subvariant in variant.Subvariants)` */
  method AddV3SubClasses(def: Variant) returns (classes: seq<TailwindClass>)
    ensures classes == V3SubsClasses(def, def.subvariants)
  {
    classes := [];
    var subs := def.subvariants;
    for i := 0 to |subs|
      invariant classes == V3SubsClasses(def, subs[..i])
    {
      var own := AddSubVariantClasses(def.stem, subs[i].stem, subs[i].variants);
      V3SubsSnoc(def, subs, i);
      classes := classes + own + V3SubPlaceholder(def, subs[i].stem);
    }
    assert subs[..|subs|] == subs;
  }

  /** The classes of one V3 definition, as the body of the loop over
      `variants` builds them. */
  method ExpandV3Definition(def: Variant) returns (classes: seq<TailwindClass>)
    ensures classes == V3ClassesOf(def)
  {
    var direct := AddV3DirectClasses(def);
    var subs := AddV3SubClasses(def);
    classes := direct + subs;
    if def.directVariants == [] && def.subvariants == [] {
      classes := classes + [V3BareClass(def)];
    }
  }

  /** One V3 definition with its negative copies. */
  method ExpandV3WithNegatives(def: Variant) returns (classes: seq<TailwindClass>)
    ensures classes == V3DefinitionClasses(def)
  {
    classes := ExpandV3Definition(def);
    if def.hasNegative {
      classes := classes + V3Negatives(classes);
    }
  }

  /** The loop over the V3 class definitions. */
  method ExpandV3Definitions(defs: seq<Variant>) returns (classes: seq<TailwindClass>)
    ensures classes == FlatMap(defs, V3DefinitionClasses)
  {
    classes := [];
    for i := 0 to |defs|
      invariant classes == FlatMap(defs[..i], V3DefinitionClasses)
    {
      var own := ExpandV3WithNegatives(defs[i]);
      FlatMapSnoc(defs, i, V3DefinitionClasses);
      classes := classes + own;
    }
    assert defs[..|defs|] == defs;
  }

  // ------------------------------------------------------------ V3 class stems

  /** The V3 class list and variant list while the class stems are added. */
  datatype Loaded = Loaded(classes: seq<TailwindClass>, variants: seq<string>)

  /** The name a class stem of `tailwindconfig.json` gives its arbitrary
      entry: the stem without the text from its first `{` to its first `}`
      (removed wherever it occurs), or the stem ending in `-`. None where the
      source throws: when the first `}` does not follow the first `{`, the
      substring length is zero or negative, and `Substring` or
      `Replace("", "")` throws. */
  function StemName(stem: string): Option<string> {
    var open := IndexOfChar(stem, '{', 0);
    if open == -1 then Some(if EndsWith(stem, "-") then stem else stem + "-")
    else
      var close := IndexOfChar(stem, '}', 0);
      if close < open then None else Some(Replace(stem, stem[open..close + 1], ""))
  }

  /** A stem without `{` names itself followed by exactly the `-` it lacks;
      a stem fails exactly when its first `}` does not follow its first `{`. */
  lemma StemNameMeaning(stem: string)
    ensures '{' !in stem ==> StemName(stem) == Some(if EndsWith(stem, "-") then stem else stem + "-")
    ensures '{' !in stem ==> EndsWith(StemName(stem).value, "-")
    ensures StemName(stem).None? <==> '{' in stem && IndexOfChar(stem, '}', 0) < IndexOfChar(stem, '{', 0)
  {
    if '{' !in stem {
      assert IndexOfChar(stem, '{', 0) == -1;
      var n := stem + "-";
      assert n[|n| - 1..] == "-";
    } else {
      var k :| 0 <= k < |stem| && stem[k] == '{';
      assert IndexOfChar(stem, '{', 0) != -1;
    }
  }

  /** Is there an arbitrary-value entry of this name? */
  predicate HasArbitraryNamed(cs: seq<TailwindClass>, name: string) {
    exists i :: 0 <= i < |cs| && cs[i].name == name && cs[i].hasArbitrary
  }

  /** One class stem: a stem with `:` adds a `-[]` variant; any other adds an
      arbitrary entry unless one of that name is already there. */
  function StemStep(acc: Loaded, stem: string): Option<Loaded> {
    match StemName(stem)
    case None => None
    case Some(name) =>
      if ':' in stem then Some(acc.(variants := acc.variants + [Replace(name, ":-", "") + "-[]"]))
      else if HasArbitraryNamed(acc.classes, name) then Some(acc)
      else Some(acc.(classes := acc.classes + [Plain(name).(hasArbitrary := true)]))
  }

  /** The next stem, unless an earlier one already failed. */
  function Then(acc: Option<Loaded>, stem: string): Option<Loaded> {
    if acc.None? then None else StemStep(acc.value, stem)
  }

  /** The stems of one entry, in order; the first failure ends the load. */
  function StemsFold(acc: Option<Loaded>, stems: seq<string>): Option<Loaded> {
    if stems == [] then acc else Then(StemsFold(acc, stems[..|stems| - 1]), stems[|stems| - 1])
  }

  /** Every entry of the table, in order. */
  function TableFold(acc: Option<Loaded>, table: seq<(string, seq<string>)>): Option<Loaded> {
    if table == [] then acc else StemsFold(TableFold(acc, table[..|table| - 1]), table[|table| - 1].1)
  }

  lemma {:induction false} StemsFoldFailed(stems: seq<string>)
    ensures StemsFold(None, stems) == None
  {
    if stems != [] {
      StemsFoldFailed(stems[..|stems| - 1]);
    }
  }

  /** Once a stem has failed, the rest of the table is not loaded. */
  lemma {:induction false} TableFoldFailed(table: seq<(string, seq<string>)>)
    ensures TableFold(None, table) == None
  {
    if table != [] {
      TableFoldFailed(table[..|table| - 1]);
      StemsFoldFailed(table[|table| - 1].1);
    }
  }

  /** Is some stem of the table one the source throws on? */
  predicate SomeStemFails(table: seq<(string, seq<string>)>) {
    exists i, j :: 0 <= i < |table| && 0 <= j < |table[i].1| && StemName(table[i].1[j]).None?
  }

  lemma {:induction false} StemsFoldFails(a: Loaded, stems: seq<string>)
    ensures StemsFold(Some(a), stems).None? <==> exists j :: 0 <= j < |stems| && StemName(stems[j]).None?
  {
    if stems != [] {
      var n := |stems| - 1;
      StemsFoldFails(a, stems[..n]);
      assert forall j :: 0 <= j < n ==> stems[..n][j] == stems[j];
    }
  }

  /** The stems fail to load exactly when one of them is malformed. */
  lemma {:induction false} TableFoldFails(a: Loaded, table: seq<(string, seq<string>)>)
    ensures TableFold(Some(a), table).None? <==> SomeStemFails(table)
  {
    if table != [] {
      var n := |table| - 1;
      var front := table[..n];
      TableFoldFails(a, front);
      assert forall i :: 0 <= i < n ==> front[i] == table[i];
      var mid := TableFold(Some(a), front);
      if mid.Some? {
        StemsFoldFails(mid.value, table[n].1);
      } else {
        StemsFoldFailed(table[n].1);
        var i, j :| 0 <= i < n && 0 <= j < |front[i].1| && StemName(front[i].1[j]).None?;
        assert table[i] == front[i];
      }
    }
  }

  /** Loading a stem only ever appends: the classes and variants there
      before stay, in their places. */
  predicate Extends(a: Loaded, b: Loaded) {
    |a.classes| <= |b.classes| && b.classes[..|a.classes|] == a.classes
    && |a.variants| <= |b.variants| && b.variants[..|a.variants|] == a.variants
  }

  lemma ExtendsTransitive(a: Loaded, b: Loaded, c: Loaded)
    requires Extends(a, b) && Extends(b, c)
    ensures Extends(a, c)
  {
    assert c.classes[..|a.classes|] == c.classes[..|b.classes|][..|a.classes|];
    assert c.variants[..|a.variants|] == c.variants[..|b.variants|][..|a.variants|];
  }

  lemma StemStepExtends(acc: Loaded, stem: string)
    requires StemStep(acc, stem).Some?
    ensures Extends(acc, StemStep(acc, stem).value)
  {
  }

  lemma {:induction false} StemsFoldExtends(a: Loaded, stems: seq<string>)
    requires StemsFold(Some(a), stems).Some?
    ensures Extends(a, StemsFold(Some(a), stems).value)
  {
    if stems != [] {
      var n := |stems| - 1;
      var mid := StemsFold(Some(a), stems[..n]);
      assert mid.Some?;
      StemsFoldExtends(a, stems[..n]);
      StemStepExtends(mid.value, stems[n]);
      ExtendsTransitive(a, mid.value, StemStep(mid.value, stems[n]).value);
    }
  }

  /** Loading the class stems keeps everything loaded before. */
  lemma {:induction false} TableFoldExtends(a: Loaded, table: seq<(string, seq<string>)>)
    requires TableFold(Some(a), table).Some?
    ensures Extends(a, TableFold(Some(a), table).value)
  {
    if table != [] {
      var n := |table| - 1;
      var mid := TableFold(Some(a), table[..n]);
      if mid.None? {
        StemsFoldFailed(table[n].1);
      } else {
        TableFoldExtends(a, table[..n]);
        StemsFoldExtends(mid.value, table[n].1);
        ExtendsTransitive(a, mid.value, TableFold(Some(a), table).value);
      }
    }
  }

  lemma ExtendsKeepsArbitrary(a: Loaded, b: Loaded, name: string)
    requires Extends(a, b) && HasArbitraryNamed(a.classes, name)
    ensures HasArbitraryNamed(b.classes, name)
  {
    var i :| 0 <= i < |a.classes| && a.classes[i].name == name && a.classes[i].hasArbitrary;
    assert b.classes[..|a.classes|][i] == b.classes[i];
  }

  /** After a stem without `:` the list holds an arbitrary entry of its name. */
  lemma StemStepAdds(acc: Loaded, stem: string)
    requires StemStep(acc, stem).Some? && ':' !in stem
    ensures StemName(stem).Some? && HasArbitraryNamed(StemStep(acc, stem).value.classes, StemName(stem).value)
  {
    var name := StemName(stem).value;
    var b := StemStep(acc, stem).value;
    if !HasArbitraryNamed(acc.classes, name) {
      assert b.classes[|acc.classes|] == Plain(name).(hasArbitrary := true);
    }
  }

  lemma {:induction false} StemsFoldAdds(a: Loaded, stems: seq<string>, j: nat)
    requires StemsFold(Some(a), stems).Some? && j < |stems| && ':' !in stems[j]
    ensures StemName(stems[j]).Some?
    ensures HasArbitraryNamed(StemsFold(Some(a), stems).value.classes, StemName(stems[j]).value)
  {
    var n := |stems| - 1;
    var mid := StemsFold(Some(a), stems[..n]);
    assert mid.Some?;
    var b := StemStep(mid.value, stems[n]);
    assert b.Some? && StemsFold(Some(a), stems) == b;
    if j < n {
      StemsFoldAdds(a, stems[..n], j);
      assert stems[..n][j] == stems[j];
      StemStepExtends(mid.value, stems[n]);
      ExtendsKeepsArbitrary(mid.value, b.value, StemName(stems[j]).value);
    } else {
      StemStepAdds(mid.value, stems[n]);
    }
  }

  /** Once the stems are loaded, every stem without `:` has an arbitrary
      entry of its name. */
  lemma {:induction false} TableFoldAdds(a: Loaded, table: seq<(string, seq<string>)>, i: nat, j: nat)
    requires TableFold(Some(a), table).Some?
    requires i < |table| && j < |table[i].1| && ':' !in table[i].1[j]
    ensures StemName(table[i].1[j]).Some?
    ensures HasArbitraryNamed(TableFold(Some(a), table).value.classes, StemName(table[i].1[j]).value)
  {
    var n := |table| - 1;
    var mid := TableFold(Some(a), table[..n]);
    if mid.None? {
      StemsFoldFailed(table[n].1);
    } else {
      var b := TableFold(Some(a), table);
      assert b == StemsFold(mid, table[n].1);
      if i < n {
        TableFoldAdds(a, table[..n], i, j);
        assert table[..n][i] == table[i];
        StemsFoldExtends(mid.value, table[n].1);
        ExtendsKeepsArbitrary(mid.value, b.value, StemName(table[i].1[j]).value);
      } else {
        StemsFoldAdds(mid.value, table[n].1, j);
      }
    }
  }

  /** `foreach (var stem in stems)`: None when a stem makes the source throw. */
  method AddStems(start: Loaded, stems: seq<string>) returns (r: Option<Loaded>)
    ensures r == StemsFold(Some(start), stems)
  {
    var acc := start;
    for j := 0 to |stems|
      invariant StemsFold(Some(start), stems[..j]) == Some(acc)
    {
      assert stems[..j + 1][..j] == stems[..j];
      var name := StemName(stems[j]);
      if name.None? {
        StemsFoldFails(start, stems);
        return None;
      }
      if ':' in stems[j] {
        acc := acc.(variants := acc.variants + [Replace(name.value, ":-", "") + "-[]"]);
      } else if !HasArbitraryNamed(acc.classes, name.value) {
        acc := acc.(classes := acc.classes + [Plain(name.value).(hasArbitrary := true)]);
      }
    }
    assert stems[..|stems|] == stems;
    r := Some(acc);
  }

  /** `foreach (var stems in project.ConfigurationValueToClassStems.Values)`:
      None when a stem makes the source throw. */
  method AddArbitraryStems(start: Loaded, table: seq<(string, seq<string>)>) returns (r: Option<Loaded>)
    ensures r == TableFold(Some(start), table)
  {
    var acc := start;
    for i := 0 to |table|
      invariant TableFold(Some(start), table[..i]) == Some(acc)
    {
      assert table[..i + 1][..i] == table[..i];
      var next := AddStems(acc, table[i].1);
      if next.None? {
        var front := table[..i + 1];
        TableFoldFails(start, front);
        var k, j :| 0 <= k < |front| && 0 <= j < |front[k].1| && StemName(front[k].1[j]).None?;
        assert front[k] == table[k];
        TableFoldFails(start, table);
        return None;
      }
      acc := next.value;
    }
    assert table[..|table|] == table;
    r := Some(acc);
  }

  // ------------------------------------------------------------ V4 breakpoints and containers

  /** `foreach (var x in project.CssVariables.Where(v => v.Key.StartsWith(prefix)))
      table[x.Key.Replace(prefix, "")] = x.Value` */
  function ThemeTable(vars: seq<(string, string)>, prefix: string): map<string, string>
    requires prefix != []
  {
    if vars == [] then map[]
    else
      var t := ThemeTable(vars[..|vars| - 1], prefix);
      var (key, value) := vars[|vars| - 1];
      if StartsWith(key, prefix) then t[Replace(key, prefix, "") := value] else t
  }

  /** The name variable `i` gives, if it has the prefix. */
  predicate Names(vars: seq<(string, string)>, prefix: string, i: int, name: string)
    requires prefix != []
  {
    0 <= i < |vars| && StartsWith(vars[i].0, prefix) && Replace(vars[i].0, prefix, "") == name
  }

  /** A name is in the table exactly when a prefixed variable gives it. */
  lemma {:induction false} ThemeTableKeys(vars: seq<(string, string)>, prefix: string, name: string)
    requires prefix != []
    ensures name in ThemeTable(vars, prefix) <==> exists k :: Names(vars, prefix, k, name)
  {
    if vars != [] {
      var n := |vars| - 1;
      var front := vars[..n];
      ThemeTableKeys(front, prefix, name);
      assert forall k :: 0 <= k < n ==> vars[k] == front[k];
      if Names(vars, prefix, n, name) {
        assert name in ThemeTable(vars, prefix);
      } else if name in ThemeTable(front, prefix) {
        var k :| Names(front, prefix, k, name);
        assert Names(vars, prefix, k, name);
      } else {
        assert name !in ThemeTable(vars, prefix);
        assert forall k :: Names(vars, prefix, k, name) ==> k < n && Names(front, prefix, k, name);
      }
    }
  }

  /** The value a name holds is that of the last variable giving it. */
  lemma {:induction false} ThemeTableLastWins(vars: seq<(string, string)>, prefix: string, name: string, i: int)
    requires prefix != [] && Names(vars, prefix, i, name)
    requires forall k :: i < k < |vars| ==> !Names(vars, prefix, k, name)
    ensures name in ThemeTable(vars, prefix) && ThemeTable(vars, prefix)[name] == vars[i].1
  {
    var n := |vars| - 1;
    var front := vars[..n];
    if i < n {
      assert forall k :: 0 <= k < n ==> vars[k] == front[k];
      assert forall k :: 0 <= k < n ==> Names(front, prefix, k, name) == Names(vars, prefix, k, name);
      ThemeTableLastWins(front, prefix, name, i);
      assert !Names(vars, prefix, n, name);
    }
  }

  /** `--breakpoint-X` (and likewise `--container-X`) gives the name `X` when
      `X` does not itself hold the prefix. */
  lemma PrefixedName(vars: seq<(string, string)>, prefix: string, x: string, i: int)
    requires prefix != [] && 0 <= i < |vars| && vars[i].0 == prefix + x && !Contains(x, prefix)
    ensures Names(vars, prefix, i, x)
  {
    ReplaceLeading(prefix, x);
    assert (prefix + x)[..|prefix|] == prefix;
  }

  /** The loop filling one table from the theme variables. */
  method ThemeTableOf(vars: seq<(string, string)>, prefix: string) returns (table: map<string, string>)
    requires prefix != []
    ensures table == ThemeTable(vars, prefix)
  {
    table := map[];
    for i := 0 to |vars|
      invariant table == ThemeTable(vars[..i], prefix)
    {
      assert vars[..i + 1][..i] == vars[..i];
      if StartsWith(vars[i].0, prefix) {
        table := table[Replace(vars[i].0, prefix, "") := vars[i].1];
      }
    }
    assert vars[..|vars|] == vars;
  }

  // ------------------------------------------------------------ unset projects

  /** The fixed V3 breakpoints. */
  const V3Breakpoints: map<string, string> :=
    map["sm" := "640px", "md" := "768px", "lg" := "1024px", "xl" := "1280px", "2xl" := "1536px"]

  /** The classes and variants of the V3 project before its class stems. */
  function V3Definitions(res: Resources): Loaded {
    Loaded(FlatMap(res.v3.classes, V3DefinitionClasses), res.v3.variants)
  }

  /** `[.. spacing]`: the spacing values as a set. */
  function Elements(xs: seq<string>): (r: set<string>)
    ensures forall x :: x in r <==> x in xs
  {
    set x | x in xs
  }

  const BreakpointPrefix := "--breakpoint-"
  const ContainerPrefix := "--container-"

  /** The unset V3 project `LoadClassesV3Async` builds, or None where it
      throws on a malformed class stem. */
  function V3Template(res: Resources): Option<ProjectState> {
    match TableFold(Some(V3Definitions(res)), res.shared.classStems)
    case None => None
    case Some(l) =>
      Some(ProjectState(None, [], [], false, l.classes, l.variants, V3Breakpoints, map[], None, res.v3.colors,
                        Elements(res.shared.spacing), res.shared.classStems, map[], map[], [], [], [], {}, V3))
  }

  /** The unset V4 or V4.1 project `LoadClassesAsync` builds. */
  function V4Template(version: TailwindVersion, res: Resources): ProjectState
    requires version != V3
  {
    var f := res.FolderOf(version);
    ProjectState(None, [], [], false, FlatMap(f.classes, TypeClasses), f.variants,
                 ThemeTable(f.theme, BreakpointPrefix), ThemeTable(f.theme, ContainerPrefix), None, f.colors,
                 Elements(res.shared.spacing), res.shared.classStems, map[], map[], f.theme, [], [], {}, version)
  }

  /** The V3 project loads exactly when every class stem is well formed;
      it then starts with the classes of its definitions and the variants
      of `variants.json`, and holds an arbitrary entry for every class stem
      without `:`. */
  lemma V3TemplateMeaning(res: Resources)
    ensures V3Template(res).None? <==> SomeStemFails(res.shared.classStems)
    ensures V3Template(res).Some? ==>
      var p := V3Template(res).value;
      Extends(V3Definitions(res), Loaded(p.classes, p.variants))
      && p.breakpoints.Keys == {"sm", "md", "lg", "xl", "2xl"} && p.containers == map[]
      && forall i, j :: 0 <= i < |res.shared.classStems| && 0 <= j < |res.shared.classStems[i].1|
                        && ':' !in res.shared.classStems[i].1[j] ==>
           StemName(res.shared.classStems[i].1[j]).Some?
           && HasArbitraryNamed(p.classes, StemName(res.shared.classStems[i].1[j]).value)
  {
    var table := res.shared.classStems;
    TableFoldFails(V3Definitions(res), table);
    if V3Template(res).Some? {
      TableFoldExtends(V3Definitions(res), table);
      forall i, j | 0 <= i < |table| && 0 <= j < |table[i].1| && ':' !in table[i].1[j]
        ensures StemName(table[i].1[j]).Some?
        ensures HasArbitraryNamed(V3Template(res).value.classes, StemName(table[i].1[j]).value)
      {
        TableFoldAdds(V3Definitions(res), table, i, j);
      }
    }
  }

  /** A class is in the V4 project's list exactly when some class type of
      its folder yields it. */
  lemma V4TemplateClasses(version: TailwindVersion, res: Resources, c: TailwindClass)
    requires version != V3
    ensures var f := res.FolderOf(version);
      c in V4Template(version, res).classes <==> exists k :: 0 <= k < |f.classes| && c in TypeClasses(f.classes[k])
  {
    FlatMapMembers(res.FolderOf(version).classes, TypeClasses, c);
  }

  /** The theme variable `--breakpoint-X` that is the last to name `X` sets
      breakpoint `X` of a V4 project. */
  lemma V4TemplateBreakpoint(version: TailwindVersion, res: Resources, x: string, i: int)
    requires version != V3
    requires var vars := res.FolderOf(version).theme;
      0 <= i < |vars| && vars[i].0 == BreakpointPrefix + x && !Contains(x, BreakpointPrefix)
      && forall k :: i < k < |vars| ==> !Names(vars, BreakpointPrefix, k, x)
    ensures x in V4Template(version, res).breakpoints
    ensures V4Template(version, res).breakpoints[x] == res.FolderOf(version).theme[i].1
  {
    var vars := res.FolderOf(version).theme;
    PrefixedName(vars, BreakpointPrefix, x, i);
    ThemeTableLastWins(vars, BreakpointPrefix, x, i);
  }

  /** Likewise `--container-X` sets container `X`. */
  lemma V4TemplateContainer(version: TailwindVersion, res: Resources, x: string, i: int)
    requires version != V3
    requires var vars := res.FolderOf(version).theme;
      0 <= i < |vars| && vars[i].0 == ContainerPrefix + x && !Contains(x, ContainerPrefix)
      && forall k :: i < k < |vars| ==> !Names(vars, ContainerPrefix, k, x)
    ensures x in V4Template(version, res).containers
    ensures V4Template(version, res).containers[x] == res.FolderOf(version).theme[i].1
  {
    var vars := res.FolderOf(version).theme;
    PrefixedName(vars, ContainerPrefix, x, i);
    ThemeTableLastWins(vars, ContainerPrefix, x, i);
  }

  /** `LoadClassesV3Async` once the files are read: None where it throws. */
  method BuildV3(res: Resources) returns (p: Option<ProjectCompletionValues>)
    ensures p.None? <==> V3Template(res).None?
    ensures p.Some? ==> fresh(p.value) && p.value.State() == V3Template(res).value
  {
    var defs := ExpandV3Definitions(res.v3.classes);
    var loaded := AddArbitraryStems(Loaded(defs, res.v3.variants), res.shared.classStems);
    if loaded.None? {
      return None;
    }
    var l := loaded.value;
    var project := new ProjectCompletionValues.FromState(
      ProjectState(None, [], [], false, l.classes, l.variants, V3Breakpoints, map[], None, res.v3.colors,
                   Elements(res.shared.spacing), res.shared.classStems, map[], map[], [], [], [], {}, V3));
    p := Some(project);
  }

  /** `LoadClassesAsync` for V4 and V4.1 once the files are read. */
  method BuildV4(version: TailwindVersion, res: Resources) returns (p: ProjectCompletionValues)
    requires version != V3
    ensures fresh(p) && p.State() == V4Template(version, res)
  {
    var f := res.FolderOf(version);
    var classes := ExpandClassTypes(f.classes);
    var breakpoints := ThemeTableOf(f.theme, BreakpointPrefix);
    var containers := ThemeTableOf(f.theme, ContainerPrefix);
    p := new ProjectCompletionValues.FromState(
      ProjectState(None, [], [], false, classes, f.variants, breakpoints, containers, None, f.colors,
                   Elements(res.shared.spacing), res.shared.classStems, map[], map[], f.theme, [], [], {}, version));
  }

  /** The loader of a version: the V3 one, or the V4 one. */
  method Build(version: TailwindVersion, res: Resources) returns (p: Option<ProjectCompletionValues>)
    ensures p.None? <==> TemplateOf(version, res).None?
    ensures p.Some? ==> fresh(p.value) && Some(p.value.State()) == TemplateOf(version, res)
  {
    if version == V3 {
      p := BuildV3(res);
    } else {
      var project := BuildV4(version, res);
      p := Some(project);
    }
  }

  /** The unset project of a version, as the loaders build it. */
  function TemplateOf(version: TailwindVersion, res: Resources): Option<ProjectState> {
    if version == V3 then V3Template(res) else Some(V4Template(version, res))
  }

  // ------------------------------------------------------------ choosing a project for a file

  /** Every key of `before` still maps to the same value in `after`. */
  predicate Retains<K, V(==)>(before: map<K, V>, after: map<K, V>) {
    forall k :: k in before ==> k in after && after[k] == before[k]
  }

  /** The position of `key` in an insertion-ordered dictionary, or -1. */
  function IndexOfKey<V>(entries: seq<(string, V)>, key: string): (r: int)
    ensures -1 <= r < |entries|
    ensures r != -1 ==> entries[r].0 == key
  {
    if entries == [] then -1
    else if entries[0].0 == key then 0
    else
      var r := IndexOfKey(entries[1..], key);
      if r == -1 then -1 else r + 1
  }

  /** -1 exactly when no entry has the key. */
  lemma {:induction false} IndexOfKeyMissing<V>(entries: seq<(string, V)>, key: string)
    ensures IndexOfKey(entries, key) == -1 <==> forall i :: 0 <= i < |entries| ==> entries[i].0 != key
  {
    if entries != [] {
      IndexOfKeyMissing(entries[1..], key);
      assert forall i :: 1 <= i < |entries| ==> entries[i] == entries[1..][i - 1];
    }
  }

  lemma {:induction false} IndexOfKeyAppend<V>(entries: seq<(string, V)>, key: string, value: V)
    requires IndexOfKey(entries, key) == -1
    ensures IndexOfKey(entries + [(key, value)], key) == |entries|
  {
    if entries != [] {
      assert (entries + [(key, value)])[1..] == entries[1..] + [(key, value)];
      IndexOfKeyAppend(entries[1..], key, value);
    }
  }

  /** The entry a registration adds, if any. */
  function Added<V>(key: string, value: Option<V>): seq<(string, V)> {
    if value.Some? then [(key, value.value)] else []
  }

  /** The values of an insertion-ordered dictionary. */
  function Values<V>(entries: seq<(string, V)>): set<V> {
    set i | 0 <= i < |entries| :: entries[i].1
  }

  /** Entries appended after `entries`, each of whose values is in `m`,
      bring no value from outside `m`. */
  lemma ValuesAppend<V>(entries: seq<(string, V)>, more: seq<(string, V)>, m: set<V>)
    requires forall k :: 0 <= k < |more| ==> more[k].1 in m
    ensures forall v :: v in Values(entries + more) ==> v in Values(entries) || v in m
  {
    forall v | v in Values(entries + more)
      ensures v in Values(entries) || v in m
    {
      var i :| 0 <= i < |entries + more| && (entries + more)[i].1 == v;
      if i < |entries| {
        assert entries[i].1 == v;
      } else {
        assert more[i - |entries|].1 == v;
      }
    }
  }

  /** Every key has an entry. */
  predicate HasKeys<V>(entries: seq<(string, V)>, keys: seq<string>) {
    forall k :: 0 <= k < |keys| ==> IndexOfKey(entries, keys[k]) != -1
  }

  /** Entries added at the end keep every key found before. */
  lemma HasKeysStep<V>(entries: seq<(string, V)>, more: seq<(string, V)>, keys: seq<string>, key: string)
    requires HasKeys(entries, keys) && IndexOfKey(entries + more, key) != -1
    ensures HasKeys(entries + more, keys + [key])
  {
    forall k | 0 <= k < |keys| + 1
      ensures IndexOfKey(entries + more, (keys + [key])[k]) != -1
    {
      if k < |keys| {
        var j := IndexOfKey(entries, keys[k]);
        assert (entries + more)[j] == entries[j];
        IndexOfKeyMissing(entries + more, keys[k]);
      }
    }
  }

  /** Does the file lie under one of the folders, ignoring case? */
  predicate UnderAny(paths: seq<string>, path: string) {
    exists p :: p in paths && StartsWithIgnoreCase(path, p)
  }

  /** Does the file match one of the glob patterns? `PathHelper.PathMatchesGlob`
      is a parameter. */
  predicate MatchesAny(paths: seq<string>, path: string, glob: (string, string) -> bool) {
    exists p :: p in paths && glob(path, p)
  }

  /** Does the project take the file? Its own configuration file does; a V4
      project then turns away files under a not-applicable folder and takes
      files under an applicable one; any project takes a file matching one
      of its applicable paths as a glob. */
  predicate Selects(s: ProjectState, path: string, glob: (string, string) -> bool) {
    (s.filePath.Some? && EqualsIgnoreCase(s.filePath.value, path))
    || if s.version.AtLeast(V4) && UnderAny(s.notApplicablePaths, path) then false
       else (s.version.AtLeast(V4) && UnderAny(s.applicablePaths, path)) || MatchesAny(s.applicablePaths, path, glob)
  }

  /** A not-applicable folder wins over every applicable path of a V4
      project, short of the configuration file itself; a V3 project looks
      at its globs only; a V4 project takes a file lying (by exact prefix)
      under an applicable folder and no not-applicable one. */
  lemma SelectsMeaning(s: ProjectState, path: string, glob: (string, string) -> bool, p: string)
    requires s.filePath.Some?
    ensures s.version.AtLeast(V4) && UnderAny(s.notApplicablePaths, path) ==>
      (Selects(s, path, glob) <==> EqualsIgnoreCase(s.filePath.value, path))
    ensures !s.version.AtLeast(V4) ==>
      (Selects(s, path, glob) <==> EqualsIgnoreCase(s.filePath.value, path) || MatchesAny(s.applicablePaths, path, glob))
    ensures (s.version.AtLeast(V4) && !UnderAny(s.notApplicablePaths, path) && p in s.applicablePaths
             && StartsWith(path, p)) ==> Selects(s, path, glob)
  {
    IgnoreCaseMeaning(path, p);
  }

  /** The per-configuration projects, the unset project of each version
      loaded so far, and the opacity steps, read from `res`. */
  class ProjectConfigurationManager {
    /** The resource files; reading them is left out. */
    const res: Resources
    var opacity: seq<int>
    /** Keyed by lower-cased configuration file path, in insertion order. */
    var configs: seq<(string, ProjectCompletionValues)>
    var defaultConfig: Option<ProjectCompletionValues>
    var unset: map<TailwindVersion, ProjectCompletionValues>
    /** The order in which the unset projects were loaded: the order in
        which the source's dictionary enumerates them. */
    var unsetOrder: seq<TailwindVersion>

    /** The projects of the entries. */
    function Entries(): set<ProjectCompletionValues>
      reads this`configs
    {
      Values(configs)
    }

    /** The keys are distinct and so are the entries' projects, none of
        which is an unset project; the load order lists each loaded version
        once, and the default is one of the entries. */
    ghost predicate Valid()
      reads this`configs, this`defaultConfig, this`unset, this`unsetOrder
    {
      (forall i, j :: 0 <= i < j < |configs| ==> configs[i].0 != configs[j].0)
      && (forall i, j :: 0 <= i < j < |configs| ==> configs[i].1 != configs[j].1)
      && (forall i :: 0 <= i < |configs| ==> configs[i].1 !in unset.Values)
      && (forall v :: v in unset <==> v in unsetOrder)
      && (forall i, j :: 0 <= i < j < |unsetOrder| ==> unsetOrder[i] != unsetOrder[j])
      && (defaultConfig.Some? ==> exists i :: 0 <= i < |configs| && configs[i].1 == defaultConfig.value)
    }

    constructor (res: Resources)
      ensures Valid() && this.res == res
      ensures configs == [] && defaultConfig.None? && unset == map[] && unsetOrder == [] && opacity == []
    {
      this.res := res;
      opacity := [];
      configs := [];
      defaultConfig := None;
      unset := map[];
      unsetOrder := [];
    }

    /** `LoadClassesAsync`: nothing when the version is loaded; otherwise the
        opacity steps are read and the version's unset project is built,
        except where the V3 loader throws. */
    method LoadClasses(version: TailwindVersion)
      requires Valid()
      modifies this`opacity, this`unset, this`unsetOrder
      ensures Valid()
      ensures old(version in unset) ==> unset == old(unset) && unsetOrder == old(unsetOrder) && opacity == old(opacity)
      ensures !old(version in unset) ==> opacity == res.shared.opacity
      ensures version in unset <==> old(version in unset) || TemplateOf(version, res).Some?
      ensures version in unset && !old(version in unset) ==>
        fresh(unset[version]) && Some(unset[version].State()) == TemplateOf(version, res)
        && unset == old(unset)[version := unset[version]] && unsetOrder == old(unsetOrder) + [version]
      ensures version !in unset ==> unset == old(unset) && unsetOrder == old(unsetOrder)
    {
      if version in unset {
        return;
      }
      opacity := res.shared.opacity;
      var project := Build(version, res);
      if project.Some? {
        Cache(version, project.value);
      }
    }

    /** `_unsetProjectCompletionConfigurations[version] = project` */
    method Cache(version: TailwindVersion, project: ProjectCompletionValues)
      requires Valid() && version !in unset && project !in Entries()
      modifies this`unset, this`unsetOrder
      ensures Valid()
      ensures unset == old(unset)[version := project] && unsetOrder == old(unsetOrder) + [version]
    {
      unset := unset[version := project];
      unsetOrder := unsetOrder + [version];
    }

    /** `GetUnsetCompletionConfiguration`: the version's unset project, loaded
        first if need be; None where the V3 loader throws. */
    method GetUnsetCompletionConfiguration(version: TailwindVersion) returns (r: Option<ProjectCompletionValues>)
      requires Valid()
      modifies this`opacity, this`unset, this`unsetOrder
      ensures Valid()
      ensures old(version in unset) ==> r == Some(old(unset[version])) && unset == old(unset)
      ensures !old(version in unset) ==> (r.Some? <==> TemplateOf(version, res).Some?)
      ensures !old(version in unset) && r.Some? ==>
        fresh(r.value) && version in unset && r.value == unset[version] && Some(r.value.State()) == TemplateOf(version, res)
    {
      LoadClasses(version);
      r := if version in unset then Some(unset[version]) else None;
    }

    /** `GetCompletionConfigurationByConfigFilePath`: the entry of the
        lower-cased path; None where the source's lookup throws. */
    function ByConfigFilePath(configFile: string): (r: Option<ProjectCompletionValues>)
      reads this`configs
      ensures r.Some? ==> r.value in Entries()
    {
      var i := IndexOfKey(configs, Lower(configFile));
      if i == -1 then None else Some(configs[i].1)
    }

    /** The project of the entry keyed by the lower-cased path; None when
        there is no such entry. */
    lemma ByConfigFilePathMeaning(configFile: string)
      ensures ByConfigFilePath(configFile).Some? <==> exists i :: 0 <= i < |configs| && configs[i].0 == Lower(configFile)
      ensures ByConfigFilePath(configFile).Some? ==>
        exists i :: 0 <= i < |configs| && configs[i] == (Lower(configFile), ByConfigFilePath(configFile).value)
    {
      IndexOfKeyMissing(configs, Lower(configFile));
    }

    /** The position of the first entry from `i` on whose project takes the
        file, or -1. */
    ghost function FirstSelecting(path: string, glob: (string, string) -> bool, i: nat): (r: int)
      requires i <= |configs|
      reads this`configs, Entries()
      ensures r == -1 || i <= r < |configs|
      decreases |configs| - i
    {
      if i == |configs| then -1
      else if Selects(configs[i].1.State(), path, glob) then i
      else FirstSelecting(path, glob, i + 1)
    }

    /** -1 exactly when no entry from `i` on takes the file; otherwise an
        entry that takes it, with none between `i` and it doing so. */
    lemma {:induction false} FirstSelectingMeaning(path: string, glob: (string, string) -> bool, i: nat)
      requires i <= |configs|
      ensures FirstSelecting(path, glob, i) == -1 <==>
        forall j :: i <= j < |configs| ==> !Selects(configs[j].1.State(), path, glob)
      ensures FirstSelecting(path, glob, i) != -1 ==>
        var f := FirstSelecting(path, glob, i);
        i <= f < |configs| && Selects(configs[f].1.State(), path, glob)
        && forall j :: i <= j < f ==> !Selects(configs[j].1.State(), path, glob)
      decreases |configs| - i
    {
      if i < |configs| {
        FirstSelectingMeaning(path, glob, i + 1);
      }
    }

    /** The loop of `GetCompletionConfigurationByFilePath`: the project of
        the first entry that takes the file. */
    method FindConfig(path: string, glob: (string, string) -> bool) returns (r: Option<ProjectCompletionValues>)
      ensures var f := FirstSelecting(path, glob, 0);
        r == if f == -1 then None else Some(configs[f].1)
    {
      FirstSelectingMeaning(path, glob, 0);
      for i := 0 to |configs|
        invariant FirstSelecting(path, glob, 0) == FirstSelecting(path, glob, i)
      {
        var k := configs[i].1;
        if k.filePath.Some? && EqualsIgnoreCase(k.filePath.value, path) {
          return Some(k);
        }
        if k.version.AtLeast(V4) {
          if exists p :: p in k.notApplicablePaths && StartsWithIgnoreCase(path, p) {
            continue;
          }
          if exists p :: p in k.applicablePaths && StartsWithIgnoreCase(path, p) {
            return Some(k);
          }
        }
        if exists p :: p in k.applicablePaths && glob(path, p) {
          return Some(k);
        }
      }
      return None;
    }

    /** The fallback when no entry takes the file: the default project, else
        the first unset project loaded, else the V3 project, loaded now. */
    method Fallback() returns (r: Option<ProjectCompletionValues>)
      requires Valid()
      modifies this`opacity, this`unset, this`unsetOrder
      ensures Valid()
      ensures old(defaultConfig).Some? ==> r == old(defaultConfig) && unset == old(unset)
      ensures old(defaultConfig).None? && old(unsetOrder) != [] ==>
        r == Some(old(unset)[old(unsetOrder)[0]]) && unset == old(unset)
      ensures old(defaultConfig).None? && old(unsetOrder) == [] ==>
        opacity == res.shared.opacity && (r.Some? <==> V3Template(res).Some?)
        && (r.Some? ==> fresh(r.value) && r.value.State() == V3Template(res).value && unset == map[V3 := r.value])
    {
      if defaultConfig.Some? {
        return defaultConfig;
      }
      if unsetOrder != [] {
        return Some(unset[unsetOrder[0]]);
      }
      assert forall v :: v in unset ==> v in unsetOrder;
      LoadClasses(V3);
      r := if V3 in unset then Some(unset[V3]) else None;
    }

    /** `GetCompletionConfigurationByFilePath`: the first project that takes
        the file, else the fallback; a file of no known path goes straight
        to the fallback. */
    method ByFilePath(filePath: Option<string>, glob: (string, string) -> bool) returns (r: Option<ProjectCompletionValues>)
      requires Valid()
      modifies this`opacity, this`unset, this`unsetOrder
      ensures Valid()
      ensures filePath.Some? && old(FirstSelecting(filePath.value, glob, 0)) != -1 ==>
        unset == old(unset) && r == Some(configs[old(FirstSelecting(filePath.value, glob, 0))].1)
      ensures old(defaultConfig).Some? && (filePath.None? || old(FirstSelecting(filePath.value, glob, 0)) == -1) ==>
        r == old(defaultConfig) && unset == old(unset)
      ensures old(defaultConfig).None? && old(unsetOrder) != [] && (filePath.None? || old(FirstSelecting(filePath.value, glob, 0)) == -1) ==>
        r == Some(old(unset)[old(unsetOrder)[0]]) && unset == old(unset)
      ensures old(defaultConfig).None? && old(unsetOrder) == [] && (filePath.None? || old(FirstSelecting(filePath.value, glob, 0)) == -1) ==>
        (r.Some? <==> V3Template(res).Some?) && (r.Some? ==> fresh(r.value) && r.value.State() == V3Template(res).value)
    {
      if filePath.Some? {
        r := FindConfig(filePath.value, glob);
        assert Entries() == old(Entries());
        assert FirstSelecting(filePath.value, glob, 0) == old(FirstSelecting(filePath.value, glob, 0));
        if r.Some? {
          return;
        }
      }
      r := Fallback();
    }

    /** Loads the version's unset project unless it is cached already; the
        cached projects stay as they were. */
    method EnsureLoaded(version: TailwindVersion) returns (loaded: bool)
      requires Valid()
      modifies this`opacity, this`unset, this`unsetOrder
      ensures Valid()
      ensures loaded <==> version in unset
      ensures Retains(old(unset), unset)
      ensures !loaded ==> unset == old(unset)
    {
      LoadClasses(version);
      loaded := version in unset;
    }

    /** A new entry's project: a copy of its version's unset project, loaded
        first if need be, holding the key as its path; None where the V3
        loader throws. */
    method CopyUnset(version: TailwindVersion, key: string) returns (project: Option<ProjectCompletionValues>)
      requires Valid()
      modifies this`opacity, this`unset, this`unsetOrder
      ensures Valid()
      ensures Retains(old(unset), unset)
      ensures project.None? ==> version !in unset && unset == old(unset)
      ensures project.Some? ==>
        version in unset && fresh(project.value)
        && project.value.State() == Copied(unset[version].State()).(filePath := Some(key))
      ensures project.Some? ==> project.value !in unset.Values
    {
      var loaded := EnsureLoaded(version);
      if !loaded {
        return None;
      }
      var c := unset[version].Copy();
      c.SetFilePath(Some(key));
      project := Some(c);
    }

    /** `_projectCompletionConfiguration[key] = project`, the project then
        becoming the default. */
    method Enter(key: string, project: ProjectCompletionValues)
      requires Valid() && IndexOfKey(configs, key) == -1 && project !in Entries() && project !in unset.Values
      modifies this`configs, this`defaultConfig
      ensures Valid()
      ensures configs == old(configs) + [(key, project)] && defaultConfig == Some(project)
      ensures IndexOfKey(configs, key) == |old(configs)|
    {
      IndexOfKeyAppend(configs, key, project);
      IndexOfKeyMissing(configs, key);
      configs := configs + [(key, project)];
      defaultConfig := Some(project);
      assert configs[|configs| - 1].1 == project;
    }

    /** An existing entry taking its key as its path again and becoming the
        default: every other entry keeps its state, and what a copy of an
        unset project would carry stays the same. */
    method Reenter(i: nat, project: ProjectCompletionValues)
      requires Valid() && 0 <= i < |configs| && project == configs[i].1
      modifies project`filePath, this`defaultConfig
      ensures Valid()
      ensures project.filePath == Some(configs[i].0) && defaultConfig == Some(project)
      ensures forall v :: v in unset ==> unchanged(unset[v])
      ensures forall j :: 0 <= j < |configs| && (configs[j].0 != configs[i].0 || old(configs[j].1.filePath) == Some(configs[i].0)) ==>
        unchanged(configs[j].1)
    {
      project.filePath := Some(configs[i].0);
      defaultConfig := Some(project);
    }

    /** A configuration file seen before: its entry takes the key as its
        path again and becomes the default; every other entry keeps its
        path. */
    method Revisit(key: string)
      requires Valid() && IndexOfKey(configs, key) != -1
      modifies this`defaultConfig, Entries()`filePath
      ensures Valid()
      ensures defaultConfig == Some(configs[IndexOfKey(configs, key)].1)
      ensures defaultConfig.value.filePath == Some(key)
      ensures forall i :: 0 <= i < |configs| ==>
        configs[i].1.filePath == if configs[i].0 == key then Some(key) else old(configs[i].1.filePath)
      ensures forall v :: v in unset ==> unchanged(unset[v])
      ensures forall i :: 0 <= i < |configs| && (configs[i].0 != key || old(configs[i].1.filePath) == Some(key)) ==>
        unchanged(configs[i].1)
    {
      var i := IndexOfKey(configs, key);
      Reenter(i, configs[i].1);
    }

    /** A configuration file not seen before: a copy of its version's unset
        project enters under the key. False where the V3 loader throws. */
    method RegisterNew(key: string, version: TailwindVersion) returns (project: Option<ProjectCompletionValues>)
      requires Valid() && IndexOfKey(configs, key) == -1
      modifies this`opacity, this`unset, this`unsetOrder, this`configs, this`defaultConfig
      ensures Valid()
      ensures Retains(old(unset), unset)
      ensures project.None? ==> configs == old(configs) && defaultConfig == old(defaultConfig)
      ensures project.Some? ==>
        configs == old(configs) + [(key, project.value)] && defaultConfig == project
        && IndexOfKey(configs, key) == |old(configs)| && fresh(project.value) && version in unset
        && project.value.State() == Copied(unset[version].State()).(filePath := Some(key))
    {
      project := CopyUnset(version, key);
      if project.Some? {
        Enter(key, project.value);
      }
    }

    /** One configuration file of `Initialize`, short of the reload of its
        custom attributes: the entry of its lower-cased path, a copy of its
        version's unset project when it is new, takes that path and becomes
        the default. False where the V3 loader throws. */
    method Register(file: string, versionOf: string -> TailwindVersion)
      returns (ok: bool, added: Option<ProjectCompletionValues>)
      requires Valid()
      modifies this`opacity, this`unset, this`unsetOrder, this`configs, this`defaultConfig, Entries()`filePath
      ensures Valid()
      ensures Retains(old(unset), unset)
      ensures added.None? ==> configs == old(configs)
      ensures added.Some? ==> ok && configs == old(configs) + [(Lower(file), added.value)] && fresh(added.value)
      ensures added.Some? ==>
        versionOf(file) in unset
        && added.value.State() == Copied(unset[versionOf(file)].State()).(filePath := Some(Lower(file)))
      ensures forall i :: 0 <= i < |old(configs)| ==>
        configs[i].1.filePath == if old(configs[i].0) == Lower(file) then Some(Lower(file)) else old(configs[i].1.filePath)
      ensures forall v :: v in old(unset) ==> unchanged(old(unset)[v])
      ensures forall i :: 0 <= i < |old(configs)| && (old(configs[i].0) != Lower(file) || old(configs[i].1.filePath) == Some(Lower(file))) ==>
        unchanged(old(configs[i].1))
      ensures ok ==> (ByConfigFilePath(file).Some? && defaultConfig == ByConfigFilePath(file)
                      && defaultConfig.value.filePath == Some(Lower(file)))
      ensures !ok ==> defaultConfig == old(defaultConfig)
    {
      var key := Lower(file);
      var i := IndexOfKey(configs, key);
      if i == -1 {
        IndexOfKeyMissing(configs, key);
        added := RegisterNew(key, versionOf(file));
        ok := added.Some?;
      } else {
        Revisit(key);
        ok, added := true, None;
      }
    }

    /** What `Initialize` has done once the first `n` files are through:
        the entries before it kept, `added` after them, an entry for each of
        those files (`keys` holding their lower-cased paths), and the last
        of them the default. */
    ghost predicate Initialized(files: seq<string>, n: nat, base: seq<(string, ProjectCompletionValues)>,
                                added: seq<(string, ProjectCompletionValues)>, keys: seq<string>)
      reads this`configs, this`defaultConfig, this`unset, this`unsetOrder
    {
      Valid() && configs == base + added && n <= |files|
      && |keys| == n && (forall k :: 0 <= k < n ==> keys[k] == Lower(files[k]))
      && HasKeys(configs, keys)
      && (n == 0 ==> defaultConfig == None)
      && (n > 0 ==> defaultConfig == ByConfigFilePath(files[n - 1]))
    }

    /** Once every file is through, each has an entry and the last is the
        default. */
    lemma InitializedMeaning(files: seq<string>, base: seq<(string, ProjectCompletionValues)>,
                             added: seq<(string, ProjectCompletionValues)>, keys: seq<string>)
      requires Initialized(files, |files|, base, added, keys)
      ensures forall k :: 0 <= k < |files| ==> ByConfigFilePath(files[k]).Some?
      ensures files == [] ==> defaultConfig == None
      ensures files != [] ==> defaultConfig == ByConfigFilePath(files[|files| - 1])
      ensures |base| <= |configs| && configs[..|base|] == base
    {
      assert configs[..|base|] == base;
      forall k | 0 <= k < |files|
        ensures ByConfigFilePath(files[k]).Some?
      {
        assert IndexOfKey(configs, keys[k]) != -1;
      }
    }

    /** `Initialized` carried over one `Register` of `files[n]`. */
    lemma InitializedNext(files: seq<string>, n: nat, base: seq<(string, ProjectCompletionValues)>,
                          added: seq<(string, ProjectCompletionValues)>, keys: seq<string>,
                          project: Option<ProjectCompletionValues>)
      requires Valid() && n < |files| && configs == base + added + Added(Lower(files[n]), project)
      requires |keys| == n && (forall k :: 0 <= k < n ==> keys[k] == Lower(files[k])) && HasKeys(base + added, keys)
      requires ByConfigFilePath(files[n]).Some? && defaultConfig == ByConfigFilePath(files[n])
      ensures Initialized(files, n + 1, base, added + Added(Lower(files[n]), project), keys + [Lower(files[n])])
    {
      assert configs == (base + added) + Added(Lower(files[n]), project);
      HasKeysStep(base + added, Added(Lower(files[n]), project), keys, Lower(files[n]));
    }

    /** One pass of the loop of `Initialize`. */
    method InitializeStep(files: seq<string>, n: nat, versionOf: string -> TailwindVersion,
                          ghost base: seq<(string, ProjectCompletionValues)>,
                          ghost added: seq<(string, ProjectCompletionValues)>, ghost keys: seq<string>)
      returns (ok: bool, project: Option<ProjectCompletionValues>)
      requires Initialized(files, n, base, added, keys) && n < |files|
      modifies this`opacity, this`unset, this`unsetOrder, this`configs, this`defaultConfig, Entries()`filePath
      ensures Valid() && |base| <= |configs| && configs[..|base|] == base
      ensures project.Some? ==> ok && fresh(project.value)
      ensures ok ==> Initialized(files, n + 1, base, added + Added(Lower(files[n]), project), keys + [Lower(files[n])])
    {
      ok, project := Register(files[n], versionOf);
      assert configs == base + added + Added(Lower(files[n]), project);
      assert configs[..|base|] == base;
      if ok {
        InitializedNext(files, n, base, added, keys, project);
      }
    }

    /** `Initialize`, short of the reload of each file's custom attributes:
        every configuration file, in order, gets its entry and becomes the
        default in turn, so the last one ends up the default, and the
        entries it adds are fresh. False where the V3 loader throws, the
        files before it having been registered. */
    method Initialize(files: seq<string>, versionOf: string -> TailwindVersion) returns (ok: bool)
      requires Valid()
      modifies this`opacity, this`unset, this`unsetOrder, this`configs, this`defaultConfig, Entries()`filePath
      ensures Valid()
      ensures |old(configs)| <= |configs| && configs[..|old(configs)|] == old(configs)
      ensures ok ==> forall k :: 0 <= k < |files| ==> ByConfigFilePath(files[k]).Some?
      ensures ok && files == [] ==> defaultConfig == None
      ensures ok && files != [] ==> defaultConfig == ByConfigFilePath(files[|files| - 1])
      ensures ok ==> forall i :: |old(configs)| <= i < |configs| ==> fresh(configs[i].1)
    {
      defaultConfig := None;
      ghost var added: seq<(string, ProjectCompletionValues)> := [];
      ghost var made: set<ProjectCompletionValues> := {};
      ghost var keys: seq<string> := [];
      for n := 0 to |files|
        invariant Initialized(files, n, old(configs), added, keys)
        invariant fresh(made) && forall k :: 0 <= k < |added| ==> added[k].1 in made
      {
        ValuesAppend(old(configs), added, made);
        var registered, project := InitializeStep(files, n, versionOf, old(configs), added, keys);
        if !registered {
          return false;
        }
        added := added + Added(Lower(files[n]), project);
        keys := keys + [Lower(files[n])];
        if project.Some? {
          made := made + {project.value};
        }
      }
      InitializedMeaning(files, old(configs), added, keys);
      ok := true;
    }
  }
}
