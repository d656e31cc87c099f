/** LoadPlugins of src/Project/ConfigurationClassGenerator.cs: the classes and
    variants contributed by plugins, `@utility` and `@custom-variant`. From
    Tailwind CSS v4 on, every `@utility` description whose name holds `*` and
    whose body calls `--value(...)` is parsed piece by piece into one
    description per accepted value type; the `--color-*` type yields one
    colour class and any other theme namespace yields one class per matching
    CSS variable. Before v4 the plugin classes come from the configuration
    script as they are. */
module PluginLoader {
  import opened Strings
  import opened Wrappers
  import opened Versions
  import opened TailwindConfig
  import opened ProjectCompletion
  import opened SpacingCalls
  import CssConfigSplitter

  /** The state of one description parse: the text every new type starts
      from (`standard`) and the descriptions per type, in insertion order
      (`valueToDescription`). */
  datatype Descriptions = Descriptions(standard: string, byType: seq<(string, string)>)

  /** What the plugins add: the new plugin class names and the classes that
      go to `project.Classes` at the end. */
  datatype Generated = Generated(pluginClasses: seq<string>, classes: seq<TailwindClass>)

  function Types(byType: seq<(string, string)>): (ts: seq<string>)
    ensures |ts| == |byType|
    ensures forall i :: 0 <= i < |byType| ==> ts[i] == byType[i].0
  {
    if byType == [] then [] else [byType[0].0] + Types(byType[1..])
  }

  /** The value types `--value(...)` accepts: a theme namespace `--x-*`,
      `integer`, `number`, `ratio`, or an arbitrary `[...]`. */
  predicate IsValueType(t: string) {
    (StartsWith(t, "--") && EndsWith(t, "-*"))
    || t == "integer" || t == "number" || t == "ratio"
    || (StartsWith(t, "[") && EndsWith(t, "]"))
  }

  predicate AllValueTypes(ts: seq<string>) {
    forall i :: 0 <= i < |ts| ==> IsValueType(ts[i])
  }

  /** `foreach (var key in valueToDescription.Keys.ToList())
      valueToDescription[key] += text` */
  function AppendAll(byType: seq<(string, string)>, text: string): (r: seq<(string, string)>)
    ensures |r| == |byType| && Types(r) == Types(byType)
    ensures forall i :: 0 <= i < |r| ==> r[i].1 == byType[i].1 + text
  {
    if byType == [] then [] else [(byType[0].0, byType[0].1 + text)] + AppendAll(byType[1..], text)
  }

  /** A type seen for the first time starts from `standard`; either way the
      format is appended to its description. The type keeps its place, or a
      new one is added at the end. */
  function AddFormat(byType: seq<(string, string)>, t: string, standard: string, format: string): (r: seq<(string, string)>)
    ensures Types(r) == if t in Types(byType) then Types(byType) else Types(byType) + [t]
  {
    if byType == [] then [(t, standard + format)]
    else if byType[0].0 == t then [(t, byType[0].1 + format)] + byType[1..]
    else
      var rest := AddFormat(byType[1..], t, standard, format);
      assert Types(byType) == [byType[0].0] + Types(byType[1..]);
      [byType[0]] + rest
  }

  /** The description a type ends with when it is new or already present. */
  lemma {:induction false} AddFormatValue(byType: seq<(string, string)>, t: string, standard: string, format: string, i: nat)
    requires Distinct(Types(byType))
    requires i < |AddFormat(byType, t, standard, format)|
    ensures var r := AddFormat(byType, t, standard, format);
      r[i].0 == t ==> r[i].1 == (if i < |byType| then byType[i].1 else standard) + format
    ensures var r := AddFormat(byType, t, standard, format);
      r[i].0 != t ==> i < |byType| && r[i] == byType[i]
  {
    if byType != [] {
      var ts := Types(byType);
      if byType[0].0 == t {
        assert AddFormat(byType, t, standard, format) == [(t, byType[0].1 + format)] + byType[1..];
        assert i > 0 ==> ts[0] != ts[i];
      } else if i > 0 {
        DistinctTail(byType);
        AddFormatValue(byType[1..], t, standard, format, i - 1);
      }
    }
  }

  lemma DistinctTail(byType: seq<(string, string)>)
    requires byType != [] && Distinct(Types(byType))
    ensures Distinct(Types(byType[1..]))
  {
    var ts, rest := Types(byType), Types(byType[1..]);
    assert forall k :: 0 <= k < |rest| ==> rest[k] == ts[k + 1];
  }

  /** `foreach (var value in values.Split(','))`: each trimmed piece that
      is an accepted value type gets the format. */
  function AddFormats(byType: seq<(string, string)>, raws: seq<string>, standard: string, format: string): seq<(string, string)>
  {
    if raws == [] then byType
    else
      var prev := AddFormats(byType, raws[..|raws| - 1], standard, format);
      var t := Trim(raws[|raws| - 1]);
      if IsValueType(t) then AddFormat(prev, t, standard, format) else prev
  }

  /** Only accepted value types are added, each at most once. */
  lemma {:induction false} AddFormatsTypes(byType: seq<(string, string)>, raws: seq<string>, standard: string, format: string)
    requires AllValueTypes(Types(byType)) && Distinct(Types(byType))
    ensures AllValueTypes(Types(AddFormats(byType, raws, standard, format)))
    ensures Distinct(Types(AddFormats(byType, raws, standard, format)))
    ensures Types(byType) <= Types(AddFormats(byType, raws, standard, format))
  {
    if raws != [] {
      var prev := AddFormats(byType, raws[..|raws| - 1], standard, format);
      AddFormatsTypes(byType, raws[..|raws| - 1], standard, format);
      var t := Trim(raws[|raws| - 1]);
      if IsValueType(t) {
        var ts := Types(prev);
        if t !in ts {
          assert Types(AddFormat(prev, t, standard, format)) == ts + [t];
        }
      }
    }
  }

  /** The text from `n` on; empty when `n` lies past the end, where C#'s
      range and `Substring` would throw instead. */
  function Tail(s: string, n: nat): (r: string)
    ensures n <= |s| ==> r == s[n..]
    ensures n > |s| ==> r == []
  {
    if n <= |s| then s[n..] else []
  }

  /** A trimmed text starting with `}` contains `}`. */
  lemma TrimmedBrace(a: string)
    requires StartsWith(Trim(a), "}")
    ensures IndexOfChar(a, '}', 0) != -1
  {
    var t := Trim(a);
    var o :| 0 <= o <= |a| && OccursAt(a, t, o);
    assert a[o] == t[0] == '}';
  }

  /** What one attribute does to the state: nothing, an addition to
      `standard` and to every description, or formats for the listed types
      (`raws` are the untrimmed comma-separated entries of the call). */
  datatype AttributeShape = Skip | Plain(text: string) | Call(raws: seq<string>, format: string)

  /** What one piece of the description does, computed from its text
      alone: whether the source throws on it, the brace text it adds (if
      any) and what its attribute does. */
  datatype PieceShape = PieceShape(throws: bool, brace: Option<string>, attribute: AttributeShape)

  /** `"--value("` has no `)`, so the `)` found after its start closes it
      at or after its end. */
  lemma CloseAfterCall(attribute: string, start: int, end: int)
    requires OccursAt(attribute, "--value(", start)
    requires end == IndexOfChar(attribute, ')', start + 1) && end != -1
    ensures start + 8 <= end
  {
    assert attribute[start..start + 8] == "--value(";
    forall k | start + 1 <= k < start + 8
      ensures attribute[k] != ')'
    {
      assert attribute[k] == attribute[start..start + 8][k - start];
    }
  }

  /** The trimmed attribute of a piece: a blank one is skipped, one
      without `--value(` is plain text, one with `--value(` but no `:` or no
      closing `)` is skipped, and otherwise the entries between
      `--value(` and `)` receive the attribute with the call replaced by
      `{0}`, followed by `;`. */
  function AttributeOf(attribute: string): AttributeShape {
    if IsBlank(attribute) then Skip
    else
      var start := IndexOf(attribute, "--value(");
      if start == -1 then Plain(attribute)
      else if IndexOfChar(attribute, ':', 0) == -1 then Skip
      else
        var end := IndexOfChar(attribute, ')', start + 1);
        if end == -1 then Skip
        else
          CloseAfterCall(attribute, start, end);
          Call(Split(attribute[start + 8..end], ','), Replace(attribute, attribute[start..end + 1], "{0}") + ";")
  }

  /** The text after the first `}` of an attribute whose trimmed text
      starts with `}` (an empty block). */
  function AfterFirstBrace(attribute: string): string
    requires StartsWith(Trim(attribute), "}")
  {
    TrimmedBrace(attribute);
    attribute[IndexOfChar(attribute, '}', 0) + 1..]
  }

  /** Does the brace handling of a piece read past its end? Both branches
      skip the character after the brace (`media.Length + 1`,
      `bracket.Length + 1`), which is missing when the brace is the last
      character of the piece. */
  predicate BraceThrows(split: string) {
    var open := IndexOfChar(split, '{', 0);
    if open != -1 then open + 2 > |split|
    else
      var close := LastIndexOfChar(split, '}', |split| - 1);
      close != -1 && close + 2 > |split|
  }

  /** The brace handling of a piece: the brace text it adds, if any, and
      its untrimmed attribute. A piece holding `{` opens a block: the text
      up to the `{` is added, unless the block is empty, when the text after
      the first `}` is the attribute. Otherwise a piece holding `}` closes
      blocks: the text up to its last `}` is added. Both skip the character
      after the brace; where the source reads past the end of the piece
      there, the attribute is read as empty. */
  function BraceOf(split: string): (Option<string>, string) {
    var open := IndexOfChar(split, '{', 0);
    if open != -1 then
      var attribute := Tail(split, open + 2);
      if StartsWith(Trim(attribute), "}") then (None, AfterFirstBrace(attribute))
      else (Some(split[..open + 1]), attribute)
    else
      var close := LastIndexOfChar(split, '}', |split| - 1);
      if close != -1 then (Some(split[..close + 1]), Tail(split, close + 2))
      else (None, split)
  }

  function Analyze(split: string): PieceShape {
    PieceShape(BraceThrows(split), BraceOf(split).0, AttributeOf(Trim(BraceOf(split).1)))
  }

  /** The brace text, when there is one, is added to `standard` and to
      every description. */
  function ApplyBrace(d: Descriptions, brace: Option<string>): Descriptions {
    match brace
    case None => d
    case Some(b) => Descriptions(d.standard + b, AppendAll(d.byType, b))
  }

  function ApplyAttribute(d: Descriptions, attribute: AttributeShape): Descriptions {
    match attribute
    case Skip => d
    case Plain(text) => Descriptions(d.standard + text, AppendAll(d.byType, text))
    case Call(raws, format) => Descriptions(d.standard, AddFormats(d.byType, raws, d.standard, format))
  }

  /** A piece's effect on the state (as intended: a piece that throws in
      the source is applied with an empty attribute). */
  function Apply(d: Descriptions, shape: PieceShape): Descriptions {
    ApplyAttribute(ApplyBrace(d, shape.brace), shape.attribute)
  }

  function ShapesOf(pieces: seq<string>): (r: seq<PieceShape>)
    ensures |r| == |pieces|
  {
    if pieces == [] then [] else ShapesOf(pieces[..|pieces| - 1]) + [Analyze(pieces[|pieces| - 1])]
  }

  /** The pieces applied left to right from an empty state. */
  function Fold(shapes: seq<PieceShape>): Descriptions {
    if shapes == [] then Descriptions("", [])
    else Apply(Fold(shapes[..|shapes| - 1]), shapes[|shapes| - 1])
  }

  /** The same fold as written: the first piece that throws aborts it. */
  function FoldAsWritten(shapes: seq<PieceShape>): Option<Descriptions> {
    if shapes == [] then Some(Descriptions("", []))
    else
      match FoldAsWritten(shapes[..|shapes| - 1])
      case None => None
      case Some(d) =>
        var last := shapes[|shapes| - 1];
        if last.throws then None else Some(Apply(d, last))
  }

  predicate SomeThrows(shapes: seq<PieceShape>) {
    exists k :: 0 <= k < |shapes| && shapes[k].throws
  }

  /** The fold as written fails exactly when some piece throws, and
      otherwise agrees with the intended fold. */
  lemma {:induction false} FoldAsWrittenMeaning(shapes: seq<PieceShape>)
    ensures FoldAsWritten(shapes).None? <==> SomeThrows(shapes)
    ensures FoldAsWritten(shapes).Some? ==> FoldAsWritten(shapes) == Some(Fold(shapes))
  {
    if shapes != [] {
      var front := shapes[..|shapes| - 1];
      FoldAsWrittenMeaning(front);
      if SomeThrows(front) {
        var k :| 0 <= k < |front| && front[k].throws;
        assert shapes[k] == front[k];
      }
      if SomeThrows(shapes) && !shapes[|shapes| - 1].throws {
        var k :| 0 <= k < |shapes| && shapes[k].throws;
        assert front[k] == shapes[k];
      }
    }
  }

  /** Every piece keeps the recorded types accepted value types, each
      recorded once, and never forgets one. */
  lemma ApplyTypes(d: Descriptions, shape: PieceShape)
    requires AllValueTypes(Types(d.byType)) && Distinct(Types(d.byType))
    ensures AllValueTypes(Types(Apply(d, shape).byType))
    ensures Distinct(Types(Apply(d, shape).byType))
    ensures Types(d.byType) <= Types(Apply(d, shape).byType)
  {
    var d1 := ApplyBrace(d, shape.brace);
    assert Types(d1.byType) == Types(d.byType);
    if shape.attribute.Call? {
      AddFormatsTypes(d1.byType, shape.attribute.raws, d1.standard, shape.attribute.format);
    }
  }

  /** The parse records only accepted value types, each once. */
  lemma {:induction false} FoldTypes(shapes: seq<PieceShape>)
    ensures AllValueTypes(Types(Fold(shapes).byType))
    ensures Distinct(Types(Fold(shapes).byType))
  {
    if shapes != [] {
      FoldTypes(shapes[..|shapes| - 1]);
      ApplyTypes(Fold(shapes[..|shapes| - 1]), shapes[|shapes| - 1]);
    }
  }

  /** `valueToDescription` for one trimmed, split description. */
  function DescriptionTypes(value: string): seq<(string, string)> {
    Fold(ShapesOf(CssConfigSplitter.Split(Trim(value)))).byType
  }

  /** Every described type is an accepted value type, and none appears
      twice. */
  lemma DescriptionTypesAreValueTypes(value: string)
    ensures AllValueTypes(Types(DescriptionTypes(value)))
    ensures Distinct(Types(DescriptionTypes(value)))
  {
    FoldTypes(ShapesOf(CssConfigSplitter.Split(Trim(value))));
  }

  /** `class="... {0} ..."`: a colour class built from the utility name. */
  function ColorClass(name: string): (c: TailwindClass)
    ensures c.name == name && c.useColors
    ensures !c.useOpacity && !c.useSpacing && !c.usePercent && !c.useFractions && !c.useNumbers && !c.hasArbitrary
  {
    TailwindClass(name, true, false, false, false, false, false, false)
  }

  /** The CSS variables of one theme namespace, in order, each turned into
      a class by putting the variable's suffix where the name has `-*`. */
  function VariableClasses(key: string, stem: string, vars: seq<(string, string)>): seq<string> {
    if vars == [] then []
    else
      var rest := VariableClasses(key, stem, vars[1..]);
      if StartsWith(vars[0].0, stem) then [Replace(key, "-*", vars[0].0[|stem|..])] + rest else rest
  }

  /** A class comes from exactly the variables of the namespace. */
  lemma {:induction false} VariableClassesMembers(key: string, stem: string, vars: seq<(string, string)>, x: string)
    ensures x in VariableClasses(key, stem, vars) <==>
      exists i :: 0 <= i < |vars| && StartsWith(vars[i].0, stem) && x == Replace(key, "-*", vars[i].0[|stem|..])
  {
    if vars != [] {
      VariableClassesMembers(key, stem, vars[1..], x);
      if x in VariableClasses(key, stem, vars[1..]) {
        var i :| 0 <= i < |vars[1..]| && StartsWith(vars[1..][i].0, stem) && x == Replace(key, "-*", vars[1..][i].0[|stem|..]);
        assert vars[i + 1] == vars[1..][i];
      }
      if exists i :: 0 <= i < |vars| && StartsWith(vars[i].0, stem) && x == Replace(key, "-*", vars[i].0[|stem|..]) {
        var i :| 0 <= i < |vars| && StartsWith(vars[i].0, stem) && x == Replace(key, "-*", vars[i].0[|stem|..]);
        if i > 0 {
          assert vars[1..][i - 1] == vars[i];
        }
      }
    }
  }

  /** What one described type of a utility contributes: nothing when its
      description has an unclosed `--spacing(` or the type is not a theme
      namespace; a colour class for `--color-*`; nothing for a colour
      family `--color-...-*`; otherwise one plugin class per CSS variable
      of the namespace `stem`. */
  datatype TypeShape = Ignored | ColorType | Namespace(stem: string)

  function TypeShapeOf(t: string, desc: string): TypeShape {
    if Rewritten(desc).None? || !StartsWith(t, "--") then Ignored
    else
      var stem := Trim(t[..|t| - 2]);
      if stem == "--color" then ColorType
      else if StartsWith(stem, "--color-") then Ignored
      else Namespace(stem)
  }

  function TypeShapes(byType: seq<(string, string)>): (r: seq<TypeShape>)
    ensures |r| == |byType|
  {
    if byType == [] then []
    else TypeShapes(byType[..|byType| - 1]) + [TypeShapeOf(byType[|byType| - 1].0, byType[|byType| - 1].1)]
  }

  /** One `@utility` as LoadPlugins sees it: its name, whether the name
      holds `*`, whether the body calls `--value(`, and its described types
      in order. */
  datatype Utility = Utility(key: string, wildcard: bool, call: bool, types: seq<TypeShape>)

  function UtilityOf(key: string, value: string): Utility {
    Utility(key, IndexOfChar(key, '*', 0) != -1, IndexOf(value, "--value(") != -1, TypeShapes(DescriptionTypes(value)))
  }

  function Utilities(plugins: seq<(string, string)>): (r: seq<Utility>)
    ensures |r| == |plugins|
  {
    if plugins == [] then []
    else Utilities(plugins[..|plugins| - 1]) + [UtilityOf(plugins[|plugins| - 1].0, plugins[|plugins| - 1].1)]
  }

  function TypeStep(g: Generated, key: string, shape: TypeShape, vars: seq<(string, string)>): Generated {
    match shape
    case Ignored => g
    case ColorType => g.(classes := g.classes + [ColorClass(Replace(key, "*", "{0}"))])
    case Namespace(stem) => g.(pluginClasses := g.pluginClasses + VariableClasses(key, stem, vars))
  }

  function TypesFold(g: Generated, key: string, types: seq<TypeShape>, vars: seq<(string, string)>): Generated {
    if types == [] then g
    else TypeStep(TypesFold(g, key, types[..|types| - 1], vars), key, types[|types| - 1], vars)
  }

  /** One utility: a name without `*` is a plugin class as it is; a
      wildcard name without `--value(` adds nothing; otherwise each
      described type is handled in order. */
  function PluginStep(g: Generated, u: Utility, vars: seq<(string, string)>): Generated {
    if !u.wildcard then g.(pluginClasses := g.pluginClasses + [u.key])
    else if !u.call then g
    else TypesFold(g, u.key, u.types, vars)
  }

  /** The same utility as written: the description parse may throw. */
  function PluginStepAsWritten(g: Generated, key: string, value: string, vars: seq<(string, string)>): Option<Generated> {
    var u := UtilityOf(key, value);
    if !u.wildcard || !u.call then Some(PluginStep(g, u, vars))
    else
      match FoldAsWritten(ShapesOf(CssConfigSplitter.Split(Trim(value))))
      case None => None
      case Some(d) => Some(TypesFold(g, key, TypeShapes(d.byType), vars))
  }

  function PluginsFold(g: Generated, us: seq<Utility>, vars: seq<(string, string)>): Generated {
    if us == [] then g
    else PluginStep(PluginsFold(g, us[..|us| - 1], vars), us[|us| - 1], vars)
  }

  /** Handling the described types only appends: to the plugin classes,
      and to the classes, colour classes named after the utility. */
  lemma {:induction false} TypesFoldGrows(g: Generated, key: string, types: seq<TypeShape>, vars: seq<(string, string)>)
    ensures g.pluginClasses <= TypesFold(g, key, types, vars).pluginClasses
    ensures g.classes <= TypesFold(g, key, types, vars).classes
    ensures var r := TypesFold(g, key, types, vars);
      forall j :: |g.classes| <= j < |r.classes| ==> r.classes[j] == ColorClass(Replace(key, "*", "{0}"))
  {
    if types != [] {
      TypesFoldGrows(g, key, types[..|types| - 1], vars);
    }
  }

  /** A colour class named after some wildcard utility of `us`. */
  predicate WildcardColorClass(c: TailwindClass, us: seq<Utility>) {
    exists i :: 0 <= i < |us| && us[i].wildcard && c == ColorClass(Replace(us[i].key, "*", "{0}"))
  }

  /** The plugin fold only appends to what it was given. */
  lemma {:induction false} PluginsFoldGrows(g: Generated, us: seq<Utility>, vars: seq<(string, string)>)
    ensures g.pluginClasses <= PluginsFold(g, us, vars).pluginClasses
    ensures g.classes <= PluginsFold(g, us, vars).classes
  {
    if us != [] {
      var last := us[|us| - 1];
      PluginsFoldGrows(g, us[..|us| - 1], vars);
      TypesFoldGrows(PluginsFold(g, us[..|us| - 1], vars), last.key, last.types, vars);
    }
  }

  /** Every utility named without `*` becomes a plugin class. */
  lemma {:induction false} PlainUtilityListed(g: Generated, us: seq<Utility>, vars: seq<(string, string)>, i: nat)
    requires i < |us| && !us[i].wildcard
    ensures us[i].key in PluginsFold(g, us, vars).pluginClasses
  {
    var front := us[..|us| - 1];
    var last := us[|us| - 1];
    var prev := PluginsFold(g, front, vars);
    if i < |front| {
      PlainUtilityListed(g, front, vars, i);
      assert front[i] == us[i];
      TypesFoldGrows(prev, last.key, last.types, vars);
    } else {
      assert prev.pluginClasses + [last.key] == PluginsFold(g, us, vars).pluginClasses;
    }
  }

  /** Every class the plugins add is a colour class named after a wildcard
      utility, `*` replaced by the `{0}` placeholder. */
  lemma {:induction false} PluginClassesAreColorClasses(g: Generated, us: seq<Utility>, vars: seq<(string, string)>)
    ensures var r := PluginsFold(g, us, vars);
      forall j :: |g.classes| <= j < |r.classes| ==> WildcardColorClass(r.classes[j], us)
  {
    if us != [] {
      var front := us[..|us| - 1];
      var n := |us| - 1;
      var last := us[n];
      PluginClassesAreColorClasses(g, front, vars);
      PluginsFoldGrows(g, front, vars);
      var prev := PluginsFold(g, front, vars);
      var r := PluginsFold(g, us, vars);
      TypesFoldGrows(prev, last.key, last.types, vars);
      assert prev.classes <= r.classes;
      forall j | |g.classes| <= j < |r.classes|
        ensures WildcardColorClass(r.classes[j], us)
      {
        if j < |prev.classes| {
          assert r.classes[j] == prev.classes[j];
          var i :| 0 <= i < |front| && front[i].wildcard && prev.classes[j] == ColorClass(Replace(front[i].key, "*", "{0}"));
          assert us[i] == front[i];
        } else {
          assert r.classes[j] == ColorClass(Replace(us[n].key, "*", "{0}"));
        }
      }
    }
  }

  /** Where the source does not throw, it does what the corrected parse
      does. */
  lemma PluginStepAgrees(g: Generated, key: string, value: string, vars: seq<(string, string)>)
    ensures PluginStepAsWritten(g, key, value, vars).Some? ==>
      PluginStepAsWritten(g, key, value, vars) == Some(PluginStep(g, UtilityOf(key, value), vars))
    ensures PluginStepAsWritten(g, key, value, vars).None? <==>
      IndexOfChar(key, '*', 0) != -1 && IndexOf(value, "--value(") != -1
      && SomeThrows(ShapesOf(CssConfigSplitter.Split(Trim(value))))
  {
    FoldAsWrittenMeaning(ShapesOf(CssConfigSplitter.Split(Trim(value))));
  }

  /** A piece that is just `}` throws in the source; as intended it closes
      the block in `standard` and in every description. */
  lemma ClosingBraceCloses(d: Descriptions)
    ensures Analyze("}").throws
    ensures Apply(d, Analyze("}")) == Descriptions(d.standard + "}", AppendAll(d.byType, "}"))
  {
    var split := "}";
    assert IndexOfChar(split, '{', 0) == -1;
    assert LastIndexOfChar(split, '}', 0) == 0;
    assert split[..1] == split;
    assert Tail(split, 2) == [];
    assert Trim([]) == [];
    assert AttributeOf([]) == Skip;
  }

  /** `" }"` trims to `"}"`. */
  lemma TrimClosing()
    ensures Trim(" }") == "}"
  {
    var s := " }";
    assert SkipWs(s, 1) == 1;
    assert SkipWs(s, 0) == 1;
    assert SkipWsBack(s, 1, 2) == 2;
  }

  /** Text without `;` and not ending in a backslash, followed by `; }`,
      is cut once, before the closing brace. */
  lemma LastBlockRawSplit(x: string)
    requires x != [] && x[|x| - 1] != '\\'
    requires forall k :: 0 <= k < |x| ==> x[k] != ';'
    ensures CssConfigSplitter.RawSplit(x + "; }") == [x, " }"]
  {
    var css := x + "; }";
    var n := |x|;
    assert css[n + 1..] == " }";
    assert CssConfigSplitter.CountQuotes(" }") == 0 by {
      assert " }"[1..] == "}" && "}"[1..] == [];
      assert CssConfigSplitter.CountQuotes("}") == 0;
    }
    assert CssConfigSplitter.IsSplitPoint(css, n);
    ScanToSplit(css, n, 0);
    assert !CssConfigSplitter.IsSplitPoint(css, n + 1);
    assert !CssConfigSplitter.IsSplitPoint(css, n + 2);
    assert CssConfigSplitter.SplitFrom(css, n + 1, n + 3) == [" }"];
    assert CssConfigSplitter.SplitFrom(css, n + 1, n + 2) == [" }"];
    assert CssConfigSplitter.SplitFrom(css, n + 1, n + 1) == [" }"];
    assert css[..n] == x;
  }

  /** With no `;` before n and a split point at n, scanning from any
      i <= n cuts first at n. */
  lemma {:induction false} ScanToSplit(css: string, n: nat, i: nat)
    requires i <= n < |css| && CssConfigSplitter.IsSplitPoint(css, n)
    requires forall k :: 0 <= k < n ==> css[k] != ';'
    ensures CssConfigSplitter.SplitFrom(css, 0, i) == [css[..n]] + CssConfigSplitter.SplitFrom(css, n + 1, n + 1)
    decreases n - i
  {
    if i < n {
      ScanToSplit(css, n, i + 1);
      assert !CssConfigSplitter.IsSplitPoint(css, i);
    }
  }

  /** Text without `;` and not ending in a backslash, followed by `; }`,
      splits into the trimmed text and the piece `}`. */
  lemma LastBlockSplit(x: string)
    requires !IsBlank(x) && x[|x| - 1] != '\\'
    requires forall k :: 0 <= k < |x| ==> x[k] != ';'
    ensures CssConfigSplitter.Split(x + "; }") == [Trim(x), "}"]
  {
    LastBlockRawSplit(x);
    TrimClosing();
    TrimBlank(x);
    assert !IsBlank(Trim(x));
    assert !IsBlank("}");
    var pieces := [x, " }"];
    assert pieces[1..][1..] == [];
    assert CssConfigSplitter.TrimNonBlank(pieces[1..]) == ["}"];
  }

  /** The exception of the source: a wildcard utility whose body ends with
      a `--value(` declaration closing a nested block (such as
      `@media (x) { tab-size: --value(integer); }`) makes the source throw.
      The plugin classes then hold only those of the utilities handled
      before it, and the colour classes and plugin variants are never
      assigned; what the reload wrote before the plugins (paths, prefix,
      global values, overrides and extensions) stays on the project. */
  lemma NestedLastDeclarationThrows(g: Generated, key: string, value: string, vars: seq<(string, string)>, x: string)
    requires IndexOfChar(key, '*', 0) != -1 && IndexOf(value, "--value(") != -1
    requires Trim(value) == x + "; }"
    requires !IsBlank(x) && x[|x| - 1] != '\\'
    requires forall k :: 0 <= k < |x| ==> x[k] != ';'
    ensures PluginStepAsWritten(g, key, value, vars) == None
  {
    LastBlockSplit(x);
    var shapes := ShapesOf([Trim(x), "}"]);
    ClosingBraceCloses(Descriptions("", []));
    assert shapes[1].throws;
    FoldAsWrittenMeaning(shapes);
    assert UtilityOf(key, value).wildcard && UtilityOf(key, value).call;
  }

  /** `foreach (var key in valueToDescription.Keys.ToList())
      valueToDescription[key] += text`, entry by entry. */
  method AppendEach(byType: seq<(string, string)>, text: string) returns (r: seq<(string, string)>)
    ensures r == AppendAll(byType, text)
  {
    r := byType;
    for k := 0 to |byType|
      invariant |r| == |byType|
      invariant forall j :: 0 <= j < k ==> r[j] == (byType[j].0, byType[j].1 + text)
      invariant forall j :: k <= j < |byType| ==> r[j] == byType[j]
    {
      r := r[k := (r[k].0, r[k].1 + text)];
    }
    var spec := AppendAll(byType, text);
    assert forall j :: 0 <= j < |r| ==> spec[j].0 == Types(spec)[j] == byType[j].0;
  }

  /** `foreach (var value in values.Split(','))`: every trimmed entry that
      is an accepted value type gets the format. */
  method AddEach(byType: seq<(string, string)>, raws: seq<string>, standard: string, format: string) returns (r: seq<(string, string)>)
    ensures r == AddFormats(byType, raws, standard, format)
  {
    r := byType;
    for k := 0 to |raws|
      invariant r == AddFormats(byType, raws[..k], standard, format)
    {
      assert raws[..k + 1][..k] == raws[..k];
      var trimmed := Trim(raws[k]);
      if IsValueType(trimmed) {
        r := AddFormat(r, trimmed, standard, format);
      }
    }
    assert raws[..|raws|] == raws;
  }

  /** The attribute part of the piece loop, on the parsed trimmed attribute. */
  method AddAttribute(d: Descriptions, attribute: AttributeShape) returns (r: Descriptions)
    ensures r == ApplyAttribute(d, attribute)
  {
    match attribute
    case Skip =>
      r := d;
    case Plain(text) =>
      var byType := AppendEach(d.byType, text);
      r := Descriptions(d.standard + text, byType);
    case Call(values, descriptionFormat) =>
      var byType := AddEach(d.byType, values, d.standard, descriptionFormat);
      r := Descriptions(d.standard, byType);
  }

  /** Adds the brace text, if any, to `standard` and to every description. */
  method AddBrace(d: Descriptions, brace: Option<string>) returns (r: Descriptions)
    ensures r == ApplyBrace(d, brace)
  {
    r := d;
    if brace.Some? {
      var byType := AppendEach(d.byType, brace.value);
      r := Descriptions(d.standard + brace.value, byType);
    }
  }

  /** The body of the piece loop: brace handling, then the attribute. */
  method ApplyPiece(d: Descriptions, split: string) returns (r: Descriptions)
    ensures r == Apply(d, Analyze(split))
  {
    var (brace, attribute) := BraceOf(split);
    var d1 := AddBrace(d, brace);
    r := AddAttribute(d1, AttributeOf(Trim(attribute)));
  }

  /** Builds `valueToDescription` for one description. */
  method ParseDescription(value: string) returns (byType: seq<(string, string)>)
    ensures byType == DescriptionTypes(value)
  {
    var pieces := CssConfigSplitter.Split(Trim(value));
    var d := Descriptions("", []);
    for i := 0 to |pieces|
      invariant d == Fold(ShapesOf(pieces[..i]))
    {
      assert pieces[..i + 1][..i] == pieces[..i];
      var shapes := ShapesOf(pieces[..i + 1]);
      assert shapes[..i] == ShapesOf(pieces[..i]);
      d := ApplyPiece(d, pieces[i]);
    }
    assert pieces[..|pieces|] == pieces;
    byType := d.byType;
  }

  /** One described type (the body of the type loop). */
  method TypeClasses(g: Generated, key: string, t: string, desc0: string, vars: seq<(string, string)>) returns (r: Generated)
    ensures r == TypeStep(g, key, TypeShapeOf(t, desc0), vars)
  {
    r := g;
    var desc, shouldContinue := RewriteSpacing(desc0);
    if !shouldContinue && StartsWith(t, "--") {
      var stem := Trim(t[..|t| - 2]);
      if stem == "--color" {
        r := r.(classes := r.classes + [ColorClass(Replace(key, "*", "{0}"))]);
      } else if !StartsWith(stem, "--color-") {
        r := r.(pluginClasses := r.pluginClasses + VariableClasses(key, stem, vars));
      }
    }
  }

  /** The classes of one utility (the body of the plugin loop). */
  method UtilityClasses(gen: Generated, key: string, value: string, vars: seq<(string, string)>) returns (r: Generated)
    ensures r == PluginStep(gen, UtilityOf(key, value), vars)
  {
    if IndexOfChar(key, '*', 0) == -1 {
      return gen.(pluginClasses := gen.pluginClasses + [key]);
    }
    if IndexOf(value, "--value(") == -1 {
      return gen;
    }
    var byType := ParseDescription(value);
    r := TypesClasses(gen, key, byType, vars);
  }

  /** The loop over the described types of one utility. */
  method TypesClasses(gen: Generated, key: string, byType: seq<(string, string)>, vars: seq<(string, string)>) returns (r: Generated)
    ensures r == TypesFold(gen, key, TypeShapes(byType), vars)
  {
    r := gen;
    for j := 0 to |byType|
      invariant r == TypesFold(gen, key, TypeShapes(byType[..j]), vars)
    {
      assert byType[..j + 1][..j] == byType[..j];
      var types := TypeShapes(byType[..j + 1]);
      assert types[..j] == TypeShapes(byType[..j]);
      r := TypeClasses(r, key, byType[j].0, byType[j].1, vars);
    }
    assert byType[..|byType|] == byType;
  }

  /** Utilities in order feed one generated state. */
  lemma PluginsFoldSnoc(g: Generated, plugins: seq<(string, string)>, i: nat, vars: seq<(string, string)>)
    requires i < |plugins|
    ensures PluginsFold(g, Utilities(plugins[..i + 1]), vars)
      == PluginStep(PluginsFold(g, Utilities(plugins[..i]), vars), UtilityOf(plugins[i].0, plugins[i].1), vars)
  {
    assert plugins[..i + 1][..i] == plugins[..i];
    var us := Utilities(plugins[..i + 1]);
    assert us[..i] == Utilities(plugins[..i]);
  }

  /** The loop over `config.PluginDescriptions`. */
  method CollectUtilities(plugins: seq<(string, string)>, vars: seq<(string, string)>) returns (gen: Generated)
    ensures gen == PluginsFold(Generated([], []), Utilities(plugins), vars)
  {
    gen := Generated([], []);
    for i := 0 to |plugins|
      invariant gen == PluginsFold(Generated([], []), Utilities(plugins[..i]), vars)
    {
      PluginsFoldSnoc(Generated([], []), plugins, i, vars);
      gen := UtilityClasses(gen, plugins[i].0, plugins[i].1, vars);
    }
    assert plugins[..|plugins|] == plugins;
  }

  /** LoadPlugins: from v4 on, the plugin classes are rebuilt from the
      `@utility` descriptions in order and the colour classes they yield
      are appended to the project's classes; before v4 they are the
      configuration's. The plugin variants are the configuration's either
      way. */
  method LoadPlugins(project: ProjectCompletionValues, config: TailwindConfiguration)
    modifies project`pluginClasses, project`classes, project`pluginVariants
    ensures project.version.AtLeast(V4) ==>
      var gen := PluginsFold(Generated([], []), Utilities(config.pluginDescriptions), project.cssVariables);
      project.pluginClasses == gen.pluginClasses && project.classes == old(project.classes) + gen.classes
    ensures !project.version.AtLeast(V4) ==>
      project.pluginClasses == config.pluginClasses && project.classes == old(project.classes)
    ensures project.pluginVariants == config.pluginVariants
  {
    if project.version.AtLeast(V4) {
      var gen := CollectUtilities(config.pluginDescriptions, project.cssVariables);
      project.pluginClasses := gen.pluginClasses;
      project.classes := project.classes + gen.classes;
    } else {
      project.pluginClasses := config.pluginClasses;
    }
    project.pluginVariants := config.pluginVariants;
  }
}
