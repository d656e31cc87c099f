/** The `!important` marker test of src/Helpers/ImportantModifierHelper.cs:
    a token is important when it starts or ends with a single `!`; a doubled
    `!!` is literal content, not a marker. */
module ImportantModifier {

  /** The token starts with `!` and its second character is not `!`. */
  predicate LeadingSingleBang(s: string) {
    |s| >= 1 && s[0] == '!' && !(|s| >= 2 && s[1] == '!')
  }

  /** The token ends with `!` and its second-to-last character is not `!`. */
  predicate TrailingSingleBang(s: string) {
    |s| >= 1 && s[|s| - 1] == '!' && !(|s| >= 2 && s[|s| - 2] == '!')
  }

  predicate IsImportantModifier(classText: string) {
    LeadingSingleBang(classText) || TrailingSingleBang(classText)
  }

  /** The first two and the last two characters (fewer for short tokens). */
  function Edges(s: string): (string, string) {
    var k := if |s| < 2 then |s| else 2;
    (s[..k], s[|s| - k..])
  }

  lemma LeadingBang(x: string)
    requires x == [] || x[0] != '!'
    ensures IsImportantModifier("!" + x)
  {
    assert ("!" + x)[0] == '!';
    assert |x| >= 1 ==> ("!" + x)[1] == x[0];
  }

  lemma TrailingBang(x: string)
    requires x == [] || x[|x| - 1] != '!'
    ensures IsImportantModifier(x + "!")
  {
    var s := x + "!";
    assert s[|s| - 1] == '!';
    assert |x| >= 1 ==> s[|s| - 2] == x[|x| - 1];
  }

  /** `!!x` is not important unless it also ends in a single `!`. */
  lemma DoubleBang(x: string)
    requires !TrailingSingleBang("!!" + x)
    ensures !IsImportantModifier("!!" + x)
  {
    assert ("!!" + x)[1] == '!';
  }

  lemma SmallCases()
    ensures !IsImportantModifier("")
    ensures IsImportantModifier("!")
    ensures !IsImportantModifier("!!")
  {
  }

  /** Only the first two and the last two characters decide. */
  lemma {:induction false} DependsOnlyOnEdges(a: string, b: string)
    requires Edges(a) == Edges(b)
    ensures IsImportantModifier(a) == IsImportantModifier(b)
  {
    var ka := if |a| < 2 then |a| else 2;
    var kb := if |b| < 2 then |b| else 2;
    assert |Edges(a).0| == ka && |Edges(b).0| == kb;
    assert ka == kb;
    if ka >= 1 {
      assert a[0] == Edges(a).0[0] == Edges(b).0[0] == b[0];
      assert a[|a| - 1] == Edges(a).1[ka - 1] == Edges(b).1[ka - 1] == b[|b| - 1];
    }
    if ka == 2 {
      assert a[1] == Edges(a).0[1] == Edges(b).0[1] == b[1];
      assert a[|a| - 2] == Edges(a).1[0] == Edges(b).1[0] == b[|b| - 2];
    }
  }
}
