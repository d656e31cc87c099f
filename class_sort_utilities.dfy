/** The per-version ordering tables of src/Files/ClassSortUtilities.cs: the
    class order list becomes a rank table (name to list index) and the variant
    order list a rank table scaled by 100, each built once per version and then
    served from a cache. */
module ClassSortUtilities {
  import opened Versions

  /** The table the source's `for` loop builds from `names`: each name maps to
      `scale` times the index of its last occurrence. */
  function RankTable(names: seq<string>, scale: nat): map<string, int>
    decreases |names|
  {
    if names == [] then map[]
    else RankTable(names[..|names| - 1], scale)[names[|names| - 1] := scale * (|names| - 1)]
  }

  /** Index of the last occurrence of `x` in `names`. */
  predicate IsLastIndex(names: seq<string>, x: string, i: int) {
    0 <= i < |names| && names[i] == x && forall j :: i < j < |names| ==> names[j] != x
  }

  /** The keys are exactly the listed names. */
  lemma {:induction false} RankTableKeys(names: seq<string>, scale: nat)
    ensures RankTable(names, scale).Keys == set x | x in names
    decreases |names|
  {
    if names != [] {
      var init := names[..|names| - 1];
      RankTableKeys(init, scale);
      assert forall x :: x in names <==> x in init || x == names[|names| - 1];
    }
  }

  /** Each rank is `scale` times the index of the name's last occurrence. */
  lemma {:induction false} RankTableMeaning(names: seq<string>, scale: nat, x: string, i: int)
    requires IsLastIndex(names, x, i)
    ensures x in RankTable(names, scale) && RankTable(names, scale)[x] == scale * i
    decreases |names|
  {
    if i < |names| - 1 {
      var init := names[..|names| - 1];
      assert IsLastIndex(init, x, i);
      RankTableMeaning(init, scale, x, i);
    }
  }

  /** Every variant rank is a non-negative multiple of 100. */
  lemma {:induction false} VariantRanksScaled(names: seq<string>)
    ensures forall x :: x in RankTable(names, 100) ==>
      RankTable(names, 100)[x] >= 0 && RankTable(names, 100)[x] % 100 == 0
    decreases |names|
  {
    if names != [] {
      VariantRanksScaled(names[..|names| - 1]);
    }
  }

  predicate NoDuplicates(names: seq<string>) {
    forall i, j :: 0 <= i < j < |names| ==> names[i] != names[j]
  }

  /** For a duplicate-free list the table is injective and preserves list order. */
  lemma OrderPreserving(names: seq<string>, scale: nat, i: int, j: int)
    requires NoDuplicates(names) && scale > 0
    requires 0 <= i < j < |names|
    ensures names[i] in RankTable(names, scale) && names[j] in RankTable(names, scale)
    ensures RankTable(names, scale)[names[i]] < RankTable(names, scale)[names[j]]
  {
    RankTableMeaning(names, scale, names[i], i);
    RankTableMeaning(names, scale, names[j], j);
  }

  /** The static caches `_classOrders` and `_variantOrders`, keyed by version.
      Reading the resource files is the function `orderFile` / `variantOrderFile`
      from a version to the list its JSON file holds. */
  class OrderCache {
    var classOrders: map<TailwindVersion, map<string, int>>
    var variantOrders: map<TailwindVersion, map<string, int>>

    constructor ()
      ensures classOrders == map[] && variantOrders == map[]
    {
      classOrders := map[];
      variantOrders := map[];
    }

    /** GetClassOrder: the cached table, or the table built from the version's
        order list, which is then cached for that version only. */
    method GetClassOrder(version: TailwindVersion, orderFile: TailwindVersion -> seq<string>)
      returns (r: map<string, int>)
      modifies this
      ensures version in old(classOrders) ==> r == old(classOrders)[version] && classOrders == old(classOrders)
      ensures version !in old(classOrders) ==>
        r == RankTable(orderFile(version), 1) && classOrders == old(classOrders)[version := r]
      ensures variantOrders == old(variantOrders)
    {
      if version in classOrders {
        return classOrders[version];
      }
      var classOrder := orderFile(version);
      classOrders := classOrders[version := map[]];
      for i := 0 to |classOrder|
        invariant classOrders == old(classOrders)[version := RankTable(classOrder[..i], 1)]
        invariant variantOrders == old(variantOrders)
      {
        assert classOrder[..i + 1][..i] == classOrder[..i];
        classOrders := classOrders[version := classOrders[version][classOrder[i] := i]];
      }
      assert classOrder[..|classOrder|] == classOrder;
      r := classOrders[version];
    }

    /** GetVariantOrder: as GetClassOrder, with every index multiplied by 100 so
        that container and breakpoint variants can be slotted in between. */
    method GetVariantOrder(version: TailwindVersion, variantOrderFile: TailwindVersion -> seq<string>)
      returns (r: map<string, int>)
      modifies this
      ensures version in old(variantOrders) ==> r == old(variantOrders)[version] && variantOrders == old(variantOrders)
      ensures version !in old(variantOrders) ==>
        r == RankTable(variantOrderFile(version), 100) && variantOrders == old(variantOrders)[version := r]
      ensures classOrders == old(classOrders)
    {
      if version in variantOrders {
        return variantOrders[version];
      }
      var variantOrder := variantOrderFile(version);
      variantOrders := variantOrders[version := map[]];
      for i := 0 to |variantOrder|
        invariant variantOrders == old(variantOrders)[version := RankTable(variantOrder[..i], 100)]
        invariant classOrders == old(classOrders)
      {
        assert variantOrder[..i + 1][..i] == variantOrder[..i];
        variantOrders := variantOrders[version := variantOrders[version][variantOrder[i] := i * 100]];
      }
      assert variantOrder[..|variantOrder|] == variantOrder;
      r := variantOrders[version];
    }
  }
}
