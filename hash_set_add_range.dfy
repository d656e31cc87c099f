/** HashSet<T>.AddRange, the extension method of src/Helpers/HashSetAddRange.cs:
    each item is added to the set in place; null arguments throw. */
module HashSetAddRange {
  import opened Wrappers

  /** A .NET HashSet: a mutable set object that callers share by reference. */
  class HashSet<T(==)> {
    var elems: set<T>

    constructor (init: set<T>)
      ensures elems == init
    {
      elems := init;
    }
  }

  /** The elements of an item sequence. */
  function Elements<T>(items: seq<T>): set<T> {
    set x | x in items
  }

  /** The set after adding `items` one at a time, front to back. */
  function AddEach<T>(s: set<T>, items: seq<T>): set<T>
    decreases |items|
  {
    if items == [] then s else AddEach(s + {items[0]}, items[1..])
  }

  /** Adding the items one at a time yields the union. */
  lemma {:induction false} AddEachIsUnion<T>(s: set<T>, items: seq<T>)
    ensures AddEach(s, items) == s + Elements(items)
    decreases |items|
  {
    if items != [] {
      AddEachIsUnion(s + {items[0]}, items[1..]);
      assert Elements(items) == {items[0]} + Elements(items[1..]);
    }
  }

  /** No element already in the set is removed. */
  lemma KeepsExisting<T>(s: set<T>, items: seq<T>)
    ensures s <= AddEach(s, items)
    ensures forall x :: x in items ==> x in AddEach(s, items)
  {
    AddEachIsUnion(s, items);
  }

  /** Adding the same items a second time changes nothing. */
  lemma Idempotent<T>(s: set<T>, items: seq<T>)
    ensures AddEach(AddEach(s, items), items) == AddEach(s, items)
  {
    AddEachIsUnion(s, items);
    AddEachIsUnion(AddEach(s, items), items);
  }

  /** Adds every item to `hashSet`; a null set or a null item sequence throws
      ArgumentNullException before anything is added. */
  method AddRange<T(==)>(hashSet: HashSet?<T>, items: Option<seq<T>>) returns (r: Outcome)
    modifies hashSet
    ensures hashSet == null ==> r == ArgumentNull("hashSet")
    ensures hashSet != null && items.None? ==> r == ArgumentNull("items") && hashSet.elems == old(hashSet.elems)
    ensures hashSet != null && items.Some? ==> r == Pass && hashSet.elems == AddEach(old(hashSet.elems), items.value)
  {
    if hashSet == null {
      return ArgumentNull("hashSet");
    }
    if items.None? {
      return ArgumentNull("items");
    }
    var i := 0;
    while i < |items.value|
      invariant 0 <= i <= |items.value|
      invariant AddEach(hashSet.elems, items.value[i..]) == AddEach(old(hashSet.elems), items.value)
    {
      assert items.value[i..][1..] == items.value[i + 1..];
      hashSet.elems := hashSet.elems + {items.value[i]};
      i := i + 1;
    }
    r := Pass;
  }
}
