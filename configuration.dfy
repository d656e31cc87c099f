/** The parsed Tailwind CSS configuration of
    src/Project/Configuration/TailwindConfiguration.cs and the loosely typed
    values its theme dictionaries hold. */
module TailwindConfig {
  import opened Wrappers

  /** A theme value: a string, a nested dictionary (insertion-ordered
      key/value pairs), or anything else (a list, a number, ...), carried
      with the text its `ToString()` gives. */
  datatype ConfigValue =
    | Str(s: string)
    | Dict(entries: seq<(string, ConfigValue)>)
    | Other(text: string)

  /** The keys of an insertion-ordered dictionary, in order. */
  function Keys<V>(entries: seq<(string, V)>): (ks: seq<string>)
    ensures |ks| == |entries|
    ensures forall i :: 0 <= i < |entries| ==> ks[i] == entries[i].0
  {
    if entries == [] then [] else [entries[0].0] + Keys(entries[1..])
  }

  /** Lookup in an insertion-ordered dictionary: the first entry with the key. */
  function Lookup<V>(entries: seq<(string, V)>, key: string): (r: Option<V>)
    ensures r.None? <==> key !in Keys(entries)
    ensures r.Some? ==> exists i :: 0 <= i < |entries| && entries[i] == (key, r.value)
  {
    if entries == [] then None
    else if entries[0].0 == key then Some(entries[0].1)
    else Lookup(entries[1..], key)
  }

  /** `dict[key] = value` on an insertion-ordered dictionary: the entry for
      an existing key is replaced in place, a new key is appended. */
  function Put<V>(entries: seq<(string, V)>, key: string, value: V): (r: seq<(string, V)>)
    ensures Lookup(r, key) == Some(value)
    ensures forall k :: k != key ==> Lookup(r, k) == Lookup(entries, k)
    ensures key in Keys(entries) ==> Keys(r) == Keys(entries)
    ensures key !in Keys(entries) ==> Keys(r) == Keys(entries) + [key]
  {
    if entries == [] then [(key, value)]
    else if entries[0].0 == key then
      var r := [(key, value)] + entries[1..];
      assert r[1..] == entries[1..];
      r
    else
      var rest := Put(entries[1..], key, value);
      var r := [entries[0]] + rest;
      assert r[1..] == rest;
      r
  }

  /** TailwindConfiguration. Optional lists are `None` where the source
      holds null. */
  datatype TailwindConfiguration = TailwindConfiguration(
    /** Glob format for v3, base folders (possibly `!`-prefixed) for v4. */
    contentPaths: seq<string>,
    /** theme.____ */
    overridenValues: map<string, ConfigValue>,
    /** theme.extend.____ */
    extendedValues: map<string, ConfigValue>,
    /** V4 only */
    themeVariables: map<string, string>,
    prefix: Option<string>,
    pluginClasses: seq<string>,
    pluginVariants: seq<string>,
    pluginDescriptions: seq<(string, string)>,
    pluginVariantDescriptions: seq<(string, string)>,
    blocklist: Option<seq<string>>,
    enabledCorePlugins: Option<seq<string>>,
    disabledCorePlugins: Option<seq<string>>,
    imports: seq<string>)

  /** `new TailwindConfiguration()`: every collection empty, every optional
      list null. */
  function EmptyConfiguration(): (c: TailwindConfiguration)
    ensures c.contentPaths == [] && c.overridenValues == map[] && c.extendedValues == map[]
    ensures c.prefix.None? && c.blocklist.None? && c.enabledCorePlugins.None? && c.disabledCorePlugins.None?
  {
    TailwindConfiguration([], map[], map[], map[], None, [], [], [], [], None, None, None, [])
  }
}
