/** ValidationUtils: the names of a bean's null properties. */
module ValidationUtils {
  import opened Wrappers
  import opened Collections
  import opened Entities

  /** The names of the properties of `source` whose value is null. */
  function NullPropertyNames(source: Props): set<string> {
    set k | k in source && source[k].None?
  }

  /**
   * getNullPropertyNames: visits every property descriptor, collects the
   * names of null properties in a HashSet, then copies that set into an
   * array. The visiting and the copying orders are those of the reflection
   * API and of the HashSet, so both are left open here.
   */
  method GetNullPropertyNames(source: Props) returns (names: seq<string>)
    ensures forall k :: k in names <==> k in source && source[k].None?
    ensures NoDuplicates(names)
    ensures |names| == |NullPropertyNames(source)|
  {
    var emptyNames: set<string> := {};
    var descriptors := source.Keys;
    while descriptors != {}
      invariant descriptors <= source.Keys
      invariant emptyNames == set k | k in source && k !in descriptors && source[k].None?
      decreases descriptors
    {
      var pd :| pd in descriptors;
      if source[pd].None? {
        emptyNames := emptyNames + {pd};
      }
      descriptors := descriptors - {pd};
    }
    assert emptyNames == NullPropertyNames(source);
    names := [];
    var rest := emptyNames;
    while rest != {}
      invariant rest <= emptyNames
      invariant NoDuplicates(names)
      invariant forall k :: k in names <==> k in emptyNames && k !in rest
      invariant |names| + |rest| == |emptyNames|
      decreases rest
    {
      var name :| name in rest;
      names := names + [name];
      rest := rest - {name};
    }
  }

  /** A bean without null properties yields an empty array. */
  lemma NoNullPropertiesNoNames(source: Props)
    requires forall k :: k in source ==> source[k].Some?
    ensures NullPropertyNames(source) == {}
  {
  }
}
