/**
 * UpdaterExample: the probe of a partial update, with the property names
 * the update must leave alone. The Java class holds two final fields.
 */
module UpdaterExamples {
  import opened Wrappers
  import opened Collections
  import opened Entities
  import opened ExampleMatching
  import ValidationUtils

  /** The all-arguments constructor: any probe, any ignore list. */
  datatype UpdaterExample = UpdaterExample(probe: Entity, ignoredProperties: seq<string>) {

    /** getProbe: the stored probe, unchanged. */
    function GetProbe(): Entity {
      probe
    }

    /**
     * getMatcher: matchingAll().withIgnorePaths(ignoredProperties + "id").
     * withIgnorePaths keeps its paths in a LinkedHashSet, so a repeated name
     * appears once, at its first position.
     */
    function GetMatcher(): (m: ExampleMatcher)
      ensures !m.ignoreCase
      ensures IdProperty in m.ignoredPaths
      ensures Elements(m.ignoredPaths) == Elements(ignoredProperties) + {IdProperty}
      ensures NoDuplicates(m.ignoredPaths)
    {
      var paths := ignoredProperties + [IdProperty];
      assert Elements(paths) == Elements(ignoredProperties) + {IdProperty};
      ExampleMatcher(false, InsertionOrdered(paths))
    }

    /** getIgnoredPaths: the matcher's ignored paths as an array. */
    function GetIgnoredPaths(): (paths: seq<string>)
      ensures IdProperty in paths
      ensures forall k :: k in paths <==> k in ignoredProperties || k == IdProperty
      ensures NoDuplicates(paths)
    {
      var m := GetMatcher();
      assert forall k :: k in m.ignoredPaths <==> k in Elements(m.ignoredPaths);
      assert forall k :: k in ignoredProperties <==> k in Elements(ignoredProperties);
      m.ignoredPaths
    }
  }

  /**
   * The one-argument constructor: ignores exactly the probe's null
   * properties (and, through getIgnoredPaths, the id).
   */
  method FromProbe(probe: Entity) returns (u: UpdaterExample)
    ensures u.probe == probe
    ensures forall k :: k in u.ignoredProperties <==> k in probe.props && probe.props[k].None?
    ensures NoDuplicates(u.ignoredProperties)
  {
    var names := ValidationUtils.GetNullPropertyNames(probe.props);
    u := UpdaterExample(probe, names);
  }

  /**
   * A partial update with an example built from its probe: the id never
   * changes, a null probe property leaves the target's value, and every
   * other property takes the probe's value.
   */
  lemma PartialCopyFromProbe(u: UpdaterExample, target: Props)
    requires forall k :: k in u.ignoredProperties <==> k in u.probe.props && u.probe.props[k].None?
    ensures var r := CopyProperties(u.probe.props, target, u.GetIgnoredPaths());
      && r.Keys == target.Keys
      && r[IdProperty] == target[IdProperty]
      && (forall k :: k in target && k in u.probe.props && k != IdProperty && u.probe.props[k].Some? ==> r[k] == u.probe.props[k])
      && (forall k :: k in target && (k !in u.probe.props || u.probe.props[k].None?) ==> r[k] == target[k])
  {
  }
}
