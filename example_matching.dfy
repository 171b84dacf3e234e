/**
 * Query by example as Spring Data evaluates an Example: a probe entity and
 * an ExampleMatcher. Every matcher here matches all properties and ignores
 * null probe values (the NullHandler.IGNORE of ExampleMatcher.matchingAll()).
 */
module ExampleMatching {
  import opened Wrappers
  import opened JavaStrings
  import opened Entities

  /** The matcher settings the CRUD layer uses: case handling and the ignored property paths. */
  datatype ExampleMatcher = ExampleMatcher(ignoreCase: bool, ignoredPaths: seq<string>)

  /** CrudService.defaultExampleMatcher: matchingAll().withIgnoreNullValues().withIgnoreCase(). */
  const DefaultExampleMatcher := ExampleMatcher(true, [])

  /** One probe value against one candidate value: strings optionally ignore case, the rest compare equal. */
  predicate ValueMatches(ignoreCase: bool, probe: Value, candidate: Value) {
    match (probe, candidate)
    case (StringValue(p), StringValue(c)) => if ignoreCase then EqualsIgnoreCase(p, c) else p == c
    case _ => probe == candidate
  }

  /** The property `k` of the probe constrains the candidate. */
  predicate Constrains(matcher: ExampleMatcher, probe: Props, k: string) {
    k in probe && probe[k].Some? && k !in matcher.ignoredPaths
  }

  /** The candidate satisfies every non-null, non-ignored property of the probe. */
  predicate Matches(matcher: ExampleMatcher, probe: Props, candidate: Props) {
    forall k :: k in probe && Constrains(matcher, probe, k) ==>
      k in candidate && candidate[k].Some? && ValueMatches(matcher.ignoreCase, probe[k].value, candidate[k].value)
  }

  /** A probe whose properties are all null matches every candidate. */
  lemma AllNullProbeMatchesEverything(matcher: ExampleMatcher, probe: Props, candidate: Props)
    requires forall k :: k in probe ==> probe[k].None?
    ensures Matches(matcher, probe, candidate)
  {
  }

  /** Every entity matches itself used as a probe, whatever the case handling. */
  lemma EveryCandidateMatchesItself(matcher: ExampleMatcher, candidate: Props)
    ensures Matches(matcher, candidate, candidate)
  {
  }

  /** One non-null probe property that the candidate does not share excludes the candidate. */
  lemma OneDifferingPropertyExcludes(matcher: ExampleMatcher, probe: Props, candidate: Props, k: string)
    requires Constrains(matcher, probe, k)
    requires k in candidate
    requires candidate[k].None? || !ValueMatches(matcher.ignoreCase, probe[k].value, candidate[k].value)
    ensures !Matches(matcher, probe, candidate)
  {
  }

  /**
   * With the default matcher a string property matches whatever its case:
   * "Widget" as a probe value finds "WIDGET".
   */
  lemma DefaultMatcherIgnoresCase(probe: Props, candidate: Props, k: string)
    requires k in probe && k in candidate && k != IdProperty
    requires probe == candidate[k := probe[k]]
    requires probe[k].Some? && probe[k].value.StringValue? && candidate[k].Some? && candidate[k].value.StringValue?
    requires ToLowerCase(probe[k].value.s) == ToLowerCase(candidate[k].value.s)
    ensures Matches(DefaultExampleMatcher, probe, candidate)
  {
  }

  /** Setting one more probe property to a value can only narrow what matches. */
  lemma MoreProbeValuesNarrowMatches(matcher: ExampleMatcher, probe: Props, k: string, v: Value, candidate: Props)
    requires k in probe
    requires Matches(matcher, probe[k := Some(v)], candidate)
    requires probe[k].None?
    ensures Matches(matcher, probe, candidate)
  {
  }
}
