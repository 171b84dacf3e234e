/**
 * The entity contract (AbstractEntity, SoftDeletable) with the bean
 * properties made explicit, and BeanUtils.copyProperties over them.
 */
module Entities {
  import opened Wrappers

  const IdProperty: string := "id"

  /** A property value; a null property is `None` in the property map. */
  datatype Value = IntValue(i: int) | StringValue(s: string) | BoolValue(b: bool)

  /** The bean properties of an entity by name; `id` is always one of them. */
  type Props = m: map<string, Option<Value>> | "id" in m witness map["id" := None]

  /** An entity: its bean properties, and whether its class implements SoftDeletable. */
  datatype Entity = Entity(props: Props, softDeletable: bool)

  function Id(e: Entity): Option<Value> {
    e.props[IdProperty]
  }

  /** AbstractEntity.isNew: the id is null. */
  predicate IsNew(e: Entity) {
    Id(e).None?
  }

  /** AbstractEntity.setId: only the id changes. */
  function WithId(e: Entity, id: Option<Value>): (r: Entity)
    ensures Id(r) == id && r.softDeletable == e.softDeletable
    ensures r.props.Keys == e.props.Keys
    ensures forall k :: k in e.props && k != IdProperty ==> r.props[k] == e.props[k]
  {
    Entity(e.props[IdProperty := id], e.softDeletable)
  }

  /**
   * BeanUtils.copyProperties(source, target, ignored...): every property of
   * the target that is not ignored and that the source also has takes the
   * source's value, null included; every other property keeps its value.
   */
  function CopyProperties(source: map<string, Option<Value>>, target: Props, ignored: seq<string>): (r: Props)
    ensures r.Keys == target.Keys
    ensures forall k :: k in target && k in source && k !in ignored ==> r[k] == source[k]
    ensures forall k :: k in target && (k !in source || k in ignored) ==> r[k] == target[k]
  {
    map k | k in target :: if k in source && k !in ignored then source[k] else target[k]
  }

  /** A copy that ignores the id never changes the id. */
  lemma CopyIgnoringIdKeepsId(source: map<string, Option<Value>>, target: Props, ignored: seq<string>)
    requires IdProperty in ignored
    ensures CopyProperties(source, target, ignored)[IdProperty] == target[IdProperty]
  {
  }

  /** Copying the same source twice changes nothing the first copy did not. */
  lemma CopyIsIdempotent(source: map<string, Option<Value>>, target: Props, ignored: seq<string>)
    ensures CopyProperties(source, CopyProperties(source, target, ignored), ignored)
         == CopyProperties(source, target, ignored)
  {
  }
}
