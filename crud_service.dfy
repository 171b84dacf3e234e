/**
 * CrudService: the generic service over an entity repository. The
 * repository is the `store` field, from id to entity; both copies of the
 * class (techmath, with soft delete and formatted not-found messages, and
 * astro, without either) are the one class below told apart by `package`.
 */
module Service {
  import opened Wrappers
  import opened JavaStrings
  import opened Entities
  import opened ExampleMatching
  import opened CrudErrors
  import opened PageRequests
  import opened UpdaterExamples

  datatype Package = Techmath | Astro

  /** The rows of the repository by id. */
  type Store = map<Value, Entity>

  /** Every stored entity carries its own key as its id. */
  predicate Keyed(store: Store) {
    forall k :: k in store ==> Id(store[k]) == Some(k)
  }

  /** How String.format's %s writes an id. */
  function Show(id: Value): string {
    match id
    case IntValue(i) => IntToDecimal(i)
    case StringValue(s) => s
    case BoolValue(b) => if b then "true" else "false"
  }

  /** ENTITY_NOT_FOUND_MESSAGE with the id filled in. */
  function NotFoundMessage(id: Value): string {
    "Record with ID '" + Show(id) + "' not found"
  }

  /**
   * The exception a lookup of a missing id raises: techmath formats the
   * not-found message, astro uses EntityNotFoundException::new.
   */
  function NotFound(package: Package, id: Value): (ex: Exception)
    ensures ex.EntityNotFoundException?
    ensures ex.message.Some? <==> package == Techmath
  {
    match package
    case Techmath => EntityNotFoundException(Some(NotFoundMessage(id)))
    case Astro => EntityNotFoundException(None)
  }

  /** findById(id).orElseThrow(...): the stored entity, or the not-found exception. */
  function FindOrThrow(package: Package, store: Store, id: Value): (r: Result<Entity, Exception>)
    ensures r.Success? <==> id in store
    ensures r.Success? ==> r.value == store[id]
    ensures r.Failure? ==> r.error == NotFound(package, id)
  {
    if id in store then Success(store[id]) else Failure(NotFound(package, id))
  }

  /**
   * The not-found message as the techmath code builds it: String.format
   * with the template's %d, evaluated before the lookup. %d accepts only
   * integral arguments.
   */
  function FormatNotFoundAsWritten(id: Value): (r: Result<string, Exception>)
    ensures r.Success? <==> id.IntValue?
    ensures r.Success? ==> r.value == NotFoundMessage(id)
  {
    match id
    case IntValue(i) => Success("Record with ID '" + IntToDecimal(i) + "' not found")
    case _ => Failure(IllegalFormatConversionException)
  }

  /**
   * findById(id).orElseThrow(entityNotFoundExceptionSupplier(id)) as
   * written: the supplier's factory formats its message first, so the
   * format failure happens whether or not the id is stored.
   */
  function FindOrThrowAsWritten(store: Store, id: Value): Result<Entity, Exception> {
    match FormatNotFoundAsWritten(id)
    case Failure(e) => Failure(e)
    case Success(message) => if id in store then Success(store[id]) else Failure(EntityNotFoundException(Some(message)))
  }

  /** A stored entity with a String id cannot be looked up as written. */
  lemma StoredStringIdFailsAsWritten(store: Store, s: string)
    requires StringValue(s) in store
    ensures FindOrThrowAsWritten(store, StringValue(s)) == Failure(IllegalFormatConversionException)
    ensures FindOrThrow(Techmath, store, StringValue(s)) == Success(store[StringValue(s)])
  {
  }

  /** On integral ids, the only ones the template was written for, the two lookups agree. */
  lemma AsWrittenAgreesOnIntegralIds(store: Store, i: int)
    ensures FindOrThrowAsWritten(store, IntValue(i)) == FindOrThrow(Techmath, store, IntValue(i))
  {
  }

  /** A concrete repository in which the as-written lookup fails although the row exists. */
  lemma StringIdCounterexample()
    ensures var e := Entity(map[IdProperty := Some(StringValue("abc"))], false);
      var store := map[StringValue("abc") := e];
      Keyed(store) && FindOrThrowAsWritten(store, StringValue("abc")).Failure?
  {
  }

  class CrudService {
    /** The repository's rows. */
    var store: Store
    const package: Package
    /**
     * The service's softDelete override, as the properties it sets (for
     * instance a deletion flag); None is the default softDelete, which
     * throws UnsupportedOperationException. Only techmath services consult it.
     */
    const softDeleteOverride: Option<map<string, Option<Value>>>

    ghost predicate Valid()
      reads this
    {
      Keyed(store)
    }

    constructor (package: Package, softDeleteOverride: Option<map<string, Option<Value>>>, contents: Store)
      requires Keyed(contents)
      ensures Valid()
      ensures this.package == package && this.softDeleteOverride == softDeleteOverride && store == contents
    {
      this.package := package;
      this.softDeleteOverride := softDeleteOverride;
      store := contents;
    }

    /** deleteById goes through softDelete for this entity. */
    predicate SoftDeletes(e: Entity)
      reads this
    {
      package == Techmath && e.softDeletable
    }

    /** What the softDelete override leaves of an entity: its properties set, the id kept. */
    function SoftDeleted(e: Entity): (r: Entity)
      requires softDeleteOverride.Some?
      reads this
      ensures Id(r) == Id(e) && r.softDeletable == e.softDeletable && r.props.Keys == e.props.Keys
      ensures forall k :: k in e.props && k != IdProperty && k in softDeleteOverride.value ==> r.props[k] == softDeleteOverride.value[k]
      ensures forall k :: k in e.props && k !in softDeleteOverride.value ==> r.props[k] == e.props[k]
    {
      Entity(CopyProperties(softDeleteOverride.value, e.props, [IdProperty]), e.softDeletable)
    }

    /**
     * create: an entity with a non-null id that is already stored is
     * refused and nothing is saved; otherwise the id is cleared and the
     * save stores the entity under the id the database generates, which
     * no stored row carries yet, so every other row stays as it was.
     */
    method Create(entity: Entity, generated: Value) returns (r: Result<Entity, Exception>)
      requires Valid()
      requires generated !in store
      modifies this
      ensures Valid()
      ensures r.Failure? <==> !IsNew(entity) && Id(entity).value in old(store)
      ensures r.Failure? ==> r.error == EntityExistsException(None) && store == old(store)
      ensures r.Success? ==> r.value == WithId(entity, Some(generated)) && store == old(store)[generated := r.value]
      ensures r.Success? ==> store.Keys == old(store).Keys + {generated} && forall k :: k in old(store) ==> store[k] == old(store)[k]
    {
      if !IsNew(entity) && Id(entity).value in store {
        return Failure(EntityExistsException(None));
      }
      var cleared := WithId(entity, None);
      var saved := WithId(cleared, Some(generated));
      assert saved.props == entity.props[IdProperty := Some(generated)];
      store := store[generated := saved];
      r := Success(saved);
    }

    /** findById: the stored entity, whose id is the one asked for. */
    function FindById(id: Value): (r: Option<Entity>)
      requires Valid()
      reads this
      ensures r.Some? <==> id in store
      ensures r.Some? ==> r.value == store[id] && Id(r.value) == Some(id)
    {
      if id in store then Some(store[id]) else None
    }

    /** findAll(): every stored entity, each under its own id. */
    function FindAll(): (r: set<Entity>)
      requires Valid()
      reads this
      ensures forall e :: e in r ==> Id(e).Some? && Id(e).value in store && store[Id(e).value] == e
      ensures forall k :: k in store ==> store[k] in r
    {
      store.Values
    }

    /**
     * findAll(filters): a null probe throws; otherwise the stored entities
     * the probe matches under defaultExampleMatcher.
     */
    function FindAllByExample(filters: Option<Entity>): (r: Result<set<Entity>, Exception>)
      reads this
      ensures r.Failure? <==> filters.None?
      ensures r.Failure? ==> r.error == NullPointerException
      ensures r.Success? ==> forall e :: e in r.value <==> e in store.Values && Matches(DefaultExampleMatcher, filters.value.props, e.props)
    {
      match filters
      case None => Failure(NullPointerException)
      case Some(probe) => Success(set e | e in store.Values && Matches(DefaultExampleMatcher, probe.props, e.props))
    }

    /**
     * findAll(filters, pageable): the same query, sliced, sorted and
     * counted by the repository, which `pager` stands for.
     */
    function FindAllPaged(filters: Option<Entity>, pageable: Pageable, pager: (set<Entity>, Pageable) -> Page<Entity>): (r: Result<Page<Entity>, Exception>)
      reads this
      ensures r.Failure? <==> filters.None?
      ensures r.Failure? ==> r.error == NullPointerException
      ensures r.Success? ==> r.value == pager(FindAllByExample(filters).value, pageable)
    {
      match FindAllByExample(filters)
      case Failure(e) => Failure(e)
      case Success(matches) => Success(pager(matches, pageable))
    }

    /** findAllById: the stored entities whose ids were asked for; absent ids are skipped. */
    function FindAllById(ids: set<Value>): (r: set<Entity>)
      requires Valid()
      reads this
      ensures forall e :: e in r ==> Id(e).Some? && Id(e).value in ids && Id(e).value in store && store[Id(e).value] == e
      ensures forall i :: i in ids && i in store ==> store[i] in r
    {
      set i | i in ids && i in store :: store[i]
    }

    /**
     * update(id, toUpdate): a missing id throws before any write;
     * otherwise every property but the id takes toUpdate's value, nulls
     * included, and the entity is saved under the same id.
     */
    method Update(id: Value, toUpdate: Entity) returns (r: Result<Entity, Exception>)
      requires Valid()
      modifies this
      ensures Valid()
      ensures r.Success? <==> id in old(store)
      ensures r.Failure? ==> r.error == NotFound(package, id) && store == old(store)
      ensures r.Success? ==> store == old(store)[id := r.value]
      ensures r.Success? ==> r.value.props.Keys == old(store)[id].props.Keys && r.value.softDeletable == old(store)[id].softDeletable
      ensures r.Success? ==> Id(r.value) == Some(id)
      ensures r.Success? ==> forall k :: k in r.value.props && k != IdProperty ==>
        r.value.props[k] == if k in toUpdate.props then toUpdate.props[k] else old(store)[id].props[k]
    {
      var found := FindOrThrow(package, store, id);
      if found.Failure? {
        return Failure(found.error);
      }
      var entity := found.value;
      entity := Entity(CopyProperties(toUpdate.props, entity.props, [IdProperty]), entity.softDeletable);
      store := store[id := entity];
      r := Success(entity);
    }

    /**
     * update(id, UpdaterExample): a missing id throws before any write;
     * otherwise the probe is copied except for the example's ignored
     * paths, so the id and every ignored property keep their values.
     */
    method PartialUpdate(id: Value, toUpdate: UpdaterExample) returns (r: Result<Entity, Exception>)
      requires Valid()
      modifies this
      ensures Valid()
      ensures r.Success? <==> id in old(store)
      ensures r.Failure? ==> r.error == NotFound(package, id) && store == old(store)
      ensures r.Success? ==> store == old(store)[id := r.value]
      ensures r.Success? ==> r.value.props == CopyProperties(toUpdate.GetProbe().props, old(store)[id].props, toUpdate.GetIgnoredPaths())
      ensures r.Success? ==> r.value.softDeletable == old(store)[id].softDeletable && Id(r.value) == Some(id)
      ensures r.Success? ==> forall k :: k in r.value.props && (k in toUpdate.ignoredProperties || k !in toUpdate.probe.props) ==>
        r.value.props[k] == old(store)[id].props[k]
    {
      var found := FindOrThrow(package, store, id);
      if found.Failure? {
        return Failure(found.error);
      }
      var entity := found.value;
      var ignored := toUpdate.GetIgnoredPaths();
      entity := Entity(CopyProperties(toUpdate.GetProbe().props, entity.props, ignored), entity.softDeletable);
      store := store[id := entity];
      r := Success(entity);
    }

    /**
     * deleteById: a missing id throws before any write. A soft-deletable
     * techmath entity goes through softDelete and is saved back, so it
     * stays stored (and the default softDelete throws, leaving the
     * repository as it was); every other entity is removed.
     */
    method DeleteById(id: Value) returns (r: Outcome<Exception>)
      requires Valid()
      modifies this
      ensures Valid()
      ensures id !in old(store) ==> r == Fail(NotFound(package, id)) && store == old(store)
      ensures id in old(store) && SoftDeletes(old(store)[id]) && softDeleteOverride.None? ==>
        r == Fail(UnsupportedOperationException) && store == old(store)
      ensures id in old(store) && SoftDeletes(old(store)[id]) && softDeleteOverride.Some? ==>
        r == Pass && store == old(store)[id := SoftDeleted(old(store)[id])]
      ensures id in old(store) && !SoftDeletes(old(store)[id]) ==> r == Pass && store == old(store) - {id}
      ensures r.Pass? ==> (id in store <==> SoftDeletes(old(store)[id]))
    {
      var found := FindOrThrow(package, store, id);
      if found.Failure? {
        return Fail(found.error);
      }
      var entity := found.value;
      if SoftDeletes(entity) {
        if softDeleteOverride.None? {
          return Fail(UnsupportedOperationException);
        }
        entity := SoftDeleted(entity);
        store := store[Id(entity).value := entity];
      } else {
        store := store - {Id(entity).value};
      }
      r := Pass;
    }
  }

  /** With a probe whose properties are all null, the filtered findAll returns every stored entity. */
  lemma {:induction false} AllNullFilterFindsAll(service: CrudService, probe: Entity)
    requires forall k :: k in probe.props ==> probe.props[k].None?
    ensures service.FindAllByExample(Some(probe)) == Success(service.store.Values)
  {
    var r := service.FindAllByExample(Some(probe));
    forall e | e in service.store.Values
      ensures e in r.value
    {
      AllNullProbeMatchesEverything(DefaultExampleMatcher, probe.props, e.props);
    }
    assert r.value == service.store.Values;
  }

  /** Every stored entity is found by a probe that is itself. */
  lemma ProbeFindsItself(service: CrudService, id: Value)
    requires id in service.store
    ensures service.FindAllByExample(Some(service.store[id])).Success?
    ensures service.store[id] in service.FindAllByExample(Some(service.store[id])).value
  {
  }
}
