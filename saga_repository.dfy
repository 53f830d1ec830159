/**
 * The saga repository: applies the active/inactive lifecycle rule on top of
 * the saga store, flattens association values into descriptors, and turns
 * sagas into stored text and back through a serializer.
 */
module Sagas {
  import opened Wrappers
  import opened SagaStorage

  /** One correlation key of a saga. */
  datatype AssociationValue = AssociationValue(key: string, value: string)

  /** What the repository asks of a saga: the class name the inflector reports
      for it, its id, its association values and whether it is still active. */
  datatype Saga = Saga(
    className: string,
    id: string,
    associationValues: seq<AssociationValue>,
    active: bool)

  /** The descriptor of a single association value: one field, one value. */
  function FromValue(av: AssociationValue): (d: Descriptor)
    ensures d.Keys == {av.key} && d[av.key] == av.value
  {
    map[av.key := av.value]
  }

  /** A one-entry descriptor indexes exactly the ids listed under its pair. */
  lemma IndexedUnderOne(idx: Index, x: string, av: AssociationValue)
    ensures HitIn(idx, x, FromValue(av), {av.key}) <==>
      av.key in idx && av.value in idx[av.key] && x in idx[av.key][av.value]
  {
    if av.key in idx && av.value in idx[av.key] && x in idx[av.key][av.value] {
      assert FromValue(av)[av.key] == av.value;
    }
  }

  class SagaRepository {
    const storage: MemorySagaStorage
    /** The saga serializer (its inner serializer and factory are not part of this model). */
    const serialize: Saga -> string
    /** Rebuilds a saga of the named class from stored text. */
    const deserialize: (string, string) -> Saga
    /** The flattening of association values into a descriptor. */
    const fromValues: seq<AssociationValue> -> Descriptor

    constructor (storage: MemorySagaStorage, serialize: Saga -> string,
                 deserialize: (string, string) -> Saga,
                 fromValues: seq<AssociationValue> -> Descriptor)
      ensures this.storage == storage && this.serialize == serialize
      ensures this.deserialize == deserialize && this.fromValues == fromValues
    {
      this.storage := storage;
      this.serialize := serialize;
      this.deserialize := deserialize;
      this.fromValues := fromValues;
    }

    ghost predicate Valid()
      reads this, storage
    {
      storage.Valid()
    }

    /** The stored record a saga is written as. */
    function RecordOf(saga: Saga): (d: SagaDescriptor)
      reads this
      ensures d.id == saga.id && d.className == saga.className
      ensures d.associations == fromValues(saga.associationValues) && d.serializedSaga == serialize(saga)
    {
      SagaDescriptor(saga.className, saga.id, fromValues(saga.associationValues), serialize(saga))
    }

    /** Stores a new saga, unless it is already inactive. */
    method Add(saga: Saga)
      requires Valid()
      modifies storage
      ensures Valid()
      ensures !saga.active ==>
        storage.sagas == old(storage.sagas) && storage.associations == old(storage.associations)
      ensures saga.active ==>
        && storage.sagas == old(storage.sagas)[saga.id := RecordOf(saga)]
        && storage.associations == Associated(old(storage.associations), saga.id, fromValues(saga.associationValues))
    {
      if !saga.active {
        return;
      }
      storage.Insert(saga.className, saga.id, fromValues(saga.associationValues), serialize(saga));
    }

    /** Persists a saga after it handled an event: an inactive saga is removed,
        an active one is updated (inserted when absent). */
    method Commit(saga: Saga)
      requires Valid()
      modifies storage
      ensures Valid()
      ensures !saga.active ==> storage.sagas == old(storage.sagas) - {saga.id}
      ensures !saga.active && saga.id in old(storage.sagas) ==>
        storage.associations == Purged(old(storage.associations), saga.id)
      ensures !saga.active && saga.id !in old(storage.sagas) ==>
        storage.associations == old(storage.associations)
      ensures !saga.active ==> forall sagaClass :: Load(saga.id, sagaClass) == None
      ensures saga.active && saga.id !in old(storage.sagas) ==>
        storage.sagas == old(storage.sagas)[saga.id := RecordOf(saga)]
      ensures saga.active && saga.id in old(storage.sagas) ==>
        storage.sagas == old(storage.sagas)[saga.id := old(storage.sagas)[saga.id].(
          associations := fromValues(saga.associationValues), serializedSaga := serialize(saga))]
      ensures saga.active ==>
        storage.associations == Associated(old(storage.associations), saga.id, fromValues(saga.associationValues))
    {
      if !saga.active {
        storage.Remove(saga.id);
        return;
      }
      storage.Update(saga.className, saga.id, fromValues(saga.associationValues), serialize(saga));
    }

    /** Ids of the stored sagas of class `sagaClass` indexed under the pair `av`. */
    method Find(sagaClass: string, av: AssociationValue) returns (ids: seq<string>)
      requires Valid()
      ensures NoDup(ids)
      ensures forall x :: x in ids <==>
        && x in storage.sagas && storage.sagas[x].className == sagaClass
        && av.key in storage.associations && av.value in storage.associations[av.key]
        && x in storage.associations[av.key][av.value]
    {
      ids := storage.Find(sagaClass, FromValue(av));
      forall x ensures HitIn(storage.associations, x, FromValue(av), {av.key}) <==>
        av.key in storage.associations && av.value in storage.associations[av.key]
        && x in storage.associations[av.key][av.value]
      {
        IndexedUnderOne(storage.associations, x, av);
      }
    }

    /** The saga stored under `id`, rebuilt as `sagaClass`; None when nothing
        (or only empty text) is stored under that id. */
    function Load(id: string, sagaClass: string): (r: Option<Saga>)
      reads this, storage
      ensures r == None <==> id !in storage.sagas || storage.sagas[id].serializedSaga == ""
      ensures r != None ==> r.value == deserialize(storage.sagas[id].serializedSaga, sagaClass)
    {
      match storage.FindById(id)
      case None => None
      case Some(sagaData) => if sagaData == "" then None else Some(deserialize(sagaData, sagaClass))
    }
  }

  /** An inactive saga is never stored, so a fresh repository cannot load it. */
  method AddInactiveThenLoad(saga: Saga, serialize: Saga -> string,
                             deserialize: (string, string) -> Saga,
                             fromValues: seq<AssociationValue> -> Descriptor)
    returns (loaded: Option<Saga>)
    requires !saga.active
    ensures loaded == None
  {
    var storage := new MemorySagaStorage();
    var repository := new SagaRepository(storage, serialize, deserialize, fromValues);
    repository.Add(saga);
    loaded := repository.Load(saga.id, saga.className);
  }

  /** An active saga that was added is found under each pair of its descriptor
      for its own class, and under no other class. */
  method AddThenFind(saga: Saga, av: AssociationValue, otherClass: string,
                     serialize: Saga -> string, deserialize: (string, string) -> Saga,
                     fromValues: seq<AssociationValue> -> Descriptor)
    returns (mine: seq<string>, others: seq<string>)
    requires saga.active
    requires av.key in fromValues(saga.associationValues)
    requires fromValues(saga.associationValues)[av.key] == av.value
    requires otherClass != saga.className
    ensures mine == [saga.id]
    ensures others == []
  {
    var storage := new MemorySagaStorage();
    var repository := new SagaRepository(storage, serialize, deserialize, fromValues);
    repository.Add(saga);
    AssociatedEntries(map[], saga.id, fromValues(saga.associationValues), av.key, av.value, saga.id);
    mine := repository.Find(saga.className, av);
    OnlyMember(mine, saga.id);
    others := repository.Find(otherClass, av);
    NoMember(others);
  }
}
