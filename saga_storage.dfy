/**
 * The in-memory saga store: one record per saga id, and an index from an
 * association field to a value to the ids of the sagas associated with that
 * (field, value) pair.
 */
module SagaStorage {
  import opened Wrappers

  /** The flattened association record of one saga: field -> value. */
  type Descriptor = map<string, string>

  /** One stored saga. */
  datatype SagaDescriptor = SagaDescriptor(
    className: string,
    id: string,
    associations: Descriptor,
    serializedSaga: string)

  /** field -> value -> ids of the sagas indexed under that pair. */
  type Index = map<string, map<string, seq<string>>>

  /** No id occurs twice in a list. */
  predicate NoDup(s: seq<string>) {
    forall i, j :: 0 <= i < j < |s| ==> s[i] != s[j]
  }

  /** The index list for `value` inside one field's table, empty when absent. */
  function ListAt(inner: map<string, seq<string>>, value: string): seq<string> {
    if value in inner then inner[value] else []
  }

  /** The table of one field, empty when the field was never indexed. */
  function FieldAt(idx: Index, field: string): map<string, seq<string>> {
    if field in idx then idx[field] else map[]
  }

  /** A field table after `id` is registered under `value` (once). */
  function AddToField(inner: map<string, seq<string>>, value: string, id: string): (r: map<string, seq<string>>)
    ensures r.Keys == inner.Keys + {value}
    ensures forall v :: v in inner && v != value ==> r[v] == inner[v]
    ensures forall x :: x in r[value] <==> x in ListAt(inner, value) || x == id
    ensures NoDup(ListAt(inner, value)) ==> NoDup(r[value])
  {
    var list := ListAt(inner, value);
    assert NoDup(list) && id !in list ==> NoDup(list + [id]);
    inner[value := if id in list then list else list + [id]]
  }

  /** The index after every (field, value) pair of `desc` has registered `id`. */
  function Associated(idx: Index, id: string, desc: Descriptor): (r: Index)
    ensures r.Keys == idx.Keys + desc.Keys
    ensures forall f :: f in desc ==> desc[f] in r[f] && id in r[f][desc[f]]
  {
    map f | f in idx.Keys + desc.Keys ::
      if f in desc then AddToField(FieldAt(idx, f), desc[f], id) else idx[f]
  }

  /** An index list with every occurrence of `id` filtered out, order kept. */
  function Without(list: seq<string>, id: string): (r: seq<string>)
    ensures forall x :: x in r <==> x in list && x != id
    ensures |r| <= |list|
    ensures NoDup(list) ==> NoDup(r)
  {
    if list == [] then []
    else
      var rest := Without(list[1..], id);
      assert forall x :: x in list[1..] ==> x in list;
      assert NoDup(list) ==> NoDup(list[1..]) && list[0] !in list[1..];
      if list[0] == id then rest else NoDupCons(list[0], rest); [list[0]] + rest
  }

  /** A fresh head keeps a repeat-free list repeat-free. */
  lemma NoDupCons(x: string, s: seq<string>)
    ensures NoDup(s) && x !in s ==> NoDup([x] + s)
  {
    if NoDup(s) && x !in s {
      forall i, j | 0 <= i < j < |[x] + s| ensures ([x] + s)[i] != ([x] + s)[j] {
        if i > 0 {
          assert ([x] + s)[i] == s[i - 1] && ([x] + s)[j] == s[j - 1];
        } else {
          assert ([x] + s)[j] == s[j - 1];
        }
      }
    }
  }

  /** The index after `id` has been purged from every list. */
  function Purged(idx: Index, id: string): (r: Index)
    ensures r.Keys == idx.Keys
    ensures forall f :: f in r ==> r[f].Keys == idx[f].Keys
    ensures forall f, v :: f in r && v in r[f] ==> id !in r[f][v]
  {
    map f | f in idx :: PurgedTable(idx[f], id, idx[f].Keys)
  }

  /** One field's table with `id` purged from the lists of the values in `done`. */
  function PurgedTable(table: map<string, seq<string>>, id: string, done: set<string>): map<string, seq<string>> {
    map v | v in table :: if v in done then Without(table[v], id) else table[v]
  }

  /** The index with `id` purged from every list of the fields in `done`. */
  function PurgedUpTo(idx: Index, id: string, done: set<string>): Index {
    map f | f in idx :: if f in done then PurgedTable(idx[f], id, idx[f].Keys) else idx[f]
  }

  /** Registering one more field of the descriptor touches only that field's table. */
  lemma AssociatedAdd(idx: Index, id: string, desc: Descriptor, f: string, v: string)
    requires f !in desc
    ensures FieldAt(Associated(idx, id, desc), f) == FieldAt(idx, f)
    ensures Associated(idx, id, desc[f := v])
         == Associated(idx, id, desc)[f := AddToField(FieldAt(idx, f), v, id)]
  {
    var before := Associated(idx, id, desc);
    if f in idx {
      assert before[f] == idx[f];
    }
    var after := Associated(idx, id, desc[f := v]);
    var expected := before[f := AddToField(FieldAt(idx, f), v, id)];
    forall g | g in after
      ensures g in expected && after[g] == expected[g]
    {
      AssociatedAddAt(idx, id, desc, f, v, g);
    }
  }

  /** Registering under an empty descriptor leaves the index as it was. */
  lemma AssociatedNothing(idx: Index, id: string)
    ensures Associated(idx, id, map[]) == idx
  {
  }

  /** `AssociatedAdd`, one field at a time. */
  lemma AssociatedAddAt(idx: Index, id: string, desc: Descriptor, f: string, v: string, g: string)
    requires f !in desc && g in Associated(idx, id, desc[f := v])
    ensures g in Associated(idx, id, desc)[f := AddToField(FieldAt(idx, f), v, id)]
    ensures Associated(idx, id, desc[f := v])[g]
         == Associated(idx, id, desc)[f := AddToField(FieldAt(idx, f), v, id)][g]
  {
    var d2 := desc[f := v];
    var a1 := Associated(idx, id, desc);
    var a2 := Associated(idx, id, d2);
    if g == f {
      assert a2[g] == AddToField(FieldAt(idx, f), v, id);
    } else if g in desc {
      assert d2[g] == desc[g];
      assert a2[g] == AddToField(FieldAt(idx, g), desc[g], id) == a1[g];
    } else {
      assert g !in d2;
      assert a2[g] == idx[g] == a1[g];
    }
  }

  /** One more value of a field's table purged. */
  lemma PurgedTableStep(table: map<string, seq<string>>, id: string, done: set<string>, v: string)
    requires v in table && v !in done
    ensures PurgedTable(table, id, done)[v] == table[v]
    ensures PurgedTable(table, id, done + {v}) == PurgedTable(table, id, done)[v := Without(table[v], id)]
  {
  }

  /** One more field of the index purged. */
  lemma PurgedUpToStep(idx: Index, id: string, done: set<string>, f: string)
    requires f in idx && f !in done
    ensures PurgedUpTo(idx, id, done)[f] == idx[f]
    ensures PurgedUpTo(idx, id, done + {f}) == PurgedUpTo(idx, id, done)[f := PurgedTable(idx[f], id, idx[f].Keys)]
  {
  }

  /** The store's invariant: records sit under their own id, and every index
      list is free of repeats and names only stored sagas. */
  ghost predicate Consistent(sagas: map<string, SagaDescriptor>, idx: Index) {
    && (forall id :: id in sagas ==> sagas[id].id == id)
    && (forall f, v :: f in idx && v in idx[f] ==>
          NoDup(idx[f][v]) && forall x :: x in idx[f][v] ==> x in sagas)
  }

  /** Some (field, value) of `desc` indexes `x`, looking only at `fields`. */
  ghost predicate HitIn(idx: Index, x: string, desc: Descriptor, fields: set<string>) {
    exists f :: f in fields && f in desc && f in idx && desc[f] in idx[f] && x in idx[f][desc[f]]
  }

  /** Filtering out an id a list does not hold changes nothing. */
  lemma {:induction false} WithoutAbsent(list: seq<string>, id: string)
    requires id !in list
    ensures Without(list, id) == list
  {
    if list != [] {
      assert id !in list[1..];
      WithoutAbsent(list[1..], id);
    }
  }

  /** Registering a stored saga keeps the store consistent. */
  lemma AssociatedConsistent(sagas: map<string, SagaDescriptor>, idx: Index, id: string, desc: Descriptor)
    requires Consistent(sagas, idx)
    requires id in sagas
    ensures Consistent(sagas, Associated(idx, id, desc))
  {
    var idx' := Associated(idx, id, desc);
    forall f, v | f in idx' && v in idx'[f]
      ensures NoDup(idx'[f][v]) && forall x :: x in idx'[f][v] ==> x in sagas
    {
      if f in desc && v == desc[f] {
        var list := ListAt(FieldAt(idx, f), v);
        assert NoDup(list) && forall x :: x in list ==> x in sagas;
      }
    }
  }

  /** Purging an id and deleting its record keeps the store consistent. */
  lemma PurgedConsistent(sagas: map<string, SagaDescriptor>, idx: Index, id: string)
    requires Consistent(sagas, idx)
    ensures Consistent(sagas - {id}, Purged(idx, id))
  {
    var idx' := Purged(idx, id);
    forall f, v | f in idx' && v in idx'[f]
      ensures NoDup(idx'[f][v]) && forall x :: x in idx'[f][v] ==> x in sagas - {id}
    {
      assert idx'[f] == PurgedTable(idx[f], id, idx[f].Keys);
      assert idx'[f][v] == Without(idx[f][v], id);
    }
  }

  /** Registering only adds: an id is listed under (f, v) afterwards exactly when
      it was before, or it is the registered id and (f, v) is a pair of `desc`. */
  lemma AssociatedEntries(idx: Index, id: string, desc: Descriptor, f: string, v: string, x: string)
    ensures var r := Associated(idx, id, desc);
      x in ListAt(FieldAt(r, f), v) <==>
        x in ListAt(FieldAt(idx, f), v) || (x == id && f in desc && desc[f] == v)
  {
  }

  /** After registering a non-empty descriptor, every field of it is indexed and
      the registered id is listed under one of its pairs. */
  lemma RegisteredIsFound(idx: Index, id: string, desc: Descriptor)
    requires desc != map[]
    ensures var r := Associated(idx, id, desc);
      desc.Keys <= r.Keys && HitIn(r, id, desc, desc.Keys)
  {
    var f :| f in desc;
    AssociatedEntries(idx, id, desc, f, desc[f], id);
  }

  /** Registering an id already listed under a value changes nothing. */
  lemma AddToFieldAgain(table: map<string, seq<string>>, value: string, id: string)
    ensures AddToField(AddToField(table, value, id), value, id) == AddToField(table, value, id)
  {
    var once := AddToField(table, value, id);
    assert id in ListAt(once, value);
    assert AddToField(once, value, id) == once[value := ListAt(once, value)];
  }

  /** Registering the same descriptor twice is registering it once: no list
      gains a second copy of the id. */
  lemma AssociatedAgain(idx: Index, id: string, desc: Descriptor)
    ensures Associated(Associated(idx, id, desc), id, desc) == Associated(idx, id, desc)
  {
    var once := Associated(idx, id, desc);
    var twice := Associated(once, id, desc);
    assert twice.Keys == once.Keys;
    forall f | f in once
      ensures twice[f] == once[f]
    {
      if f in desc {
        AddToFieldAgain(FieldAt(idx, f), desc[f], id);
        assert FieldAt(once, f) == AddToField(FieldAt(idx, f), desc[f], id);
      }
    }
  }

  /** Purging removes `id` from every list and nothing else. */
  lemma PurgedEntries(idx: Index, id: string, f: string, v: string, x: string)
    ensures var r := Purged(idx, id);
      && (f in r <==> f in idx)
      && (f in r ==> (v in r[f] <==> v in idx[f]))
      && (x in ListAt(FieldAt(r, f), v) <==> x in ListAt(FieldAt(idx, f), v) && x != id)
  {
    if f in idx && v in idx[f] {
      assert Purged(idx, id)[f] == PurgedTable(idx[f], id, idx[f].Keys);
    }
  }

  /** A repeat-free list whose only member is `id` is exactly `[id]`. */
  lemma OnlyMember(s: seq<string>, id: string)
    ensures NoDup(s) && id in s && (forall x :: x in s ==> x == id) ==> s == [id]
  {
    if |s| > 0 {
      assert s[0] in s;
    }
    if |s| > 1 {
      assert s[1] in s;
    }
  }

  /** A repeat-free list of stored ids, in a store holding only `id`, that
      contains `id` is exactly `[id]`. */
  lemma SoleMatch(ids: seq<string>, id: string, sagas: map<string, SagaDescriptor>)
    requires NoDup(ids) && id in ids
    requires forall x :: x in ids ==> x in sagas
    requires sagas.Keys == {id}
    ensures ids == [id]
  {
    OnlyMember(ids, id);
  }

  /** A list with no member is empty. */
  lemma NoMember(s: seq<string>)
    ensures (forall x :: x !in s) ==> s == []
  {
    if s != [] {
      assert s[0] in s;
    }
  }

  class MemorySagaStorage {
    var sagas: map<string, SagaDescriptor>
    var associations: Index

    ghost predicate Valid()
      reads this
    {
      Consistent(sagas, associations)
    }

    /** Some (field, value) of `desc` indexes `x`. */
    ghost predicate IndexedUnder(x: string, desc: Descriptor)
      reads this
    {
      HitIn(associations, x, desc, desc.Keys)
    }

    constructor ()
      ensures Valid()
      ensures sagas == map[] && associations == map[]
    {
      sagas := map[];
      associations := map[];
    }

    /** The serialized saga stored under `id`, or None (TypeScript's `null`). */
    function FindById(id: string): (r: Option<string>)
      reads this
      ensures r.Some? <==> id in sagas
      ensures r.Some? ==> r.value == sagas[id].serializedSaga
    {
      if id !in sagas then None else Some(sagas[id].serializedSaga)
    }

    method Insert(sagaClass: string, id: string, associationValues: Descriptor, data: string)
      requires Valid()
      modifies this
      ensures Valid()
      ensures sagas == old(sagas)[id := SagaDescriptor(sagaClass, id, associationValues, data)]
      ensures associations == Associated(old(associations), id, associationValues)
      ensures FindById(id) == Some(data)
    {
      sagas := sagas[id := SagaDescriptor(sagaClass, id, associationValues, data)];
      AssociateSaga(id, associationValues);
    }

    /** Registers `id` under every (field, value) of the descriptor, at most once per list. */
    method AssociateSaga(id: string, associationValues: Descriptor)
      requires Valid()
      requires id in sagas
      modifies this`associations
      ensures Valid()
      ensures associations == Associated(old(associations), id, associationValues)
    {
      ghost var idx0 := associations;
      ghost var done: Descriptor := map[];
      var fields := associationValues.Keys;
      AssociatedNothing(idx0, id);
      while fields != {}
        invariant fields <= associationValues.Keys
        invariant done.Keys !! fields && done.Keys + fields == associationValues.Keys
        invariant forall f :: f in done ==> done[f] == associationValues[f]
        invariant associations == Associated(idx0, id, done)
        decreases fields
      {
        var field :| field in fields;
        var value := associationValues[field];
        RegisterNext(idx0, id, done, field, value);
        done := done[field := value];
        fields := fields - {field};
      }
      assert done == associationValues;
      AssociatedConsistent(sagas, idx0, id, associationValues);
    }

    /** One pass of the registration loop, as a step of `Associated`. */
    method RegisterNext(ghost idx0: Index, id: string, ghost done: Descriptor, field: string, value: string)
      requires field !in done && associations == Associated(idx0, id, done)
      modifies this`associations
      ensures associations == Associated(idx0, id, done[field := value])
    {
      AssociatedAdd(idx0, id, done, field, value);
      RegisterUnder(field, value, id);
    }

    /** One pass of the registration loop: creates the field's table and the
        value's list when missing, then appends `id` unless already listed. */
    method RegisterUnder(field: string, value: string, id: string)
      modifies this`associations
      ensures associations == old(associations)[field := AddToField(FieldAt(old(associations), field), value, id)]
    {
      if field !in associations {
        associations := associations[field := map[]];
      }
      var table := associations[field];
      ghost var table0 := table;
      assert table0 == FieldAt(old(associations), field);
      if value !in table {
        table := table[value := []];
      }
      assert table[value] == ListAt(table0, value);
      if id !in table[value] {
        table := table[value := table[value] + [id]];
      } else {
        assert table == table0[value := ListAt(table0, value)];
      }
      assert table == AddToField(table0, value, id);
      associations := associations[field := table];
    }

    method Update(sagaClass: string, id: string, associationValues: Descriptor, data: string)
      requires Valid()
      modifies this
      ensures Valid()
      ensures id !in old(sagas) ==>
        sagas == old(sagas)[id := SagaDescriptor(sagaClass, id, associationValues, data)]
      ensures id in old(sagas) ==>
        sagas == old(sagas)[id := old(sagas)[id].(associations := associationValues, serializedSaga := data)]
      ensures associations == Associated(old(associations), id, associationValues)
      ensures FindById(id) == Some(data)
    {
      if id !in sagas {
        Insert(sagaClass, id, associationValues, data);
      } else {
        sagas := sagas[id := sagas[id].(associations := associationValues, serializedSaga := data)];
        AssociateSaga(id, associationValues);
      }
    }

    method Remove(id: string)
      requires Valid()
      modifies this
      ensures Valid()
      ensures sagas == old(sagas) - {id}
      ensures id !in old(sagas) ==> associations == old(associations)
      ensures id in old(sagas) ==> associations == Purged(old(associations), id)
      ensures FindById(id) == None
    {
      if id !in sagas {
        return;
      }
      ghost var idx0 := associations;
      var fields := associations.Keys;
      assert PurgedUpTo(idx0, id, {}) == idx0;
      while fields != {}
        invariant fields <= idx0.Keys
        invariant sagas == old(sagas)
        invariant associations == PurgedUpTo(idx0, id, idx0.Keys - fields)
        decreases fields
      {
        var field :| field in fields;
        ghost var done := idx0.Keys - fields;
        PurgedUpToStep(idx0, id, done, field);
        PurgeField(field, id);
        assert idx0.Keys - (fields - {field}) == done + {field};
        fields := fields - {field};
      }
      assert associations == Purged(idx0, id);
      PurgedConsistent(sagas, idx0, id);
      sagas := sagas - {id};
    }

    /** The inner loop of `Remove`: filters `id` out of every list of one field,
        touching only the lists that hold it. */
    method PurgeField(field: string, id: string)
      requires field in associations
      modifies this`associations
      ensures associations == old(associations)[field := PurgedTable(old(associations)[field], id, old(associations)[field].Keys)]
    {
      var table := associations[field];
      ghost var table0 := table;
      ghost var done: set<string> := {};
      var values := table.Keys;
      assert PurgedTable(table0, id, {}) == table0;
      while values != {}
        invariant done !! values && done + values == table0.Keys
        invariant table == PurgedTable(table0, id, done)
        invariant associations == old(associations)
        decreases values
      {
        var value :| value in values;
        PurgedTableStep(table0, id, done, value);
        if id in table[value] {
          table := table[value := Without(table[value], id)];
        } else {
          WithoutAbsent(table[value], id);
          assert table[value := table[value]] == table;
        }
        done := done + {value};
        values := values - {value};
      }
      assert done == table0.Keys;
      associations := associations[field := table];
    }

    method Find(sagaClass: string, associationValue: Descriptor) returns (ids: seq<string>)
      requires Valid()
      ensures NoDup(ids)
      ensures forall x :: x in ids <==>
        && associationValue.Keys <= associations.Keys
        && x in sagas && sagas[x].className == sagaClass
        && IndexedUnder(x, associationValue)
      ensures !(associationValue.Keys <= associations.Keys) ==> ids == []
    {
      var foundIdentities: seq<string> := [];
      var fields := associationValue.Keys;
      while fields != {}
        invariant fields <= associationValue.Keys
        invariant associationValue.Keys - fields <= associations.Keys
        invariant forall x :: x in foundIdentities ==> x in sagas
        invariant forall x :: x in foundIdentities <==>
          HitIn(associations, x, associationValue, associationValue.Keys - fields)
        decreases fields
      {
        var field :| field in fields;
        if field !in associations {
          return [];
        }
        ghost var acc := foundIdentities;
        var values := associations[field].Keys;
        while values != {}
          invariant values <= associations[field].Keys
          invariant forall x :: x in foundIdentities <==>
            x in acc || (associationValue[field] in associations[field].Keys - values
                         && x in associations[field][associationValue[field]])
          decreases values
        {
          var value :| value in values;
          if associationValue[field] == value {
            foundIdentities := foundIdentities + associations[field][value];
          }
          values := values - {value};
        }
        fields := fields - {field};
      }

      var unique: seq<string> := [];
      var i := 0;
      while i < |foundIdentities|
        invariant 0 <= i <= |foundIdentities|
        invariant NoDup(unique)
        invariant forall x :: x in unique <==> x in foundIdentities[..i]
        invariant forall x :: x in unique ==> x in sagas
      {
        if foundIdentities[i] !in foundIdentities[..i] {
          unique := unique + [foundIdentities[i]];
        }
        assert foundIdentities[..i + 1] == foundIdentities[..i] + [foundIdentities[i]];
        i := i + 1;
      }
      assert foundIdentities[..i] == foundIdentities;

      ids := [];
      var j := 0;
      while j < |unique|
        invariant 0 <= j <= |unique|
        invariant NoDup(ids)
        invariant forall x :: x in ids <==> x in unique[..j] && x in sagas && sagas[x].className == sagaClass
      {
        var id := unique[j];
        if sagas[id].className == sagaClass {
          ids := ids + [id];
        }
        assert unique[..j + 1] == unique[..j] + [id];
        j := j + 1;
      }
      assert unique[..j] == unique;
    }
  }

  /** After `insert`, `findById` yields the inserted data. */
  method InsertThenFindById(sagaClass: string, id: string, associationValues: Descriptor, data: string)
    returns (found: Option<string>)
    ensures found == Some(data)
  {
    var storage := new MemorySagaStorage();
    storage.Insert(sagaClass, id, associationValues, data);
    found := storage.FindById(id);
  }

  /** `findById` on an id never inserted yields null, and `find` on an empty
      store yields nothing. */
  method LookupsOnEmptyStorage(sagaClass: string, id: string, associationValues: Descriptor)
    returns (found: Option<string>, ids: seq<string>)
    ensures found == None
    ensures ids == []
  {
    var storage := new MemorySagaStorage();
    found := storage.FindById(id);
    ids := storage.Find(sagaClass, associationValues);
    NoMember(ids);
  }

  /** Inserting the same saga twice still lists it once. */
  method InsertTwiceFindOnce(sagaClass: string, id: string, associationValues: Descriptor, data: string)
    returns (ids: seq<string>)
    requires associationValues != map[]
    ensures ids == [id]
  {
    var storage := new MemorySagaStorage();
    storage.Insert(sagaClass, id, associationValues, data);
    ghost var once := storage.associations;
    storage.Insert(sagaClass, id, associationValues, data);
    AssociatedAgain(map[], id, associationValues);
    assert storage.associations == once;
    RegisteredIsFound(map[], id, associationValues);
    ghost var sagas := storage.sagas;
    assert sagas.Keys == {id} && sagas[id].className == sagaClass;
    ids := storage.Find(sagaClass, associationValues);
    SoleMatch(ids, id, sagas);
  }
}
