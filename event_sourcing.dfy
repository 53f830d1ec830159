/**
 * Event-sourced persistence of the to-do item: an in-memory event store with
 * one append-only log per aggregate and an optimistic version check, and the
 * repository that rebuilds aggregates by replay and stores their uncommitted
 * changes.
 */
module EventSourcing {
  import opened Wrappers
  import opened ToDoDomain

  /** One stored event of an aggregate, with its position in the aggregate's log. */
  datatype EventDescriptor<E> = EventDescriptor(aggregateId: string, aggregateType: string, event: E, version: int)

  datatype StoreError =
    | AggregateNotFound(aggregateId: string)
    | ConcurrencyException(aggregateId: string)

  /** Each descriptor's version is one more than the one before it. */
  predicate Consecutive<E>(log: seq<EventDescriptor<E>>) {
    forall k :: 0 < k < |log| ==> log[k].version == log[k - 1].version + 1
  }

  /** The version of the last stored descriptor, or -1 for an empty log. In a
      gapless log it is the first version moved on by one per later event. */
  function CurrentVersion<E>(log: seq<EventDescriptor<E>>): (v: int)
    ensures log == [] ==> v == -1
    ensures log != [] && Consecutive(log) ==> v == log[0].version + |log| - 1
  {
    if log == [] then -1 else ConsecutiveSpan(log); log[|log| - 1].version
  }

  /** In a gapless log the last version is the first plus the number of later events. */
  lemma {:induction false} ConsecutiveSpan<E>(log: seq<EventDescriptor<E>>)
    requires log != []
    ensures Consecutive(log) ==> log[|log| - 1].version == log[0].version + |log| - 1
    decreases |log|
  {
    if |log| > 1 && Consecutive(log) {
      var init := log[..|log| - 1];
      assert Consecutive(init) by {
        forall k | 0 < k < |init| ensures init[k].version == init[k - 1].version + 1 {
          assert init[k] == log[k] && init[k - 1] == log[k - 1];
        }
      }
      ConsecutiveSpan(init);
      assert init[|init| - 1] == log[|log| - 2] && init[0] == log[0];
    }
  }

  /** The log of `aggregateId`; empty when nothing is stored for it. */
  function LogOf<E>(logs: map<string, seq<EventDescriptor<E>>>, aggregateId: string): seq<EventDescriptor<E>> {
    if aggregateId in logs then logs[aggregateId] else []
  }

  /** The events of a log, in log order. */
  function EventsOf<E>(log: seq<EventDescriptor<E>>): seq<E> {
    seq(|log|, k requires 0 <= k < |log| => log[k].event)
  }

  /** The descriptors a save writes: the events in order, numbered from `first`. */
  function Stamp<E>(aggregateId: string, aggregateType: string, events: seq<E>, first: int)
    : (r: seq<EventDescriptor<E>>)
    ensures |r| == |events|
    ensures forall k :: 0 <= k < |r| ==> r[k] == EventDescriptor(aggregateId, aggregateType, events[k], first + k)
    decreases |events|
  {
    if events == [] then []
    else
      [EventDescriptor(aggregateId, aggregateType, events[0], first)]
      + Stamp(aggregateId, aggregateType, events[1..], first + 1)
  }

  /** The logs after appending `descriptors`, one at a time, to the log of `aggregateId`. */
  function Appended<E>(logs: map<string, seq<EventDescriptor<E>>>, aggregateId: string,
                       descriptors: seq<EventDescriptor<E>>): (r: map<string, seq<EventDescriptor<E>>>)
    ensures LogOf(r, aggregateId) == LogOf(logs, aggregateId) + descriptors
    ensures r.Keys == if descriptors == [] then logs.Keys else logs.Keys + {aggregateId}
    ensures forall a :: a in logs && a != aggregateId ==> r[a] == logs[a]
  {
    if descriptors == [] then logs else logs[aggregateId := LogOf(logs, aggregateId) + descriptors]
  }

  /** The store's verdict on a save: the caller must expect the log's current version. */
  function SaveOutcome<E>(log: seq<EventDescriptor<E>>, aggregateId: string, expectedVersion: int)
    : (o: Outcome<StoreError>)
    ensures o.Pass? || o == Fail(ConcurrencyException(aggregateId))
    ensures Consecutive(log) ==>
      (o.Pass? <==> expectedVersion == if log == [] then -1 else log[0].version + |log| - 1)
  {
    if CurrentVersion(log) == expectedVersion then Pass else Fail(ConcurrencyException(aggregateId))
  }

  /** Appending a save's descriptors keeps the versions gapless and moves the
      current version on by the number of events. */
  lemma StampExtends<E>(log: seq<EventDescriptor<E>>, aggregateId: string, aggregateType: string, events: seq<E>)
    ensures var after := log + Stamp(aggregateId, aggregateType, events, CurrentVersion(log) + 1);
      && (Consecutive(log) ==> Consecutive(after))
      && CurrentVersion(after) == CurrentVersion(log) + |events|
  {
    var stamped := Stamp(aggregateId, aggregateType, events, CurrentVersion(log) + 1);
    var after := log + stamped;
    if Consecutive(log) {
      forall k | 0 < k < |after|
        ensures after[k].version == after[k - 1].version + 1
      {
        if k > |log| {
          assert after[k] == stamped[k - |log|] && after[k - 1] == stamped[k - 1 - |log|];
        } else if k == |log| {
          assert after[k] == stamped[0];
        }
      }
    }
    if events != [] {
      assert after[|after| - 1] == stamped[|events| - 1];
    }
  }

  /** After a successful save, the aggregate's events read back as the old ones
      followed by the saved ones. */
  lemma EventsAfterSave<E>(logs: map<string, seq<EventDescriptor<E>>>, aggregateId: string,
                           aggregateType: string, events: seq<E>, first: int)
    ensures EventsOf(LogOf(Appended(logs, aggregateId, Stamp(aggregateId, aggregateType, events, first)), aggregateId))
      == EventsOf(LogOf(logs, aggregateId)) + events
  {
    var log := LogOf(logs, aggregateId);
    var stamped := Stamp(aggregateId, aggregateType, events, first);
    var after := LogOf(Appended(logs, aggregateId, stamped), aggregateId);
    assert after == log + stamped;
    assert EventsOf(after) == EventsOf(log) + events by {
      forall k | 0 <= k < |after|
        ensures EventsOf(after)[k] == (EventsOf(log) + events)[k]
      {
        if k >= |log| {
          assert after[k] == stamped[k - |log|];
        }
      }
    }
  }

  /** A stored log of aggregate `id`: non-empty, gapless, and holding only that
      aggregate's events. */
  ghost predicate OwnLog<E>(id: string, log: seq<EventDescriptor<E>>) {
    && log != []
    && Consecutive(log)
    && (forall k :: 0 <= k < |log| ==> log[k].aggregateId == id)
  }

  /** Every stored log is its own aggregate's log. */
  ghost predicate WellFormed<E>(logs: map<string, seq<EventDescriptor<E>>>) {
    forall id :: id in logs ==> OwnLog(id, logs[id])
  }

  /** A save that expected the current version leaves the storage well formed. */
  lemma SaveKeepsWellFormed<E>(logs: map<string, seq<EventDescriptor<E>>>, aggregateId: string,
                               aggregateType: string, events: seq<E>)
    requires WellFormed(logs)
    ensures WellFormed(Appended(logs, aggregateId,
      Stamp(aggregateId, aggregateType, events, CurrentVersion(LogOf(logs, aggregateId)) + 1)))
  {
    var log := LogOf(logs, aggregateId);
    var stamped := Stamp(aggregateId, aggregateType, events, CurrentVersion(log) + 1);
    if events != [] {
      assert aggregateId in logs ==> OwnLog(aggregateId, log);
      StampKeepsOwnLog(log, aggregateId, aggregateType, events);
      assert Appended(logs, aggregateId, stamped) == logs[aggregateId := log + stamped];
      UpdateKeepsWellFormed(logs, aggregateId, log + stamped);
    }
  }

  /** A non-empty save at the current version extends an aggregate's own log to an own log. */
  lemma StampKeepsOwnLog<E>(log: seq<EventDescriptor<E>>, aggregateId: string, aggregateType: string, events: seq<E>)
    requires events != [] && (log == [] || OwnLog(aggregateId, log))
    ensures OwnLog(aggregateId, log + Stamp(aggregateId, aggregateType, events, CurrentVersion(log) + 1))
  {
    StampExtends(log, aggregateId, aggregateType, events);
    StampOwned(log, aggregateId, aggregateType, events, CurrentVersion(log) + 1);
  }

  /** Replacing one aggregate's log by one of its own keeps the storage well formed. */
  lemma UpdateKeepsWellFormed<E>(logs: map<string, seq<EventDescriptor<E>>>, aggregateId: string,
                                 log: seq<EventDescriptor<E>>)
    requires WellFormed(logs) && OwnLog(aggregateId, log)
    ensures WellFormed(logs[aggregateId := log])
  {
  }

  /** Descriptors stamped for an aggregate belong to it, as do the ones before them. */
  lemma StampOwned<E>(log: seq<EventDescriptor<E>>, aggregateId: string, aggregateType: string,
                      events: seq<E>, first: int)
    requires forall k :: 0 <= k < |log| ==> log[k].aggregateId == aggregateId
    ensures var after := log + Stamp(aggregateId, aggregateType, events, first);
      forall k :: 0 <= k < |after| ==> after[k].aggregateId == aggregateId
  {
    var stamped := Stamp(aggregateId, aggregateType, events, first);
    var after := log + stamped;
    forall k | 0 <= k < |after|
      ensures after[k].aggregateId == aggregateId
    {
      if k >= |log| {
        assert after[k] == stamped[k - |log|];
      }
    }
  }

  /** Appending descriptors one at a time is appending them together. */
  lemma AppendedSnoc<E>(logs: map<string, seq<EventDescriptor<E>>>, aggregateId: string,
                        descriptors: seq<EventDescriptor<E>>, d: EventDescriptor<E>)
    ensures Appended(logs, aggregateId, descriptors + [d])
      == var current := Appended(logs, aggregateId, descriptors);
         current[aggregateId := LogOf(current, aggregateId) + [d]]
  {
    if descriptors == [] {
      assert descriptors + [d] == [d];
    } else {
      assert LogOf(logs, aggregateId) + descriptors + [d] == LogOf(logs, aggregateId) + (descriptors + [d]);
    }
  }

  class EventStore<E> {
    /** The event storage: the log of every aggregate that has at least one event. */
    var logs: map<string, seq<EventDescriptor<E>>>
    /** Every event published on the event bus, in order. */
    var published: seq<E>

    ghost predicate Valid()
      reads this
    {
      WellFormed(logs)
    }

    /** An event store over storage that may already hold logs. */
    constructor (stored: map<string, seq<EventDescriptor<E>>>)
      requires WellFormed(stored)
      ensures Valid()
      ensures logs == stored && published == []
    {
      logs := stored;
      published := [];
    }

    /** The events of `aggregateId` in version order; `AggregateNotFound` when
        the storage holds none. */
    function GetEventsForAggregate(aggregateId: string): (r: Result<seq<E>, StoreError>)
      reads this
      ensures r.Err? <==> aggregateId !in logs
      ensures r.Err? ==> r.error == AggregateNotFound(aggregateId)
      ensures r.Ok? ==> r.value == EventsOf(logs[aggregateId])
    {
      if aggregateId !in logs then Err(AggregateNotFound(aggregateId))
      else Ok(EventsOf(logs[aggregateId]))
    }

    /** Appends `events` to the log of `aggregateId` when `expectedVersion` is the
        log's current version, then publishes them; otherwise writes nothing. */
    method Save(aggregateId: string, aggregateType: string, events: seq<E>, expectedVersion: int)
      returns (result: Outcome<StoreError>)
      requires Valid()
      modifies this
      ensures Valid()
      ensures result == SaveOutcome(LogOf(old(logs), aggregateId), aggregateId, expectedVersion)
      ensures result.Fail? ==> logs == old(logs) && published == old(published)
      ensures result.Pass? ==>
        && logs == Appended(old(logs), aggregateId, Stamp(aggregateId, aggregateType, events, expectedVersion + 1))
        && published == old(published) + events
    {
      var log := LogOf(logs, aggregateId);
      if CurrentVersion(log) != expectedVersion {
        return Fail(ConcurrencyException(aggregateId));
      }
      AppendAll(aggregateId, Stamp(aggregateId, aggregateType, events, expectedVersion + 1));
      PublishAll(events);
      SaveKeepsWellFormed(old(logs), aggregateId, aggregateType, events);
      result := Pass;
    }

    /** Appends the descriptors to the log of `aggregateId`, one at a time. */
    method AppendAll(aggregateId: string, descriptors: seq<EventDescriptor<E>>)
      modifies this`logs
      ensures logs == Appended(old(logs), aggregateId, descriptors)
    {
      var i := 0;
      while i < |descriptors|
        invariant 0 <= i <= |descriptors|
        invariant logs == Appended(old(logs), aggregateId, descriptors[..i])
      {
        assert descriptors[..i + 1] == descriptors[..i] + [descriptors[i]];
        AppendedSnoc(old(logs), aggregateId, descriptors[..i], descriptors[i]);
        logs := logs[aggregateId := LogOf(logs, aggregateId) + [descriptors[i]]];
        i := i + 1;
      }
      assert descriptors[..i] == descriptors;
    }

    /** Publishes the events on the event bus, in order. */
    method PublishAll(events: seq<E>)
      modifies this`published
      ensures published == old(published) + events
    {
      var i := 0;
      while i < |events|
        invariant 0 <= i <= |events|
        invariant published == old(published) + events[..i]
      {
        published := published + [events[i]];
        assert events[..i + 1] == events[..i] + [events[i]];
        i := i + 1;
      }
      assert events[..i] == events;
    }
  }

  /** The event-sourcing repository for to-do items. */
  class EventSourcingRepository {
    const eventStore: EventStore<ToDoEvent>

    constructor (eventStore: EventStore<ToDoEvent>)
      ensures this.eventStore == eventStore
    {
      this.eventStore := eventStore;
    }

    /** A new item rebuilt from the stored events of `id`, or the store's error. */
    method FindById(id: string) returns (r: Result<ToDoItem, StoreError>)
      ensures r.Err? <==> id !in eventStore.logs
      ensures r.Err? ==> r.error == AggregateNotFound(id)
      ensures r.Ok? ==>
        && fresh(r.value) && r.value.Valid() && r.value.uncommittedChanges == []
        && r.value.State() == Replay(Initial, EventsOf(eventStore.logs[id]))
    {
      var events := eventStore.GetEventsForAggregate(id);
      match events {
        case Err(e) =>
          r := Err(e);
        case Ok(history) =>
          var aggregate := new ToDoItem();
          aggregate.LoadFromHistory(history);
          r := Ok(aggregate);
      }
    }

    /** Saves the item's uncommitted changes under its id; clears them only when
        the save succeeds. */
    method Store(aggregate: ToDoItem, expectedVersion: int) returns (result: Outcome<StoreError>)
      requires eventStore.Valid() && aggregate.Valid()
      modifies eventStore, aggregate
      ensures eventStore.Valid() && aggregate.Valid()
      ensures result == SaveOutcome(LogOf(old(eventStore.logs), old(aggregate.id)), old(aggregate.id), expectedVersion)
      ensures result.Fail? ==>
        && eventStore.logs == old(eventStore.logs) && eventStore.published == old(eventStore.published)
        && aggregate.uncommittedChanges == old(aggregate.uncommittedChanges)
      ensures result.Pass? ==>
        && eventStore.logs == Appended(old(eventStore.logs), old(aggregate.id),
             Stamp(old(aggregate.id), ToDoItemClass, old(aggregate.uncommittedChanges), expectedVersion + 1))
        && eventStore.published == old(eventStore.published) + old(aggregate.uncommittedChanges)
        && aggregate.uncommittedChanges == []
      ensures aggregate.State() == old(aggregate.State())
    {
      result := eventStore.Save(aggregate.GetId(), ToDoItemClass, aggregate.uncommittedChanges, expectedVersion);
      if result.Fail? {
        return;
      }
      aggregate.MarkChangesCommitted();
    }
  }

  /** Saving with expected version -1 into an empty log succeeds and numbers the
      events from 0. */
  method SaveNewAggregate<E>(aggregateId: string, aggregateType: string, events: seq<E>)
    returns (result: Outcome<StoreError>, versions: seq<int>)
    requires events != []
    ensures result == Pass
    ensures versions == seq(|events|, k => k)
  {
    var store := new EventStore<E>(map[]);
    result := store.Save(aggregateId, aggregateType, events, -1);
    var log := store.logs[aggregateId];
    versions := seq(|log|, k requires 0 <= k < |log| => log[k].version);
  }

  /** Saving with expected version 2 after a history numbered 1 and 2 succeeds
      and numbers the new events 3 and 4. */
  method SaveAfterHistory<E>(aggregateId: string, aggregateType: string, h1: E, h2: E, e1: E, e2: E)
    returns (result: Outcome<StoreError>, versions: seq<int>)
    ensures result == Pass
    ensures versions == [1, 2, 3, 4]
  {
    var history := [EventDescriptor(aggregateId, aggregateType, h1, 1), EventDescriptor(aggregateId, aggregateType, h2, 2)];
    var store := new EventStore<E>(map[aggregateId := history]);
    result := store.Save(aggregateId, aggregateType, [e1, e2], 2);
    var log := store.logs[aggregateId];
    versions := seq(|log|, k requires 0 <= k < |log| => log[k].version);
  }

  /** Expecting version 1 of an empty log is a concurrency conflict, and nothing
      is written or published. */
  method SaveWithWrongVersion<E>(aggregateId: string, aggregateType: string)
    returns (result: Outcome<StoreError>, stored: bool, published: seq<E>)
    ensures result == Fail(ConcurrencyException(aggregateId))
    ensures !stored && published == []
  {
    var store := new EventStore<E>(map[]);
    result := store.Save(aggregateId, aggregateType, [], 1);
    stored := aggregateId in store.logs;
    published := store.published;
  }

  /** Two saves racing on the same expected version: the first wins, the
      second is a concurrency conflict. */
  method RacingSaves<E>(stored: map<string, seq<EventDescriptor<E>>>, aggregateId: string,
                        aggregateType: string, first: seq<E>, second: seq<E>)
    returns (r1: Outcome<StoreError>, r2: Outcome<StoreError>)
    requires WellFormed(stored)
    requires first != []
    ensures r1 == Pass
    ensures r2 == Fail(ConcurrencyException(aggregateId))
  {
    var store := new EventStore<E>(stored);
    var expected := CurrentVersion(LogOf(stored, aggregateId));
    r1 := store.Save(aggregateId, aggregateType, first, expected);
    StampExtends(LogOf(stored, aggregateId), aggregateId, aggregateType, first);
    r2 := store.Save(aggregateId, aggregateType, second, expected);
  }

  /** Reading an aggregate the store has never seen fails with `AggregateNotFound`. */
  method FindUnknown(aggregateId: string) returns (r: Result<ToDoItem, StoreError>)
    ensures r == Err(AggregateNotFound(aggregateId))
  {
    var store := new EventStore<ToDoEvent>(map[]);
    var repository := new EventSourcingRepository(store);
    r := repository.FindById(aggregateId);
  }

  /** For every sequence of commands, the item they build, stored into an empty
      store and read back by its id, has the fields it had when it was stored;
      an item that emitted nothing is not stored, so reading it back fails. */
  method StoreThenFindById(commands: seq<ToDoCommand>)
    returns (changes: seq<ToDoEvent>, live: ToDoState, reloaded: Result<ToDoState, StoreError>)
    ensures changes != [] ==> reloaded == Ok(live)
    ensures changes == [] ==> reloaded == Err(AggregateNotFound(live.id))
  {
    var store := new EventStore<ToDoEvent>(map[]);
    var repository := new EventSourcingRepository(store);
    var item := RunCommands(commands);
    changes := item.uncommittedChanges;
    live := item.State();
    assert Replay(Initial, changes) == live;
    var saved := repository.Store(item, -1);
    assert saved == Pass;
    var id := item.GetId();
    assert id == live.id;
    assert store.logs == Appended(map[], id, Stamp(id, ToDoItemClass, changes, 0));
    EventsAfterSave(map[], id, ToDoItemClass, changes, 0);
    assert EventsOf<ToDoEvent>([]) == [];
    assert changes != [] ==> EventsOf(store.logs[id]) == changes;
    var found := repository.FindById(id);
    match found {
      case Err(e) =>
        reloaded := Err(e);
      case Ok(copy) =>
        reloaded := Ok(copy.State());
    }
  }

  /** A store that loses the version race keeps the item's uncommitted changes,
      so the caller can reload and retry. */
  method StoreConflictKeepsChanges(create: CreateCommand, staleVersion: int)
    returns (result: Outcome<StoreError>, pending: seq<ToDoEvent>)
    requires staleVersion != -1
    ensures result == Fail(ConcurrencyException(create.id))
    ensures pending == [Created(create.id, create.description, create.expireSeconds)]
  {
    var store := new EventStore<ToDoEvent>(map[]);
    var repository := new EventSourcingRepository(store);
    var item := new ToDoItem();
    item.Create(create);
    result := repository.Store(item, staleVersion);
    pending := item.uncommittedChanges;
  }
}
