# aphajs core, modelled in Dafny

This project models the sequential core of aphajs, a TypeScript library for event-sourced,
saga-orchestrated applications. It covers four parts.

- **Saga store and repository.** `MemorySagaStorage` keeps the saga records by id. It also keeps an
  index from association field, to value, to the ids of the sagas registered under that pair.
  `SagaRepository` adds the active/inactive lifecycle rule on top: an inactive saga is never added,
  and committing one removes it.
- **Deferred event scheduler.** `SimpleEventScheduler` persists scheduled entries in a schedule
  store. It arms a timer for each entry whose delay fits one platform timer, and publishes the
  entry's event when the timer fires. An overdue entry fires at once.
- **To-do item aggregate.** This comes from the saga example. Command handlers apply events only
  while the item is not done. Only the event handlers change fields. Every applied event is
  buffered as an uncommitted change.
- **Persistence glue.** `EventSourcingRepository` rebuilds an item by replaying its stored events.
  It stores the item's uncommitted changes through an event store with an optimistic version
  check, and clears them only when the save succeeds. `JsonSerializer.deserialize` hydrates a
  fresh instance: only the properties the instance already owns are copied from the data.

Classes whose fields the source updates in place are Dafny classes with `modifies` clauses:
`MemorySagaStorage`, `SagaRepository`, `SimpleEventScheduler`, `ToDoItem`, `EventStore`,
`EventSourcingRepository` and `JsObject`. Every loop of the source is a `while` loop with
invariants. An array `filter` is a recursive function (`Without`). Each state-changing method is proved against a specification function, such as
`Associated`, `Purged`, `Replay`, `Stamp`/`Appended` or `Hydrated`. The properties the source
promises are lemmas about those functions, or small law methods that drive the classes through a
scenario of the source's tests.

External collaborators are parameters or plain data.

- The clock is a `now` parameter.
- Timer expiry is the `Fire` method.
- The identity provider is a choice of a token outside the issued set.
- The event bus is an appended sequence.
- The schedule store is a map from token to entry.
- The event store's storage is a map from aggregate id to its log.
- The saga serializer and the association-value flattening are functions given to the repository's
  constructor.
- The class-name inflector gives the saga's `className` field, or the constant `ToDoItemClass`.

Notes on what the code does that a reader might not expect:

- `SagaRepository.load` tests `!sagaData`, which also holds for an empty string. So `Load` yields
  `None` when the stored text is empty, not only when the id is absent.
- The version of an empty log is `-1`, as in `src/test/Apha/EventStore/EventStore.spec.ts`. A save
  numbers its events from `expectedVersion + 1`. A stored history may start at any version; the
  test's history starts at 1.
- `EventSourcingRepository.store` forwards the caller's `expectedVersion` to `save` unchanged, and
  calls `markChangesCommitted` after `save` returns.
- `MemorySagaStorage.update` only adds index entries. The pairs of the previous descriptor stay
  indexed.

## Model

| member | source | states |
|---|---|---|
| SagaStorage.Without | src/main/Apha/Saga/Storage/MemorySagaStorage.ts:66-68 | the filtered list holds exactly the ids of the list other than the removed one, is no longer, and stays free of repeats |
| SagaStorage.WithoutAbsent | src/main/Apha/Saga/Storage/MemorySagaStorage.ts:65 | filtering an id a list does not hold gives the same list, so skipping those lists changes nothing |
| SagaStorage.AddToField | src/main/Apha/Saga/Storage/MemorySagaStorage.ts:38-44 | the field's table gains the value if it was missing and keeps its other values' lists; the value's list afterwards holds exactly its old ids and the registered id, and stays free of repeats |
| SagaStorage.Associated | src/main/Apha/Saga/Storage/MemorySagaStorage.ts:30-46 | the index keeps its fields and gains the descriptor's, and the id is listed under every pair of the descriptor (`AssociatedEntries` states the exact lists) |
| SagaStorage.Purged | src/main/Apha/Saga/Storage/MemorySagaStorage.ts:63-71 | every field and every value of the index is kept, and no list names the purged id any more |
| SagaStorage.AssociatedAdd | src/main/Apha/Saga/Storage/MemorySagaStorage.ts:31-45 | registering one more field of a descriptor changes only that field's table |
| SagaStorage.AssociatedConsistent | src/main/Apha/Saga/Storage/MemorySagaStorage.ts:19-56 | registering a stored saga keeps every index list free of repeats and naming only stored sagas |
| SagaStorage.PurgedConsistent | src/main/Apha/Saga/Storage/MemorySagaStorage.ts:58-74 | purging an id from the index and deleting its record keeps the store consistent |
| SagaStorage.AssociatedEntries | src/main/Apha/Saga/Storage/MemorySagaStorage.ts:48-56 | registering only adds: an id is listed under a pair afterwards exactly when it was before, or it is the registered id and the pair is in the descriptor |
| SagaStorage.RegisteredIsFound | src/main/Apha/Saga/Storage/MemorySagaStorage.ts:30-46 | after registering a non-empty descriptor, all its fields are indexed and the id is listed under one of its pairs |
| SagaStorage.AddToFieldAgain | src/main/Apha/Saga/Storage/MemorySagaStorage.ts:42-44 | registering an id under a value twice is registering it once |
| SagaStorage.AssociatedAgain | src/main/Apha/Saga/Storage/MemorySagaStorage.ts:30-46 | registering the same descriptor twice leaves the index as after the first time, so no list gains a second copy |
| SagaStorage.PurgedEntries | src/main/Apha/Saga/Storage/MemorySagaStorage.ts:63-71 | purging keeps every field and value of the index and removes the purged id, and only it, from every list |
| SagaStorage.OnlyMember | src/test/Apha/Saga/Storage/MemorySagaStorage.spec.ts:49-76 | a repeat-free list whose only member is the id is exactly that one id; this is the step from `find`'s membership contract to the single result the tests expect |
| SagaStorage.SoleMatch | src/test/Apha/Saga/Storage/MemorySagaStorage.spec.ts:49-76 | a repeat-free list of stored ids in a store holding one saga, containing it, is exactly that saga's id |
| SagaStorage.NoMember | src/test/Apha/Saga/Storage/MemorySagaStorage.spec.ts:147-154 | a list with no member is the empty list; this is the step from `find`'s membership contract to the empty result the tests expect |
| SagaStorage.MemorySagaStorage.constructor | src/main/Apha/Saga/Storage/MemorySagaStorage.ts:16-17 | a new store has no record and no index entry, and is consistent |
| SagaStorage.MemorySagaStorage.FindById | src/main/Apha/Saga/Storage/MemorySagaStorage.ts:76-82 | a result is present exactly when a record is stored under the id, and it is that record's serialized saga |
| SagaStorage.MemorySagaStorage.Insert | src/main/Apha/Saga/Storage/MemorySagaStorage.ts:19-28 | the record is stored under its id, the id is registered under every pair of its descriptor, the store stays consistent, and `findById` returns the data |
| SagaStorage.MemorySagaStorage.AssociateSaga | src/main/Apha/Saga/Storage/MemorySagaStorage.ts:30-46 | the index becomes `Associated(old index, id, descriptor)` and stays consistent |
| SagaStorage.MemorySagaStorage.RegisterUnder | src/main/Apha/Saga/Storage/MemorySagaStorage.ts:34-44 | one field's table gains the value's list if missing, and the id is appended unless it is already listed |
| SagaStorage.MemorySagaStorage.Update | src/main/Apha/Saga/Storage/MemorySagaStorage.ts:48-56 | on an absent id it does what `insert` does; on a present id it replaces the descriptor and data and keeps the class name; either way the id is registered under the new pairs, the old pairs stay indexed, and the store stays consistent |
| SagaStorage.MemorySagaStorage.Remove | src/main/Apha/Saga/Storage/MemorySagaStorage.ts:58-74 | an unknown id changes nothing; a known id loses its record and is purged from every index list; the store stays consistent and `findById` returns null |
| SagaStorage.MemorySagaStorage.PurgeField | src/main/Apha/Saga/Storage/MemorySagaStorage.ts:64-70 | the id is filtered out of every list of one field; the other fields are untouched |
| SagaStorage.MemorySagaStorage.Find | src/main/Apha/Saga/Storage/MemorySagaStorage.ts:84-110 | the result has no repeats and holds exactly the stored ids of the class that are indexed under some pair of the query, provided every queried field is indexed; otherwise it is empty |
| SagaStorage.InsertThenFindById | src/test/Apha/Saga/Storage/MemorySagaStorage.spec.ts:79-93 | after `insert`, `findById` returns the inserted data |
| SagaStorage.LookupsOnEmptyStorage | src/test/Apha/Saga/Storage/MemorySagaStorage.spec.ts:95-98 | on an empty store `findById` returns null and `find` returns nothing |
| SagaStorage.InsertTwiceFindOnce | src/test/Apha/Saga/Storage/MemorySagaStorage.spec.ts:49-76 | inserting the same saga twice still makes `find` return its id once |
| Sagas.FromValue | src/main/Apha/Saga/SagaRepository.ts:41 | the descriptor of one association value has exactly its key, mapped to its value |
| Sagas.IndexedUnderOne | src/main/Apha/Saga/SagaRepository.ts:39-42 | with a one-entry descriptor, "indexed under some pair of the query" means listed under that one pair |
| Sagas.SagaRepository.constructor | src/main/Apha/Saga/SagaRepository.ts:10 | the repository holds the given store and serializer |
| Sagas.SagaRepository.RecordOf | src/main/Apha/Saga/SagaRepository.ts:17-22 | the record a saga is stored as carries its class name and id, its association values flattened into a descriptor, and its serialized text |
| Sagas.SagaRepository.Add | src/main/Apha/Saga/SagaRepository.ts:12-23 | an inactive saga leaves the store unchanged; an active one is inserted with its class name, descriptor and serialized form |
| Sagas.SagaRepository.Commit | src/main/Apha/Saga/SagaRepository.ts:25-37 | an inactive saga's record is removed, its id is purged from every index list (the index is unchanged when the id was not stored), and it can no longer be loaded; an active one is updated, or inserted when absent, and registered under its descriptor |
| Sagas.SagaRepository.Find | src/main/Apha/Saga/SagaRepository.ts:39-42 | repeat-free ids, exactly those stored for the class and listed under the association value's pair; never an id of another class |
| Sagas.SagaRepository.Load | src/main/Apha/Saga/SagaRepository.ts:44-52 | null exactly when no data, or only empty text, is stored under the id; otherwise the stored text deserialized as the requested class |
| Sagas.AddInactiveThenLoad | src/main/Apha/Saga/SagaRepository.ts:12-15 | an inactive saga that was added cannot be loaded |
| Sagas.AddThenFind | src/main/Apha/Saga/SagaRepository.ts:17-22 | an added active saga is found under a pair of its descriptor for its own class, and not for another class |
| Scheduling.ToMillis | src/main/Apha/Scheduling/SimpleEventScheduler.ts:84-99 | the conversion keeps the sign and zero, returns milliseconds unchanged and scales seconds by 1000 |
| Scheduling.UnitsAgree | src/main/Apha/Scheduling/SimpleEventScheduler.ts:86-93 | a minute converts to sixty seconds and an hour to sixty minutes, for every timeout |
| Scheduling.FreshTokenExists | src/main/Apha/Scheduling/SimpleEventScheduler.ts:59 | a finite set of issued tokens always leaves a token that was not issued |
| Scheduling.SimpleEventScheduler.constructor | src/main/Apha/Scheduling/SimpleEventScheduler.ts:15-18 | the scheduler starts over the given store, with no armed timer and nothing published |
| Scheduling.SimpleEventScheduler.Schedule | src/main/Apha/Scheduling/SimpleEventScheduler.ts:24-37 | afterwards every stored entry is armed, armed tokens stay stored entries, and timers already armed are left as they were |
| Scheduling.SimpleEventScheduler.CancelSchedule | src/main/Apha/Scheduling/SimpleEventScheduler.ts:42-49 | the stored entry and any timer for the token are removed and nothing is published; an unknown token is no error |
| Scheduling.SimpleEventScheduler.ScheduleAt | src/main/Apha/Scheduling/SimpleEventScheduler.ts:51-54 | the entry is due at the given time: a past time publishes at once, a future time stores the entry, and arms it when the delay fits a timer |
| Scheduling.SimpleEventScheduler.ScheduleAfter | src/main/Apha/Scheduling/SimpleEventScheduler.ts:56-76 | under a new token, a negative delay publishes the event once and stores nothing; otherwise one entry due at now plus the delay is stored, and armed only when the delay is below MAX_TIMEOUT |
| Scheduling.SimpleEventScheduler.Fire | src/main/Apha/Scheduling/SimpleEventScheduler.ts:72 | an armed timer's expiry removes its token from timers and store and publishes the armed entry's event |
| Scheduling.SimpleEventScheduler.OnTimeout | src/main/Apha/Scheduling/SimpleEventScheduler.ts:78-82 | the token leaves the timers and the store, other tokens are untouched, and the event is published once |
| Scheduling.ScheduleOverdue | src/main/Apha/Scheduling/SimpleEventScheduler.ts:68-70 | an overdue schedule publishes its event exactly once and leaves nothing stored or armed |
| Scheduling.CancelUnknown | src/main/Apha/Scheduling/SimpleEventScheduler.ts:42-49 | cancelling a token never issued leaves the store unchanged and publishes nothing |
| ToDoDomain.ReplayAppend | examples/Saga/Domain/ToDoItem.ts:25-55 | replaying two batches in turn is replaying them joined |
| ToDoDomain.DoneIsSticky | examples/Saga/Domain/ToDoItem.ts:40-55 | a history without `Created` leaves every field but `isDone` alone, and a non-empty one leaves the item done |
| ToDoDomain.Evolve | examples/Saga/Domain/ToDoItem.ts:25-55 | after an event the item is done exactly when the event is not `Created`; `Created` sets id, description and expiry from the event; the other two events keep those fields |
| ToDoDomain.Replay | src/main/Apha/Repository/EventSourcingRepository.ts:12-13 | handling a non-empty history leaves the item done exactly when its last event is not `Created`, and the item's id is the starting id or the id of one of its `Created` events |
| ToDoDomain.ToDoItem.constructor | examples/Saga/Domain/ToDoItem.ts:11-14 | a new item is not done and has no uncommitted change |
| ToDoDomain.ToDoItem.GetId | examples/Saga/Domain/ToDoItem.ts:16-18 | the id returned is the one replaying the uncommitted changes over the committed state gives: the committed id, or the id of one of the buffered `Created` events |
| ToDoDomain.ToDoItem.Apply | examples/Saga/Domain/ToDoItem.ts:22 | the event is appended to the uncommitted changes and the fields become those its handler produces |
| ToDoDomain.ToDoItem.Create | examples/Saga/Domain/ToDoItem.ts:20-23 | exactly one `Created` event with the command's id, description and expiry is applied, and the item is not done |
| ToDoDomain.ToDoItem.OnCreated | examples/Saga/Domain/ToDoItem.ts:25-31 | id, description and expiry come from the event, and `isDone` is false |
| ToDoDomain.ToDoItem.MarkAsDone | examples/Saga/Domain/ToDoItem.ts:33-38 | one `MarkedAsDone` is applied only when the item is not done; a done item changes in nothing; either way the item ends done |
| ToDoDomain.ToDoItem.OnMarkedAsDone | examples/Saga/Domain/ToDoItem.ts:40-43 | `isDone` becomes true and no other field changes |
| ToDoDomain.ToDoItem.Expire | examples/Saga/Domain/ToDoItem.ts:45-50 | one `Expired` is applied only when the item is not done; a done item changes in nothing; either way the item ends done |
| ToDoDomain.ToDoItem.OnExpired | examples/Saga/Domain/ToDoItem.ts:52-55 | `isDone` becomes true and no other field changes |
| ToDoDomain.ToDoItem.MarkChangesCommitted | src/main/Apha/Repository/EventSourcingRepository.ts:24 | the uncommitted changes are cleared and the fields stay |
| ToDoDomain.ToDoItem.LoadFromHistory | src/main/Apha/Repository/EventSourcingRepository.ts:13 | the fields become the replay of the history through the handlers, and nothing is buffered |
| ToDoDomain.MarkAsDoneTwice | examples/Saga/Domain/ToDoItem.ts:33-38 | create and two mark-as-done commands emit `Created` and one `MarkedAsDone`, and the item is done |
| ToDoDomain.ExpireAfterDone | examples/Saga/Domain/ToDoItem.ts:45-50 | expiring a done item emits nothing |
| ToDoDomain.Handle | examples/Saga/Domain/ToDoItem.ts:20-50 | each command goes to its handler: `Create` sets the command's fields and not done, the other two leave the item done with its other fields kept; the item stays consistent with its buffer and its committed state is kept |
| ToDoDomain.RunCommands | examples/Saga/Domain/ToDoItem.ts:20-55 | after any sequence of commands a new item's fields are its initial state with its uncommitted changes replayed |
| ToDoDomain.ReplayReproducesState | examples/Saga/Domain/ToDoItem.ts:20-55 | for every sequence of commands, the live fields are the replay of the emitted events from a new item, and loading those events into another new item gives the same fields |
| EventSourcing.Stamp | src/test/Apha/EventStore/EventStore.spec.ts:104-163 | one descriptor per event, in order, with the aggregate's id and type and versions numbered on from the first |
| EventSourcing.CurrentVersion | src/test/Apha/EventStore/EventStore.spec.ts:104-176 | an empty log is at version -1; a gapless log is at its first version plus the number of events after the first |
| EventSourcing.Appended | src/test/Apha/EventStore/EventStore.spec.ts:104-176 | the saved aggregate's log is its old log followed by the descriptors; the aggregate gains a log only when something is appended; every other aggregate's log is untouched |
| EventSourcing.SaveOutcome | src/test/Apha/EventStore/EventStore.spec.ts:104-176 | a save either passes or fails with a `ConcurrencyException` for the aggregate; on a gapless log it passes exactly when the expected version is -1 for an empty log, or the first version plus the number of later events |
| EventSourcing.StampExtends | src/test/Apha/EventStore/EventStore.spec.ts:126-163 | appending a save's descriptors keeps versions gapless and moves the current version on by the number of events |
| EventSourcing.EventsAfterSave | src/test/Apha/EventStore/EventStore.spec.ts:104-163 | after a save the aggregate's events read back as the old ones followed by the saved ones |
| EventSourcing.StampOwned | src/test/Apha/EventStore/EventStore.spec.ts:104-163 | every descriptor of the log after a save belongs to the saved aggregate |
| EventSourcing.SaveKeepsWellFormed | src/test/Apha/EventStore/EventStore.spec.ts:104-163 | a save at the current version keeps every stored log non-empty, gapless and holding only its aggregate's events |
| EventSourcing.AppendedSnoc | src/test/Apha/EventStore/EventStore.spec.ts:117-118 | appending descriptors one at a time is appending them together |
| EventSourcing.EventStore.constructor | src/test/Apha/EventStore/EventStore.spec.ts:126-163 | the store starts over the given well-formed logs, with nothing published |
| EventSourcing.EventStore.GetEventsForAggregate | src/test/Apha/EventStore/EventStore.spec.ts:90-100 | `AggregateNotFound` exactly when nothing is stored for the id; otherwise its events in version order |
| EventSourcing.EventStore.Save | src/test/Apha/EventStore/EventStore.spec.ts:104-176 | a version other than the current one is a `ConcurrencyException` that writes and publishes nothing; otherwise the events are appended with the next versions and published in order, and the logs stay well formed |
| EventSourcing.EventStore.AppendAll | src/test/Apha/EventStore/EventStore.spec.ts:117-118 | one append per descriptor, ending with all of them appended to the aggregate's log |
| EventSourcing.EventStore.PublishAll | src/test/Apha/EventStore/EventStore.spec.ts:104-124 | the events are published in order |
| EventSourcing.EventSourcingRepository.constructor | src/main/Apha/Repository/EventSourcingRepository.ts:9 | the repository holds the given event store |
| EventSourcing.EventSourcingRepository.FindById | src/main/Apha/Repository/EventSourcingRepository.ts:11-14 | `AggregateNotFound` exactly when the store has no events for the id, with no item built; otherwise a new item whose fields are the replay of exactly those events, with no uncommitted change |
| EventSourcing.EventSourcingRepository.Store | src/main/Apha/Repository/EventSourcingRepository.ts:16-25 | saves the item's id, class name and uncommitted changes at the caller's expected version; clears the changes only when the save succeeds, and keeps them on a conflict; the fields never change |
| EventSourcing.SaveNewAggregate | src/test/Apha/EventStore/EventStore.spec.ts:104-124 | expected version -1 on an empty log succeeds and numbers the events from 0 |
| EventSourcing.SaveAfterHistory | src/test/Apha/EventStore/EventStore.spec.ts:126-163 | expected version 2 after a history numbered 1 and 2 succeeds and numbers the new events 3 and 4 |
| EventSourcing.SaveWithWrongVersion | src/test/Apha/EventStore/EventStore.spec.ts:165-176 | expected version 1 on an empty log is a `ConcurrencyException`, with nothing stored or published |
| EventSourcing.RacingSaves | src/test/Apha/EventStore/EventStore.spec.ts:165-176 | of two saves at the same expected version, the first succeeds and the second is a `ConcurrencyException` |
| EventSourcing.FindUnknown | src/test/Apha/EventStore/EventStore.spec.ts:90-100 | reading an aggregate the store never saw fails with `AggregateNotFound` |
| EventSourcing.StoreThenFindById | src/main/Apha/Repository/EventSourcingRepository.ts:11-25 | for every sequence of commands, the item built, stored at version -1 into an empty store and read back by its id, has the fields it had when stored; an item that emitted no event is not stored and reads back as `AggregateNotFound` |
| EventSourcing.StoreConflictKeepsChanges | src/main/Apha/Repository/EventSourcingRepository.ts:16-25 | a store that loses the version check keeps the item's uncommitted changes |
| Serialization.NatToString | src/main/Apha/Serialization/JsonSerializer.ts:22 | an index key is never empty |
| Serialization.NatToStringInjective | src/main/Apha/Serialization/JsonSerializer.ts:22 | different indices give different keys |
| Serialization.KeysBelowDiffer | src/main/Apha/Serialization/JsonSerializer.ts:22 | an index's key differs from every smaller index's key |
| Serialization.Enumerable | src/main/Apha/Serialization/JsonSerializer.ts:22 | `for...in` enumerates an object's members, an array's elements and a string's characters under their index keys, and nothing of a null, boolean or number |
| Serialization.Indexed | src/main/Apha/Serialization/JsonSerializer.ts:22 | every element sits under its own index key |
| Serialization.IndexedKeys | src/main/Apha/Serialization/JsonSerializer.ts:22 | every key enumerated over a sequence is an index key |
| Serialization.EnumerableKeys | src/main/Apha/Serialization/JsonSerializer.ts:22 | every key enumerated over an array or a string is an index key |
| Serialization.Restrict | src/main/Apha/Serialization/JsonSerializer.ts:23 | the entries of a map whose key is in the given set, with their values |
| Serialization.Hydrated | src/main/Apha/Serialization/JsonSerializer.ts:21-29 | the target keeps exactly its own keys; shared keys take the data's value and the others keep the default |
| Serialization.HydrateIdempotent | src/main/Apha/Serialization/JsonSerializer.ts:21-29 | hydrating twice from the same data gives the same object as once |
| Serialization.HydrateIgnoresUnknown | src/main/Apha/Serialization/JsonSerializer.ts:23 | data keys the target does not own have no effect |
| Serialization.HydrateFromCompleteData | src/main/Apha/Serialization/JsonSerializer.ts:22-26 | when the data carries every owned key, the result is the data restricted to those keys |
| Serialization.HydratedStep | src/main/Apha/Serialization/JsonSerializer.ts:22-26 | handling one more data key updates at most that key's property |
| Serialization.JsObject.constructor | src/main/Apha/Serialization/JsonSerializer.ts:14 | a new instance owns exactly its constructor's properties |
| Serialization.JsObject.HasOwnProperty | src/main/Apha/Serialization/JsonSerializer.ts:23 | true exactly when the property is one of the object's own properties |
| Serialization.Hydrate | src/main/Apha/Serialization/JsonSerializer.ts:21-29 | returns the object it was given, now holding `Hydrated(its old properties, data)` |
| Serialization.Deserialize | src/main/Apha/Serialization/JsonSerializer.ts:10-19 | without a type the parsed value comes back unchanged; with one, a fresh instance hydrated from the value's enumerable keys |
| Serialization.DeserializeDropsUnknown | src/main/Apha/Serialization/JsonSerializer.ts:13-16 | a typed deserialization keeps the type's properties with the data's values and drops the data's other members |
| Serialization.DeserializeNonObject | src/main/Apha/Serialization/JsonSerializer.ts:13-16 | deserializing a non-object into a type without index-key properties yields the type's defaults |

## Left out

- Timers and the clock: `setTimeout`, `clearTimeout` and `Date.now` are not modelled. The clock is the `now` parameter, and timer expiry is the `Fire` method.
- The scheduler's 10-day refresh loop and `destroy` are not modelled, because they only re-run `schedule` on a platform timer.
- Scheduling.SimpleEventScheduler.ScheduleAt: its `Date.now` reading and the one in `scheduleAfter` are taken as the one `now`, because the model has no clock.
- Scheduling.SimpleEventScheduler.Schedule: a re-armed entry's delay (its timestamp minus now) is not recorded; the model keeps only the entry its timer will publish.
- The platform's behaviour for delays above `MAX_TIMEOUT` in `schedule` is not modelled. It depends on the host, not on this code.
- JSON numbers (`Value.Num`) and `ToDoItem.expireSeconds` are unbounded integers, not floating-point `number`: fractions, `NaN`, infinities and precision loss are not modelled.
- Scheduling.ToMillis: works on unbounded integers, not floating-point `number`, so it has no fractional timeouts and no rounding.
- The JSON text format (`JSON.stringify`, `JSON.parse`) is a foreign library. `serialize` is therefore left out, and `deserialize` receives the parsed value.
- Serialization.Enumerable: enumerates own keys only. Inherited enumerable properties and prototype-named keys such as `constructor` are not modelled.
- Serialization.Enumerable: a string is enumerated one key per Unicode scalar value, not per UTF-16 code unit. A character outside the Basic Multilingual Plane gives JavaScript two keys with a lone surrogate under each, and the model one key. Dafny strings hold scalar values, not code units.
- ToDoDomain.ToDoItem.constructor: the TypeScript fields start `undefined`; the model starts them at `""`, `""`, `0` and `false`. `isDone` behaves the same, because `!undefined` is true. `getId()` on an item that was never created returns `""` instead of `undefined`, so such an item's events are stored under `""` rather than the key JavaScript derives from `undefined`.
- Saga and association keys that collide with `Object.prototype` members are not modelled.
- `async` and promises are not modelled. Event store and repository operations are sequential methods that return an `Outcome` or a `Result`.
- The event store's source file is not part of this model. `EventStore` here is an in-memory log per aggregate, with the version check and the publication its tests exercise.
- Event serialization into descriptors (event name, payload) and the event storage adapter are not modelled. The log holds the events themselves.
- The event store's `getAggregateIds` and `clear` are not modelled, because they are outside the repository's use.
- `AggregateFactory.createAggregate` is not part of this model. `EventSourcingRepository.FindById` stands for it with a new `ToDoItem` and `LoadFromHistory`.
- `AggregateRoot` is not part of this model, including any version it keeps or advances in `markChangesCommitted`. `ToDoItem` has no version field, so the model does not state that a successful store advances a version.
- `AnnotatedAggregateRoot` is not part of this model. `ToDoItem` carries the buffer and the commit itself, and the decorator-based dispatch of commands and events is written as a `match`.
- The command and event handler decorators, and the aggregate root initializer, are not modelled. They are runtime reflection, not logic.
- `SagaSerializer`, `AssociationValueDescriptor.fromValues` and `ClassNameInflector` are not part of this model. They are functions passed to the `SagaRepository` constructor, and a class name carried by the saga.
- `IdentityProvider` is not part of this model. A new token is any token outside the issued set.
- `SimpleSagaManager` is not part of this model.
- Concurrency between asynchronous callers is not modelled. `RacingSaves` states the outcome of two saves run one after the other.
