/**
 * The deferred event scheduler: entries are persisted in a schedule store,
 * armed as in-memory timers when their delay fits one timer, and published on
 * the event bus when a timer fires. The clock is the `now` parameter and a
 * timer's expiry is the `Fire` method.
 */
module Scheduling {

  /** The longest delay one platform timer can hold, in milliseconds. */
  const MAX_TIMEOUT: int := 2147483647

  datatype TimeUnit = Hours | Minutes | Seconds | Milliseconds

  /** A persisted schedule entry: its token, the event and the absolute due time. */
  datatype ScheduledEvent<E> = ScheduledEvent(token: string, event: E, timestamp: int)

  /** A timeout in the given unit, in milliseconds. */
  function ToMillis(timeout: int, unit: TimeUnit): (ms: int)
    ensures ms < 0 <==> timeout < 0
    ensures ms == 0 <==> timeout == 0
    ensures unit == Milliseconds ==> ms == timeout
    ensures unit == Seconds ==> ms == 1000 * timeout
  {
    match unit
    case Hours => timeout * 3600000
    case Minutes => timeout * 60000
    case Seconds => timeout * 1000
    case Milliseconds => timeout
  }

  /** A minute is sixty seconds and an hour sixty minutes, for every timeout. */
  lemma UnitsAgree(timeout: int)
    ensures ToMillis(timeout, Minutes) == 60 * ToMillis(timeout, Seconds)
    ensures ToMillis(timeout, Hours) == 60 * ToMillis(timeout, Minutes)
    ensures ToMillis(timeout, Hours) == ToMillis(60 * timeout, Minutes)
  {
  }

  /** The length of the longest string of a finite set. */
  ghost function MaxLength(s: set<string>): (n: nat)
    ensures forall x :: x in s ==> |x| <= n
    decreases s
  {
    if s == {} then 0
    else
      var x :| x in s;
      var m := MaxLength(s - {x});
      if |x| > m then |x| else m
  }

  /** A finite set of tokens never exhausts the tokens: the identity provider
      can always hand out one not issued before. */
  lemma FreshTokenExists(issued: set<string>)
    ensures exists t :: t !in issued
  {
    var t := seq(MaxLength(issued) + 1, _ => 't');
    assert t !in issued;
  }

  class SimpleEventScheduler<E> {
    /** The schedule store, by token. */
    var storage: map<string, ScheduledEvent<E>>
    /** Armed timers, by token; each holds the entry its callback will publish. */
    var currentSchedule: map<string, ScheduledEvent<E>>
    /** Every event published on the event bus, in order. */
    var published: seq<E>
    /** Every token the identity provider has handed out. */
    var issued: set<string>

    ghost predicate Valid()
      reads this
    {
      && (forall t :: t in storage ==> storage[t].token == t)
      && (forall t :: t in currentSchedule ==> t in storage && currentSchedule[t] == storage[t])
      && storage.Keys <= issued
    }

    /** A scheduler over a schedule store that may already hold entries from an
        earlier run; none of them is armed until `Schedule` runs. */
    constructor (stored: map<string, ScheduledEvent<E>>)
      requires forall t :: t in stored ==> stored[t].token == t
      ensures Valid()
      ensures storage == stored && currentSchedule == map[] && published == []
    {
      storage := stored;
      currentSchedule := map[];
      published := [];
      issued := stored.Keys;
    }

    /** Arms a timer for every stored entry that has none; armed ones are left alone. */
    method Schedule()
      requires Valid()
      modifies this`currentSchedule
      ensures Valid()
      ensures currentSchedule.Keys == storage.Keys
      ensures forall t :: t in old(currentSchedule) ==> currentSchedule[t] == old(currentSchedule)[t]
    {
      var entries := storage.Keys;
      while entries != {}
        invariant entries <= storage.Keys
        invariant Valid()
        invariant currentSchedule.Keys == old(currentSchedule).Keys + (storage.Keys - entries)
        invariant forall t :: t in old(currentSchedule) ==> currentSchedule[t] == old(currentSchedule)[t]
        decreases entries
      {
        var token :| token in entries;
        if token !in currentSchedule {
          currentSchedule := currentSchedule[token := storage[token]];
        }
        entries := entries - {token};
      }
    }

    /** Removes the stored entry and disarms its timer; publishes nothing. */
    method CancelSchedule(token: string)
      requires Valid()
      modifies this`storage, this`currentSchedule
      ensures Valid()
      ensures storage == old(storage) - {token}
      ensures currentSchedule == old(currentSchedule) - {token}
    {
      storage := storage - {token};
      if token in currentSchedule {
        currentSchedule := currentSchedule - {token};
      }
    }

    /** Schedules `event` for `dateTime`, read against the clock value `now`. */
    method ScheduleAt(dateTime: int, event: E, now: int) returns (token: string)
      requires Valid()
      modifies this
      ensures Valid()
      ensures token !in old(issued) && issued == old(issued) + {token}
      ensures dateTime < now ==>
        && storage == old(storage) && currentSchedule == old(currentSchedule)
        && published == old(published) + [event]
      ensures now <= dateTime ==>
        && storage == old(storage)[token := ScheduledEvent(token, event, dateTime)]
        && published == old(published)
      ensures now <= dateTime < now + MAX_TIMEOUT ==>
        currentSchedule == old(currentSchedule)[token := ScheduledEvent(token, event, dateTime)]
      ensures now + MAX_TIMEOUT <= dateTime ==> currentSchedule == old(currentSchedule)
    {
      var timeout := dateTime - now;
      token := ScheduleAfter(timeout, event, Milliseconds, now);
    }

    /** Persists `event` under a fresh token, due `timeout` units after `now`;
        fires it at once when overdue, arms a timer when the delay fits one. */
    method ScheduleAfter(timeout: int, event: E, timeUnit: TimeUnit, now: int) returns (token: string)
      requires Valid()
      modifies this
      ensures Valid()
      ensures token !in old(issued) && issued == old(issued) + {token}
      ensures var timeoutMs := ToMillis(timeout, timeUnit);
        var entry := ScheduledEvent(token, event, now + timeoutMs);
        && (timeoutMs < 0 ==>
              && storage == old(storage) && currentSchedule == old(currentSchedule)
              && published == old(published) + [event])
        && (0 <= timeoutMs ==>
              && storage == old(storage)[token := entry]
              && published == old(published))
        && (0 <= timeoutMs < MAX_TIMEOUT ==> currentSchedule == old(currentSchedule)[token := entry])
        && (MAX_TIMEOUT <= timeoutMs ==> currentSchedule == old(currentSchedule))
    {
      var timeoutMs := ToMillis(timeout, timeUnit);
      FreshTokenExists(issued);
      token :| token !in issued;
      issued := issued + {token};
      var scheduled := ScheduledEvent(token, event, now + timeoutMs);
      storage := storage[token := scheduled];

      if timeoutMs < 0 {
        OnTimeout(scheduled);
        assert storage == old(storage);
      } else if timeoutMs < MAX_TIMEOUT {
        currentSchedule := currentSchedule[token := scheduled];
      }
    }

    /** The expiry of the timer armed for `token`. */
    method Fire(token: string)
      requires Valid()
      requires token in currentSchedule
      modifies this
      ensures Valid()
      ensures storage == old(storage) - {token}
      ensures currentSchedule == old(currentSchedule) - {token}
      ensures published == old(published) + [old(currentSchedule)[token].event]
      ensures issued == old(issued)
    {
      OnTimeout(currentSchedule[token]);
    }

    /** Drops the entry's timer and stored entry, then publishes its event. */
    method OnTimeout(scheduled: ScheduledEvent<E>)
      requires Valid()
      requires scheduled.token in storage ==> storage[scheduled.token] == scheduled
      modifies this`currentSchedule, this`storage, this`published
      ensures Valid()
      ensures currentSchedule == old(currentSchedule) - {scheduled.token}
      ensures storage == old(storage) - {scheduled.token}
      ensures published == old(published) + [scheduled.event]
    {
      currentSchedule := currentSchedule - {scheduled.token};
      storage := storage - {scheduled.token};
      published := published + [scheduled.event];
    }
  }

  /** Scheduling an event with a due time already past publishes it at once and
      leaves nothing stored or armed. */
  method ScheduleOverdue<E>(event: E, delay: int, unit: TimeUnit, now: int)
    returns (published: seq<E>, stored: nat, armed: nat)
    requires delay < 0
    ensures published == [event]
    ensures stored == 0 && armed == 0
  {
    var scheduler := new SimpleEventScheduler<E>(map[]);
    var _ := scheduler.ScheduleAfter(delay, event, unit, now);
    published := scheduler.published;
    stored := |scheduler.storage|;
    armed := |scheduler.currentSchedule|;
  }

  /** Cancelling a token the scheduler never issued changes no stored entry. */
  method CancelUnknown<E>(stored: map<string, ScheduledEvent<E>>, token: string)
    returns (after: map<string, ScheduledEvent<E>>, published: seq<E>)
    requires forall t :: t in stored ==> stored[t].token == t
    requires token !in stored
    ensures after == stored
    ensures published == []
  {
    var scheduler := new SimpleEventScheduler<E>(stored);
    scheduler.CancelSchedule(token);
    after := scheduler.storage;
    published := scheduler.published;
  }
}
