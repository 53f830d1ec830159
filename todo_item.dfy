/**
 * The to-do item aggregate of the saga example: command handlers decide which
 * event to apply, and only the event handlers change the item's fields.
 */
module ToDoDomain {

  /** The class name the inflector reports for the aggregate. */
  const ToDoItemClass: string := "ToDoItem"

  datatype ToDoEvent =
    | Created(id: string, description: string, expireSeconds: int)
    | MarkedAsDone(id: string)
    | Expired(id: string)

  datatype CreateCommand = CreateCommand(id: string, description: string, expireSeconds: int)
  datatype MarkAsDoneCommand = MarkAsDoneCommand(id: string)
  datatype ExpireCommand = ExpireCommand(id: string)

  /** A command addressed to a to-do item. */
  datatype ToDoCommand =
    | CreateItem(create: CreateCommand)
    | MarkItemDone(mark: MarkAsDoneCommand)
    | ExpireItem(expire: ExpireCommand)

  /** The four fields of an item. */
  datatype ToDoState = ToDoState(id: string, description: string, expireSeconds: int, isDone: bool)

  /** A new item, before any event: not done. */
  const Initial: ToDoState := ToDoState("", "", 0, false)

  /** What the event handlers do to the fields. */
  function Evolve(s: ToDoState, e: ToDoEvent): (r: ToDoState)
    ensures r.isDone <==> !e.Created?
    ensures e.Created? ==> r.id == e.id && r.description == e.description && r.expireSeconds == e.expireSeconds
    ensures !e.Created? ==> r.id == s.id && r.description == s.description && r.expireSeconds == s.expireSeconds
  {
    match e
    case Created(id, description, expireSeconds) => ToDoState(id, description, expireSeconds, false)
    case MarkedAsDone(_) => s.(isDone := true)
    case Expired(_) => s.(isDone := true)
  }

  /** The state reached by handling `events` in order, from `s`. */
  function Replay(s: ToDoState, events: seq<ToDoEvent>): (r: ToDoState)
    ensures events != [] ==> (r.isDone <==> !events[|events| - 1].Created?)
    ensures r.id == s.id || exists k :: 0 <= k < |events| && events[k].Created? && events[k].id == r.id
    decreases |events|
  {
    if events == [] then s else Replay(Evolve(s, events[0]), events[1..])
  }

  /** Replaying two batches in turn is replaying them joined. */
  lemma {:induction false} ReplayAppend(s: ToDoState, a: seq<ToDoEvent>, b: seq<ToDoEvent>)
    ensures Replay(s, a + b) == Replay(Replay(s, a), b)
    decreases |a|
  {
    if a == [] {
      assert a + b == b;
    } else {
      assert (a + b)[0] == a[0];
      assert (a + b)[1..] == a[1..] + b;
      ReplayAppend(Evolve(s, a[0]), a[1..], b);
    }
  }

  /** A done item stays done under every history without a `Created` event,
      and those events touch nothing but `isDone`. */
  lemma {:induction false} DoneIsSticky(s: ToDoState, events: seq<ToDoEvent>)
    requires forall k :: 0 <= k < |events| ==> !events[k].Created?
    ensures Replay(s, events) == if events == [] then s else s.(isDone := true)
    decreases |events|
  {
    if events != [] {
      DoneIsSticky(Evolve(s, events[0]), events[1..]);
    }
  }

  class ToDoItem {
    var id: string
    var description: string
    var expireSeconds: int
    var isDone: bool
    /** Events applied since the last commit, oldest first. */
    var uncommittedChanges: seq<ToDoEvent>
    /** The fields as they stood at the last commit or load. */
    ghost var committed: ToDoState

    function State(): ToDoState
      reads this
    {
      ToDoState(id, description, expireSeconds, isDone)
    }

    /** The fields are always the committed state with the pending events replayed. */
    ghost predicate Valid()
      reads this
    {
      State() == Replay(committed, uncommittedChanges)
    }

    /** The id is the one the latest `Created` event set, or the initial one. */
    function GetId(): (r: string)
      reads this
      ensures Valid() ==> r == Replay(committed, uncommittedChanges).id
      ensures Valid() ==> (r == committed.id
        || exists k :: 0 <= k < |uncommittedChanges| && uncommittedChanges[k].Created? && uncommittedChanges[k].id == r)
    {
      id
    }

    constructor ()
      ensures Valid()
      ensures State() == Initial && uncommittedChanges == []
    {
      id, description, expireSeconds, isDone := "", "", 0, false;
      uncommittedChanges := [];
      committed := Initial;
    }

    /** Buffers the event, then runs its handler. */
    method Apply(event: ToDoEvent)
      requires Valid()
      modifies this
      ensures Valid()
      ensures uncommittedChanges == old(uncommittedChanges) + [event]
      ensures State() == Evolve(old(State()), event)
      ensures committed == old(committed)
    {
      uncommittedChanges := uncommittedChanges + [event];
      match event {
        case Created(_, _, _) => OnCreated(event);
        case MarkedAsDone(_) => OnMarkedAsDone(event);
        case Expired(_) => OnExpired(event);
      }
      ReplayAppend(committed, old(uncommittedChanges), [event]);
      assert Replay(old(State()), [event]) == Replay(Evolve(old(State()), event), []);
    }

    method Create(command: CreateCommand)
      requires Valid()
      modifies this
      ensures Valid()
      ensures uncommittedChanges ==
        old(uncommittedChanges) + [Created(command.id, command.description, command.expireSeconds)]
      ensures State() == ToDoState(command.id, command.description, command.expireSeconds, false)
      ensures committed == old(committed)
    {
      Apply(Created(command.id, command.description, command.expireSeconds));
    }

    method OnCreated(event: ToDoEvent)
      requires event.Created?
      modifies this`id, this`description, this`expireSeconds, this`isDone
      ensures State() == ToDoState(event.id, event.description, event.expireSeconds, false)
    {
      id := event.id;
      description := event.description;
      expireSeconds := event.expireSeconds;
      isDone := false;
    }

    /** Applies `MarkedAsDone` only when the item is not done yet. */
    method MarkAsDone(command: MarkAsDoneCommand)
      requires Valid()
      modifies this
      ensures Valid()
      ensures old(isDone) ==> uncommittedChanges == old(uncommittedChanges) && State() == old(State())
      ensures !old(isDone) ==> uncommittedChanges == old(uncommittedChanges) + [MarkedAsDone(command.id)]
      ensures State() == old(State()).(isDone := true)
      ensures committed == old(committed)
    {
      if !isDone {
        Apply(MarkedAsDone(command.id));
      }
    }

    method OnMarkedAsDone(event: ToDoEvent)
      requires event.MarkedAsDone?
      modifies this`isDone
      ensures State() == old(State()).(isDone := true)
    {
      isDone := true;
    }

    /** Applies `Expired` only when the item is not done yet. */
    method Expire(command: ExpireCommand)
      requires Valid()
      modifies this
      ensures Valid()
      ensures old(isDone) ==> uncommittedChanges == old(uncommittedChanges) && State() == old(State())
      ensures !old(isDone) ==> uncommittedChanges == old(uncommittedChanges) + [Expired(command.id)]
      ensures State() == old(State()).(isDone := true)
      ensures committed == old(committed)
    {
      if !isDone {
        Apply(Expired(command.id));
      }
    }

    method OnExpired(event: ToDoEvent)
      requires event.Expired?
      modifies this`isDone
      ensures State() == old(State()).(isDone := true)
    {
      isDone := true;
    }

    /** Clears the buffer once the events are durable; the fields stay. */
    method MarkChangesCommitted()
      requires Valid()
      modifies this`uncommittedChanges, this`committed
      ensures Valid()
      ensures uncommittedChanges == [] && State() == old(State())
    {
      uncommittedChanges := [];
      committed := State();
    }

    /** Rebuilds the item from its stored history: every event goes through its
        handler, nothing is buffered. */
    method LoadFromHistory(events: seq<ToDoEvent>)
      requires Valid() && uncommittedChanges == []
      modifies this
      ensures Valid()
      ensures uncommittedChanges == []
      ensures State() == Replay(old(State()), events)
    {
      var i := 0;
      while i < |events|
        invariant 0 <= i <= |events|
        invariant uncommittedChanges == []
        invariant State() == Replay(old(State()), events[..i])
      {
        var event := events[i];
        match event {
          case Created(_, _, _) => OnCreated(event);
          case MarkedAsDone(_) => OnMarkedAsDone(event);
          case Expired(_) => OnExpired(event);
        }
        ReplayAppend(old(State()), events[..i], [event]);
        assert events[..i + 1] == events[..i] + [event];
        i := i + 1;
      }
      assert events[..i] == events;
      committed := State();
    }
  }

  /** Creating an item and marking it done twice applies `Created` and one
      `MarkedAsDone`; the second command applies nothing. */
  method MarkAsDoneTwice(create: CreateCommand, first: MarkAsDoneCommand, second: MarkAsDoneCommand)
    returns (changes: seq<ToDoEvent>, done: bool)
    ensures changes == [Created(create.id, create.description, create.expireSeconds), MarkedAsDone(first.id)]
    ensures done
  {
    var item := new ToDoItem();
    item.Create(create);
    item.MarkAsDone(first);
    item.MarkAsDone(second);
    changes := item.uncommittedChanges;
    done := item.isDone;
  }

  /** Once an item is done, expiring it applies nothing. */
  method ExpireAfterDone(create: CreateCommand, mark: MarkAsDoneCommand, expire: ExpireCommand)
    returns (changes: seq<ToDoEvent>)
    ensures changes == [Created(create.id, create.description, create.expireSeconds), MarkedAsDone(mark.id)]
  {
    var item := new ToDoItem();
    item.Create(create);
    item.MarkAsDone(mark);
    item.Expire(expire);
    changes := item.uncommittedChanges;
  }

  /** Hands `command` to the item's handler for it. */
  method Handle(item: ToDoItem, command: ToDoCommand)
    requires item.Valid()
    modifies item
    ensures item.Valid() && item.committed == old(item.committed)
    ensures command.CreateItem? ==>
      item.State() == ToDoState(command.create.id, command.create.description, command.create.expireSeconds, false)
    ensures !command.CreateItem? ==> item.State() == old(item.State()).(isDone := true)
  {
    match command {
      case CreateItem(create) => item.Create(create);
      case MarkItemDone(mark) => item.MarkAsDone(mark);
      case ExpireItem(expire) => item.Expire(expire);
    }
  }

  /** A new item after `commands`, handled in order; nothing is committed yet. */
  method RunCommands(commands: seq<ToDoCommand>) returns (item: ToDoItem)
    ensures fresh(item) && item.Valid() && item.committed == Initial
  {
    item := new ToDoItem();
    var i := 0;
    while i < |commands|
      invariant 0 <= i <= |commands|
      invariant fresh(item) && item.Valid() && item.committed == Initial
    {
      Handle(item, commands[i]);
      i := i + 1;
    }
  }

  /** For every sequence of commands, the events they emit, replayed on a new
      item, give back the live item's fields. */
  method ReplayReproducesState(commands: seq<ToDoCommand>)
    returns (changes: seq<ToDoEvent>, live: ToDoState, replayed: ToDoState)
    ensures live == Replay(Initial, changes)
    ensures replayed == live
  {
    var item := RunCommands(commands);
    changes := item.uncommittedChanges;
    live := item.State();
    var copy := new ToDoItem();
    copy.LoadFromHistory(changes);
    replayed := copy.State();
  }
}
