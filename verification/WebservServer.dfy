/** Server: whole runs of the event loop, with any handlers. */
module EventLoop {
  import opened Handles
  import opened Registry

  /** What a handler, or the code around the loop, can do with handles and with the registry. */
  datatype Action =
    | MakeEmpty
    | MakeFrom(isNull: bool)
    | MakeCopy
    | AssignOther
    | Reset(isNull: bool)
    | Drop
    | Register(fd: int, ctlFails: bool)
    | RegisterObject(fd: int, ctlFails: bool)
    | Unregister(fd: int, ctlFails: bool)

  /** How one event of a batch goes: an error, the handler's actions, whether the handler is
      closing before and after them, and the descriptor to unregister. */
  datatype Handling = Handling(
    error: bool,
    wasClosing: bool,
    actions: seq<Action>,
    closes: bool,
    fd: int,
    ctlFails: bool)

  /** How a part of the program ends: normally, with an exception, or by using a null pointer. */
  datatype Ending = Fine | Threw | Crashed

  /** What a run is made of: uses of context pointers, whose objects were there or not, actions,
      and batches that were waited for. */
  datatype Entry =
    | Used(o: Context, live: bool)
    | Did(action: Action)
    | Waited(batch: seq<Context?>)

  // -------------------------------------------------- what a run without exceptions does

  function Setting(actions: seq<Action>): seq<Entry> {
    if actions == [] then [] else Setting(actions[..|actions| - 1]) + [Did(actions[|actions| - 1])]
  }

  /** A handler uses its context before every action. */
  function Handled(o: Context, actions: seq<Action>): seq<Entry> {
    if actions == [] then []
    else Handled(o, actions[..|actions| - 1]) + [Used(o, true), Did(actions[|actions| - 1])]
  }

  /** An error or a handler that is closing keeps the handler from running. */
  predicate Runs(p: Handling) {
    !p.error && !p.wasClosing
  }

  predicate Closing(p: Handling) {
    !Runs(p) || p.closes
  }

  function Turned(o: Context, p: Handling): seq<Entry> {
    [Used(o, true)] + (if Runs(p) then Handled(o, p.actions) else [])
    + ([Used(o, true)] + if Closing(p) then [Did(Unregister(p.fd, p.ctlFails))] else [])
  }

  function PlanAt(plan: seq<Handling>, i: nat): Handling {
    if i < |plan| then plan[i] else Handling(false, false, [], false, 0, false)
  }

  function Batched(batch: seq<Context?>, plan: seq<Handling>): seq<Entry> {
    if batch == [] then []
    else
      var n := |batch| - 1;
      Batched(batch[..n], plan) + if batch[n] == null then [] else Turned(batch[n], PlanAt(plan, n))
  }

  function Looped(batches: seq<seq<Context?>>, turns: seq<seq<Handling>>): seq<Entry>
    requires |batches| == |turns|
    decreases |batches|
  {
    if batches == [] then []
    else
      var n := |batches| - 1;
      Looped(batches[..n], turns[..n]) + ([Waited(batches[n])] + Batched(batches[n], turns[n]))
  }

  class Server {
    const event: ServerEvent
    const w: World
    /** The handles that the rest of the program has. */
    var mine: set<Handle>
    /** Whether an empty handle has ever been stored in the registry. */
    ghost var emptied: bool
    /** What has happened so far. */
    ghost var trace: seq<Entry>

    ghost predicate Valid()
      reads this, event, event.held.Keys, event.w, event.w.handles, event.w.counters.Values
    {
      && event.Valid() && event.w == w && event.Outside() == mine
      && (!emptied ==> event.NoneEmpty())
      && AllLive(trace)
    }

    /** Objects stay managed and deleted, what happened stays recorded, and what is new in memory
        is fresh. */
    twostate predicate Grown()
      reads this, w
    {
      && old(w.managed) <= w.managed && old(w.deleted) <= w.deleted
      && old(trace) <= trace && (old(emptied) ==> emptied)
      && (forall h {:trigger h in w.handles} | h in w.handles :: h in old(w.handles) || fresh(h))
      && (forall c {:trigger c in w.counters.Values} | c in w.counters.Values ::
            c in old(w.counters.Values) || fresh(c))
    }

    constructor ()
      ensures Valid() && mine == {} && event.contexts == map[] && w.managed == {} && !emptied && trace == []
      ensures fresh(event) && fresh(w) && fresh(w.handles) && fresh(w.counters.Values)
    {
      var world := new World();
      event := new ServerEvent(world);
      w := world;
      mine, emptied, trace := {}, false, [];
    }

    // ------------------------------------------------------- handles of the program

    method DoMakeEmpty() returns (h: Handle)
      requires Valid()
      modifies this`mine, w`handles
      ensures Valid() && Grown()
      ensures fresh(h) && mine == old(mine) + {h} && h.data == null
    {
      hide World.Valid, ServerEvent.Sound, NonNull, AllLive;
      h := new Handle(w);
      mine := mine + {h};
      assert event.Outside() == mine;
    }

    method DoMakeFrom(isNull: bool) returns (h: Handle)
      requires Valid()
      modifies this`mine, w`handles, w`sharers, w`counters, w`managed
      ensures Valid() && Grown()
      ensures fresh(h) && mine == old(mine) + {h}
      ensures if isNull then h.data == null else h.data != null && fresh(h.data)
    {
      hide World.Valid, ServerEvent.Sound, NonNull, AllLive;
      var ptr: Context? := null;
      if !isNull {
        ptr := new Context();
      }
      h := new Handle.Of(ptr, w);
      mine := mine + {h};
      assert event.Outside() == mine;
    }

    method DoMakeCopy() returns (h: Handle?, k: Handle?)
      requires Valid()
      modifies this`mine, w`handles, w`sharers, w.counters.Values
      ensures Valid() && Grown()
      ensures old(mine) == {} ==> mine == {} && h == null
      ensures old(mine) != {} ==>
                h != null && fresh(h) && mine == old(mine) + {h} && k in old(mine) && h.data == old(k.data)
    {
      hide World.Valid, ServerEvent.Sound, NonNull, AllLive;
      h, k := null, null;
      if mine == {} {
        return;
      }
      k :| k in mine;
      CounterKnown(w, k);
      h := new Handle.Copy(k, w);
      mine := mine + {h};
      assert event.Outside() == mine;
    }

    method DoAssignOther() returns (h: Handle?, k: Handle?)
      requires Valid()
      modifies w`handles, w`sharers, w`counters, w`deleted, mine, w.counters.Values
      ensures Valid() && Grown()
      ensures mine != {} ==> h in mine && k in mine && h.data == old(k.data)
    {
      hide World.Valid, ServerEvent.Sound, NonNull, AllLive;
      h, k := null, null;
      if mine == {} {
        return;
      }
      h, k :| h in mine && k in mine;
      CounterKnown(w, h);
      CounterKnown(w, k);
      h.Assign(k, w);
    }

    method DoReset(isNull: bool) returns (h: Handle?)
      requires Valid()
      modifies w`handles, w`sharers, w`counters, w`managed, w`deleted, mine, w.counters.Values
      ensures Valid() && Grown()
      ensures mine != {} ==> h in mine && if isNull then h.data == null else h.data != null && fresh(h.data)
    {
      hide World.Valid, ServerEvent.Sound, NonNull, AllLive;
      h := null;
      if mine == {} {
        return;
      }
      h :| h in mine;
      CounterKnown(w, h);
      var ptr: Context? := null;
      if !isNull {
        ptr := new Context();
      }
      h.SetData(ptr, w);
    }

    method DoDrop() returns (h: Handle?)
      requires Valid()
      modifies this`mine, w`handles, w`sharers, w`counters, w`deleted, mine, w.counters.Values
      ensures Valid() && Grown()
      ensures old(mine) == {} ==> mine == {}
      ensures old(mine) != {} ==> h in old(mine) && mine == old(mine) - {h}
    {
      hide World.Valid, ServerEvent.Sound, NonNull, AllLive;
      h := null;
      if mine == {} {
        return;
      }
      h :| h in mine;
      CounterKnown(w, h);
      h.Destroy(w);
      mine := mine - {h};
      assert event.Outside() == mine;
    }

    // --------------------------------------------------------------- registry calls

    /** A new descriptor, while the registry is not full. */
    ghost predicate Registrable(fd: int)
      reads event
    {
      event.size != 2000 && fd !in event.contexts
    }

    /** A handle of the program is registered, empty or not. */
    method DoRegister(fd: int, ctlFails: bool) returns (r: Ending, h: Handle?)
      requires Valid()
      modifies this`emptied, event`contexts, event`size, event`interest, event`held, event`place
      modifies w`handles, w`sharers, w`counters, w`deleted, w.counters.Values
      ensures Valid() && Grown()
      ensures r != Crashed && (r == Threw <==> mine != {} && old(Registrable(fd)) && ctlFails)
      ensures mine != {} ==> h in mine
      ensures event.interest == if mine != {} && old(Registrable(fd)) && !ctlFails
                                then old(event.interest)[fd := h.data] else old(event.interest)
    {
      hide World.Valid, ServerEvent.Sound, NonNull, AllLive;
      r, h := Fine, null;
      if mine == {} {
        return;
      }
      h :| h in mine;
      CounterKnown(w, h);
      ghost var added := event.Added(event.size, fd in event.contexts, ctlFails);
      var outcome := event.RegisterEvent(fd, h, ctlFails);
      emptied := emptied || (added && h.data == null);
      r := if outcome.Thrown? then Threw else Fine;
    }

    method DoRegisterObject(fd: int, ctlFails: bool) returns (r: Ending, o: Context)
      requires Valid()
      modifies event`contexts, event`size, event`interest, event`held, event`place
      modifies w`handles, w`sharers, w`counters, w`deleted, w`managed
      ensures Valid() && Grown() && fresh(o)
      ensures r != Crashed && (r == Threw <==> old(Registrable(fd)) && ctlFails)
      ensures event.interest == if old(Registrable(fd)) && !ctlFails
                                then old(event.interest)[fd := o] else old(event.interest)
    {
      hide World.Valid, ServerEvent.Sound, NonNull, AllLive;
      o := new Context();
      var outcome := event.RegisterPointer(fd, o, ctlFails);
      r := if outcome.Thrown? then Threw else Fine;
    }

    method DoUnregister(fd: int, ctlFails: bool) returns (r: Ending)
      requires Valid()
      modifies event`contexts, event`closed, event`size, event`interest, event`held, event`place, event`keepers
      modifies w`handles, w`sharers, w`counters, w`deleted, w.handles, w.counters.Values
      ensures Valid() && Grown()
      ensures r != Crashed && (r == Threw <==> fd in old(event.interest) && ctlFails)
      ensures event.interest == if r == Fine then old(event.interest) - {fd} else old(event.interest)
    {
      hide World.Valid, ServerEvent.Sound, NonNull, AllLive;
      event.StoredAlive(fd);
      event.DeliverableIff();
      var thrown := event.UnregisterEvent(fd, ctlFails);
      r := if thrown then Threw else Fine;
    }

    ghost predicate Room(a: Action)
      reads event
    {
      (a.Register? || a.RegisterObject?) && Registrable(a.fd)
    }

    /** What an action has done to the program's handles and to the kernel's pointers, given what
        they were.  It concerns the handle h; o is the object that h has got or that was stored. */
    ghost predicate Happened(a: Action, r: Ending, mine0: set<Handle>, interest0: map<int, Context?>,
                             room: bool, h: Handle?, o: Context?)
      reads this`mine, event, h
    {
      match a
      case MakeEmpty => Untouched(r, interest0) && h != null && h !in mine0 && mine == mine0 + {h} && h.data == null
      case MakeFrom(isNull) =>
        && Untouched(r, interest0) && h != null && h !in mine0 && mine == mine0 + {h}
        && (h.data == null <==> isNull)
      case MakeCopy =>
        && Untouched(r, interest0)
        && if mine0 == {} then mine == {} else h != null && h !in mine0 && mine == mine0 + {h} && h.data == o
      case AssignOther => Untouched(r, interest0) && mine == mine0 && (mine0 != {} ==> h in mine && h.data == o)
      case Reset(isNull) =>
        Untouched(r, interest0) && mine == mine0 && (mine0 != {} ==> h in mine && (h.data == null <==> isNull))
      case Drop => Untouched(r, interest0) && if mine0 == {} then mine == {} else h in mine0 && mine == mine0 - {h}
      case Register(fd, ctlFails) =>
        && mine == mine0
        && if mine0 == {} || !room then Untouched(r, interest0)
           else h in mine && h.data == o && Stored(fd, ctlFails, r, interest0, o)
      case RegisterObject(fd, ctlFails) =>
        && mine == mine0
        && if room then o != null && Stored(fd, ctlFails, r, interest0, o) else Untouched(r, interest0)
      case Unregister(fd, ctlFails) =>
        && mine == mine0
        && if fd in interest0 && ctlFails then r == Threw && event.interest == interest0
           else r == Fine && event.interest == interest0 - {fd}
    }

    ghost predicate Untouched(r: Ending, interest0: map<int, Context?>)
      reads event
    {
      r == Fine && event.interest == interest0
    }

    ghost predicate Stored(fd: int, ctlFails: bool, r: Ending, interest0: map<int, Context?>, o: Context?)
      reads event
    {
      if ctlFails then r == Threw && event.interest == interest0
      else r == Fine && event.interest == interest0[fd := o]
    }

    /** Any action, with any of the program's handles: what it does, and that it is recorded. */
    method Act(a: Action) returns (r: Ending, ghost h: Handle?, ghost k: Handle?, ghost o: Context?)
      requires Valid()
      modifies this`mine, this`emptied, this`trace
      modifies event`contexts, event`closed, event`size, event`interest, event`held, event`place, event`keepers
      modifies w`handles, w`sharers, w`counters, w`managed, w`deleted, w.handles, w.counters.Values
      ensures Valid() && Grown() && r != Crashed && trace == old(trace) + [Did(a)]
      ensures Happened(a, r, old(mine), old(event.interest), old(Room(a)), h, o)
      ensures (a.MakeCopy? || a.AssignOther?) && old(mine) != {} ==> k in old(mine) && o == old(k.data)
    {
      hide Valid, Happened, Room;
      r, h, k, o := Perform(a);
      Record(Did(a));
    }

    ghost method Record(entry: Entry)
      requires Valid() && !entry.Used?
      modifies this`trace
      ensures Valid() && trace == old(trace) + [entry]
    {
      hide World.Valid, ServerEvent.Sound, NonNull;
      Recorded(trace, entry);
      hide AllLive;
      trace := trace + [entry];
    }

    method Perform(a: Action) returns (r: Ending, ghost h: Handle?, ghost k: Handle?, ghost o: Context?)
      requires Valid()
      modifies this`mine, this`emptied
      modifies event`contexts, event`closed, event`size, event`interest, event`held, event`place, event`keepers
      modifies w`handles, w`sharers, w`counters, w`managed, w`deleted, w.handles, w.counters.Values
      ensures Valid() && Grown() && r != Crashed
      ensures Happened(a, r, old(mine), old(event.interest), old(Room(a)), h, o)
      ensures (a.MakeCopy? || a.AssignOther?) && old(mine) != {} ==> k in old(mine) && o == old(k.data)
    {
      hide World.Valid, ServerEvent.Sound, Grown, NonNull, AllLive;
      assert mine <= w.handles;
      hide Valid;
      r, h, k, o := Fine, null, null, null;
      match a
      case MakeEmpty =>
        var x := DoMakeEmpty();
        h := x;
      case MakeFrom(isNull) =>
        var x := DoMakeFrom(isNull);
        h := x;
      case MakeCopy =>
        var x, y := DoMakeCopy();
        h, k, o := x, y, if old(mine) == {} then null else old(y.data);
      case AssignOther =>
        var x, y := DoAssignOther();
        h, k, o := x, y, if old(mine) == {} then null else old(y.data);
      case Reset(isNull) =>
        var x := DoReset(isNull);
        h := x;
      case Drop =>
        var x := DoDrop();
        h := x;
      case Register(fd, ctlFails) =>
        var x;
        r, x := DoRegister(fd, ctlFails);
        h, o := x, if x == null then null else x.data;
      case RegisterObject(fd, ctlFails) =>
        var x;
        r, x := DoRegisterObject(fd, ctlFails);
        o := x;
      case Unregister(fd, ctlFails) =>
        r := DoUnregister(fd, ctlFails);
    }

    // --------------------------------------------------------------- the event loop

    /** A use of a pointer of the batch. */
    ghost method UsePointer(o: Context)
      requires Valid() && o in event.batch
      modifies this`trace
      ensures Valid() && trace == old(trace) + [Used(o, true)]
    {
      hide World.Valid, ServerEvent.Sound, NonNull;
      event.BatchIsLive(o);
      trace := trace + [Used(o, o in w.managed && o !in w.deleted)];
    }

    /** A handler runs, using its context before every action; an exception leaves it. */
    method Handle(o: Context, actions: seq<Action>) returns (r: Ending)
      requires Valid() && o in event.batch
      modifies this`mine, this`emptied, this`trace
      modifies event`contexts, event`closed, event`size, event`interest, event`held, event`place, event`keepers
      modifies w`handles, w`sharers, w`counters, w`managed, w`deleted, w.handles, w.counters.Values
      ensures Valid() && Grown() && r != Crashed
      ensures r == Fine ==> trace == old(trace) + Handled(o, actions)
    {
      hide Valid, ServerEvent.Valid;
      r := Fine;
      var i := 0;
      assert trace + Handled(o, actions[..0]) == trace;
      while i < |actions| && r == Fine
        invariant Valid() && Grown() && r != Crashed && 0 <= i <= |actions|
        invariant r == Fine ==> trace == old(trace) + Handled(o, actions[..i])
      {
        HandledMore(o, actions, i);
        UsePointer(o);
        ghost var h, k, o';
        r, h, k, o' := Act(actions[i]);
        i := i + 1;
      }
      assert actions[..|actions|] == actions;
    }

    /** One turn of the loop in `handle_epoll_event`: the raw pointer is used before and after
        the handler, which is the end of the program if it is null, and a closing descriptor is
        unregistered. */
    method HandleEvent(o: Context?, p: Handling) returns (r: Ending)
      requires Valid() && o in event.batch
      modifies this`mine, this`emptied, this`trace
      modifies event`contexts, event`closed, event`size, event`interest, event`held, event`place, event`keepers
      modifies w`handles, w`sharers, w`counters, w`managed, w`deleted, w.handles, w.counters.Values
      ensures Valid() && Grown() && (r == Crashed <==> o == null)
      ensures r == Fine ==> trace == old(trace) + Turned(o, p)
      ensures r == Fine && (p.error || p.wasClosing || p.closes) ==> p.fd !in event.interest
      ensures o != null ==> old(trace) + [Used(o, true)] <= trace
    {
      hide Valid, ServerEvent.Valid, Handled;
      if o == null {
        return Crashed;
      }
      r := Fine;
      UsePointer(o);
      var closing := p.error || p.wasClosing;
      if !closing {
        r := Handle(o, p.actions);
        closing := p.closes;
      }
      if r == Fine {
        r := CloseIf(o, closing, p.fd, p.ctlFails);
      }
    }

    /** The end of the turn, when the pointer is used to see whether the descriptor closes. */
    method CloseIf(o: Context, closing: bool, fd: int, ctlFails: bool) returns (r: Ending)
      requires Valid() && o in event.batch
      modifies this`mine, this`emptied, this`trace
      modifies event`contexts, event`closed, event`size, event`interest, event`held, event`place, event`keepers
      modifies w`handles, w`sharers, w`counters, w`managed, w`deleted, w.handles, w.counters.Values
      ensures Valid() && Grown() && r != Crashed
      ensures trace == old(trace) + ([Used(o, true)] + if closing then [Did(Unregister(fd, ctlFails))] else [])
      ensures closing && r == Fine ==> fd !in event.interest
      ensures !closing ==> r == Fine && event.interest == old(event.interest)
    {
      hide Valid, ServerEvent.Valid;
      UsePointer(o);
      r := Fine;
      if closing {
        ghost var h, k, o';
        r, h, k, o' := Act(Unregister(fd, ctlFails));
      }
    }

    /** `handle_epoll_event`: the raw pointers of the batch are used while handlers come and go.
        Unless an exception ends it, it comes through exactly if no pointer of the batch is null,
        and then every event has had its whole turn. */
    method HandleEpollEvent(plan: seq<Handling>) returns (r: Ending)
      requires Valid()
      modifies this`mine, this`emptied, this`trace
      modifies event`contexts, event`closed, event`size, event`interest, event`held, event`place, event`keepers
      modifies w`handles, w`sharers, w`counters, w`managed, w`deleted, w.handles, w.counters.Values
      ensures Valid() && Grown()
      ensures r == Crashed ==> null in event.batch
      ensures r == Fine ==> null !in event.batch && trace == old(trace) + Batched(event.batch, plan)
    {
      hide Valid, ServerEvent.Valid, Turned, Batched;
      NoBatch(plan);
      r := Fine;
      var i := 0;
      assert event.batch[..0] == [] && trace + [] == trace;
      while i < |event.batch| && r == Fine
        invariant Valid() && Grown() && 0 <= i <= |event.batch|
        invariant r == Fine ==> forall k | 0 <= k < i :: event.batch[k] != null
        invariant r == Fine ==> trace == old(trace) + Batched(event.batch[..i], plan)
        invariant r == Crashed ==> null in event.batch
      {
        BatchedMore(event.batch, plan, i);
        r := HandleEvent(event.batch[i], PlanAt(plan, i));
        i := i + 1;
      }
      assert event.batch[..|event.batch|] == event.batch;
    }

    /** The contexts of the listening sockets and whatever else is made before the loop. */
    method SetUp(actions: seq<Action>) returns (r: Ending)
      requires Valid()
      modifies this`mine, this`emptied, this`trace
      modifies event`contexts, event`closed, event`size, event`interest, event`held, event`place, event`keepers
      modifies w`handles, w`sharers, w`counters, w`managed, w`deleted, w.handles, w.counters.Values
      ensures Valid() && Grown() && r != Crashed
      ensures r == Fine ==> trace == old(trace) + Setting(actions)
    {
      hide Valid, ServerEvent.Valid;
      r := Fine;
      var i := 0;
      assert trace + Setting(actions[..0]) == trace;
      while i < |actions| && r == Fine
        invariant Valid() && Grown() && r != Crashed && 0 <= i <= |actions|
        invariant r == Fine ==> trace == old(trace) + Setting(actions[..i])
      {
        SettingMore(actions, i);
        ghost var h, k, o';
        r, h, k, o' := Act(actions[i]);
        i := i + 1;
      }
      assert actions[..|actions|] == actions;
    }

    /** `launch`: a batch is awaited and handled until a signal or an exception ends the loop, or
        a null pointer the program, for which an empty handle must have been registered. */
    method Launch(setup: seq<Action>, turns: seq<seq<Handling>>)
      returns (r: Ending, ghost batches: seq<seq<Context?>>)
      requires Valid()
      modifies this`mine, this`emptied, this`trace, event, w, w.handles, w.counters.Values
      ensures Valid() && Grown()
      ensures r == Crashed ==> emptied
      ensures r == Fine ==>
                |batches| == |turns| && trace == old(trace) + Setting(setup) + Looped(batches, turns)
    {
      hide Valid, ServerEvent.Valid, Setting, Batched;
      r := SetUp(setup);
      batches := [];
      ghost var begun := old(trace) + Setting(setup);
      var t := 0;
      assert begun + Looped([], turns[..0]) == begun;
      while t < |turns| && r == Fine
        invariant Valid() && Grown() && (r == Crashed ==> emptied)
        invariant 0 <= t <= |turns| && |batches| == t
        invariant r == Fine ==> trace == begun + Looped(batches, turns[..t])
      {
        ghost var batch;
        r, batch := Turn(turns[t]);
        LoopedMore(batches, turns, t, batch);
        batches := batches + [batch];
        t := t + 1;
      }
      assert turns[..|turns|] == turns;
    }

    method Turn(plan: seq<Handling>) returns (r: Ending, ghost batch: seq<Context?>)
      requires Valid()
      modifies this`mine, this`emptied, this`trace, event, w, w.handles, w.counters.Values
      ensures Valid() && Grown()
      ensures r == Crashed ==> emptied
      ensures r == Fine ==> trace == old(trace) + ([Waited(batch)] + Batched(batch, plan))
    {
      hide Valid, ServerEvent.Valid, Batched;
      NoBatch(plan);
      r := Fine;
      ghost var ready;
      var nfds;
      nfds, ready := Wait();
      batch := event.batch;
      if nfds > 0 {
        r := HandleEpollEvent(plan);
        NullsAreEmpty();
      }
    }

    /** Closed handles go, and the kernel's answer becomes the batch. */
    method Wait() returns (nfds: int, ghost ready: seq<int>)
      requires Valid()
      modifies this`trace, event`closed, event`batch, event`held, event`place, event`keepers
      modifies w`handles, w`sharers, w`counters, w`deleted, w.handles, w.counters.Values
      ensures Valid() && Grown() && event.closed == [] && trace == old(trace) + [Waited(event.batch)]
      ensures EpollAnswer(event.interest, 2000, nfds, ready) && |event.batch| == |ready|
      ensures forall i | 0 <= i < |ready| :: event.batch[i] == event.interest[ready[i]]
    {
      hide World.Valid, ServerEvent.Sound, NonNull, AllLive;
      event.ClosedAlive();
      nfds, ready := event.WaitEvent();
      Record(Waited(event.batch));
    }

    /** A null pointer in the batch comes from a registered empty handle. */
    lemma NullsAreEmpty()
      requires Valid()
      ensures null in event.batch ==> emptied
    {
      if null in event.batch {
        var i :| 0 <= i < |event.batch| && event.batch[i] == null;
        assert event.keepers[i] in event.held;
      }
    }

    /** What holds at every point of a run: counters are numbers of sharers, an object has been
        deleted, once, just when no handle has it, the size is that of the map, every pointer of
        the batch that is not null is live, none is null unless an empty handle was registered,
        and every use so far was of a live object. */
    lemma Guarantees()
      requires Valid()
      ensures forall h | h in w.handles && h.counter != null :: h.counter.value == |SharersOf(w, h.counter)|
      ensures forall o | o in w.managed :: o in w.deleted <==> HoldersOf(w, o) == {}
      ensures forall o | o in w.managed :: multiset(w.deleted)[o] <= 1
      ensures event.size == |event.contexts|
      ensures forall o: Context | o in event.batch :: o in w.managed && o !in w.deleted
      ensures null in event.batch ==> emptied
      ensures forall k | 0 <= k < |trace| && trace[k].Used? :: trace[k].live
    {
      hide World.Valid, Placed, Kept;
      forall h | h in w.handles && h.counter != null ensures h.counter.value == |SharersOf(w, h.counter)| {
        CounterIsNumberOfSharers(w, h);
      }
      forall o | o in w.managed ensures (o in w.deleted <==> HoldersOf(w, o) == {}) && multiset(w.deleted)[o] <= 1 {
        DeletedIffUnheld(w, o);
      }
      forall o: Context | o in event.batch ensures o in w.managed && o !in w.deleted {
        event.BatchIsLive(o);
      }
      NullsAreEmpty();
    }
  }

  ghost predicate AllLive(trace: seq<Entry>) {
    forall k | 0 <= k < |trace| && trace[k].Used? :: trace[k].live
  }

  lemma Recorded(trace: seq<Entry>, entry: Entry)
    requires AllLive(trace) && !entry.Used?
    ensures AllLive(trace + [entry])
  {
  }

  lemma SettingMore(actions: seq<Action>, i: nat)
    requires i < |actions|
    ensures Setting(actions[..i + 1]) == Setting(actions[..i]) + [Did(actions[i])]
  {
    assert actions[..i + 1][..i] == actions[..i];
  }

  lemma HandledMore(o: Context, actions: seq<Action>, i: nat)
    requires i < |actions|
    ensures Handled(o, actions[..i + 1]) == Handled(o, actions[..i]) + [Used(o, true), Did(actions[i])]
  {
    assert actions[..i + 1][..i] == actions[..i];
  }

  lemma NoBatch(plan: seq<Handling>)
    ensures Batched([], plan) == []
  {
  }

  lemma BatchedMore(batch: seq<Context?>, plan: seq<Handling>, i: nat)
    requires i < |batch|
    ensures Batched(batch[..i + 1], plan)
            == Batched(batch[..i], plan) + if batch[i] == null then [] else Turned(batch[i], PlanAt(plan, i))
  {
    assert batch[..i + 1][..i] == batch[..i];
  }

  lemma LoopedMore(batches: seq<seq<Context?>>, turns: seq<seq<Handling>>, t: nat, batch: seq<Context?>)
    requires |batches| == t < |turns|
    ensures Looped(batches + [batch], turns[..t + 1])
            == Looped(batches, turns[..t]) + ([Waited(batch)] + Batched(batch, turns[t]))
  {
    assert (batches + [batch])[..t] == batches && turns[..t + 1][..t] == turns[..t];
  }

  lemma CounterKnown(w: World, h: Handle)
    requires w.Valid() && h in w.handles
    ensures h.counter != null ==> h.counter in w.counters.Values
  {
  }

  /** An empty handle is registered, and from then on the kernel may deliver a null pointer. */
  method EmptyRegistered(fd: int) returns (event: ServerEvent)
    ensures event.Valid() && fd in event.interest && event.interest[fd] == null
  {
    hide World.Valid, ServerEvent.Sound, NonNull;
    var w := new World();
    event := new ServerEvent(w);
    var h := new Handle(w);
    var r := event.RegisterEvent(fd, h, false);
  }
}
