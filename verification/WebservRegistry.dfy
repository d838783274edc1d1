/** ServerEvent: the registry of event contexts, and the loop that uses a batch of events. */
module Registry {
  import opened Handles

  /** What register_event does: returns, or throws because epoll_ctl failed. */
  datatype Outcome = Returned(value: bool) | Thrown

  /** Where the registry stores a handle. */
  datatype Place = Open(fd: int) | Closed(i: int)

  /** The registry at one moment: its map and vector of handles, the object each of these has,
      the pointers the kernel knows, the batch last delivered and who keeps it alive. */
  datatype Books = Books(
    contexts: map<int, Handle>,
    closed: seq<Handle>,
    size: nat,
    held: map<Handle, Context?>,
    place: map<Handle, Place>,
    interest: map<int, Context?>,
    batch: seq<Context?>,
    keepers: seq<Handle>)

  /** Every handle is stored in one place only. */
  ghost predicate Placed(b: Books) {
    && b.place.Keys == b.held.Keys
    && (forall f | f in b.contexts :: b.contexts[f] in b.place && b.place[b.contexts[f]] == Open(f))
    && (forall i | 0 <= i < |b.closed| :: b.closed[i] in b.place && b.place[b.closed[i]] == Closed(i))
    && (forall h {:trigger b.place[h]} | h in b.place ::
          match b.place[h]
          case Open(f) => f in b.contexts && b.contexts[f] == h
          case Closed(i) => 0 <= i < |b.closed| && b.closed[i] == h)
  }

  /** The size is the number of descriptors, and the kernel has the pointer of each. */
  ghost predicate Matched(b: Books) {
    && b.size == |b.contexts|
    && b.interest.Keys == b.contexts.Keys
    && (forall f | f in b.contexts :: b.contexts[f] in b.held && b.held[b.contexts[f]] == b.interest[f])
  }

  /** Every pointer of the batch is held by a stored handle. */
  ghost predicate Kept(b: Books) {
    && |b.keepers| == |b.batch|
    && forall i | 0 <= i < |b.batch| :: b.keepers[i] in b.held && b.held[b.keepers[i]] == b.batch[i]
  }

  /** A descriptor enters with its handle and its pointer. */
  function Registered(b: Books, fd: int, node: Handle, o: Context?): Books {
    b.(contexts := b.contexts[fd := node], size := b.size + 1, held := b.held[node := o],
       place := b.place[node := Open(fd)], interest := b.interest[fd := o])
  }

  lemma RegisteredPlaced(b: Books, fd: int, node: Handle, o: Context?)
    requires Placed(b) && Matched(b) && fd !in b.contexts && node !in b.held
    ensures Placed(Registered(b, fd, node, o))
  {
  }

  lemma RegisteredMatched(b: Books, fd: int, node: Handle, o: Context?)
    requires Placed(b) && Matched(b) && fd !in b.contexts && node !in b.held
    ensures Matched(Registered(b, fd, node, o)) && (Kept(b) ==> Kept(Registered(b, fd, node, o)))
  {
  }

  /** A descriptor leaves; a copy of its handle joins the closed ones. */
  function Unregistered(b: Books, fd: int, copy: Handle): Books
    requires fd in b.contexts && fd in b.interest && b.size > 0
  {
    b.(contexts := b.contexts - {fd},
       closed := b.closed + [copy],
       size := b.size - 1,
       held := (b.held - {b.contexts[fd]})[copy := b.interest[fd]],
       place := (b.place - {b.contexts[fd]})[copy := Closed(|b.closed|)],
       interest := b.interest - {fd},
       keepers := seq(|b.keepers|, i requires 0 <= i < |b.keepers| =>
                        if b.keepers[i] == b.contexts[fd] then copy else b.keepers[i]))
  }

  lemma UnregisteredPlaced(b: Books, fd: int, copy: Handle)
    requires Placed(b) && Matched(b) && fd in b.contexts && b.size > 0 && copy !in b.held
    ensures Placed(Unregistered(b, fd, copy))
  {
  }

  lemma UnregisteredMatched(b: Books, fd: int, copy: Handle)
    requires Placed(b) && Matched(b) && fd in b.contexts && b.size > 0 && copy !in b.held
    ensures Matched(Unregistered(b, fd, copy))
  {
  }

  /** The last of the closed handles goes. */
  function Dropped(b: Books): Books
    requires b.closed != []
  {
    var h := b.closed[|b.closed| - 1];
    b.(closed := b.closed[..|b.closed| - 1], held := b.held - {h}, place := b.place - {h})
  }

  lemma UnregisteredKept(b: Books, fd: int, copy: Handle)
    requires Placed(b) && Matched(b) && Kept(b) && fd in b.contexts && b.size > 0 && copy !in b.held
    ensures Kept(Unregistered(b, fd, copy))
  {
    hide Placed;
  }

  lemma DroppedPlaced(b: Books)
    requires Placed(b) && b.closed != []
    ensures Placed(Dropped(b))
  {
    assert b.place[b.closed[|b.closed| - 1]] == Closed(|b.closed| - 1);
  }

  lemma DroppedMatched(b: Books)
    requires Placed(b) && Matched(b) && b.closed != [] && b.batch == []
    ensures Matched(Dropped(b)) && (Kept(b) ==> Kept(Dropped(b)))
  {
    assert b.place[b.closed[|b.closed| - 1]] == Closed(|b.closed| - 1);
  }

  /** A batch arrives: each pointer is kept alive by the handle of its descriptor. */
  ghost function Delivered(b: Books, ready: seq<int>): Books
    requires b.interest.Keys == b.contexts.Keys && forall i | 0 <= i < |ready| :: ready[i] in b.contexts
  {
    b.(batch := seq(|ready|, i requires 0 <= i < |ready| => b.interest[ready[i]]),
       keepers := seq(|ready|, i requires 0 <= i < |ready| => b.contexts[ready[i]]))
  }

  lemma DeliveredPlaced(b: Books, ready: seq<int>)
    requires Placed(b) && Matched(b) && forall i | 0 <= i < |ready| :: ready[i] in b.contexts
    ensures Placed(Delivered(b, ready))
  {
  }

  lemma DeliveredMatched(b: Books, ready: seq<int>)
    requires Placed(b) && Matched(b) && forall i | 0 <= i < |ready| :: ready[i] in b.contexts
    ensures Matched(Delivered(b, ready)) && Kept(Delivered(b, ready))
  {
    forall i | 0 <= i < |ready|
      ensures b.contexts[ready[i]] in b.held && b.held[b.contexts[ready[i]]] == b.interest[ready[i]]
    {
      var f := ready[i];
      assert f in b.contexts;
    }
  }

  /** What epoll_wait can answer: an error, or descriptors that are ready. */
  predicate EpollAnswer(interest: map<int, Context?>, capacity: nat, n: int, ready: seq<int>) {
    && n <= capacity && |ready| == (if n > 0 then n else 0)
    && forall i | 0 <= i < |ready| :: ready[i] in interest
  }

  ghost predicate NonNull(held: map<Handle, Context?>) {
    forall h | h in held :: held[h] != null
  }

  lemma NonNullStored(held: map<Handle, Context?>, node: Handle, o: Context?)
    requires node !in held
    ensures NonNull(held[node := o]) <==> NonNull(held) && o != null
  {
    if NonNull(held[node := o]) {
      assert held[node := o][node] == o;
      assert forall h | h in held :: held[node := o][h] == held[h];
    }
  }

  lemma NonNullMoved(held: map<Handle, Context?>, node: Handle, copy: Handle)
    requires node in held && copy !in held
    ensures NonNull((held - {node})[copy := held[node]]) <==> NonNull(held)
  {
    var moved := (held - {node})[copy := held[node]];
    assert moved[copy] == held[node];
    if NonNull(moved) {
      assert forall h | h in held && h != node :: moved[h] == held[h];
    }
  }

  lemma NonNullDropped(held: map<Handle, Context?>, node: Handle)
    ensures NonNull(held) ==> NonNull(held - {node})
  {
  }

  lemma TwoHolders(w: World, h: Handle, k: Handle)
    requires w.Valid() && h in w.handles && k in w.handles && h != k && h.data == k.data
    ensures h.counter == k.counter
    ensures if h.data == null then h.counter == null else h.counter != null && h.counter.value >= 2
  {
    if h.data != null {
      var s := w.sharers[h.data];
      assert |s - {h}| == |s| - 1 && k in s - {h};
    }
  }

  lemma HasCounter(w: World, h: Handle)
    requires w.Valid() && h in w.handles
    ensures if h.data == null then h.counter == null else h.counter != null && h.counter in w.counters.Values
  {
  }

  lemma HeldIsLive(w: World, h: Handle)
    requires w.Valid() && h in w.handles && h.data != null
    ensures h.data in w.managed && h.data !in w.deleted
  {
  }

  class ServerEvent {
    const w: World
    const capacity: nat := 2000
    var contexts: map<int, Handle>
    var closed: seq<Handle>
    var size: nat
    /** The kernel's side: the pointer registered with each descriptor. */
    var interest: map<int, Context?>
    /** The pointers that the last wait delivered. */
    var batch: seq<Context?>
    ghost var held: map<Handle, Context?>
    ghost var place: map<Handle, Place>
    ghost var keepers: seq<Handle>

    ghost function View(): Books
      reads this
    {
      Books(contexts, closed, size, held, place, interest, batch, keepers)
    }

    /** The handles of the registry have the objects the books say. */
    ghost predicate Holding()
      reads this, held.Keys
    {
      forall h | h in held :: h.data == held[h]
    }

    ghost predicate Sound()
      reads this, held.Keys
    {
      Placed(View()) && Matched(View()) && Kept(View()) && Holding()
    }

    ghost predicate Valid()
      reads this, held.Keys, w, w.handles, w.counters.Values
    {
      w.Valid() && held.Keys <= w.handles && Sound()
    }

    constructor (w: World)
      requires w.Valid()
      ensures Valid() && this.w == w && contexts == map[] && closed == [] && batch == [] && size == 0
    {
      this.w := w;
      contexts, closed, size, interest, batch := map[], [], 0, map[], [];
      held, place, keepers := map[], map[], [];
    }

    /** The handles of the program that are not the registry's. */
    ghost function Outside(): set<Handle>
      reads this, w
    {
      w.handles - held.Keys
    }

    /** No stored handle is empty. */
    ghost predicate NoneEmpty()
      reads this
    {
      NonNull(held)
    }

    ghost predicate Alive(o: Context?)
      reads w
    {
      o != null && o in w.managed && o !in w.deleted
    }

    /** A context pointer of the current batch can be used, unless it is null. */
    lemma BatchIsLive(o: Context)
      requires Valid() && o in batch
      ensures Alive(o)
    {
      var i :| 0 <= i < |batch| && batch[i] == o;
      HeldIsLive(w, keepers[i]);
    }

    /** The whole batch can be used exactly if none of the handles behind it is empty. */
    lemma BatchLiveIff()
      requires Valid()
      ensures |keepers| == |batch|
      ensures (forall o | o in batch :: Alive(o)) <==> (forall h | h in keepers :: h.data != null)
    {
      forall i | 0 <= i < |batch| ensures Alive(batch[i]) <==> keepers[i].data != null {
        if keepers[i].data != null {
          HeldIsLive(w, keepers[i]);
        }
      }
      assert forall i | 0 <= i < |batch| :: batch[i] in batch && keepers[i] in keepers;
    }

    /** Every pointer that the kernel may deliver can be used exactly if no descriptor has been
        registered with an empty handle. */
    lemma DeliverableIff()
      requires Valid()
      ensures interest.Keys == contexts.Keys
      ensures (forall fd | fd in interest :: Alive(interest[fd]))
              <==> (forall fd | fd in contexts :: contexts[fd].data != null)
    {
      forall fd | fd in contexts ensures fd in interest && (Alive(interest[fd]) <==> contexts[fd].data != null) {
        HandlesPointer(fd);
        if contexts[fd].data != null {
          HeldIsLive(w, contexts[fd]);
        }
      }
    }

    ghost predicate Added(size: nat, known: bool, ctlFails: bool) {
      size != capacity && !known && !ctlFails
    }

    /** `register_event`.  The context is passed by value and stored by value, so handles are
        copied and dropped on the way; no object is deleted. */
    method RegisterEvent(fd: int, arg: Handle, ctlFails: bool) returns (r: Outcome)
      requires Valid() && arg in w.handles && arg !in held
      modifies this`contexts, this`size, this`interest, this`held, this`place
      modifies w`handles, w`sharers, w`counters, w`deleted, arg.counter
      ensures Valid() && w.deleted == old(w.deleted)
      ensures Outside() == old(Outside()) && fresh(w.handles - old(w.handles))
      ensures w.counters.Values <= old(w.counters.Values)
      ensures r == Returned(false) <==> old(size) == 2000
      ensures r == Thrown <==> old(size) != 2000 && fd !in old(contexts) && ctlFails
      ensures fd in contexts <==> fd in old(contexts) || r == Returned(true)
      ensures interest == if r == Returned(true) && fd !in old(contexts)
                          then old(interest)[fd := arg.data] else old(interest)
      ensures NoneEmpty() <==>
                old(NoneEmpty()) && (Added(old(size), fd in old(contexts), ctlFails) ==> arg.data != null)
    {
      hide World.Valid, Sound, NonNull;
      var eventContext := new Handle.Copy(arg, w);
      ghost var outside := Outside();
      assert outside == old(Outside()) + {eventContext} && arg in outside;
      r := Add(fd, eventContext, ctlFails);
      assert Outside() == outside;
      TwoHolders(w, eventContext, arg);
      eventContext.Destroy(w);
      assert Outside() == outside - {eventContext};
    }

    /** `register_event` with a raw pointer, which the parameter then owns: the object is deleted
        on return unless the registry has kept a handle. */
    method RegisterPointer(fd: int, ptr: Context?, ctlFails: bool) returns (r: Outcome)
      requires Valid() && New(ptr, w.managed)
      modifies this`contexts, this`size, this`interest, this`held, this`place
      modifies w`handles, w`sharers, w`counters, w`deleted, w`managed
      ensures Valid() && w.managed == old(w.managed) + if ptr == null then {} else {ptr}
      ensures w.deleted == old(w.deleted)
                           + if ptr == null || Added(old(size), fd in old(contexts), ctlFails) then [] else [ptr]
      ensures NoneEmpty() <==>
                old(NoneEmpty()) && (Added(old(size), fd in old(contexts), ctlFails) ==> ptr != null)
      ensures Outside() == old(Outside()) && fresh(w.handles - old(w.handles))
      ensures fresh(w.counters.Values - old(w.counters.Values))
      ensures r == Returned(false) <==> old(size) == 2000
      ensures r == Thrown <==> old(size) != 2000 && fd !in old(contexts) && ctlFails
      ensures fd in contexts <==> fd in old(contexts) || r == Returned(true)
      ensures interest == if r == Returned(true) && fd !in old(contexts)
                          then old(interest)[fd := ptr] else old(interest)
    {
      hide World.Valid, Sound, NonNull;
      var eventContext := new Handle.Of(ptr, w);
      ghost var outside := Outside();
      assert outside == old(Outside()) + {eventContext};
      r := Add(fd, eventContext, ctlFails);
      assert Outside() == outside;
      if Added(old(size), fd in old(contexts), ctlFails) {
        KeptHandle(fd);
        TwoHolders(w, eventContext, contexts[fd]);
      }
      eventContext.Destroy(w);
      assert Outside() == outside - {eventContext};
    }

    /** The body of `register_event`. */
    method Add(fd: int, eventContext: Handle, ctlFails: bool) returns (r: Outcome)
      requires Valid() && eventContext in w.handles && eventContext !in held
      modifies this`contexts, this`size, this`interest, this`held, this`place
      modifies w`handles, w`sharers, w`counters, w`deleted, eventContext.counter
      ensures Valid() && w.deleted == old(w.deleted)
      ensures Outside() == old(Outside()) && fresh(w.handles - old(w.handles))
      ensures w.counters.Values <= old(w.counters.Values)
      ensures r == Returned(false) <==> old(size) == 2000
      ensures r == Thrown <==> old(size) != 2000 && fd !in old(contexts) && ctlFails
      ensures fd in contexts <==> fd in old(contexts) || r == Returned(true)
      ensures interest == if r == Returned(true) && fd !in old(contexts)
                          then old(interest)[fd := eventContext.data] else old(interest)
      ensures NoneEmpty() <==>
                old(NoneEmpty()) && (Added(old(size), fd in old(contexts), ctlFails) ==> eventContext.data != null)
      ensures !Added(old(size), fd in old(contexts), ctlFails) && old(eventContext.counter) != null ==>
                eventContext.counter != null && eventContext.counter.value == old(eventContext.counter.value)
    {
      hide World.Valid, Sound, NonNull;
      if size == capacity {
        return Returned(false);
      }
      if fd in contexts {
        return Returned(true);
      }
      if ctlFails {
        return Thrown;
      }
      var node := Duplicate(eventContext);
      NonNullStored(held, node, node.data);
      Store(fd, node);
      return Returned(true);
    }

    /** make_pair copies the handle and the map copies the pair. */
    method Duplicate(eventContext: Handle) returns (node: Handle)
      requires w.Valid() && eventContext in w.handles
      modifies w`handles, w`sharers, w`counters, w`deleted, eventContext.counter
      ensures fresh(node) && w.Valid() && w.deleted == old(w.deleted)
      ensures w.handles == old(w.handles) + {node} && node.data == eventContext.data
      ensures w.counters.Values <= old(w.counters.Values)
    {
      hide World.Valid;
      var pair := new Handle.Copy(eventContext, w);
      node := new Handle.Copy(pair, w);
      TwoHolders(w, pair, node);
      pair.Destroy(w);
    }

    /** The descriptor, its pointer and its handle enter the registry. */
    method Store(fd: int, node: Handle)
      requires Sound() && fd !in contexts && node !in held
      modifies this`contexts, this`size, this`interest, this`held, this`place
      ensures Sound() && View() == old(Registered(View(), fd, node, node.data))
      ensures held == old(held)[node := node.data]
    {
      hide Placed, Matched, Kept, Registered;
      CanStore(fd, node);
      ghost var b := Registered(View(), fd, node, node.data);
      interest := interest[fd := node.data];
      contexts := contexts[fd := node];
      size := size + 1;
      held, place := b.held, b.place;
      assert View() == b;
      assert Holding();
      hide View, Holding;
    }

    lemma CanStore(fd: int, node: Handle)
      requires Sound() && fd !in contexts && node !in held
      ensures var b := Registered(View(), fd, node, node.data);
              && b.held == held[node := node.data]
              && b.contexts == contexts[fd := node] && b.interest == interest[fd := node.data]
              && b.size == size + 1 && b.closed == closed && b.batch == batch && b.keepers == keepers
              && Placed(b) && Matched(b) && Kept(b) && forall h | h in b.held :: h.data == b.held[h]
    {
      RegisteredPlaced(View(), fd, node, node.data);
      RegisteredMatched(View(), fd, node, node.data);
    }

    lemma StoredHandle(fd: int)
      requires Sound() && fd in contexts
      ensures contexts[fd] in held && fd in interest && held[contexts[fd]] == interest[fd] && size > 0
    {
    }

    lemma KeptHandle(fd: int)
      requires Sound() && fd in interest
      ensures fd in contexts && contexts[fd] in held && contexts[fd].data == interest[fd]
    {
    }

    lemma StoredAlive(fd: int)
      requires Valid()
      ensures fd in contexts ==> contexts[fd] in w.handles
      ensures fd in contexts && contexts[fd].counter != null ==> contexts[fd].counter in w.counters.Values
    {
      if fd in contexts {
        HasCounter(w, contexts[fd]);
      }
    }

    /** `unregister_event`: the handle moves to the closed ones, so the object stays. */
    method UnregisterEvent(fd: int, ctlFails: bool) returns (thrown: bool)
      requires Valid()
      modifies this`contexts, this`closed, this`size, this`interest, this`held, this`place, this`keepers
      modifies w`handles, w`sharers, w`counters, w`deleted
      modifies if fd in contexts then {contexts[fd], contexts[fd].counter} else {}
      ensures Valid() && w.deleted == old(w.deleted)
      ensures Outside() == old(Outside()) && fresh(w.handles - old(w.handles))
      ensures w.counters.Values <= old(w.counters.Values)
      ensures thrown <==> fd in old(contexts) && ctlFails
      ensures interest == if fd in old(contexts) && !ctlFails then old(interest) - {fd} else old(interest)
      ensures NoneEmpty() <==> old(NoneEmpty())
    {
      hide World.Valid, Sound, NonNull;
      if fd !in contexts {
        return false;
      }
      if ctlFails {
        return true;
      }
      StoredHandle(fd);
      var node := contexts[fd];
      var copy := new Handle.Copy(node, w);
      TwoHolders(w, node, copy);
      MoveToClosed(fd, copy);
      node.Destroy(w);
      return false;
    }

    method MoveToClosed(fd: int, copy: Handle)
      requires Sound() && fd in contexts && copy !in held && copy.data == contexts[fd].data
      requires fd in interest && size > 0
      modifies this`contexts, this`closed, this`size, this`interest, this`held, this`place, this`keepers
      ensures Sound() && View() == old(Unregistered(View(), fd, copy))
      ensures NoneEmpty() <==> old(NoneEmpty())
    {
      hide Placed, Matched, Kept, Unregistered, NonNull;
      CanMove(fd, copy);
      ghost var b := Unregistered(View(), fd, copy);
      closed := closed + [copy];
      contexts := contexts - {fd};
      interest := interest - {fd};
      size := size - 1;
      held, place, keepers := b.held, b.place, b.keepers;
      assert View() == b;
      assert Holding();
      hide View, Holding;
    }

    lemma CanMove(fd: int, copy: Handle)
      requires Sound() && fd in contexts && copy !in held && copy.data == contexts[fd].data
      requires fd in interest && size > 0
      ensures var b := Unregistered(View(), fd, copy);
              && (NonNull(b.held) <==> NonNull(held))
              && b.closed == closed + [copy] && b.contexts == contexts - {fd} && b.interest == interest - {fd}
              && b.size == size - 1 && b.batch == batch
              && Placed(b) && Matched(b) && Kept(b) && forall h | h in b.held :: h.data == b.held[h]
    {
      HandlesPointer(fd);
      NonNullMoved(held, contexts[fd], copy);
      UnregisteredPlaced(View(), fd, copy);
      UnregisteredMatched(View(), fd, copy);
      UnregisteredKept(View(), fd, copy);
    }

    lemma HandlesPointer(fd: int)
      requires Sound() && fd in contexts
      ensures fd in interest && contexts[fd].data == interest[fd]
    {
    }

    /** The last closed handle leaves the vector. */
    method PopClosed() returns (h: Handle)
      requires Sound() && closed != [] && batch == []
      modifies this`closed, this`held, this`place
      ensures Sound() && View() == old(Dropped(View())) && h == old(closed[|closed| - 1])
      ensures h in old(held) && held == old(held) - {h} && closed == old(closed[..|closed| - 1])
    {
      hide Placed, Matched, Kept, Dropped;
      CanPop();
      ghost var b := Dropped(View());
      h := closed[|closed| - 1];
      closed := closed[..|closed| - 1];
      held, place := b.held, b.place;
      assert View() == b;
      assert Holding();
      hide View, Holding;
    }

    lemma CanPop()
      requires Sound() && closed != [] && batch == []
      ensures var b := Dropped(View()); var h := closed[|closed| - 1];
              && h in held && b.held == held - {h}
              && b == View().(closed := closed[..|closed| - 1], held := b.held, place := b.place)
              && Placed(b) && Matched(b) && Kept(b)
    {
      DroppedPlaced(View());
      DroppedMatched(View());
    }

    lemma ClosedAlive()
      requires Valid()
      ensures forall i | 0 <= i < |closed| :: closed[i] in w.handles
    {
    }

    /** `_closed_events_contexts.clear()`: the closed handles are destroyed. */
    method ClearClosed()
      requires Valid() && batch == []
      modifies this`closed, this`held, this`place
      modifies w`handles, w`sharers, w`counters, w`deleted, closed, w.counters.Values
      ensures Valid() && closed == [] && Outside() == old(Outside())
      ensures w.handles <= old(w.handles) && w.counters.Values <= old(w.counters.Values)
      ensures old(w.deleted) <= w.deleted
      ensures old(NoneEmpty()) ==> NoneEmpty()
    {
      hide Valid, Outside;
      while closed != []
        invariant Valid() && closed <= old(closed) && Outside() == old(Outside())
        invariant w.handles <= old(w.handles) && w.counters.Values <= old(w.counters.Values)
        invariant old(w.deleted) <= w.deleted && (old(NoneEmpty()) ==> NoneEmpty())
        decreases |closed|
      {
        DropClosed();
      }
    }

    /** One closed handle is destroyed. */
    method DropClosed()
      requires Valid() && closed != [] && batch == []
      modifies this`closed, this`held, this`place
      modifies w`handles, w`sharers, w`counters, w`deleted, closed, w.counters.Values
      ensures Valid() && closed == old(closed[..|closed| - 1]) && Outside() == old(Outside())
      ensures w.handles <= old(w.handles) && w.counters.Values <= old(w.counters.Values)
      ensures old(w.deleted) <= w.deleted
      ensures old(NoneEmpty()) ==> NoneEmpty()
    {
      hide World.Valid, Sound, Dropped, NonNull;
      NonNullDropped(held, closed[|closed| - 1]);
      var h := PopClosed();
      HasCounter(w, h);
      h.Destroy(w);
      assert Outside() == old(Outside());
    }

    /** `wait_event`: the closed handles go, then the kernel delivers a batch. */
    method WaitEvent() returns (nfds: int, ghost ready: seq<int>)
      requires Valid()
      modifies this`closed, this`batch, this`held, this`place, this`keepers
      modifies w`handles, w`sharers, w`counters, w`deleted, closed, w.counters.Values
      ensures Valid() && closed == [] && Outside() == old(Outside())
      ensures w.handles <= old(w.handles) && w.counters.Values <= old(w.counters.Values)
      ensures old(w.deleted) <= w.deleted
      ensures EpollAnswer(interest, capacity, nfds, ready) && |batch| == |ready|
      ensures forall i | 0 <= i < |ready| :: batch[i] == interest[ready[i]]
      ensures old(NoneEmpty()) ==> NoneEmpty()
    {
      hide World.Valid, Sound, NonNull;
      Deliver([]);
      ClearClosed();
      var fds;
      nfds, fds := EpollWait();
      Deliver(fds);
      ready := fds;
    }

    method EpollWait() returns (nfds: int, ready: seq<int>)
      ensures EpollAnswer(interest, capacity, nfds, ready)
    {
      assert EpollAnswer(interest, capacity, -1, []);
      nfds, ready :| EpollAnswer(interest, capacity, nfds, ready);
    }

    method Deliver(ready: seq<int>)
      requires Sound() && forall i | 0 <= i < |ready| :: ready[i] in interest
      modifies this`batch, this`keepers
      ensures Sound() && |batch| == |ready|
      ensures forall i | 0 <= i < |ready| :: batch[i] == interest[ready[i]]
    {
      DeliveredPlaced(View(), ready);
      DeliveredMatched(View(), ready);
      ghost var b := Delivered(View(), ready);
      batch := seq(|ready|, i requires 0 <= i < |ready| && ready[i] in interest reads this => interest[ready[i]]);
      keepers := b.keepers;
      assert View() == b;
      hide Placed, Matched, Kept, View;
    }
  }
}
