/** DolbayobPTR: reference-counted handles. */
module Handles {
  import opened Basics

  /** The objects that handles manage; only their identity matters here. */
  class Context {
    constructor () {
    }
  }

  /** A counter allocated by `set_data`. */
  class Counter {
    var value: nat
    /** The object it was allocated for. */
    ghost const target: Context

    constructor (value: nat, ghost target: Context)
      ensures this.value == value && this.target == target
    {
      this.value := value;
      this.target := target;
    }
  }

  /** The bookkeeping behind all handles of the program: which are alive, who shares which
      object, the counter that goes with it, and what has been managed and deleted. */
  class World {
    ghost var handles: set<Handle>
    ghost var sharers: map<Context, set<Handle>>
    ghost var counters: map<Context, Counter>
    ghost var managed: set<Context>
    ghost var deleted: seq<Context>

    constructor ()
      ensures Valid() && handles == {} && managed == {} && deleted == []
    {
      handles, sharers, counters, managed, deleted := {}, map[], map[], {}, [];
    }

    ghost predicate Paired()
      reads this, handles
    {
      PairedOn(handles, sharers, counters)
    }

    ghost predicate Counted()
      reads this, counters.Values
    {
      CountedOn(sharers, counters)
    }

    ghost predicate Settled()
      reads this
    {
      SettledOn(managed, sharers, deleted)
    }

    ghost predicate Valid()
      reads this, handles, counters.Values
    {
      Paired() && Counted() && Settled()
    }
  }

  /** Every handle is empty, or is one of the sharers of its object and has its counter. */
  ghost predicate PairedOn(handles: set<Handle>, sharers: map<Context, set<Handle>>, counters: map<Context, Counter>)
    reads handles
  {
    && (forall h {:trigger h in handles} | h in handles ::
          if h.data == null then h.counter == null
          else h.data in sharers && h in sharers[h.data]
               && h.data in counters && h.counter == counters[h.data])
    && (forall o, h {:trigger h in sharers[o]} | o in sharers && h in sharers[o] :: h in handles && h.data == o)
  }

  /** Each object has a counter of its own, which counts its sharers. */
  ghost predicate CountedOn(sharers: map<Context, set<Handle>>, counters: map<Context, Counter>)
    reads counters.Values
  {
    && sharers.Keys == counters.Keys
    && (forall o {:trigger counters[o]} | o in counters ::
          counters[o].target == o && counters[o].value == |sharers[o]| && |sharers[o]| >= 1)
  }

  /** Managed objects are shared or deleted, and deleted only once. */
  ghost predicate SettledOn(managed: set<Context>, sharers: map<Context, set<Handle>>, deleted: seq<Context>) {
    && (forall o | o in managed :: o in deleted <==> o !in sharers)
    && (forall o | o in sharers :: o in managed)
    && (forall o | o in deleted :: o in managed)
    && NoDup(deleted)
  }

  // ------------------------------------------- an object enters, and leaves, the books

  lemma PairedNew(handles: set<Handle>, sharers: map<Context, set<Handle>>, counters: map<Context, Counter>,
                  h: Handle, o: Context)
    requires PairedOn(handles, sharers, counters)
    requires h !in handles && h.data == o && h.counter != null && o !in sharers
    ensures PairedOn(handles + {h}, sharers[o := {h}], counters[o := h.counter])
  {
  }

  lemma CountedNew(sharers: map<Context, set<Handle>>, counters: map<Context, Counter>,
                   h: Handle, o: Context, one: Counter)
    requires CountedOn(sharers, counters) && o !in sharers && one.target == o && one.value == 1
    ensures CountedOn(sharers[o := {h}], counters[o := one])
  {
  }

  lemma SettledNew(managed: set<Context>, sharers: map<Context, set<Handle>>, deleted: seq<Context>,
                   h: Handle, o: Context)
    requires SettledOn(managed, sharers, deleted) && o !in managed
    ensures SettledOn(managed + {o}, sharers[o := {h}], deleted) && o !in sharers
  {
  }

  lemma PairedMore(handles: set<Handle>, sharers: map<Context, set<Handle>>, counters: map<Context, Counter>, h: Handle)
    requires PairedOn(handles, sharers, counters)
    requires h !in handles && h.data in sharers && h.data in counters && h.counter == counters[h.data]
    ensures PairedOn(handles + {h}, sharers[h.data := sharers[h.data] + {h}], counters)
    ensures h !in sharers[h.data]
  {
  }

  lemma SettledMore(managed: set<Context>, sharers: map<Context, set<Handle>>, deleted: seq<Context>, h: Handle)
    requires SettledOn(managed, sharers, deleted) && h.data in sharers
    ensures SettledOn(managed, sharers[h.data := sharers[h.data] + {h}], deleted)
  {
  }

  lemma PairedGone(handles: set<Handle>, sharers: map<Context, set<Handle>>, counters: map<Context, Counter>, h: Handle)
    requires PairedOn(handles, sharers, counters)
    requires h in handles && h.data != null && sharers[h.data] == {h}
    ensures PairedOn(handles - {h}, sharers - {h.data}, counters - {h.data})
  {
  }

  lemma CountedGone(sharers: map<Context, set<Handle>>, counters: map<Context, Counter>, o: Context)
    requires CountedOn(sharers, counters)
    ensures CountedOn(sharers - {o}, counters - {o})
  {
  }

  lemma SettledGone(managed: set<Context>, sharers: map<Context, set<Handle>>, deleted: seq<Context>, o: Context)
    requires SettledOn(managed, sharers, deleted) && o in sharers
    ensures SettledOn(managed, sharers - {o}, deleted + [o])
  {
    assert forall p :: p in deleted + [o] <==> p in deleted || p == o;
  }

  /** The handles that share a counter, found by looking at all of them. */
  ghost function SharersOf(w: World, c: Counter): set<Handle>
    reads w, w.handles
  {
    set h | h in w.handles && h.counter == c
  }

  ghost function HoldersOf(w: World, o: Context): set<Handle>
    reads w, w.handles
  {
    set h | h in w.handles && h.data == o
  }

  /** Every handle that is not empty has a live object and a counter that counts its holders. */
  ghost predicate Sane(w: World)
    reads w, w.handles, set h | h in w.handles && h.counter != null :: h.counter
  {
    forall h | h in w.handles && h.data != null ::
      h.data !in w.deleted && h.counter != null && h.counter.value == |HoldersOf(w, h.data)|
  }

  lemma ValidIsSane(w: World)
    requires w.Valid()
    ensures Sane(w)
  {
    forall h | h in w.handles && h.data != null
      ensures h.data !in w.deleted && h.counter != null && h.counter.value == |HoldersOf(w, h.data)|
    {
      assert HoldersOf(w, h.data) == w.sharers[h.data];
    }
  }

  /** A handle with a counter of one on an object that is gone, or has another handle. */
  lemma Broken(w: World, h: Handle, ptr: Context, k: Handle?)
    requires h in w.handles && h.data == ptr && h.counter != null && h.counter.value == 1
    requires ptr in w.deleted || (k != null && k != h && k in w.handles && k.data == ptr)
    ensures !Sane(w)
  {
    if ptr !in w.deleted {
      assert {h, k} <= HoldersOf(w, ptr);
      SubsetSize({h, k}, HoldersOf(w, ptr));
    }
  }

  /** What the caller of `set_data` has to see to. */
  predicate New(ptr: Context?, managed: set<Context>) {
    ptr == null || ptr !in managed
  }

  /** The counter of every handle is the number of handles that share it. */
  lemma CounterIsNumberOfSharers(w: World, h: Handle)
    requires w.Valid() && h in w.handles && h.counter != null
    ensures h.counter.value == |SharersOf(w, h.counter)|
  {
    var c := h.counter;
    forall k ensures k in SharersOf(w, c) <==> k in w.sharers[h.data] {
    }
    assert SharersOf(w, c) == w.sharers[h.data];
  }

  /** A managed object has been deleted, once, exactly when no handle has it any more. */
  lemma DeletedIffUnheld(w: World, o: Context)
    requires w.Valid() && o in w.managed
    ensures o in w.deleted <==> HoldersOf(w, o) == {}
    ensures multiset(w.deleted)[o] <= 1
  {
    if o !in w.deleted {
      assert w.sharers[o] != {};
      var h :| h in w.sharers[o];
      assert h in HoldersOf(w, o);
    }
    OnceInSeq(w.deleted, o);
  }

  lemma {:induction false} OnceInSeq<T>(s: seq<T>, x: T)
    requires NoDup(s)
    ensures multiset(s)[x] <= 1
  {
    if s != [] {
      OnceInSeq(s[1..], x);
      assert s == [s[0]] + s[1..];
      if s[0] == x {
        assert x !in s[1..];
      }
    }
  }

  /** One object handed over to two handles: two counters of one. */
  method HandedOverTwice() returns (w: World, h: Handle, k: Handle)
    ensures w.handles == {h, k} && h != k && h.data == k.data && h.data != null && !Sane(w)
  {
    w := new World();
    var o := new Context();
    h := new Handle.Of(o, w);
    k := new Handle.Of(o, w);
  }

  class Handle {
    var data: Context?
    var counter: Counter?

    /** An empty handle comes into being. */
    ghost method Enter(w: World)
      requires w.Valid() && data == null && counter == null && this !in w.handles
      modifies w`handles
      ensures w.Valid() && w.handles == old(w.handles) + {this}
    {
      w.handles := w.handles + {this};
    }

    /** An empty handle goes out of scope. */
    ghost method Leave(w: World)
      requires w.Valid() && data == null && this in w.handles
      modifies w`handles
      ensures w.Valid() && w.handles == old(w.handles) - {this}
    {
      w.handles := w.handles - {this};
    }

    /** The default constructor. */
    constructor (w: World)
      requires w.Valid()
      modifies w`handles
      ensures w.Valid() && data == null && counter == null
      ensures w.handles == old(w.handles) + {this}
    {
      data, counter := null, null;
      new;
      Enter(w);
    }

    /** What an unlink adds to the deleted objects: the last holder's object. */
    ghost function LastOne(): seq<Context>
      reads this, counter
    {
      if counter != null && data != null && counter.value == 1 then [data] else []
    }

    /** `unlink_ptr`: the handle gives up its share, and the last one deletes the object. */
    method Unlink(w: World)
      requires w.Valid() && this in w.handles
      modifies w`handles, w`sharers, w`counters, w`deleted, this, counter
      ensures w.Valid() && data == null && counter == null && w.handles == old(w.handles)
      ensures w.counters.Values <= old(w.counters.Values)
      ensures w.deleted == old(w.deleted) + old(LastOne())
    {
      if counter == null {
        return;
      }
      if counter.value == 1 {
        DestroyPtr(w);
        return;
      }
      GiveUp(w);
    }

    /** The end of `unlink_ptr`, when others share the object. */
    method GiveUp(w: World)
      requires w.Valid() && this in w.handles && counter != null && counter.value != 1
      modifies w`sharers, this, counter
      ensures w.Valid() && data == null && counter == null
    {
      hide NoDup;
      w.sharers := w.sharers[data := w.sharers[data] - {this}];
      counter.value := counter.value - 1;
      counter := null;
      data := null;
      assert w.Settled();
      assert w.Paired();
      hide World.Settled, World.Paired;
    }

    /** `destroy_ptr`: the object and its counter go. */
    method DestroyPtr(w: World)
      requires w.Valid() && this in w.handles && counter != null && counter.value == 1
      modifies w`handles, w`sharers, w`counters, w`deleted, this
      ensures w.Valid() && data == null && counter == null && w.handles == old(w.handles)
      ensures w.counters.Values <= old(w.counters.Values)
      ensures w.deleted == old(w.deleted) + [old(data)]
    {
      hide World.Valid;
      Delist(w);
      data, counter := null, null;
      Enter(w);
    }

    /** The last handle of an object leaves the books together with it. */
    ghost method Delist(w: World)
      requires w.Valid() && this in w.handles && counter != null && counter.value == 1
      modifies w`handles, w`sharers, w`counters, w`deleted
      ensures w.Valid() && w.handles == old(w.handles) - {this}
      ensures w.counters.Values <= old(w.counters.Values)
      ensures data != null && w.deleted == old(w.deleted) + [data]
    {
      hide PairedOn, CountedOn, SettledOn;
      Alone(w);
      PairedGone(w.handles, w.sharers, w.counters, this);
      CountedGone(w.sharers, w.counters, data);
      SettledGone(w.managed, w.sharers, w.deleted, data);
      w.handles := w.handles - {this};
      w.deleted := w.deleted + [data];
      w.sharers := w.sharers - {data};
      w.counters := w.counters - {data};
    }

    /** `operator=`: leaves the old object and shares the other handle's. */
    method Assign(copy: Handle, w: World)
      requires w.Valid() && this in w.handles && copy in w.handles
      modifies w`handles, w`sharers, w`counters, w`deleted, this, counter, copy.counter
      ensures w.Valid() && data == old(copy.data) && w.handles == old(w.handles)
      ensures w.counters.Values <= old(w.counters.Values)
      ensures w.deleted == old(w.deleted) + if this == copy then [] else old(LastOne())
    {
      if this == copy {
        return;
      }
      Unlink(w);
      Share(copy, w);
    }

    /** The second half of `operator=`, on an empty handle. */
    method Share(copy: Handle, w: World)
      requires w.Valid() && this in w.handles && copy in w.handles && data == null
      modifies w`handles, w`sharers, this, copy.counter
      ensures w.Valid() && data == copy.data && copy.data == old(copy.data)
      ensures counter == copy.counter && copy.counter == old(copy.counter)
      ensures w.handles == old(w.handles)
    {
      hide World.Valid;
      SharerOf(w, copy);
      Leave(w);
      counter := copy.counter;
      data := copy.data;
      if copy.data == null {
        Enter(w);
      } else {
        Join(w);
      }
    }

    /** A handle outside the books enters them as one more sharer of a known object. */
    method Join(w: World)
      requires w.Valid() && this !in w.handles && data != null
      requires data in w.sharers && data in w.counters && counter == w.counters[data]
      modifies w`handles, w`sharers, counter
      ensures w.Valid() && w.handles == old(w.handles) + {this}
    {
      hide PairedOn, SettledOn;
      PairedMore(w.handles, w.sharers, w.counters, this);
      SettledMore(w.managed, w.sharers, w.deleted, this);
      w.handles := w.handles + {this};
      w.sharers := w.sharers[data := w.sharers[data] + {this}];
      counter.value := counter.value + 1;
    }

    /** `set_data`: the handle leaves its object and takes over another, with a counter of its
        own.  That is sound for exactly those objects that no handle has managed before. */
    method SetData(ptr: Context?, w: World)
      requires w.Valid() && this in w.handles
      modifies w`handles, w`sharers, w`counters, w`deleted, w`managed, this, counter
      ensures data == ptr && w.deleted == old(w.deleted) + old(LastOne()) && w.handles == old(w.handles)
      ensures w.managed == old(w.managed) + if ptr == null then {} else {ptr}
      ensures New(ptr, old(w.managed)) ==> w.Valid() && fresh(w.counters.Values - old(w.counters.Values))
      ensures Sane(w) <==> New(ptr, old(w.managed))
    {
      hide World.Valid, Sane;
      Unlink(w);
      if ptr != null {
        TakeOver(ptr, w);
      }
      if New(ptr, old(w.managed)) {
        ValidIsSane(w);
      }
    }

    /** The object gets a new counter.  If it is new it enters the books; one that is managed
        already has been deleted or is another handle's too. */
    method TakeOver(ptr: Context, w: World)
      requires w.Valid() && this in w.handles && data == null
      modifies w`handles, w`sharers, w`counters, w`managed, this
      ensures data == ptr && w.managed == old(w.managed) + {ptr} && w.handles == old(w.handles)
      ensures counter != null && fresh(counter) && counter.value == 1
      ensures ptr !in old(w.managed) ==> w.Valid() && fresh(w.counters.Values - old(w.counters.Values))
      ensures ptr in old(w.managed) ==> !Sane(w)
    {
      hide World.Valid, Sane;
      ghost var k := OtherHolder(ptr, w);
      Leave(w);
      var one := new Counter(1, ptr);
      data, counter := ptr, one;
      if ptr !in w.managed {
        Enlist(ptr, one, w);
      } else {
        w.handles := w.handles + {this};
        Broken(w, this, ptr, k);
        assert w.managed == old(w.managed) + {ptr};
      }
    }

    /** A handle outside the books enters them together with its object and counter. */
    ghost method Enlist(ptr: Context, one: Counter, w: World)
      requires w.Valid() && this !in w.handles && data == ptr && counter == one
      requires ptr !in w.managed && one.value == 1 && one.target == ptr && one !in w.counters.Values
      modifies w`handles, w`sharers, w`counters, w`managed
      ensures w.Valid() && w.managed == old(w.managed) + {ptr} && w.handles == old(w.handles) + {this}
      ensures w.counters == old(w.counters)[ptr := one]
    {
      hide PairedOn, CountedOn, SettledOn;
      SettledNew(w.managed, w.sharers, w.deleted, this, ptr);
      PairedNew(w.handles, w.sharers, w.counters, this, ptr);
      CountedNew(w.sharers, w.counters, this, ptr, one);
      w.handles := w.handles + {this};
      w.managed := w.managed + {ptr};
      w.sharers := w.sharers[ptr := {this}];
      w.counters := w.counters[ptr := one];
    }

    /** A managed object that has not been deleted has a handle. */
    lemma OtherHolder(ptr: Context, w: World) returns (k: Handle?)
      requires w.Valid()
      ensures ptr in w.managed && ptr !in w.deleted ==> k != null && k in w.handles && k.data == ptr
    {
      k := null;
      if ptr in w.managed && ptr !in w.deleted {
        assert w.sharers[ptr] != {};
        k :| k in w.sharers[ptr];
      }
    }

    /** A counter of one means that no other handle has the object. */
    lemma Alone(w: World)
      requires w.Valid() && this in w.handles && counter != null && counter.value == 1
      ensures data != null && data in w.sharers && w.sharers[data] == {this}
    {
      SharerOf(w, this);
      assert |w.sharers[data] - {this}| == 0;
    }

    lemma SharerOf(w: World, h: Handle)
      requires w.Valid() && h in w.handles
      ensures h.data == null ==> h.counter == null
      ensures h.data != null ==>
                && h.data in w.sharers && h in w.sharers[h.data] && h.data in w.counters
                && h.counter == w.counters[h.data] && h.counter.value == |w.sharers[h.data]|
    {
    }

    /** The copy constructor. */
    constructor Copy(copy: Handle, w: World)
      requires w.Valid() && copy in w.handles
      modifies w`handles, w`sharers, copy.counter
      ensures w.Valid() && data == copy.data && copy.data == old(copy.data)
      ensures counter == copy.counter && copy.counter == old(copy.counter)
      ensures w.handles == old(w.handles) + {this}
    {
      data, counter := null, null;
      new;
      hide World.Valid;
      Enter(w);
      Share(copy, w);
    }

    /** The constructor from a raw pointer. */
    constructor Of(ptr: Context?, w: World)
      requires w.Valid()
      modifies w`handles, w`sharers, w`counters, w`managed
      ensures data == ptr && w.handles == old(w.handles) + {this}
      ensures w.managed == old(w.managed) + if ptr == null then {} else {ptr}
      ensures if ptr == null then counter == null else counter != null && fresh(counter) && counter.value == 1
      ensures New(ptr, old(w.managed)) ==> w.Valid() && fresh(w.counters.Values - old(w.counters.Values))
      ensures Sane(w) <==> New(ptr, old(w.managed))
    {
      data, counter := null, null;
      new;
      hide World.Valid, Sane;
      Enter(w);
      if ptr != null {
        TakeOver(ptr, w);
      }
      if New(ptr, old(w.managed)) {
        ValidIsSane(w);
      }
    }

    /** The destructor. */
    method Destroy(w: World)
      requires w.Valid() && this in w.handles
      modifies w`handles, w`sharers, w`counters, w`deleted, this, counter
      ensures w.Valid() && w.handles == old(w.handles) - {this}
      ensures w.counters.Values <= old(w.counters.Values)
      ensures w.deleted == old(w.deleted) + old(LastOne())
    {
      hide World.Valid;
      Unlink(w);
      Leave(w);
    }
  }
}
