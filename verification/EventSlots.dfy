/** The kernel-event slots of a worker: a fixed array handed out in order, freed slots kept
    on a linked list, and one bit in every slot that tells events of its previous owner
    from those of the present one. */
module EventSlots {
  import opened Common

  /** `prev` links the free list; `side` is the bit; `toRead` and `toWrite` say that the owner
      waits until it can read or write. */
  datatype Slot = Slot(side: bool, prev: Option<nat>, toRead: bool, toWrite: bool)

  /** The slot address and the bit that travel with an event through the kernel. */
  datatype Tag = Tag(slot: nat, side: bool)

  /** The links starting at `head` run through `list`. */
  ghost predicate Linked(slots: seq<Slot>, head: Option<nat>, list: seq<nat>)
    decreases |list|
  {
    if list == [] then head == None else
      head == Some(list[0]) && list[0] < |slots| && Linked(slots, slots[list[0]].prev, list[1..])
  }

  /** Links do not depend on slots outside the list. */
  lemma {:induction false} LinkedFrame(a: seq<Slot>, b: seq<Slot>, head: Option<nat>, list: seq<nat>)
    requires Linked(a, head, list) && |a| == |b|
    requires forall k :: 0 <= k < |list| && list[k] < |a| ==> a[list[k]].prev == b[list[k]].prev
    ensures Linked(b, head, list)
    decreases |list|
  {
    if list != [] {
      assert a[list[0]].prev == b[list[0]].prev;
      forall k | 0 <= k < |list[1..]| && list[1..][k] < |a| ensures a[list[1..][k]].prev == b[list[1..][k]].prev {
        assert list[1..][k] == list[k+1];
      }
      LinkedFrame(a, b, a[list[0]].prev, list[1..]);
    }
  }

  /** The slots handed out so far are in use or on the free list, none of them twice. */
  ghost predicate Parted(free: seq<nat>, live: set<nat>, handedOut: nat) {
    && Distinct(free)
    && (forall k :: k in live || k in free <==> 0 <= k < handedOut)
    && (forall k :: k in live ==> k !in free)
  }

  lemma PushFree(free: seq<nat>, live: set<nat>, handedOut: nat, k: nat)
    requires Parted(free, live, handedOut) && k in live
    ensures Parted([k] + free, live - {k}, handedOut)
  {
    var f, l := [k] + free, live - {k};
    assert forall j :: j in f <==> j == k || j in free;
  }

  lemma PopFree(free: seq<nat>, live: set<nat>, handedOut: nat)
    requires Parted(free, live, handedOut) && free != []
    ensures free[0] !in live && 0 <= free[0] < handedOut && Parted(free[1..], live + {free[0]}, handedOut)
  {
    var f, l := free[1..], live + {free[0]};
    assert forall k :: k in free <==> k == free[0] || k in f;
    assert forall k :: k in f ==> k != free[0];
  }

  lemma GrowLive(live: set<nat>, handedOut: nat)
    requires Parted([], live, handedOut)
    ensures handedOut !in live && Parted([], live + {handedOut}, handedOut + 1)
  {
  }

  /** The bit is the parity of the frees, and only slots in use wait. */
  ghost predicate Tagged(slots: seq<Slot>, frees: seq<nat>, live: set<nat>) {
    && |slots| == |frees|
    && (forall k :: 0 <= k < |slots| ==> (slots[k].side <==> frees[k] % 2 == 1))
    && (forall k :: 0 <= k < |slots| && (slots[k].toRead || slots[k].toWrite) ==> k in live)
  }

  class Slots {
    const max: nat
    var slots: seq<Slot>
    var unused: Option<nat>
    var handedOut: nat
    var locked: nat
    /** The free list, top first; the slots in use; and how often each slot was freed. */
    ghost var free: seq<nat>
    ghost var live: set<nat>
    ghost var frees: seq<nat>

    constructor (max: nat)
      ensures this.max == max && Valid() && live == {} && locked == 0 && free == [] && handedOut == 0
      ensures forall k :: 0 <= k < max ==> frees[k] == 0
    {
      this.max := max;
      slots := seq(max, i => Slot(false, None, false, false));
      unused, handedOut, locked := None, 0, 0;
      free, live, frees := [], {}, seq(max, i => 0);
    }

    ghost predicate Valid()
      reads this
    {
      && |slots| == max && handedOut <= max && Tagged(slots, frees, live)
      && Linked(slots, unused, free) && Parted(free, live, handedOut)
      && |live| == locked && locked + |free| == handedOut
    }

    /** The slot freed last. */
    method Reuse() returns (k: nat)
      requires Valid() && unused.Some?
      modifies this
      ensures Valid() && old(free) != [] && k == old(free)[0] && free == old(free)[1..]
      ensures k !in old(live) && live == old(live) + {k} && locked == old(locked) + 1 && frees == old(frees)
      ensures handedOut == old(handedOut) && slots == old(slots)[k := old(slots)[k].(prev := None)]
    {
      k := unused.value;
      PopFree(free, live, handedOut);
      unused := slots[k].prev;
      slots := slots[k := slots[k].(prev := None)];
      free := free[1..];
      LinkedFrame(old(slots), slots, unused, free);
      live := live + {k};
      locked := locked + 1;
    }

    /** A slot not in use: the one freed last, else the next one never used. Nobody waits on it. */
    method Alloc() returns (r: Option<nat>)
      requires Valid()
      modifies this
      ensures Valid() && frees == old(frees)
      ensures r.None? <==> old(locked) == max
      ensures r.None? ==> live == old(live) && free == old(free)
      ensures r.Some? ==> r.value !in old(live) && live == old(live) + {r.value} && locked == old(locked) + 1
      ensures r.Some? ==> r.value == (if old(free) != [] then old(free)[0] else old(handedOut))
      ensures r.Some? ==> free == if old(free) != [] then old(free)[1..] else []
      ensures r.Some? ==> !slots[r.value].toRead && !slots[r.value].toWrite
    {
      if unused.Some? {
        var k := Reuse();
        return Some(k);
      }
      if handedOut == max { return None; }
      r := Some(handedOut);
      GrowLive(live, handedOut);
      live := live + {handedOut};
      handedOut := handedOut + 1;
      locked := locked + 1;
    }

    /** Gives a slot back: its owner's events are told apart from now on. */
    method Free(k: nat)
      requires Valid() && k in live
      modifies this
      ensures Valid() && live == old(live) - {k} && free == [k] + old(free) && locked == old(locked) - 1
      ensures frees == old(frees)[k := old(frees)[k] + 1]
    {
      PushFree(free, live, handedOut, k);
      Unlink(k);
      locked := locked - 1;
      live := live - {k};
    }

    /** Puts the slot, no longer waited on and with its bit changed, on top of the free list. */
    method Unlink(k: nat)
      requires k < |slots| && k !in free && Linked(slots, unused, free) && Tagged(slots, frees, live)
      modifies this`slots, this`unused, this`free, this`frees
      ensures |slots| == old(|slots|) && Linked(slots, unused, free) && free == [k] + old(free)
      ensures frees == old(frees)[k := old(frees)[k] + 1] && Tagged(slots, frees, live - {k})
    {
      var s := slots[k];
      slots := slots[k := Slot(!s.side, unused, false, false)];
      LinkedFrame(old(slots), slots, unused, free);
      free := [k] + free;
      assert free[1..] == old(free);
      unused := Some(k);
      frees := frees[k := frees[k] + 1];
    }

    /** The tag under which the kernel is asked for the slot's events. */
    function TagOf(k: nat): Tag
      requires k < |slots|
      reads this
    {
      Tag(k, slots[k].side)
    }

    /** The owner of a slot waits for reading or writing, or no longer does. */
    method SetWaiting(k: nat, toRead: bool, toWrite: bool)
      requires Valid() && k in live
      modifies this`slots
      ensures Valid() && TagOf(k) == Tag(k, frees[k] % 2 == 1)
      ensures slots == old(slots)[k := old(slots)[k].(toRead := toRead, toWrite := toWrite)]
    {
      slots := slots[k := slots[k].(toRead := toRead, toWrite := toWrite)];
      LinkedFrame(old(slots), slots, unused, free);
    }

    /** Whether the bit of an event is that of its slot; the tag was taken when the slot had
        been freed `then_` times. */
    method Retrieve(tag: Tag, ghost then_: nat) returns (same: bool)
      requires Valid() && tag.slot < max && then_ <= frees[tag.slot] && tag.side == (then_ % 2 == 1)
      ensures same <==> (frees[tag.slot] - then_) % 2 == 0
    {
      same := tag.side == slots[tag.slot].side;
    }
  }

  // ------------------------------------------------------------ owners at work

  /** Anything the owners of slots may do. */
  datatype Op = DoAlloc | DoFree(k: nat) | DoWait(k: nat, toRead: bool, toWrite: bool)

  /** The slots owners hold, and the ones to hand out: those freed, the last one first, and from
      `handedOut` on those never used. */
  datatype Book = Book(held: set<nat>, free: seq<nat>, handedOut: nat)

  /** What an operation of an owner does, who touches only slots it holds. */
  function Booked(b: Book, max: nat, op: Op): Book {
    match op
    case DoAlloc =>
      if b.free != [] then Book(b.held + {b.free[0]}, b.free[1..], b.handedOut)
      else if b.handedOut < max then Book(b.held + {b.handedOut}, [], b.handedOut + 1)
      else b
    case DoFree(k) => if k in b.held then Book(b.held - {k}, [k] + b.free, b.handedOut) else b
    case DoWait(k, toRead, toWrite) => b
  }

  function BookedAll(b: Book, max: nat, ops: seq<Op>): Book {
    if ops == [] then b else Booked(BookedAll(b, max, ops[..|ops|-1]), max, ops[|ops|-1])
  }

  /** How often a slot is freed. */
  function Frees(b: Book, max: nat, ops: seq<Op>, k: nat): nat {
    if ops == [] then 0 else
      Frees(b, max, ops[..|ops|-1], k) +
      if ops[|ops|-1] == DoFree(k) && k in BookedAll(b, max, ops[..|ops|-1]).held then 1 else 0
  }

  /** One operation of an owner. */
  method PerformOne(s: Slots, op: Op, held: set<nat>) returns (held': set<nat>)
    requires s.Valid() && held <= s.live
    modifies s
    ensures s.Valid() && held' <= s.live && |s.frees| == old(|s.frees|)
    ensures Book(held', s.free, s.handedOut) == Booked(old(Book(held, s.free, s.handedOut)), s.max, op)
    ensures forall k :: 0 <= k < s.max ==>
      s.frees[k] == old(s.frees[k]) + if op == DoFree(k) && k in held then 1 else 0
    ensures op.DoAlloc? && old(s.locked) == s.max ==> held' == held
    ensures op.DoAlloc? && old(s.locked) < s.max ==> exists k :: k !in old(s.live) && held' == held + {k}
    ensures op.DoFree? ==> held' == held - {op.k}
    ensures op.DoWait? ==> held' == held && s.live == old(s.live) && s.free == old(s.free)
    ensures op.DoWait? && op.k in held ==> s.slots[op.k].toRead == op.toRead && s.slots[op.k].toWrite == op.toWrite
  {
    held' := held;
    match op {
      case DoAlloc =>
        var r := s.Alloc();
        if r.Some? { held' := held + {r.value}; }
      case DoFree(k) =>
        if k in held {
          s.Free(k);
          held' := held - {k};
        }
      case DoWait(k, toRead, toWrite) =>
        if k in held { s.SetWaiting(k, toRead, toWrite); }
    }
  }

  /** Owners allocate, free and wait in any order. */
  method Perform(s: Slots, ops: seq<Op>, held: set<nat>) returns (held': set<nat>)
    requires s.Valid() && held <= s.live
    modifies s
    ensures s.Valid() && held' <= s.live && |s.frees| == old(|s.frees|)
    ensures var was := old(Book(held, s.free, s.handedOut));
      && Book(held', s.free, s.handedOut) == BookedAll(was, s.max, ops)
      && forall k :: 0 <= k < s.max ==> s.frees[k] == old(s.frees[k]) + Frees(was, s.max, ops, k)
    ensures ops == [] ==> s.slots == old(s.slots)
  {
    held' := held;
    ghost var was := Book(held, s.free, s.handedOut);
    for i := 0 to |ops|
      invariant s.Valid() && held' <= s.live && |s.frees| == old(|s.frees|)
      invariant Book(held', s.free, s.handedOut) == BookedAll(was, s.max, ops[..i])
      invariant forall k :: 0 <= k < s.max ==> s.frees[k] == old(s.frees[k]) + Frees(was, s.max, ops[..i], k)
      invariant ops == [] ==> s.slots == old(s.slots)
    {
      assert ops[..i + 1][..i] == ops[..i] && ops[..i + 1][i] == ops[i];
      held' := PerformOne(s, ops[i], held');
    }
    assert ops[..|ops|] == ops;
  }

  // ------------------------------------------------------------ events

  /** An event for reading, writing or both, tagged when its slot had been freed `then_` times.
      `ops` is what the read handler does, should it be called. The bit is looked at once, before
      that handler; whether a write handler waits is looked at after it. */
  method Dispatch(s: Slots, tag: Tag, ghost then_: nat, read: bool, write: bool, ops: seq<Op>, held: set<nat>)
    returns (reading: bool, writing: bool, ghost n: nat)
    requires s.Valid() && held <= s.live
    requires tag.slot < s.max && then_ <= s.frees[tag.slot] && tag.side == (then_ % 2 == 1)
    modifies s
    ensures s.Valid() && s.frees[tag.slot] == old(s.frees[tag.slot]) + n
    ensures n == if reading then Frees(old(Book(held, s.free, s.handedOut)), s.max, ops, tag.slot) else 0
    ensures (!reading || ops == [] ==> n == 0 && s.slots == old(s.slots))
    ensures var same := (old(s.frees[tag.slot]) - then_) % 2 == 0;
      && (reading <==> same && read && old(s.slots[tag.slot].toRead))
      && (writing <==> same && write && s.slots[tag.slot].toWrite)
  {
    var same;
    same, reading := ReadHalf(s, tag, then_, read);
    n := 0;
    if reading {
      var held' := Perform(s, ops, held);
      n := Frees(old(Book(held, s.free, s.handedOut)), s.max, ops, tag.slot);
    }
    writing := WriteHalf(s, tag, same, write);
  }

  /** Before the read handler: is the event the slot's, and does its owner wait for reading? */
  method ReadHalf(s: Slots, tag: Tag, ghost then_: nat, read: bool) returns (same: bool, reading: bool)
    requires s.Valid() && tag.slot < s.max && then_ <= s.frees[tag.slot] && tag.side == (then_ % 2 == 1)
    ensures same <==> (s.frees[tag.slot] - then_) % 2 == 0
    ensures reading <==> same && read && s.slots[tag.slot].toRead
  {
    same := s.Retrieve(tag, then_);
    reading := same && read && s.slots[tag.slot].toRead;
  }

  /** After it: does the owner of now wait for writing? */
  method WriteHalf(s: Slots, tag: Tag, same: bool, write: bool) returns (writing: bool)
    requires s.Valid() && tag.slot < s.max
    ensures writing <==> same && write && s.slots[tag.slot].toWrite
  {
    writing := same && write && s.slots[tag.slot].toWrite;
  }

  /** An event tagged now and returned by the kernel after any operations, in which its slot is
      freed `n` times, reaches a handler exactly if `n` is even and the owner of that time waits
      for it: not the slot's next owner, but possibly the one after that. */
  method LateEvent(s: Slots, k: nat, ops: seq<Op>, held: set<nat>, read: bool, write: bool)
    returns (reading: bool, writing: bool, ghost n: nat)
    requires s.Valid() && k in held && held <= s.live
    modifies s
    ensures s.Valid() && k < s.max && n == Frees(old(Book(held, s.free, s.handedOut)), s.max, ops, k)
    ensures reading <==> n % 2 == 0 && read && s.slots[k].toRead
    ensures writing <==> n % 2 == 0 && write && s.slots[k].toWrite
    ensures n == 1 ==> !reading && !writing
  {
    ghost var before := s.frees[k];
    var tag := s.TagOf(k);
    ghost var book := Book(held, s.free, s.handedOut);
    var held' := Perform(s, ops, held);
    n := Frees(book, s.max, ops, k);
    ghost var m;
    reading, writing, m := Dispatch(s, tag, before, read, write, [], {});
  }

  /** Two frees are enough for an event to reach a stranger. */
  method StaleEvent() returns (reading: bool)
    ensures reading
  {
    var s := new Slots(1);
    var a := s.Alloc();
    var tag := s.TagOf(0);
    s.Free(0);
    var b := s.Alloc();
    s.Free(0);
    var c := s.Alloc();
    s.SetWaiting(0, true, false);
    var writing;
    ghost var n;
    reading, writing, n := Dispatch(s, tag, 0, true, false, [], {});
  }

  /** Even one is, if the read handler itself frees the slot: an owner that gets it inside that
      handler and waits for writing is handed the write half of the event. */
  method WriteHalfGoesAstray() returns (reading: bool, writing: bool)
    ensures reading && writing
  {
    var s := new Slots(1);
    var a := s.Alloc();
    s.SetWaiting(0, true, false);
    var tag := s.TagOf(0);
    var same;
    same, reading := ReadHalf(s, tag, 0, true);
    s.Free(0);
    var b := s.Alloc();
    s.SetWaiting(0, false, true);
    writing := WriteHalf(s, tag, same, true);
  }
}
