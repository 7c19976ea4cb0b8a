/** The queue module's objects, updated in place. Every operation does what the functions of
    `PlayQueueOps` do, so that runs of the object are the runs described there; it keeps the
    reference counts right, and says what became of the lists and of the entries let go. */
module PlayQueues {
  import opened Common
  import opened PlayQueue
  import Ops = PlayQueueOps
  import PlayQueueCursor

  datatype Pick = Play(e: nat) | Nothing | DivisionByZero

  class Queues {
    var ents: map<nat, Entry>
    var qs: map<nat, List>
    /** Running tracks and the entries they belong to. */
    var running: map<nat, nat>
    /** References handed out to callers. */
    ghost var refs: multiset<nat>
    var next: nat

    constructor ()
      ensures Valid() && Snap() == Ops.EMPTY
    {
      ents, qs, running, refs, next := map[], map[], map[], multiset{}, 0;
      new;
      Ops.EmptySound();
    }

    ghost function Snap(): State
      reads this
    {
      State(ents, qs, running, refs, next)
    }

    /** An entry's count is the number of lists, views, tracks and callers that hold it. */
    ghost predicate Valid()
      reads this
    {
      Ops.Sound(Snap())
    }

    /** The items and the cursor index of every list but `q` are what they were. */
    twostate predicate OthersSame(q: nat)
      reads this
    {
      forall p :: p in old(qs) && p != q ==>
        p in qs && qs[p].items == old(qs)[p].items && qs[p].cursorIndex == old(qs)[p].cursorIndex
    }

    // ---------------------------------------------------------- lists

    method NewList() returns (q: nat)
      requires Valid()
      modifies this
      ensures Valid() && Snap() == Ops.Apply(old(Snap()), Ops.DoNewList)
      ensures q !in old(qs) && q in qs && qs[q] == List([], None, 0) && OthersSame(q)
    {
      Ops.ApplySound(Snap(), Ops.DoNewList);
      assert next !in qs;
      q := AddList();
    }

    method AddList() returns (q: nat)
      requires next !in qs
      modifies this
      ensures Snap() == Ops.NewList(old(Snap())) && q == old(next)
      ensures q in qs && qs[q] == List([], None, 0) && OthersSame(q)
    {
      q := next;
      next := next + 1;
      qs := qs[q := List([], None, 0)];
    }

    /** Adds a new entry to a list at a position within it. */
    method Insert(q: nat, pos: nat) returns (e: nat)
      requires Valid() && q in qs && pos <= |qs[q].items|
      modifies this
      ensures Valid() && Snap() == Ops.Apply(old(Snap()), Ops.DoInsert(q, pos))
      ensures e !in old(ents) && ents == old(ents)[e := Entry(q, pos, 1)] && q in qs && OthersSame(q)
      ensures qs[q].items == old(qs[q].items[..pos]) + [e] + old(qs[q].items[pos..])
    {
      Ops.ApplySound(Snap(), Ops.DoInsert(q, pos));
      assert next !in ents;
      e := PutAt(q, pos);
    }

    method PutAt(q: nat, pos: nat) returns (e: nat)
      requires q in qs && pos <= |qs[q].items|
      modifies this
      ensures Snap() == Ops.Insert(old(Snap()), q, pos) && e == old(next)
      ensures ents == old(ents)[e := Entry(q, pos, 1)] && q in qs && OthersSame(q)
      ensures qs[q].items == old(qs[q].items[..pos]) + [e] + old(qs[q].items[pos..])
    {
      e := next;
      next := next + 1;
      ents := ents[e := Entry(q, pos, 1)];
      var l := qs[q];
      qs := qs[q := l.(items := l.items[..pos] + [e] + l.items[pos..])];
    }

    /** Removes the item at a position; false if there is none. The entry goes exactly if
        nothing but the list referred to it. */
    method RemovePos(q: nat, pos: nat) returns (ok: bool)
      requires Valid() && q in qs
      modifies this
      ensures Valid() && Snap() == Ops.Apply(old(Snap()), Ops.DoRemove(q, pos))
      ensures ok == (pos < |old(qs[q].items)|) && (!ok ==> Snap() == old(Snap())) && q in qs && OthersSame(q)
      ensures ok ==> qs[q].items == old(qs[q].items[..pos]) + old(qs[q].items[pos+1..])
      ensures ok ==> var e := old(qs[q].items[pos]); e !in ents <==> Refs(old(Snap()), e) == 1
    {
      Ops.ApplySound(Snap(), Ops.DoRemove(q, pos));
      if pos >= |qs[q].items| { return false; }
      Ops.RemoveLists(Snap(), q, pos);
      Ops.RemoveFrees(Snap(), q, pos);
      Ops.TakenOut(Snap(), q, pos);
      assert ents[qs[q].items[pos]].owner in qs;
      TakeOut(q, pos);
      ok := true;
    }

    method TakeOut(q: nat, pos: nat)
      requires q in qs && pos < |qs[q].items|
      requires var e := qs[q].items[pos]; e in ents && ents[e].used > 0 && ents[e].owner in qs
      modifies this
      ensures Snap() == Ops.RemovePos(old(Snap()), q, pos)
    {
      var l := qs[q];
      var e := l.items[pos];
      ents := ents[e := ents[e].(index := NO_INDEX)];
      var ci := l.cursorIndex;
      if ci > 0 && (pos < ci || (pos == ci && pos == |l.items| - 1)) { ci := ci - 1; }
      qs := qs[q := List(l.items[..pos] + l.items[pos+1..], l.cursor, ci)];
      DropRef(e);
    }

    /** Gives up one reference; frees the entry when it was the last. */
    method DropRef(e: nat)
      requires e in ents && ents[e].used > 0 && ents[e].owner in qs
      modifies this`ents, this`qs
      ensures Snap() == Unref(old(Snap()), e)
    {
      var en := ents[e];
      if en.used > 1 {
        ents := ents[e := en.(used := en.used - 1)];
        return;
      }
      var l := qs[en.owner];
      qs := qs[en.owner := if l.cursor == Some(e) then l.(cursor := None) else l];
      ents := ents - {e};
    }

    /** Empties a list: every item is marked as not listed and let go. Exactly the entries that
        something else refers to are left. */
    method Clear(q: nat)
      requires Valid() && q in qs
      modifies this
      ensures Valid() && Snap() == Ops.Apply(old(Snap()), Ops.DoClear(q))
      ensures q in qs && qs[q].items == [] && qs[q].cursorIndex == old(qs[q].cursorIndex) && OthersSame(q)
      ensures forall e :: e in ents <==> Refs(Snap(), e) > 0
    {
      Ops.ApplySound(Snap(), Ops.DoClear(q));
      Ops.ClearEffect(Snap(), q);
      Ops.EmptiedKeeps(Snap(), q);
      var items := qs[q].items;
      SetItems(q, []);
      LetGoAll(items);
    }

    method SetItems(q: nat, items: seq<nat>)
      requires q in qs
      modifies this`qs
      ensures Snap() == Ops.Reorder(old(Snap()), q, items) && OthersSame(q)
      ensures q in qs && qs[q] == List(items, old(qs[q].cursor), old(qs[q].cursorIndex))
    {
      qs := qs[q := qs[q].(items := items)];
    }

    method LetGoAll(items: seq<nat>)
      requires Counted(Snap(), multiset(items))
      modifies this
      ensures Snap() == Ops.LetGo(old(Snap()), items)
    {
      var i := 0;
      ghost var last := Ops.LetGo(Snap(), items);
      assert items[0..] == items;
      while i < |items|
        invariant 0 <= i <= |items| && Counted(Snap(), multiset(items[i..]))
        invariant Ops.LetGo(Snap(), items[i..]) == last
      {
        assert items[i..][0] == items[i] && items[i..][1..] == items[i+1..];
        Ops.LetOneGoKeeps(Snap(), items[i..]);
        LetOneGo(items[i]);
        i := i + 1;
      }
    }

    method LetOneGo(e: nat)
      requires e in ents && ents[e].used > 0 && ents[e].owner in qs
      modifies this
      ensures Snap() == Ops.LetOneGo(old(Snap()), e)
    {
      ents := ents[e := ents[e].(index := NO_INDEX)];
      DropRef(e);
    }

    /** A view of the items of a list that pass the filter, in order, each with a reference. */
    method View(q: nat, keep: nat -> bool) returns (v: nat)
      requires Valid() && q in qs
      modifies this
      ensures Valid() && Snap() == Ops.Apply(old(Snap()), Ops.DoView(q, keep))
      ensures v !in old(qs) && v in qs && qs[v] == List(Ops.Filtered(old(qs[q].items), keep), None, 0) && OthersSame(v)
    {
      Ops.ApplySound(Snap(), Ops.DoView(q, keep));
      Ops.ViewKeeps(Snap(), q, keep);
      assert next !in qs && ListLinked(ents, qs[q].items);
      var items := qs[q].items;
      Ops.FillLists(Ops.NewList(Snap()), next, items, keep);
      v := AddList();
      FillView(v, items, keep);
    }

    method FillView(v: nat, items: seq<nat>, keep: nat -> bool)
      requires v in qs && forall k :: 0 <= k < |items| ==> items[k] in ents
      modifies this
      ensures Snap() == Ops.FillView(old(Snap()), v, items, keep)
    {
      var i := 0;
      ghost var last := Ops.FillView(Snap(), v, items, keep);
      assert items[0..] == items;
      while i < |items|
        invariant 0 <= i <= |items| && v in qs && (forall k :: 0 <= k < |items| ==> items[k] in ents)
        invariant Ops.FillView(Snap(), v, items[i..], keep) == last
      {
        assert items[i..][0] == items[i] && items[i..][1..] == items[i+1..];
        if keep(items[i]) { Append(v, items[i]); }
        i := i + 1;
      }
    }

    method Append(v: nat, e: nat)
      requires v in qs && e in ents
      modifies this`ents, this`qs
      ensures Snap() == Ops.Append(old(Snap()), v, e)
    {
      ents := ents[e := ents[e].(used := ents[e].used + 1)];
      qs := qs[v := qs[v].(items := qs[v].items + [e])];
    }

    /** Random order: every item changes places with the one at a random position. */
    method Shuffle(q: nat, random: seq<nat>)
      requires Valid() && q in qs && |random| >= |qs[q].items|
      modifies this
      ensures Valid() && Snap() == Ops.Reorder(old(Snap()), q, Ops.ShuffleFrom(old(qs[q].items), random, 0))
      ensures q in qs && multiset(qs[q].items) == old(multiset(qs[q].items)) && OthersSame(q)
      ensures qs[q].cursor == old(qs[q].cursor) && qs[q].cursorIndex == old(qs[q].cursorIndex)
    {
      var items := Shuffled(qs[q].items, random);
      Ops.ApplySound(Snap(), Ops.DoReorder(q, items));
      SetItems(q, items);
    }

    // ---------------------------------------------------------- positions

    /** The position of an entry in its list, or -1. The remembered position is believed only
        if the entry is really there, and corrected otherwise. */
    method IndexOf(e: nat) returns (r: int)
      requires e in ents && ents[e].owner in qs
      modifies this`ents
      ensures Snap() == Ops.SetIndex(old(Snap()), e, if r < 0 then NO_INDEX else r)
      ensures var items := qs[old(ents)[e].owner].items;
        -1 <= r < |items| && (r >= 0 ==> items[r] == e) && (r == -1 <==> e !in items)
      ensures e in ents && ents[e].index == if r < 0 then NO_INDEX else r
    {
      var items := qs[ents[e].owner].items;
      var i := ents[e].index;
      if i < |items| && items[i] == e {
        assert ents[e := ents[e].(index := i)] == ents;
        return i;
      }
      r := -1;
      var k := 0;
      while k < |items|
        invariant 0 <= k <= |items| && r == -1 && e !in items[..k]
      {
        if items[k] == e {
          r := k;
          break;
        }
        k := k + 1;
      }
      ents := ents[e := ents[e].(index := if r < 0 then NO_INDEX else r)];
    }

    /** The position of an entry of a well-formed list is the one linear search finds. */
    method Position(e: nat) returns (r: int)
      requires e in ents && ents[e].owner in qs && Distinct(qs[ents[e].owner].items)
      modifies this`ents
      ensures r == PlayQueueCursor.Find(old(qs[ents[e].owner].items), e)
      ensures Snap() == Ops.SetIndex(old(Snap()), e, if r < 0 then NO_INDEX else r)
    {
      r := IndexOf(e);
      PlayQueueCursor.FindUnique(old(qs[ents[e].owner].items), e, r);
    }

    /** Removes an entry from its list, wherever it is now; false if it is not listed. */
    method RemoveEntry(e: nat) returns (ok: bool)
      requires Valid() && e in ents && |qs[ents[e].owner].items| < NO_INDEX
      modifies this
      ensures Valid() && Snap() == PlayQueueCursor.RemoveEntry(old(Snap()), e)
      ensures ok == (e in old(qs[ents[e].owner].items)) && OthersSame(old(ents[e].owner))
      ensures var q, items := old(ents[e].owner), old(qs[ents[e].owner].items);
        var r := PlayQueueCursor.Find(items, e);
        q in qs && qs[q].items == if ok then items[..r] + items[r+1..] else items
    {
      assert ListLinked(ents, qs[ents[e].owner].items) && ents[e].owner in qs && ents[e].used > 0;
      PlayQueueCursor.RemoveEntrySound(Snap(), e);
      PlayQueueCursor.RemoveEntryLists(Snap(), e);
      ok := TakeEntry(e);
    }

    method TakeEntry(e: nat) returns (ok: bool)
      requires e in ents && ents[e].used > 0 && ents[e].owner in qs
      requires Distinct(qs[ents[e].owner].items) && |qs[ents[e].owner].items| < NO_INDEX
      modifies this
      ensures Snap() == PlayQueueCursor.RemoveEntry(old(Snap()), e)
      ensures ok == (e in old(qs[ents[e].owner].items))
    {
      var q := ents[e].owner;
      var r := Position(e);
      ok := r >= 0;
      if ok { TakeOut(q, r); }
    }

    /** What is played for a wanted position: the item there, the first one again past the end if
        the list repeats, or one at random: any position of the first half and then any of the
        second, in turn. A random pick from an empty list divides by zero. */
    method PickAt(q: nat, n: nat, repeatAll: bool, random: Option<nat>, split: bool) returns (r: Pick, split': bool)
      requires q in qs
      ensures var items := qs[q].items;
        if random.Some? then if items == [] then r.DivisionByZero? else r.Play? && r.e in items
        else if n < |items| then r == Play(items[n])
        else if repeatAll && items != [] then r == Play(items[0])
        else r.Nothing?
      ensures var k, items := |qs[q].items|, qs[q].items; random.Some? && k > 1 ==>
        && split' == !split && (!split && random.value < k / 2 ==> r == Play(items[random.value]))
        && (split && random.value < k - k / 2 ==> r == Play(items[k / 2 + random.value]))
      ensures random.None? || |qs[q].items| == 1 ==> split' == split
    {
      split' := split;
      var at := n;
      if random.Some? {
        if qs[q].items == [] { return DivisionByZero, split'; }
        at, split' := RandomIndex(|qs[q].items|, random.value, split);
      } else if n >= |qs[q].items| && repeatAll {
        at := 0;
      }
      r := if at < |qs[q].items| then Play(qs[q].items[at]) else Nothing;
    }

    /** The entry that is played next. Nothing changes but remembered positions. */
    method NextEntry(q: nat, repeatAll: bool, random: Option<nat>, split: bool) returns (r: Pick, split': bool)
      requires q in qs && Linked(Snap(), multiset{}) && CursorsLive(Snap())
      modifies this`ents
      ensures var n, items := PlayQueueCursor.NextIndex(old(Snap()), q), qs[q].items;
        if random.Some? then if items == [] then r.DivisionByZero? else r.Play? && r.e in items
        else if n < |items| then r == Play(items[n])
        else if repeatAll && items != [] then r == Play(items[0])
        else r.Nothing?
      ensures var k, items := |qs[q].items|, qs[q].items; random.Some? && k > 1 ==>
        && split' == !split && (!split && random.value < k / 2 ==> r == Play(items[random.value]))
        && (split && random.value < k - k / 2 ==> r == Play(items[k / 2 + random.value]))
      ensures random.None? || |qs[q].items| == 1 ==> split' == split
      ensures ents.Keys == old(ents).Keys && forall x :: x in ents ==> ents[x] == old(ents[x]).(index := ents[x].index)
    {
      var n := NextPos(q);
      r, split' := PickAt(q, n, repeatAll, random, split);
    }

    /** The entry that is played when going back, which changes nothing: what the current entry
        remembers is taken for its position. */
    method PrevEntry(q: nat, repeatAll: bool, random: Option<nat>, split: bool) returns (r: Pick, split': bool)
      requires q in qs && CursorsLive(Snap())
      ensures var n, items := PlayQueueCursor.PrevIndex(Snap(), q), qs[q].items;
        if random.Some? then if items == [] then r.DivisionByZero? else r.Play? && r.e in items
        else if n < |items| then r == Play(items[n])
        else if repeatAll && items != [] then r == Play(items[0])
        else r.Nothing?
      ensures var k, items := |qs[q].items|, qs[q].items; random.Some? && k > 1 ==>
        && split' == !split && (!split && random.value < k / 2 ==> r == Play(items[random.value]))
        && (split && random.value < k - k / 2 ==> r == Play(items[k / 2 + random.value]))
      ensures random.None? || |qs[q].items| == 1 ==> split' == split
    {
      var n := qs[q].cursorIndex;
      if qs[q].cursor.Some? {
        var index: int := ents[qs[q].cursor.value].index;
        if index != NO_INDEX { n := (index - 1) % 0x1_0000_0000; }
      }
      r, split' := PickAt(q, n, repeatAll, random, split);
    }

    method NextPos(q: nat) returns (n: nat)
      requires q in qs && Linked(Snap(), multiset{}) && CursorsLive(Snap())
      modifies this`ents
      ensures n == PlayQueueCursor.NextIndex(old(Snap()), q)
      ensures ents.Keys == old(ents).Keys && forall x :: x in ents ==> ents[x] == old(ents[x]).(index := ents[x].index)
    {
      n := qs[q].cursorIndex;
      if qs[q].cursor.Some? {
        var e := qs[q].cursor.value;
        if ents[e].index != NO_INDEX {
          assert ListLinked(ents, qs[ents[e].owner].items);
          var i := Position(e);
          n := i + 1;
        }
      }
    }

    /** The list's cursor moves to an entry that is about to be played; `i` is its position in
        its own list, or NO_INDEX. */
    method SetCursor(q: nat, e: nat) returns (i: nat)
      requires Valid() && q in qs && e in ents
      modifies this
      ensures Valid() && Snap() == Ops.SetCursor(Ops.SetIndex(old(Snap()), e, i), q, e, i)
      ensures var items := old(qs[ents[e].owner].items);
        (e in items ==> i < |items| && items[i] == e) && (e !in items ==> i == NO_INDEX)
      ensures qs == old(qs)[q := List(old(qs[q].items), Some(e), i)]
      ensures e in ents && ents[e].index == i
    {
      ghost var s := Snap();
      assert ents[e].owner in qs;
      i := PointTo(q, e);
      Ops.SetCursorSound(s, q, e, i);
    }

    method PointTo(q: nat, e: nat) returns (i: nat)
      requires q in qs && e in ents && ents[e].owner in qs
      modifies this`ents, this`qs
      ensures Snap() == Ops.SetCursor(Ops.SetIndex(old(Snap()), e, i), q, e, i)
      ensures var items := old(qs[ents[e].owner].items);
        (e in items ==> i < |items| && items[i] == e) && (e !in items ==> i == NO_INDEX)
      ensures qs == old(qs)[q := List(old(qs[q].items), Some(e), i)]
      ensures e in ents && ents[e].index == i
    {
      var r := IndexOf(e);
      i := if r < 0 then NO_INDEX else r;
      qs := qs[q := qs[q].(cursor := Some(e), cursorIndex := i)];
    }

    // ---------------------------------------------------------- references

    /** A reference for the caller, to the item at a position. */
    method RefAt(q: nat, pos: nat) returns (r: Option<nat>)
      requires Valid() && q in qs
      modifies this
      ensures Valid() && Snap() == Ops.Apply(old(Snap()), Ops.DoRef(q, pos))
      ensures r == if pos < |qs[q].items| then Some(qs[q].items[pos]) else None
      ensures refs == old(refs) + (if r.Some? then multiset{r.value} else multiset{}) && qs == old(qs)
    {
      Ops.ApplySound(Snap(), Ops.DoRef(q, pos));
      assert ListLinked(ents, qs[q].items);
      if pos >= |qs[q].items| { return None; }
      r := Some(qs[q].items[pos]);
      TakeRef(qs[q].items[pos]);
    }

    method TakeRef(e: nat)
      requires e in ents
      modifies this`ents, this`refs
      ensures Snap() == Ops.Raise(old(Snap()), e).(refs := old(refs) + multiset{e})
    {
      ents := ents[e := ents[e].(used := ents[e].used + 1)];
      refs := refs + multiset{e};
    }

    /** The caller gives its reference back; the entry goes exactly if it was the only one. */
    method Release(e: nat)
      requires Valid() && e in refs
      modifies this
      ensures Valid() && Snap() == Ops.Apply(old(Snap()), Ops.DoRelease(e))
      ensures refs == old(refs) - multiset{e} && (e !in ents <==> Refs(old(Snap()), e) == 1)
      ensures Ops.SameLists(old(Snap()), Snap())
    {
      Ops.ApplySound(Snap(), Ops.DoRelease(e));
      Ops.ReleaseFrees(Snap(), e);
      Ops.ReleaseLists(Snap(), e);
      assert ents[e].used > 0 && ents[e].owner in qs;
      GiveBack(e);
    }

    method GiveBack(e: nat)
      requires e in ents && ents[e].used > 0 && ents[e].owner in qs
      modifies this
      ensures Snap() == Ops.Release(old(Snap()), e) && refs == old(refs) - multiset{e}
    {
      refs := refs - multiset{e};
      DropRef(e);
    }

    /** A track starts on an entry and refers to it. */
    method StartTrack(e: nat) returns (t: nat)
      requires Valid() && e in ents
      modifies this
      ensures Valid() && Snap() == Ops.Apply(old(Snap()), Ops.DoStart(e))
      ensures t !in old(running) && running == old(running)[t := e] && qs == old(qs)
    {
      Ops.ApplySound(Snap(), Ops.DoStart(e));
      assert next !in running;
      t := BeginTrack(e);
    }

    method BeginTrack(e: nat) returns (t: nat)
      requires e in ents
      modifies this
      ensures Snap() == Ops.StartTrack(old(Snap()), e) && t == old(next)
    {
      t := next;
      next := next + 1;
      ents := ents[e := ents[e].(used := ents[e].used + 1)];
      running := running[t := e];
    }

    /** The track ends and lets its entry go, which goes exactly if nothing else refers to it. */
    method EndTrack(t: nat)
      requires Valid() && t in running
      modifies this
      ensures Valid() && Snap() == Ops.Apply(old(Snap()), Ops.DoEnd(t))
      ensures running == old(running) - {t}
      ensures var e := old(running[t]); e !in ents <==> Refs(old(Snap()), e) == 1
      ensures Ops.SameLists(old(Snap()), Snap())
    {
      Ops.ApplySound(Snap(), Ops.DoEnd(t));
      Ops.EndFrees(Snap(), t);
      Ops.EndLists(Snap(), t);
      assert ents[running[t]].used > 0 && ents[running[t]].owner in qs;
      FinishTrack(t);
    }

    method FinishTrack(t: nat)
      requires t in running && running[t] in ents && ents[running[t]].used > 0 && ents[running[t]].owner in qs
      modifies this
      ensures Snap() == Ops.EndTrack(old(Snap()), t) && running == old(running) - {t}
    {
      var e := running[t];
      running := running - {t};
      DropRef(e);
    }
  }

  /** A random position of a list of `n` items, from the two halves of the list in turn. */
  method RandomIndex(n: nat, rand: nat, split: bool) returns (i: nat, split': bool)
    requires n > 0
    ensures i < n && (n > 1 ==> split' == !split && (split <==> i >= n / 2))
    ensures n == 1 ==> split' == split
    ensures n > 1 && !split && rand < n / 2 ==> i == rand
    ensures n > 1 && split && rand < n - n / 2 ==> i == n / 2 + rand
  {
    if n == 1 { return 0, split; }
    i := if !split then Ops.RandomPlace(rand, n / 2) else n / 2 + Ops.RandomPlace(rand, n - n / 2);
    split' := !split;
  }

  /** No item is picked twice in a row, unless it is the only one. */
  method RandomTwice(n: nat, rand: nat, rand': nat, split: bool) returns (i: nat, j: nat)
    requires n > 0
    ensures i < n && j < n && (i == j <==> n == 1)
  {
    var split';
    i, split' := RandomIndex(n, rand, split);
    j, split' := RandomIndex(n, rand', split');
  }

  /** Items in random order. */
  method Shuffled(s: seq<nat>, random: seq<nat>) returns (items: seq<nat>)
    requires |random| >= |s|
    ensures items == Ops.ShuffleFrom(s, random, 0)
    ensures multiset(items) == multiset(s)
  {
    items := s;
    for i := 0 to |s|
      invariant |items| == |s| && Ops.ShuffleFrom(items, random, i) == Ops.ShuffleFrom(s, random, 0)
    {
      Ops.ShuffleStep(items, random, i);
      var n := Ops.RandomPlace(random[i], |items|);
      items := Ops.Exchanged(items, i, n);
    }
  }
}
