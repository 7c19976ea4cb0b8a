/** The operations of the queue module on its whole state, and what any sequence of them
    keeps: the reference counts, and a cursor that is never a freed entry. */
module PlayQueueOps {
  import opened Common
  import opened PlayQueue

  // ------------------------------------------------------------ operations

  function NewList(s: State): State {
    s.(qs := s.qs[s.next := List([], None, 0)], next := s.next + 1)
  }

  /** A new entry at a position of a list. */
  function Insert(s: State, q: nat, pos: nat): State
    requires q in s.qs && pos <= |s.qs[q].items|
  {
    s.(ents := s.ents[s.next := Entry(q, pos, 1)],
       qs := s.qs[q := s.qs[q].(items := InsertAt(s.qs[q].items, pos, s.next))], next := s.next + 1)
  }

  /** Remembers a position for an entry. */
  function SetIndex(s: State, e: nat, index: nat): State {
    if e in s.ents then s.(ents := s.ents[e := s.ents[e].(index := index)]) else s
  }

  /** The item at a position leaves the list. */
  function Detach(s: State, q: nat, pos: nat): State
    requires q in s.qs && pos < |s.qs[q].items|
  {
    var l := s.qs[q];
    s.(qs := s.qs[q := List(RemoveAt(l.items, pos), l.cursor, CursorAfter(l.cursorIndex, pos, |l.items|))])
  }

  function RemovePos(s: State, q: nat, pos: nat): State
    requires q in s.qs
  {
    if pos >= |s.qs[q].items| then s else
      var e := s.qs[q].items[pos];
      Unref(Detach(SetIndex(s, e, NO_INDEX), q, pos), e)
  }

  /** The state once one item is let go. */
  function LetOneGo(s: State, e: nat): State { Unref(SetIndex(s, e, NO_INDEX), e) }

  /** Items that have left their list are let go, first to last. */
  function LetGo(s: State, items: seq<nat>): State
    decreases |items|
  {
    if items == [] then s else LetGo(LetOneGo(s, items[0]), items[1..])
  }

  function Emptied(s: State, q: nat): State
    requires q in s.qs
  {
    s.(qs := s.qs[q := s.qs[q].(items := [])])
  }

  function Clear(s: State, q: nat): State
    requires q in s.qs
  {
    LetGo(Emptied(s, q), s.qs[q].items)
  }

  /** The count of an entry goes up. */
  function Raise(s: State, e: nat): State
    requires e in s.ents
  {
    s.(ents := s.ents[e := s.ents[e].(used := s.ents[e].used + 1)])
  }

  function Append(s: State, v: nat, e: nat): State
    requires v in s.qs && e in s.ents
  {
    var s' := Raise(s, e);
    s'.(qs := s.qs[v := s.qs[v].(items := s.qs[v].items + [e])])
  }

  /** Items that pass the filter are added to a view. */
  function FillView(s: State, v: nat, items: seq<nat>, keep: nat -> bool): State
    requires v in s.qs
    decreases |items|
  {
    if items == [] then s
    else if keep(items[0]) && items[0] in s.ents then FillView(Append(s, v, items[0]), v, items[1..], keep)
    else FillView(s, v, items[1..], keep)
  }

  function View(s: State, q: nat, keep: nat -> bool): State
    requires q in s.qs
  {
    FillView(NewList(s), s.next, s.qs[q].items, keep)
  }

  function RefAt(s: State, q: nat, pos: nat): State
    requires q in s.qs
  {
    if pos < |s.qs[q].items| && s.qs[q].items[pos] in s.ents then
      var e := s.qs[q].items[pos];
      Raise(s, e).(refs := s.refs + multiset{e})
    else s
  }

  function Release(s: State, e: nat): State { Unref(s.(refs := s.refs - multiset{e}), e) }

  function StartTrack(s: State, e: nat): State
    requires e in s.ents
  {
    Raise(s, e).(running := s.running[s.next := e], next := s.next + 1)
  }

  function EndTrack(s: State, t: nat): State
    requires t in s.running
  {
    Unref(s.(running := s.running - {t}), s.running[t])
  }

  /** The items of a list in another order. */
  function Reorder(s: State, q: nat, items: seq<nat>): State
    requires q in s.qs
  {
    s.(qs := s.qs[q := s.qs[q].(items := items)])
  }

  function SetCursor(s: State, q: nat, e: nat, index: nat): State
    requires q in s.qs
  {
    s.(qs := s.qs[q := s.qs[q].(cursor := Some(e), cursorIndex := index)])
  }

  // ------------------------------------------------------------ each keeps the counts

  ghost predicate Fresh(s: State) {
    && (forall e :: e in s.ents ==> e < s.next)
    && (forall q :: q in s.qs ==> q < s.next)
    && (forall t :: t in s.running ==> t < s.next)
  }

  lemma NewListKeeps(s: State)
    requires Counted(s, multiset{}) && Fresh(s)
    ensures Counted(NewList(s), multiset{})
  {
    var q, s' := s.next, NewList(s);
    forall p | p in s'.qs ensures ListLinked(s.ents, s'.qs[p].items) {
      if p != q { assert ListLinked(s.ents, s.qs[p].items); }
    }
    forall e | e in s.ents ensures Refs(s', e) == Refs(s, e) { assert Holders(s'.qs, e) == Holders(s.qs, e); }
  }

  lemma InsertLinked(ents: map<nat, Entry>, items: seq<nat>, pos: nat, e: nat, en: Entry)
    requires ListLinked(ents, items) && pos <= |items| && e !in ents
    ensures ListLinked(ents[e := en], InsertAt(items, pos, e)) && e !in items
    ensures forall y :: y in InsertAt(items, pos, e) <==> y in items || y == e
  {
    InsertDistinct(items, pos, e);
    InsertMembers(items, pos, e);
  }

  lemma InsertKeeps(s: State, q: nat, pos: nat)
    requires Counted(s, multiset{}) && Fresh(s) && q in s.qs && pos <= |s.qs[q].items|
    ensures Counted(Insert(s, q, pos), multiset{})
  {
    var e, en := s.next, Entry(q, pos, 1);
    assert ListLinked(s.ents, s.qs[q].items);
    InsertLinked(s.ents, s.qs[q].items, pos, e, en);
    NewEntry(s, e, en);
    JoinKeeps(s.(ents := s.ents[e := en]), q, Insert(s, q, pos).qs[q], e);
    NextKeeps(s.(ents := s.ents[e := en], qs := Insert(s, q, pos).qs), s.next + 1, multiset{});
  }

  lemma NextKeeps(s: State, next: nat, extra: multiset<nat>)
    requires Counted(s, extra)
    ensures Counted(s.(next := next), extra)
  {
    forall e | e in s.ents ensures Refs(s.(next := next), e) == Refs(s, e) { }
  }

  lemma SetIndexKeeps(s: State, e: nat, index: nat, extra: multiset<nat>)
    requires Counted(s, extra)
    ensures Counted(SetIndex(s, e, index), extra)
  {
    if e in s.ents {
      SetEntryLinked(s, e, s.ents[e].(index := index), extra);
      var s' := SetIndex(s, e, index);
      forall x | x in s'.ents ensures s'.ents[x].used == Refs(s', x) + extra[x] && s'.ents[x].used > 0 { }
    }
  }

  lemma RemoveLinked(ents: map<nat, Entry>, items: seq<nat>, pos: nat)
    requires ListLinked(ents, items) && pos < |items|
    ensures ListLinked(ents, RemoveAt(items, pos))
    ensures forall y :: y in RemoveAt(items, pos) <==> y in items && y != items[pos]
  {
    var r := RemoveAt(items, pos);
    assert forall k :: 0 <= k < |r| ==> r[k] == items[if k < pos then k else k + 1];
    forall y | y in items && y != items[pos] ensures y in r {
      var k :| 0 <= k < |items| && items[k] == y;
      assert r[if k < pos then k else k - 1] == y;
    }
  }

  lemma DetachKeeps(s: State, q: nat, pos: nat)
    requires Counted(s, multiset{}) && q in s.qs && pos < |s.qs[q].items|
    ensures Counted(Detach(s, q, pos), multiset{s.qs[q].items[pos]})
  {
    var items := s.qs[q].items;
    assert ListLinked(s.ents, items);
    RemoveLinked(s.ents, items, pos);
    LeaveKeeps(s, q, Detach(s, q, pos).qs[q], items[pos], multiset{});
    assert multiset{} + multiset{items[pos]} == multiset{items[pos]};
  }

  lemma UnrefAlone(s: State, e: nat)
    requires Counted(s, multiset{e})
    ensures Counted(Unref(s, e), multiset{})
    ensures e in s.ents && (e in Unref(s, e).ents <==> s.ents[e].used > 1)
  {
    assert multiset{} + multiset{e} == multiset{e};
    UnrefKeeps(s, e, multiset{});
  }

  lemma RemoveKeeps(s: State, q: nat, pos: nat)
    requires Counted(s, multiset{}) && q in s.qs
    ensures Counted(RemovePos(s, q, pos), multiset{})
  {
    if pos < |s.qs[q].items| {
      TakenOut(s, q, pos);
      UnrefAlone(Detach(SetIndex(s, s.qs[q].items[pos], NO_INDEX), q, pos), s.qs[q].items[pos]);
    }
  }

  /** The item out of its list, its reference still to be given up. */
  lemma TakenOut(s: State, q: nat, pos: nat)
    requires Counted(s, multiset{}) && q in s.qs && pos < |s.qs[q].items|
    ensures var e := s.qs[q].items[pos]; var s1 := Detach(SetIndex(s, e, NO_INDEX), q, pos);
      Counted(s1, multiset{e}) && e in s.ents && e in s1.ents && s1.ents[e].used == s.ents[e].used == Refs(s, e)
  {
    var e := s.qs[q].items[pos];
    assert ListLinked(s.ents, s.qs[q].items);
    SetIndexKeeps(s, e, NO_INDEX, multiset{});
    DetachKeeps(SetIndex(s, e, NO_INDEX), q, pos);
  }

  lemma {:induction false} DistinctCount(s: seq<nat>, e: nat)
    requires Distinct(s)
    ensures multiset(s)[e] == if e in s then 1 else 0
  {
    if s != [] {
      var r := s[..|s|-1];
      assert s == r + [s[|s|-1]];
      DistinctCount(r, e);
    }
  }

  /** All items leave a list at once: their references are to be given up. */
  lemma EmptiedKeeps(s: State, q: nat)
    requires Counted(s, multiset{}) && q in s.qs
    ensures Counted(Emptied(s, q), multiset(s.qs[q].items))
  {
    var items, s' := s.qs[q].items, Emptied(s, q);
    assert ListLinked(s.ents, items);
    SetListLinked(s, q, s'.qs[q], multiset{});
    forall e | e in multiset(items) ensures e in s.ents { assert e in items; }
    forall e | e in s.ents ensures Refs(s', e) + multiset(items)[e] == Refs(s, e) { EmptiedCount(s, q, e); }
  }

  lemma EmptiedCount(s: State, q: nat, e: nat)
    requires q in s.qs && Distinct(s.qs[q].items)
    ensures |Holders(Emptied(s, q).qs, e)| + multiset(s.qs[q].items)[e] == |Holders(s.qs, e)|
  {
    DistinctCount(s.qs[q].items, e);
    HoldersEmptied(s.qs, q, e);
  }

  lemma HoldersEmptied(qs: map<nat, List>, q: nat, e: nat)
    requires q in qs
    ensures |Holders(qs[q := qs[q].(items := [])], e)| == |Holders(qs, e)| - if e in qs[q].items then 1 else 0
  {
    var a, b := Holders(qs, e), Holders(qs[q := qs[q].(items := [])], e);
    assert b == a - {q};
    assert q in a <==> e in qs[q].items;
  }

  lemma LetOneGoKeeps(s: State, items: seq<nat>)
    requires items != [] && Counted(s, multiset(items))
    ensures var e := items[0]; e in s.ents && s.ents[e].used > 0 && s.ents[e].owner in s.qs
    ensures Counted(LetOneGo(s, items[0]), multiset(items[1..]))
  {
    var e, rest := items[0], items[1..];
    assert items == [e] + rest;
    assert multiset(items) == multiset(rest) + multiset{e};
    SetIndexKeeps(s, e, NO_INDEX, multiset(items));
    UnrefKeeps(SetIndex(s, e, NO_INDEX), e, multiset(rest));
  }

  lemma {:induction false} LetGoKeeps(s: State, items: seq<nat>)
    requires Counted(s, multiset(items))
    ensures Counted(LetGo(s, items), multiset{})
    decreases |items|
  {
    if items == [] {
      assert multiset(items) == multiset{};
    } else {
      LetOneGoKeeps(s, items);
      LetGoKeeps(LetOneGo(s, items[0]), items[1..]);
    }
  }

  lemma AppendKeeps(s: State, v: nat, e: nat)
    requires Counted(s, multiset{}) && v in s.qs && e in s.ents && e !in s.qs[v].items
    ensures Counted(Append(s, v, e), multiset{})
  {
    RaiseCount(s, e);
    assert ListLinked(s.ents, s.qs[v].items);
    JoinKeeps(Raise(s, e), v, Append(s, v, e).qs[v], e);
  }

  /** The items that pass the filter, in order. */
  function Filtered(s: seq<nat>, keep: nat -> bool): seq<nat>
    decreases |s|
  {
    if s == [] then [] else (if keep(s[0]) then [s[0]] else []) + Filtered(s[1..], keep)
  }

  /** That is: of one item, itself or nothing; and of two parts put together, those of the first
      and then those of the second. */
  lemma FilteredOne(x: nat, keep: nat -> bool)
    ensures Filtered([x], keep) == if keep(x) then [x] else []
  {
    assert [x][1..] == [];
  }

  lemma {:induction false} FilteredParts(a: seq<nat>, b: seq<nat>, keep: nat -> bool)
    ensures Filtered(a + b, keep) == Filtered(a, keep) + Filtered(b, keep)
    decreases |a|
  {
    if a == [] {
      assert a + b == b;
    } else {
      FilteredParts(a[1..], b, keep);
      var x, more, rest := if keep(a[0]) then [a[0]] else [], Filtered(a[1..], keep), Filtered(b, keep);
      assert (a + b)[1..] == a[1..] + b && (a + b)[0] == a[0];
      assert Filtered(a + b, keep) == x + Filtered(a[1..] + b, keep);
      assert x + (more + rest) == (x + more) + rest;
    }
  }

  /** Items yet to be looked at exist, each once, and are not in the view. */
  ghost predicate ToFill(s: State, v: nat, items: seq<nat>) {
    v in s.qs && ListLinked(s.ents, items) && forall k :: 0 <= k < |items| ==> items[k] !in s.qs[v].items
  }

  lemma FillStep(s: State, v: nat, items: seq<nat>)
    requires ToFill(s, v, items) && items != []
    ensures ToFill(s, v, items[1..]) && ToFill(Append(s, v, items[0]), v, items[1..])
  {
    var rest, s1 := items[1..], Append(s, v, items[0]);
    assert forall k :: 0 <= k < |rest| ==> rest[k] == items[k+1];
    forall k | 0 <= k < |rest| ensures rest[k] !in s1.qs[v].items { }
  }

  lemma {:induction false} FillKeeps(s: State, v: nat, items: seq<nat>, keep: nat -> bool)
    requires Counted(s, multiset{}) && ToFill(s, v, items)
    ensures Counted(FillView(s, v, items, keep), multiset{})
    decreases |items|
  {
    if items != [] {
      FillStep(s, v, items);
      if keep(items[0]) {
        AppendKeeps(s, v, items[0]);
        FillKeeps(Append(s, v, items[0]), v, items[1..], keep);
      } else {
        FillKeeps(s, v, items[1..], keep);
      }
    }
  }

  lemma {:induction false} FillItems(s: State, v: nat, items: seq<nat>, keep: nat -> bool)
    requires ToFill(s, v, items)
    ensures var s' := FillView(s, v, items, keep);
      v in s'.qs && s'.qs[v] == s.qs[v].(items := s.qs[v].items + Filtered(items, keep))
    decreases |items|
  {
    if items != [] {
      FillStep(s, v, items);
      var e, rest := items[0], items[1..];
      var base, more := s.qs[v].items, Filtered(rest, keep);
      if keep(e) {
        FillItems(Append(s, v, e), v, rest, keep);
        assert Filtered(items, keep) == [e] + more;
        assert base + [e] + more == base + ([e] + more);
      } else {
        FillItems(s, v, rest, keep);
        assert Filtered(items, keep) == [] + more == more;
      }
    }
  }

  lemma ViewKeeps(s: State, q: nat, keep: nat -> bool)
    requires Counted(s, multiset{}) && Fresh(s) && q in s.qs
    ensures Counted(View(s, q, keep), multiset{})
    ensures var s' := View(s, q, keep);
      s.next in s'.qs && s'.qs[s.next] == List(Filtered(s.qs[q].items, keep), None, 0)
  {
    NewListKeeps(s);
    assert ListLinked(s.ents, s.qs[q].items);
    FillKeeps(NewList(s), s.next, s.qs[q].items, keep);
    ViewItems(s, q, keep);
  }

  lemma ViewItems(s: State, q: nat, keep: nat -> bool)
    requires q in s.qs && ListLinked(s.ents, s.qs[q].items)
    ensures var s' := View(s, q, keep);
      s.next in s'.qs && s'.qs[s.next] == List(Filtered(s.qs[q].items, keep), None, 0)
  {
    var items := s.qs[q].items;
    FillItems(NewList(s), s.next, items, keep);
    assert [] + Filtered(items, keep) == Filtered(items, keep);
  }

  /** Filling a view touches no other list. */
  lemma {:induction false} FillLists(s: State, v: nat, items: seq<nat>, keep: nat -> bool)
    requires v in s.qs
    ensures var s' := FillView(s, v, items, keep);
      s'.qs.Keys == s.qs.Keys && forall p :: p in s.qs && p != v ==> s'.qs[p] == s.qs[p]
    decreases |items|
  {
    if items != [] {
      if keep(items[0]) && items[0] in s.ents {
        FillLists(Append(s, v, items[0]), v, items[1..], keep);
      } else {
        FillLists(s, v, items[1..], keep);
      }
    }
  }

  lemma RefAtKeeps(s: State, q: nat, pos: nat)
    requires Counted(s, multiset{}) && q in s.qs
    ensures Counted(RefAt(s, q, pos), multiset{})
  {
    if pos < |s.qs[q].items| && s.qs[q].items[pos] in s.ents {
      var e := s.qs[q].items[pos];
      RaiseCount(s, e);
      RefKeeps(Raise(s, e), e);
    }
  }

  lemma StartTrackKeeps(s: State, e: nat)
    requires Counted(s, multiset{}) && Fresh(s) && e in s.ents
    ensures Counted(StartTrack(s, e), multiset{})
  {
    RaiseCount(s, e);
    StartKeeps(Raise(s, e), s.next, e);
    NextKeeps(Raise(s, e).(running := s.running[s.next := e]), s.next + 1, multiset{});
  }

  lemma ReorderDistinct(items: seq<nat>, r: seq<nat>)
    requires Distinct(items) && multiset(r) == multiset(items)
    ensures Distinct(r) && forall y :: y in r <==> y in items
  {
    forall i, j | 0 <= i < j < |r| ensures r[i] != r[j] {
      DistinctCount(items, r[j]);
      assert r == r[..j] + [r[j]] + r[j+1..];
      assert r[i] in r[..j];
    }
    forall y ensures y in r <==> y in items { assert y in multiset(r) <==> y in multiset(items); }
  }

  lemma ReorderKeeps(s: State, q: nat, items: seq<nat>)
    requires Counted(s, multiset{}) && q in s.qs && multiset(items) == multiset(s.qs[q].items)
    ensures Counted(Reorder(s, q, items), multiset{})
  {
    assert ListLinked(s.ents, s.qs[q].items);
    ReorderDistinct(s.qs[q].items, items);
    forall k | 0 <= k < |items| ensures items[k] in s.ents { assert items[k] in s.qs[q].items; }
    SetCursorKeeps(s, q, Reorder(s, q, items).qs[q], multiset{});
  }

  /** Two items change places. */
  function Exchanged(items: seq<nat>, i: nat, n: nat): (r: seq<nat>)
    requires i < |items| && n < |items|
    ensures |r| == |items| && r[i] == items[n] && r[n] == items[i]
    ensures forall k :: 0 <= k < |items| && k != i && k != n ==> r[k] == items[k]
  {
    items[i := items[n]][n := items[i]]
  }

  lemma ExchangedPermutes(items: seq<nat>, i: nat, n: nat)
    requires i < |items| && n < |items|
    ensures multiset(Exchanged(items, i, n)) == multiset(items)
  {
  }

  /** A random place among `n`, any of which may come out. */
  function RandomPlace(random: nat, n: nat): (r: nat)
    requires n > 0
    ensures r < n && (random < n ==> r == random)
  {
    random % n
  }

  /** Items from `i` on change places with items at random. */
  function ShuffleFrom(items: seq<nat>, random: seq<nat>, i: nat): (r: seq<nat>)
    requires |random| >= |items|
    ensures |r| == |items| && multiset(r) == multiset(items)
    decreases |items| - i
  {
    if i >= |items| then items else
      ExchangedPermutes(items, i, RandomPlace(random[i], |items|));
      ShuffleFrom(Exchanged(items, i, RandomPlace(random[i], |items|)), random, i + 1)
  }

  /** Every order can come out: the item wanted at each place from `i` on is found there or behind
      it, and may be the one that place exchanges with. */
  lemma {:induction false} EveryOrder(items: seq<nat>, wanted: seq<nat>, chosen: seq<nat>) returns (random: seq<nat>)
    requires |chosen| <= |items| == |wanted|
    requires items[..|chosen|] == wanted[..|chosen|] && multiset(items) == multiset(wanted)
    ensures |random| == |items| && chosen <= random && ShuffleFrom(items, random, |chosen|) == wanted
    decreases |items| - |chosen|
  {
    var i := |chosen|;
    if i == |items| {
      random := chosen;
      assert items == items[..i] == wanted[..i] == wanted;
    } else {
      var n := WantedAt(items, wanted, i);
      ExchangedPermutes(items, i, n);
      ExchangedTo(items, wanted, i, n);
      random := EveryOrder(Exchanged(items, i, n), wanted, chosen + [n]);
      assert random[i] == (chosen + [n])[i] == n;
      ShuffleStep(items, random, i);
    }
  }

  lemma ShuffleStep(items: seq<nat>, random: seq<nat>, i: nat)
    requires i < |items| <= |random|
    ensures var n := RandomPlace(random[i], |items|);
      ShuffleFrom(items, random, i) == ShuffleFrom(Exchanged(items, i, n), random, i + 1)
  {
  }

  /** Where the item wanted at `i` is. */
  lemma WantedAt(items: seq<nat>, wanted: seq<nat>, i: nat) returns (n: nat)
    requires i < |items| == |wanted| && items[..i] == wanted[..i] && multiset(items) == multiset(wanted)
    ensures i <= n < |items| && items[n] == wanted[i]
  {
    assert items == items[..i] + items[i..] && wanted == wanted[..i] + wanted[i..];
    SameRest(items[..i], items[i..], wanted[i..]);
    assert wanted[i] == wanted[i..][0];
    assert wanted[i] in multiset(items[i..]);
    var k :| 0 <= k < |items[i..]| && items[i..][k] == wanted[i];
    n := i + k;
  }

  lemma SameRest(a: seq<nat>, b: seq<nat>, c: seq<nat>)
    requires multiset(a + b) == multiset(a + c)
    ensures multiset(b) == multiset(c)
  {
    assert multiset(a + b) == multiset(a) + multiset(b);
    assert multiset(a + c) == multiset(a) + multiset(c);
    assert multiset(b) == multiset(a + b) - multiset(a);
    assert multiset(c) == multiset(a + c) - multiset(a);
  }

  lemma ExchangedTo(items: seq<nat>, wanted: seq<nat>, i: nat, n: nat)
    requires i <= n < |items| == |wanted| && items[..i] == wanted[..i] && items[n] == wanted[i]
    ensures Exchanged(items, i, n)[..i + 1] == wanted[..i + 1]
  {
    var r := Exchanged(items, i, n);
    forall j | 0 <= j <= i ensures r[j] == wanted[j] {
      if j < i { assert items[j] == items[..i][j] == wanted[..i][j]; }
    }
  }

  // ------------------------------------------------------------ what becomes of the lists

  /** The same lists with the same items; cursors may differ. */
  ghost predicate SameLists(a: State, b: State) {
    && a.qs.Keys == b.qs.Keys
    && forall q :: q in a.qs ==> a.qs[q].items == b.qs[q].items && a.qs[q].cursorIndex == b.qs[q].cursorIndex
  }

  lemma {:induction false} LetGoLists(s: State, items: seq<nat>)
    ensures SameLists(s, LetGo(s, items))
    decreases |items|
  {
    if items != [] {
      UnrefLists(SetIndex(s, items[0], NO_INDEX), items[0]);
      LetGoLists(LetOneGo(s, items[0]), items[1..]);
    }
  }

  /** Items let go that are still referred to are marked as not listed; all others keep what
      they remember. */
  lemma {:induction false} LetGoMarks(s: State, items: seq<nat>)
    requires forall k :: 0 <= k < |items| ==> items[k] in s.ents ==> s.ents[items[k]].owner in s.qs
    ensures var s' := LetGo(s, items);
      forall e :: e in s'.ents ==>
        e in s.ents && s'.ents[e].index == if e in items then NO_INDEX else s.ents[e].index
    decreases |items|
  {
    if items != [] {
      var s1 := LetOneGo(s, items[0]);
      LetGoMarks(s1, items[1..]);
      assert items == [items[0]] + items[1..];
    }
  }

  /** Clearing empties one list and leaves the items of all others; what else referred to an
      item keeps it alive, and nothing else does. */
  lemma ClearEffect(s: State, q: nat)
    requires Counted(s, multiset{}) && q in s.qs
    ensures SameLists(Clear(s, q), Emptied(s, q))
    ensures forall e :: e in Clear(s, q).ents <==> Refs(Clear(s, q), e) > 0
    ensures var s' := Clear(s, q); forall e :: e in s'.ents ==>
      e in s.ents && s'.ents[e].index == if e in s.qs[q].items then NO_INDEX else s.ents[e].index
  {
    assert ListLinked(s.ents, s.qs[q].items);
    LetGoMarks(Emptied(s, q), s.qs[q].items);
    LetGoLists(Emptied(s, q), s.qs[q].items);
    EmptiedKeeps(s, q);
    LetGoKeeps(Emptied(s, q), s.qs[q].items);
    AliveIffReferred(Clear(s, q));
  }

  lemma AliveIffReferred(s: State)
    requires Counted(s, multiset{})
    ensures forall e :: e in s.ents <==> Refs(s, e) > 0
  {
    forall e ensures e in s.ents <==> Refs(s, e) > 0 {
      if Refs(s, e) > 0 { ReferredExists(s, e); }
    }
  }

  lemma UnrefLists(s: State, e: nat)
    ensures SameLists(s, Unref(s, e))
  {
  }

  /** Removing takes out the item at the position and no other, from that list only. */
  lemma RemoveLists(s: State, q: nat, pos: nat)
    requires q in s.qs && pos < |s.qs[q].items|
    ensures var s', items := RemovePos(s, q, pos), s.qs[q].items;
      && s'.qs.Keys == s.qs.Keys && s'.qs[q].items == items[..pos] + items[pos+1..]
      && (forall p :: p in s.qs && p != q ==>
            s'.qs[p].items == s.qs[p].items && s'.qs[p].cursorIndex == s.qs[p].cursorIndex)
  {
    var e := s.qs[q].items[pos];
    UnrefLists(Detach(SetIndex(s, e, NO_INDEX), q, pos), e);
  }

  /** The removed entry is freed exactly if nothing but the list referred to it. */
  lemma RemoveFrees(s: State, q: nat, pos: nat)
    requires Counted(s, multiset{}) && q in s.qs && pos < |s.qs[q].items|
    ensures var e := s.qs[q].items[pos]; e in s.ents && (e !in RemovePos(s, q, pos).ents <==> Refs(s, e) == 1)
  {
    TakenOut(s, q, pos);
    UnrefAlone(Detach(SetIndex(s, s.qs[q].items[pos], NO_INDEX), q, pos), s.qs[q].items[pos]);
  }

  /** An ending track, or a caller that releases its reference, frees the entry exactly if
      nothing else refers to it. */
  lemma EndFrees(s: State, t: nat)
    requires Counted(s, multiset{}) && t in s.running
    ensures var e := s.running[t]; e in s.ents && (e !in EndTrack(s, t).ents <==> Refs(s, e) == 1)
  {
    EndKeeps(s, t);
    UnrefAlone(s.(running := s.running - {t}), s.running[t]);
  }

  /** Neither touches a list. */
  lemma EndLists(s: State, t: nat)
    requires t in s.running
    ensures SameLists(s, EndTrack(s, t))
  {
    UnrefLists(s.(running := s.running - {t}), s.running[t]);
  }

  lemma ReleaseLists(s: State, e: nat)
    ensures SameLists(s, Release(s, e))
  {
    UnrefLists(s.(refs := s.refs - multiset{e}), e);
  }

  lemma ReleaseFrees(s: State, e: nat)
    requires Counted(s, multiset{}) && e in s.refs
    ensures e in s.ents && (e !in Release(s, e).ents <==> Refs(s, e) == 1)
  {
    ReleaseKeeps(s, e);
    UnrefAlone(s.(refs := s.refs - multiset{e}), e);
  }

  // ------------------------------------------------------------ runs

  datatype Op =
    | DoNewList
    | DoInsert(q: nat, pos: nat)
    | DoRemove(q: nat, pos: nat)
    | DoClear(q: nat)
    | DoView(q: nat, keep: nat -> bool)
    | DoRef(q: nat, pos: nat)
    | DoRelease(e: nat)
    | DoStart(e: nat)
    | DoEnd(t: nat)
    | DoSetIndex(e: nat, index: nat)
    | DoReorder(q: nat, items: seq<nat>)
    | DoSetCursor(q: nat, e: nat, index: nat)

  /** Lists are not destroyed; callers release what they hold and play what is there. */
  ghost predicate Enabled(s: State, op: Op) {
    match op
    case DoNewList => true
    case DoInsert(q, pos) => q in s.qs && pos <= |s.qs[q].items|
    case DoRemove(q, pos) => q in s.qs
    case DoClear(q) => q in s.qs
    case DoView(q, keep) => q in s.qs
    case DoRef(q, pos) => q in s.qs
    case DoRelease(e) => e in s.refs
    case DoStart(e) => e in s.ents
    case DoEnd(t) => t in s.running
    case DoSetIndex(e, index) => true
    case DoReorder(q, items) => q in s.qs && multiset(items) == multiset(s.qs[q].items)
    case DoSetCursor(q, e, index) => q in s.qs && e in s.ents
  }

  ghost function Apply(s: State, op: Op): State
    requires Enabled(s, op)
  {
    match op
    case DoNewList => NewList(s)
    case DoInsert(q, pos) => Insert(s, q, pos)
    case DoRemove(q, pos) => RemovePos(s, q, pos)
    case DoClear(q) => Clear(s, q)
    case DoView(q, keep) => View(s, q, keep)
    case DoRef(q, pos) => RefAt(s, q, pos)
    case DoRelease(e) => Release(s, e)
    case DoStart(e) => StartTrack(s, e)
    case DoEnd(t) => EndTrack(s, t)
    case DoSetIndex(e, index) => SetIndex(s, e, index)
    case DoReorder(q, items) => Reorder(s, q, items)
    case DoSetCursor(q, e, index) => SetCursor(s, q, e, index)
  }

  lemma ApplyCounts(s: State, op: Op)
    requires Counted(s, multiset{}) && Fresh(s) && Enabled(s, op)
    ensures Counted(Apply(s, op), multiset{})
  {
    match op
    case DoNewList => NewListKeeps(s);
    case DoInsert(q, pos) => InsertKeeps(s, q, pos);
    case DoRemove(q, pos) => RemoveKeeps(s, q, pos);
    case DoClear(q) => EmptiedKeeps(s, q); LetGoKeeps(Emptied(s, q), s.qs[q].items);
    case DoView(q, keep) => ViewKeeps(s, q, keep);
    case DoRef(q, pos) => RefAtKeeps(s, q, pos);
    case DoRelease(e) => ReleaseKeeps(s, e); UnrefAlone(s.(refs := s.refs - multiset{e}), e);
    case DoStart(e) => StartTrackKeeps(s, e);
    case DoEnd(t) => EndKeeps(s, t); UnrefAlone(s.(running := s.running - {t}), s.running[t]);
    case DoSetIndex(e, index) => SetIndexKeeps(s, e, index, multiset{});
    case DoReorder(q, items) => ReorderKeeps(s, q, items);
    case DoSetCursor(q, e, index) => CursorKeeps(s, q, e, index);
  }

  lemma CursorKeeps(s: State, q: nat, e: nat, index: nat)
    requires Counted(s, multiset{}) && q in s.qs
    ensures Counted(SetCursor(s, q, e, index), multiset{})
  {
    assert ListLinked(s.ents, s.qs[q].items);
    SetCursorKeeps(s, q, SetCursor(s, q, e, index).qs[q], multiset{});
  }

  lemma UnrefFresh(s: State, e: nat)
    requires Fresh(s)
    ensures Fresh(Unref(s, e))
  {
  }

  lemma {:induction false} LetGoFresh(s: State, items: seq<nat>)
    requires Fresh(s)
    ensures Fresh(LetGo(s, items))
    decreases |items|
  {
    if items != [] { LetGoFresh(Unref(SetIndex(s, items[0], NO_INDEX), items[0]), items[1..]); }
  }

  lemma {:induction false} FillFresh(s: State, v: nat, items: seq<nat>, keep: nat -> bool)
    requires Fresh(s) && v in s.qs
    ensures Fresh(FillView(s, v, items, keep))
    decreases |items|
  {
    if items != [] {
      if keep(items[0]) && items[0] in s.ents {
        FillFresh(Append(s, v, items[0]), v, items[1..], keep);
      } else {
        FillFresh(s, v, items[1..], keep);
      }
    }
  }

  lemma RemoveFresh(s: State, q: nat, pos: nat)
    requires Fresh(s) && q in s.qs
    ensures Fresh(RemovePos(s, q, pos))
  {
    if pos < |s.qs[q].items| {
      UnrefFresh(Detach(SetIndex(s, s.qs[q].items[pos], NO_INDEX), q, pos), s.qs[q].items[pos]);
    }
  }

  lemma ApplyFresh(s: State, op: Op)
    requires Fresh(s) && Enabled(s, op)
    ensures Fresh(Apply(s, op))
  {
    match op
    case DoNewList =>
    case DoInsert(q, pos) =>
    case DoRemove(q, pos) => RemoveFresh(s, q, pos);
    case DoClear(q) => LetGoFresh(Emptied(s, q), s.qs[q].items);
    case DoView(q, keep) => FillFresh(NewList(s), s.next, s.qs[q].items, keep);
    case DoRef(q, pos) =>
    case DoRelease(e) => UnrefFresh(s.(refs := s.refs - multiset{e}), e);
    case DoStart(e) =>
    case DoEnd(t) => UnrefFresh(s.(running := s.running - {t}), s.running[t]);
    case DoSetIndex(e, index) =>
    case DoReorder(q, items) =>
    case DoSetCursor(q, e, index) =>
  }

  /** Counts are right and new numbers are new. */
  ghost predicate Sound(s: State) { Counted(s, multiset{}) && Fresh(s) }

  /** Every operation keeps that. */
  lemma ApplySound(s: State, op: Op)
    requires Sound(s) && Enabled(s, op)
    ensures Sound(Apply(s, op))
  {
    ApplyCounts(s, op);
    ApplyFresh(s, op);
  }

  // ------------------------------------------------------------ cursors

  lemma SetCursorSound(s: State, q: nat, e: nat, index: nat)
    requires Sound(s) && q in s.qs && e in s.ents
    ensures Sound(SetCursor(SetIndex(s, e, index), q, e, index))
  {
    ApplySound(s, DoSetIndex(e, index));
    ApplySound(SetIndex(s, e, index), DoSetCursor(q, e, index));
  }

  /** The cursor of a list is only ever set to an entry of that list's own. */
  ghost predicate PlaysOwn(s: State, op: Op) {
    op.DoSetCursor? ==> op.e in s.ents && s.ents[op.e].owner == op.q
  }

  lemma UnrefOwn(s: State, e: nat)
    requires OwnCursors(s)
    ensures OwnCursors(Unref(s, e))
  {
  }

  lemma SetIndexOwn(s: State, e: nat, index: nat)
    requires OwnCursors(s)
    ensures OwnCursors(SetIndex(s, e, index))
  {
  }

  lemma {:induction false} LetGoOwn(s: State, items: seq<nat>)
    requires OwnCursors(s)
    ensures OwnCursors(LetGo(s, items))
    decreases |items|
  {
    if items != [] {
      SetIndexOwn(s, items[0], NO_INDEX);
      UnrefOwn(SetIndex(s, items[0], NO_INDEX), items[0]);
      LetGoOwn(Unref(SetIndex(s, items[0], NO_INDEX), items[0]), items[1..]);
    }
  }

  lemma {:induction false} FillOwn(s: State, v: nat, items: seq<nat>, keep: nat -> bool)
    requires OwnCursors(s) && v in s.qs
    ensures OwnCursors(FillView(s, v, items, keep))
    decreases |items|
  {
    if items != [] {
      if keep(items[0]) && items[0] in s.ents {
        FillOwn(Append(s, v, items[0]), v, items[1..], keep);
      } else {
        FillOwn(s, v, items[1..], keep);
      }
    }
  }

  lemma RemoveOwn(s: State, q: nat, pos: nat)
    requires OwnCursors(s) && q in s.qs
    ensures OwnCursors(RemovePos(s, q, pos))
  {
    if pos < |s.qs[q].items| {
      var e := s.qs[q].items[pos];
      SetIndexOwn(s, e, NO_INDEX);
      var s1 := Detach(SetIndex(s, e, NO_INDEX), q, pos);
      assert OwnCursors(s1);
      UnrefOwn(s1, e);
    }
  }

  lemma ApplyOwn(s: State, op: Op)
    requires OwnCursors(s) && Fresh(s) && Enabled(s, op) && PlaysOwn(s, op)
    ensures OwnCursors(Apply(s, op))
  {
    match op
    case DoNewList =>
    case DoInsert(q, pos) =>
    case DoRemove(q, pos) => RemoveOwn(s, q, pos);
    case DoClear(q) => LetGoOwn(Emptied(s, q), s.qs[q].items);
    case DoView(q, keep) => FillOwn(NewList(s), s.next, s.qs[q].items, keep);
    case DoRef(q, pos) =>
    case DoRelease(e) => UnrefOwn(s.(refs := s.refs - multiset{e}), e);
    case DoStart(e) =>
    case DoEnd(t) => UnrefOwn(s.(running := s.running - {t}), s.running[t]);
    case DoSetIndex(e, index) => SetIndexOwn(s, e, index);
    case DoReorder(q, items) =>
    case DoSetCursor(q, e, index) =>
  }

  // ------------------------------------------------------------ the results

  ghost predicate LegalRun(s: State, ops: seq<Op>)
    decreases |ops|
  {
    ops == [] || (Enabled(s, ops[0]) && LegalRun(Apply(s, ops[0]), ops[1..]))
  }

  ghost function After(s: State, ops: seq<Op>): State
    requires LegalRun(s, ops)
    decreases |ops|
  {
    if ops == [] then s else After(Apply(s, ops[0]), ops[1..])
  }

  ghost predicate AllPlayOwn(s: State, ops: seq<Op>)
    requires LegalRun(s, ops)
    decreases |ops|
  {
    ops == [] || (PlaysOwn(s, ops[0]) && AllPlayOwn(Apply(s, ops[0]), ops[1..]))
  }

  const EMPTY := State(map[], map[], map[], multiset{}, 0)

  lemma EmptySound()
    ensures Sound(EMPTY) && OwnCursors(EMPTY)
  {
  }

  /** Reference conservation in every run: an entry exists exactly as long as lists, views,
      tracks and callers refer to it, and its count is their number. */
  lemma {:induction false} RunsConserve(s: State, ops: seq<Op>)
    requires Counted(s, multiset{}) && Fresh(s) && LegalRun(s, ops)
    ensures var s' := After(s, ops); Counted(s', multiset{}) && Fresh(s')
    ensures var s' := After(s, ops); forall e :: e in s'.ents ==> s'.ents[e].used == Refs(s', e) > 0
    ensures var s' := After(s, ops); forall e :: Refs(s', e) > 0 ==> e in s'.ents
    decreases |ops|
  {
    if ops == [] {
      forall e | Refs(s, e) > 0 ensures e in s.ents { ReferredExists(s, e); }
    } else {
      ApplyCounts(s, ops[0]);
      ApplyFresh(s, ops[0]);
      RunsConserve(Apply(s, ops[0]), ops[1..]);
    }
  }

  /** From empty queues on. */
  lemma RunsFromEmpty(ops: seq<Op>)
    requires LegalRun(EMPTY, ops)
    ensures var s := After(EMPTY, ops); forall e :: e in s.ents <==> Refs(s, e) > 0
    ensures var s := After(EMPTY, ops); forall e :: e in s.ents ==> s.ents[e].used == Refs(s, e)
    ensures AllPlayOwn(EMPTY, ops) ==> CursorsLive(After(EMPTY, ops))
  {
    EmptySound();
    RunsConserve(EMPTY, ops);
    if AllPlayOwn(EMPTY, ops) { RunsKeepCursors(EMPTY, ops); }
  }

  lemma ReferredExists(s: State, e: nat)
    requires Linked(s, multiset{}) && Refs(s, e) > 0
    ensures e in s.ents
  {
    if Holders(s.qs, e) != {} {
      var q :| q in Holders(s.qs, e);
      assert ListLinked(s.ents, s.qs[q].items);
    } else if TracksOf(s.running, e) != {} {
      var t :| t in TracksOf(s.running, e);
    } else {
      assert e in s.refs;
    }
  }

  /** In every run in which lists are played by their own entries no cursor is a freed one. */
  lemma {:induction false} RunsKeepCursors(s: State, ops: seq<Op>)
    requires OwnCursors(s) && Fresh(s) && LegalRun(s, ops) && AllPlayOwn(s, ops)
    ensures OwnCursors(After(s, ops)) && CursorsLive(After(s, ops))
    decreases |ops|
  {
    if ops != [] {
      ApplyOwn(s, ops[0]);
      ApplyFresh(s, ops[0]);
      RunsKeepCursors(Apply(s, ops[0]), ops[1..]);
    }
  }

  // ------------------------------------------------------------ states that occur

  lemma {:induction false} RunOn(s: State, a: seq<Op>, b: seq<Op>)
    requires LegalRun(s, a) && LegalRun(After(s, a), b)
    ensures LegalRun(s, a + b) && After(s, a + b) == After(After(s, a), b)
    decreases |a|
  {
    if a == [] {
      assert a + b == b;
    } else {
      assert (a + b)[1..] == a[1..] + b;
      RunOn(Apply(s, a[0]), a[1..], b);
    }
  }

  lemma RunOne(s: State, op: Op)
    requires Enabled(s, op)
    ensures LegalRun(s, [op]) && After(s, [op]) == Apply(s, op)
  {
    var t, none := Apply(s, op), [op][1..];
    assert none == [] && LegalRun(t, none) && After(t, none) == t;
    assert After(s, [op]) == After(t, none);
  }

  /** Some run from empty queues leads to the state. */
  ghost predicate Reached(s: State) { exists ops :: LegalRun(EMPTY, ops) && After(EMPTY, ops) == s }

  lemma ReachedStart()
    ensures Reached(EMPTY)
  {
    assert LegalRun(EMPTY, []) && After(EMPTY, []) == EMPTY;
  }

  lemma ReachedStep(s: State, op: Op)
    requires Reached(s) && Enabled(s, op)
    ensures Reached(Apply(s, op))
  {
    var ops :| LegalRun(EMPTY, ops) && After(EMPTY, ops) == s;
    RunOne(s, op);
    RunOn(EMPTY, ops, [op]);
  }

  /** A list of two entries, 1 and 2. */
  lemma TwoListed() returns (s: State)
    ensures Reached(s) && s.running == map[] && s.refs == multiset{} && s.next == 3
    ensures s.ents == map[1 := Entry(0, 0, 1), 2 := Entry(0, 1, 1)] && s.qs == map[0 := List([1, 2], None, 0)]
  {
    ReachedStart();
    ReachedStep(EMPTY, DoNewList);
    var s1 := NewList(EMPTY);
    ReachedStep(s1, DoInsert(0, 0));
    var s2 := Insert(s1, 0, 0);
    assert s2.qs[0].items == [1];
    ReachedStep(s2, DoInsert(0, 1));
    s := Insert(s2, 0, 1);
    assert s.qs[0].items == [1, 2];
  }

  lemma FillOne(s: State, v: nat, items: seq<nat>, keep: nat -> bool)
    requires v in s.qs && items != [] && items[0] in s.ents
    ensures FillView(s, v, items, keep) ==
      FillView(if keep(items[0]) then Append(s, v, items[0]) else s, v, items[1..], keep)
    ensures FillView(s, v, [], keep) == s
  {
  }

  function Only(x: nat): nat -> bool { e => e == x }

  /** The same with a view of entry 1. */
  lemma ViewOfOne() returns (s: State)
    ensures Reached(s) && s.running == map[] && s.refs == multiset{} && s.next == 4
    ensures s.ents == map[1 := Entry(0, 0, 2), 2 := Entry(0, 1, 1)]
    ensures s.qs == map[0 := List([1, 2], None, 0), 3 := List([1], None, 0)]
  {
    var s3 := TwoListed();
    ReachedStep(s3, DoView(0, Only(1)));
    s := View(s3, 0, Only(1));
    var s4 := Append(NewList(s3), 3, 1);
    FillOne(NewList(s3), 3, [1, 2], Only(1));
    FillOne(s4, 3, [2], Only(1));
    assert [1, 2][1..] == [2] && [2][1..] == [];
    assert s == s4;
    assert s.qs[3].items == [] + [1] == [1];
  }

  /** The view is played by position, then the entry removed from both lists: the view's
      cursor is a freed entry. */
  lemma ViewCursorDies() returns (s: State)
    ensures Reached(s) && !CursorsLive(s)
  {
    var s0 := ViewOfOne();
    ReachedStep(s0, DoSetCursor(3, 1, 0));
    var s1 := SetCursor(s0, 3, 1, 0);
    ReachedStep(s1, DoRemove(0, 0));
    var s2 := RemovePos(s1, 0, 0);
    assert s2.ents[1] == Entry(0, NO_INDEX, 1) && s2.qs[3] == List([1], Some(1), 0);
    ReachedStep(s2, DoRemove(3, 0));
    s := RemovePos(s2, 3, 0);
    assert 1 !in s.ents && s.qs[3].cursor == Some(1);
  }
}
