/** Play queues: entries shared by lists, filtered views, running tracks and callers, each
    entry freed when the last of them lets it go. */
module PlayQueue {
  import opened Common

  /** The 32-bit value -1: not in the list. */
  const NO_INDEX := 0xFFFF_FFFF

  /** An entry: the list it was added to, its remembered position and its reference count. */
  datatype Entry = Entry(owner: nat, index: nat, used: nat)

  datatype List = List(items: seq<nat>, cursor: Option<nat>, cursorIndex: nat)

  // ------------------------------------------------------------ who holds an entry

  /** The lists and views that hold the entry. */
  ghost function Holders(qs: map<nat, List>, e: nat): set<nat> { set q | q in qs && e in qs[q].items }

  /** The running tracks of the entry. */
  ghost function TracksOf(running: map<nat, nat>, e: nat): set<nat> { set t | t in running && running[t] == e }

  ghost function References(qs: map<nat, List>, running: map<nat, nat>, refs: multiset<nat>, e: nat): nat {
    |Holders(qs, e)| + |TracksOf(running, e)| + refs[e]
  }

  lemma HoldersLeave(qs: map<nat, List>, q: nat, l: List, x: nat, e: nat)
    requires q in qs && x in qs[q].items
    requires forall y :: y in l.items <==> y in qs[q].items && y != x
    ensures |Holders(qs[q := l], e)| == |Holders(qs, e)| - if e == x then 1 else 0
  {
    var a, b := Holders(qs, e), Holders(qs[q := l], e);
    if e == x {
      assert q in a && q !in b;
      assert a == b + {q};
    } else {
      assert a == b;
    }
  }

  lemma HoldersJoin(qs: map<nat, List>, q: nat, l: List, x: nat, e: nat)
    requires q in qs && x !in qs[q].items
    requires forall y :: y in l.items <==> y in qs[q].items || y == x
    ensures |Holders(qs[q := l], e)| == |Holders(qs, e)| + if e == x then 1 else 0
  {
    var a, b := Holders(qs, e), Holders(qs[q := l], e);
    if e == x {
      assert q !in a && q in b;
      assert b == a + {q};
    } else {
      assert a == b;
    }
  }

  lemma HoldersSame(qs: map<nat, List>, q: nat, l: List, e: nat)
    requires q in qs && forall y :: y in l.items <==> y in qs[q].items
    ensures Holders(qs[q := l], e) == Holders(qs, e)
  {
  }

  lemma TracksLeave(running: map<nat, nat>, t: nat, e: nat)
    requires t in running
    ensures |TracksOf(running - {t}, e)| == |TracksOf(running, e)| - if running[t] == e then 1 else 0
  {
    var a, b := TracksOf(running, e), TracksOf(running - {t}, e);
    if running[t] == e {
      assert a == b + {t};
    } else {
      assert a == b;
    }
  }

  lemma TracksJoin(running: map<nat, nat>, t: nat, x: nat, e: nat)
    requires t !in running
    ensures |TracksOf(running[t := x], e)| == |TracksOf(running, e)| + if x == e then 1 else 0
  {
    var a, b := TracksOf(running, e), TracksOf(running[t := x], e);
    if x == e {
      assert b == a + {t};
    } else {
      assert a == b;
    }
  }

  /** Everything the queues consist of: `refs` are the references that callers hold, and the
      numbers from `next` on are not in use. */
  datatype State = State(
    ents: map<nat, Entry>, qs: map<nat, List>, running: map<nat, nat>, refs: multiset<nat>, next: nat)

  ghost function Refs(s: State, e: nat): nat { References(s.qs, s.running, s.refs, e) }

  ghost predicate ListsLinked(ents: map<nat, Entry>, qs: map<nat, List>) {
    forall q :: q in qs ==> ListLinked(ents, qs[q].items)
  }

  ghost predicate ListLinked(ents: map<nat, Entry>, items: seq<nat>) {
    Distinct(items) && forall k :: 0 <= k < |items| ==> items[k] in ents
  }

  /** Whatever is referred to exists. */
  ghost predicate Linked(s: State, extra: multiset<nat>) {
    && ListsLinked(s.ents, s.qs)
    && (forall t :: t in s.running ==> s.running[t] in s.ents)
    && (forall e :: e in s.refs || e in extra ==> e in s.ents)
    && (forall e :: e in s.ents ==> s.ents[e].owner in s.qs)
  }

  ghost predicate Balanced(s: State, extra: multiset<nat>) {
    forall e :: e in s.ents ==> s.ents[e].used == Refs(s, e) + extra[e] && s.ents[e].used > 0
  }

  /** Conservation: an entry's count is the number of lists and views holding it, of its
      running tracks and of callers' references, plus the references in `extra` that are
      being given up just now; and it is never zero. */
  ghost predicate Counted(s: State, extra: multiset<nat>) { Linked(s, extra) && Balanced(s, extra) }

  // ------------------------------------------------------------ links

  lemma SetListLinked(s: State, q: nat, l: List, extra: multiset<nat>)
    requires Linked(s, extra) && q in s.qs && ListLinked(s.ents, l.items)
    ensures Linked(s.(qs := s.qs[q := l]), extra)
  {
    var qs := s.qs[q := l];
    forall p | p in qs ensures ListLinked(s.ents, qs[p].items) {
      if p != q { assert ListLinked(s.ents, s.qs[p].items); }
    }
  }

  lemma SetEntryLinked(s: State, x: nat, en: Entry, extra: multiset<nat>)
    requires Linked(s, extra) && en.owner in s.qs
    ensures Linked(s.(ents := s.ents[x := en]), extra)
  {
    forall p | p in s.qs ensures ListLinked(s.ents[x := en], s.qs[p].items) {
      assert ListLinked(s.ents, s.qs[p].items);
    }
  }

  lemma RemoveEntryLinked(s: State, e: nat, extra: multiset<nat>)
    requires Linked(s, extra) && e !in s.refs && e !in extra
    requires forall q :: q in s.qs ==> e !in s.qs[q].items
    requires forall t :: t in s.running ==> s.running[t] != e
    ensures Linked(s.(ents := s.ents - {e}), extra)
  {
    forall p | p in s.qs ensures ListLinked(s.ents - {e}, s.qs[p].items) {
      assert ListLinked(s.ents, s.qs[p].items) && e !in s.qs[p].items;
    }
  }

  // ------------------------------------------------------------ giving up a reference

  /** One reference less: the entry goes when it was the last one, and its list forgets it. */
  function Unref(s: State, e: nat): State {
    if e !in s.ents || s.ents[e].used == 0 || s.ents[e].owner !in s.qs then s else
      var en := s.ents[e];
      if en.used > 1 then s.(ents := s.ents[e := en.(used := en.used - 1)]) else
        var l := s.qs[en.owner];
        s.(ents := s.ents - {e}, qs := s.qs[en.owner := if l.cursor == Some(e) then l.(cursor := None) else l])
  }

  lemma UnrefOne(s: State, e: nat, extra: multiset<nat>)
    requires Counted(s, extra + multiset{e}) && e in s.ents && s.ents[e].used > 1
    ensures Counted(s.(ents := s.ents[e := s.ents[e].(used := s.ents[e].used - 1)]), extra)
  {
    SetEntryLinked(s, e, s.ents[e].(used := s.ents[e].used - 1), extra + multiset{e});
    var s' := s.(ents := s.ents[e := s.ents[e].(used := s.ents[e].used - 1)]);
    assert forall x :: x in extra ==> x in extra + multiset{e};
    forall x | x in s'.ents ensures s'.ents[x].used == Refs(s', x) + extra[x] && s'.ents[x].used > 0 {
      assert (extra + multiset{e})[x] == extra[x] + if x == e then 1 else 0;
    }
  }

  lemma UnrefLast(s: State, e: nat, extra: multiset<nat>)
    requires Counted(s, extra + multiset{e}) && e in s.ents && s.ents[e].used == 1
    ensures Counted(s.(ents := s.ents - {e}), extra)
  {
    LastReference(s, e, extra);
    assert forall x :: x in extra ==> x in extra + multiset{e};
    assert Linked(s, extra);
    RemoveEntryLinked(s, e, extra);
    var s' := s.(ents := s.ents - {e});
    forall x | x in s'.ents ensures s'.ents[x].used == Refs(s', x) + extra[x] && s'.ents[x].used > 0 {
      assert (extra + multiset{e})[x] == extra[x];
    }
  }

  /** The last reference gone, nothing else refers to the entry. */
  lemma LastReference(s: State, e: nat, extra: multiset<nat>)
    requires Counted(s, extra + multiset{e}) && e in s.ents && s.ents[e].used == 1
    ensures e !in extra && e !in s.refs
    ensures forall q :: q in s.qs ==> e !in s.qs[q].items
    ensures forall t :: t in s.running ==> s.running[t] != e
  {
    assert (extra + multiset{e})[e] == extra[e] + 1;
    assert Holders(s.qs, e) == {} && TracksOf(s.running, e) == {};
    assert forall q :: q in s.qs && e in s.qs[q].items ==> q in Holders(s.qs, e);
    assert forall t :: t in s.running && s.running[t] == e ==> t in TracksOf(s.running, e);
  }

  lemma UnrefKeeps(s: State, e: nat, extra: multiset<nat>)
    requires Counted(s, extra + multiset{e})
    ensures e in s.ents && s.ents[e].used > 0 && s.ents[e].owner in s.qs && Counted(Unref(s, e), extra)
    ensures e in Unref(s, e).ents <==> s.ents[e].used > 1
  {
    assert e in extra + multiset{e};
    if s.ents[e].used > 1 {
      UnrefOne(s, e, extra);
    } else {
      UnrefLast(s, e, extra);
      var q := s.ents[e].owner;
      SetCursorKeeps(s.(ents := s.ents - {e}), q, Unref(s, e).qs[q], extra);
    }
  }

  // ------------------------------------------------------------ lists, tracks and callers

  /** Reordering a list, or moving its cursor, changes no count. */
  lemma SetCursorKeeps(s: State, q: nat, l: List, extra: multiset<nat>)
    requires Counted(s, extra) && q in s.qs && ListLinked(s.ents, l.items)
    requires forall y :: y in l.items <==> y in s.qs[q].items
    ensures Counted(s.(qs := s.qs[q := l]), extra)
  {
    SetListLinked(s, q, l, extra);
    var s' := s.(qs := s.qs[q := l]);
    forall e | e in s.ents ensures Refs(s', e) == Refs(s, e) { HoldersSame(s.qs, q, l, e); }
  }

  /** An item leaves a list: its reference is to be given up. */
  lemma LeaveKeeps(s: State, q: nat, l: List, x: nat, extra: multiset<nat>)
    requires Counted(s, extra) && q in s.qs && x in s.qs[q].items && x in s.ents && ListLinked(s.ents, l.items)
    requires forall y :: y in l.items <==> y in s.qs[q].items && y != x
    ensures Counted(s.(qs := s.qs[q := l]), extra + multiset{x})
  {
    SetListLinked(s, q, l, extra);
    var s' := s.(qs := s.qs[q := l]);
    forall e | e in s.ents ensures Refs(s', e) + (extra + multiset{x})[e] == Refs(s, e) + extra[e] {
      HoldersLeave(s.qs, q, l, x, e);
    }
  }

  /** A reference is taken: the count goes up before the holder is recorded. */
  ghost predicate OneMore(s: State, x: nat) {
    && Linked(s, multiset{}) && x in s.ents
    && forall e :: e in s.ents ==> s.ents[e].used == Refs(s, e) + (if e == x then 1 else 0) && s.ents[e].used > 0
  }

  lemma RaiseCount(s: State, x: nat)
    requires Counted(s, multiset{}) && x in s.ents
    ensures OneMore(s.(ents := s.ents[x := s.ents[x].(used := s.ents[x].used + 1)]), x)
  {
    SetEntryLinked(s, x, s.ents[x].(used := s.ents[x].used + 1), multiset{});
    var s' := s.(ents := s.ents[x := s.ents[x].(used := s.ents[x].used + 1)]);
    forall e | e in s'.ents ensures s'.ents[e].used == Refs(s', e) + (if e == x then 1 else 0) && s'.ents[e].used > 0 {
    }
  }

  /** A new entry starts with one reference, that of its list. */
  lemma NewEntry(s: State, x: nat, en: Entry)
    requires Counted(s, multiset{}) && x !in s.ents && en.used == 1 && en.owner in s.qs
    ensures OneMore(s.(ents := s.ents[x := en]), x)
    ensures forall q :: q in s.qs ==> x !in s.qs[q].items
  {
    SetEntryLinked(s, x, en, multiset{});
    forall q | q in s.qs ensures x !in s.qs[q].items { assert ListLinked(s.ents, s.qs[q].items); }
    assert Holders(s.qs, x) == {} && TracksOf(s.running, x) == {} && s.refs[x] == 0;
    var s' := s.(ents := s.ents[x := en]);
    forall e | e in s'.ents ensures s'.ents[e].used == Refs(s', e) + (if e == x then 1 else 0) && s'.ents[e].used > 0 {
    }
  }

  lemma JoinKeeps(s: State, q: nat, l: List, x: nat)
    requires OneMore(s, x) && q in s.qs && x !in s.qs[q].items && ListLinked(s.ents, l.items)
    requires forall y :: y in l.items <==> y in s.qs[q].items || y == x
    ensures Counted(s.(qs := s.qs[q := l]), multiset{})
  {
    SetListLinked(s, q, l, multiset{});
    var s' := s.(qs := s.qs[q := l]);
    forall e | e in s.ents ensures s.ents[e].used == Refs(s', e) { HoldersJoin(s.qs, q, l, x, e); }
  }

  lemma StartKeeps(s: State, t: nat, x: nat)
    requires OneMore(s, x) && t !in s.running
    ensures Counted(s.(running := s.running[t := x]), multiset{})
  {
    var s' := s.(running := s.running[t := x]);
    forall e | e in s'.ents ensures s'.ents[e].used == Refs(s', e) { TracksJoin(s.running, t, x, e); }
  }

  lemma EndKeeps(s: State, t: nat)
    requires Counted(s, multiset{}) && t in s.running
    ensures Counted(s.(running := s.running - {t}), multiset{s.running[t]})
  {
    var s' := s.(running := s.running - {t});
    forall e | e in s'.ents ensures s'.ents[e].used == Refs(s', e) + multiset{s.running[t]}[e] {
      TracksLeave(s.running, t, e);
    }
  }

  lemma RefKeeps(s: State, x: nat)
    requires OneMore(s, x)
    ensures Counted(s.(refs := s.refs + multiset{x}), multiset{})
  {
  }

  lemma ReleaseKeeps(s: State, x: nat)
    requires Counted(s, multiset{}) && x in s.refs
    ensures Counted(s.(refs := s.refs - multiset{x}), multiset{x})
  {
  }

  // ------------------------------------------------------------ cursors

  /** No list's cursor is an entry that is gone. */
  ghost predicate CursorsLive(s: State) {
    forall q :: q in s.qs && s.qs[q].cursor.Some? ==> s.qs[q].cursor.value in s.ents
  }

  /** Every list's cursor is one of its own entries (not one seen through a view). */
  ghost predicate OwnCursors(s: State) {
    forall q :: q in s.qs && s.qs[q].cursor.Some? ==>
      s.qs[q].cursor.value in s.ents && s.ents[s.qs[q].cursor.value].owner == q
  }

  /** Giving up a reference leaves no dead cursor exactly when the entry stays, or no list but
      its own has it as cursor; only a view played without naming an entry is such a list. */
  lemma UnrefCursorsIff(s: State, e: nat)
    requires CursorsLive(s) && e in s.ents && s.ents[e].used > 0 && s.ents[e].owner in s.qs
    ensures CursorsLive(Unref(s, e)) <==>
      s.ents[e].used > 1 || forall q :: q in s.qs && q != s.ents[e].owner ==> s.qs[q].cursor != Some(e)
    ensures OwnCursors(s) ==> CursorsLive(Unref(s, e)) && OwnCursors(Unref(s, e))
  {
    var s' := Unref(s, e);
    if s.ents[e].used == 1 && CursorsLive(s') {
      forall q | q in s.qs && q != s.ents[e].owner ensures s.qs[q].cursor != Some(e) { assert s'.qs[q] == s.qs[q]; }
    }
  }

  /** Where the cursor goes when the item at `pos` of a list of `len` items is removed. */
  function CursorAfter(cursor: nat, pos: nat, len: nat): nat {
    if cursor > 0 && (pos < cursor || (pos == cursor && pos == len - 1)) then cursor - 1 else cursor
  }

  ghost predicate Increasing(s: seq<nat>) { forall i, j :: 0 <= i < j < |s| ==> s[i] < s[j] }

  /** How many of the surviving items stood before position `c` of the original list; `s` are
      their original positions. */
  ghost function Before(s: seq<nat>, c: nat): (n: nat)
    ensures n <= |s|
  {
    if s == [] then 0 else Before(s[..|s|-1], c) + if s[|s|-1] < c then 1 else 0
  }

  lemma {:induction false} BeforeIs(s: seq<nat>, c: nat)
    requires Increasing(s)
    ensures forall i :: 0 <= i < |s| ==> (s[i] < c <==> i < Before(s, c))
  {
    if s != [] {
      var r := s[..|s|-1];
      BeforeIs(r, c);
      if Before(r, c) < |r| { assert s[|r|-1] >= c && s[|r|-1] < s[|r|]; }
    }
  }

  lemma BeforeRemove(s: seq<nat>, c: nat, pos: nat)
    requires Increasing(s) && pos < |s|
    ensures Increasing(RemoveAt(s, pos))
    ensures Before(RemoveAt(s, pos), c) == Before(s, c) - if pos < Before(s, c) then 1 else 0
  {
    var r := RemoveAt(s, pos);
    assert forall i :: 0 <= i < |r| ==> r[i] == s[if i < pos then i else i + 1];
    BeforeIs(s, c);
    BeforeIs(r, c);
    var b, b' := Before(s, c), Before(r, c);
    var want := b - if pos < b then 1 else 0;
    assert want < |r| ==> !(r[want] < c);
    assert want > 0 ==> r[want-1] < c;
    assert b' > 0 ==> r[b'-1] < c;
    assert b' < |r| ==> !(r[b'] < c);
  }

  /** The first survivor at or after the place of the cursor, or else the last survivor. */
  ghost function CursorWanted(s: seq<nat>, c: nat): nat {
    if s == [] then 0 else if Before(s, c) < |s| then Before(s, c) else |s| - 1
  }

  /** Removes items one after the other, the positions being those at the time. */
  ghost function Survivors(s: seq<nat>, removals: seq<nat>): seq<nat>
    decreases |removals|
  {
    if removals == [] then s
    else if removals[0] >= |s| then Survivors(s, removals[1..])
    else Survivors(RemoveAt(s, removals[0]), removals[1..])
  }

  ghost function CursorThrough(cursor: nat, len: nat, removals: seq<nat>): nat
    decreases |removals|
  {
    if removals == [] then cursor
    else if removals[0] >= len then CursorThrough(cursor, len, removals[1..])
    else CursorThrough(CursorAfter(cursor, removals[0], len), len - 1, removals[1..])
  }

  lemma CursorStep(s: seq<nat>, c: nat, pos: nat)
    requires Increasing(s) && pos < |s|
    ensures Increasing(RemoveAt(s, pos))
    ensures CursorAfter(CursorWanted(s, c), pos, |s|) == CursorWanted(RemoveAt(s, pos), c)
  {
    BeforeRemove(s, c, pos);
  }

  /** Through any sequence of removals the cursor index stays with the first survivor at or
      after the original place, or the last one. */
  lemma {:induction false} CursorSurvives(s: seq<nat>, c: nat, removals: seq<nat>)
    requires Increasing(s)
    ensures Increasing(Survivors(s, removals))
    ensures CursorThrough(CursorWanted(s, c), |s|, removals) == CursorWanted(Survivors(s, removals), c)
    decreases |removals|
  {
    if removals != [] {
      var pos := removals[0];
      if pos >= |s| {
        CursorSurvives(s, c, removals[1..]);
      } else {
        CursorStep(s, c, pos);
        CursorSurvives(RemoveAt(s, pos), c, removals[1..]);
      }
    }
  }

  /** The position that "play next" goes to: after the current entry if it is still listed, at
      the cursor index if it was removed. */
  ghost function NextPosition(s: seq<nat>, c: nat): nat {
    if c in s then Before(s, c) + 1 else CursorWanted(s, c)
  }

  /** `next` is the first of the places left behind `c`. */
  ghost predicate FirstBehind(left: seq<nat>, c: nat, next: int) {
    0 <= next < |left| && left[next] > c && forall i :: 0 <= i < next ==> left[i] <= c
  }

  /** One of the places left is behind `c`. */
  ghost predicate SomeBehind(left: seq<nat>, c: nat) { exists i :: 0 <= i < |left| && left[i] > c }

  /** Whether or not the current entry survived, next comes the first survivor behind it. With
      none behind, it is past the end if the entry survived, and else the last of those before. */
  lemma NextIsFirstAfter(s: seq<nat>, c: nat)
    requires Increasing(s)
    ensures SomeBehind(s, c) ==> FirstBehind(s, c, NextPosition(s, c))
    ensures !SomeBehind(s, c) && c in s ==> NextPosition(s, c) == |s|
    ensures !SomeBehind(s, c) && c !in s && s != [] ==> NextPosition(s, c) == |s| - 1 && s[|s|-1] < c
    ensures s == [] ==> NextPosition(s, c) == 0
    ensures c in s ==> Before(s, c) < |s| && s[Before(s, c)] == c
  {
    BeforeIs(s, c);
    var b := Before(s, c);
    assert b < |s| ==> s[b] >= c;
    assert b > 0 ==> s[b-1] < c;
    if c in s {
      var k :| 0 <= k < |s| && s[k] == c;
      assert b == k;
      assert b + 1 < |s| ==> s[b] < s[b+1];
    }
    if s != [] && s[|s|-1] > c { assert SomeBehind(s, c); }
  }
}
