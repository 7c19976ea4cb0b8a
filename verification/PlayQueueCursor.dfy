/** "Play next" after lists have shrunk: where the cursor index and the remembered position of
    the current entry together lead, if items were removed from any lists meanwhile. It is the
    first item left behind the current entry if there is one, unless the entry was removed through
    another list only. */
module PlayQueueCursor {
  import opened Common
  import opened PlayQueue
  import opened PlayQueueOps

  /** The items at the given positions. */
  function At(items: seq<nat>, places: seq<nat>): (r: seq<nat>)
    requires forall i :: 0 <= i < |places| ==> places[i] < |items|
    ensures |r| == |places| && forall i :: 0 <= i < |r| ==> r[i] == items[places[i]]
  {
    seq(|places|, i requires 0 <= i < |places| => items[places[i]])
  }

  function Places(n: nat): (r: seq<nat>)
    ensures |r| == n && forall i :: 0 <= i < n ==> r[i] == i
  {
    seq(n, i => i)
  }

  /** Removals from a list commute with looking items up by their original positions. */
  lemma {:induction false} SurvivorsAt(items: seq<nat>, places: seq<nat>, removals: seq<nat>)
    requires forall i :: 0 <= i < |places| ==> places[i] < |items|
    ensures var left := Survivors(places, removals);
      (forall i :: 0 <= i < |left| ==> left[i] < |items|) && Survivors(At(items, places), removals) == At(items, left)
    decreases |removals|
  {
    if removals != [] {
      var pos := removals[0];
      if pos < |places| {
        assert RemoveAt(At(items, places), pos) == At(items, RemoveAt(places, pos));
        SurvivorsAt(items, RemoveAt(places, pos), removals[1..]);
      } else {
        SurvivorsAt(items, places, removals[1..]);
      }
    }
  }

  // ------------------------------------------------------------ removals from any list

  /** A list or view, and a position in it. */
  datatype Removal = Removal(q: nat, pos: nat)

  ghost predicate FromLists(s: State, rs: seq<Removal>) { forall k :: 0 <= k < |rs| ==> rs[k].q in s.qs }

  /** The positions removed from list `q`. */
  ghost function From(rs: seq<Removal>, q: nat): seq<nat> {
    if rs == [] then [] else (if rs[0].q == q then [rs[0].pos] else []) + From(rs[1..], q)
  }

  /** The state after removing items one after the other. */
  ghost function RemoveAll(s: State, rs: seq<Removal>): (s': State)
    requires FromLists(s, rs)
    ensures s'.qs.Keys == s.qs.Keys
    decreases |rs|
  {
    if rs == [] then s else
      KeysStay(s, rs[0]);
      RemoveAll(RemovePos(s, rs[0].q, rs[0].pos), rs[1..])
  }

  lemma KeysStay(s: State, r: Removal)
    requires r.q in s.qs
    ensures RemovePos(s, r.q, r.pos).qs.Keys == s.qs.Keys
  {
    if r.pos < |s.qs[r.q].items| { RemoveLists(s, r.q, r.pos); }
  }

  /** Whether a removal takes entry `e` out of a list other than `q`. */
  ghost predicate TakesFromOther(s: State, r: Removal, q: nat, e: nat)
    requires r.q in s.qs
  {
    r.q != q && r.pos < |s.qs[r.q].items| && s.qs[r.q].items[r.pos] == e
  }

  /** Whether one of the removals does. */
  ghost predicate TakenFromOther(s: State, rs: seq<Removal>, q: nat, e: nat)
    requires FromLists(s, rs)
    decreases |rs|
  {
    rs != [] && (TakesFromOther(s, rs[0], q, e) ||
      (KeysStay(s, rs[0]); TakenFromOther(RemovePos(s, rs[0].q, rs[0].pos), rs[1..], q, e)))
  }

  /** A removal from another list leaves this one and its cursor index alone. */
  lemma OtherStays(s: State, r: Removal, q: nat)
    requires r.q in s.qs && q in s.qs && r.q != q
    ensures var s' := RemovePos(s, r.q, r.pos);
      q in s'.qs && s'.qs[q].items == s.qs[q].items && s'.qs[q].cursorIndex == s.qs[q].cursorIndex
  {
    if r.pos < |s.qs[r.q].items| {
      var e := s.qs[r.q].items[r.pos];
      UnrefLists(Detach(SetIndex(s, e, NO_INDEX), r.q, r.pos), e);
    }
  }

  lemma OwnShrinks(s: State, q: nat, pos: nat)
    requires q in s.qs
    ensures var l, s' := s.qs[q], RemovePos(s, q, pos);
      && q in s'.qs && (pos >= |l.items| ==> s' == s)
      && (pos < |l.items| ==> s'.qs[q].items == RemoveAt(l.items, pos))
      && (pos < |l.items| ==> s'.qs[q].cursorIndex == CursorAfter(l.cursorIndex, pos, |l.items|))
  {
    if pos < |s.qs[q].items| {
      var e := s.qs[q].items[pos];
      UnrefLists(Detach(SetIndex(s, e, NO_INDEX), q, pos), e);
    }
  }

  lemma StepThrough(l: List, pos: nat, more: seq<nat>)
    ensures var all := [pos] + more;
      if pos >= |l.items| then
        && Survivors(l.items, all) == Survivors(l.items, more)
        && CursorThrough(l.cursorIndex, |l.items|, all) == CursorThrough(l.cursorIndex, |l.items|, more)
      else
        && Survivors(l.items, all) == Survivors(RemoveAt(l.items, pos), more)
        && CursorThrough(l.cursorIndex, |l.items|, all) ==
            CursorThrough(CursorAfter(l.cursorIndex, pos, |l.items|), |l.items| - 1, more)
  {
    assert ([pos] + more)[1..] == more;
  }

  lemma {:induction false} RemoveAllItems(s: State, rs: seq<Removal>, q: nat)
    requires FromLists(s, rs) && q in s.qs
    ensures var l, l', own := s.qs[q], RemoveAll(s, rs).qs[q], From(rs, q);
      l'.items == Survivors(l.items, own) && l'.cursorIndex == CursorThrough(l.cursorIndex, |l.items|, own)
    decreases |rs|
  {
    if rs != [] {
      KeysStay(s, rs[0]);
      RemoveAllItems(RemovePos(s, rs[0].q, rs[0].pos), rs[1..], q);
      if rs[0].q == q {
        OwnShrinks(s, q, rs[0].pos);
        StepThrough(s.qs[q], rs[0].pos, From(rs[1..], q));
      } else {
        OtherStays(s, rs[0], q);
        assert From(rs, q) == From(rs[1..], q);
      }
    }
  }

  /** The original places of the items left in a list. */
  ghost function Left(s: State, rs: seq<Removal>, q: nat): seq<nat>
    requires q in s.qs
  {
    Survivors(Places(|s.qs[q].items|), From(rs, q))
  }

  lemma LeftPlaces(s: State, rs: seq<Removal>, q: nat)
    requires q in s.qs
    ensures var n, left := |s.qs[q].items|, Left(s, rs, q);
      Increasing(left) && forall i :: 0 <= i < |left| ==> left[i] < n
  {
    var items := s.qs[q].items;
    SurvivorsAt(items, Places(|items|), From(rs, q));
    CursorSurvives(Places(|items|), 0, From(rs, q));
  }

  /** The items left, in the order they had. */
  ghost function ItemsLeft(s: State, rs: seq<Removal>, q: nat): seq<nat>
    requires q in s.qs
  {
    LeftPlaces(s, rs, q);
    At(s.qs[q].items, Left(s, rs, q))
  }

  /** Through removals from any lists the cursor index stays with the first item left at or
      after the place it had, or else with the last one. */
  lemma CursorStays(s: State, rs: seq<Removal>, q: nat)
    requires FromLists(s, rs) && q in s.qs && s.qs[q].cursorIndex < |s.qs[q].items|
    ensures var l' := RemoveAll(s, rs).qs[q];
      l'.items == ItemsLeft(s, rs, q) && l'.cursorIndex == CursorWanted(Left(s, rs, q), s.qs[q].cursorIndex)
  {
    var l, own := s.qs[q], From(rs, q);
    var places := Places(|l.items|);
    RemoveAllItems(s, rs, q);
    SurvivorsAt(l.items, places, own);
    assert At(l.items, places) == l.items;
    CursorSurvives(places, l.cursorIndex, own);
    BeforeIs(places, l.cursorIndex);
    assert Before(places, l.cursorIndex) == l.cursorIndex by {
      var b, c := Before(places, l.cursorIndex), l.cursorIndex;
      assert b < |places| ==> !(places[b] < c);
      assert b > 0 ==> places[b-1] < c;
    }
  }

  // ------------------------------------------------------------ play next

  /** Linear search for an entry. */
  function Find(items: seq<nat>, e: nat): (r: int)
    ensures -1 <= r < |items| && (r >= 0 ==> items[r] == e) && (r == -1 <==> e !in items)
    decreases |items|
  {
    if items == [] then -1
    else
      var r := Find(items[..|items|-1], e);
      if r >= 0 then r else if items[|items|-1] == e then |items| - 1 else -1
  }

  /** However the position was found: an entry is listed once. */
  lemma FindUnique(items: seq<nat>, e: nat, r: int)
    requires Distinct(items) && -1 <= r < |items| && (r >= 0 ==> items[r] == e) && (r == -1 <==> e !in items)
    ensures r == Find(items, e)
  {
  }

  /** An entry leaves its list, wherever it is there. */
  function RemoveEntry(s: State, e: nat): State
    requires e in s.ents && s.ents[e].owner in s.qs
  {
    var q := s.ents[e].owner;
    var r := Find(s.qs[q].items, e);
    var at := if r < 0 then NO_INDEX else r;
    RemovePos(SetIndex(s, e, at), q, at)
  }

  lemma RemoveEntrySound(s: State, e: nat)
    requires Sound(s) && e in s.ents && s.ents[e].owner in s.qs && |s.qs[s.ents[e].owner].items| < NO_INDEX
    ensures Sound(RemoveEntry(s, e))
  {
    var q := s.ents[e].owner;
    var r := Find(s.qs[q].items, e);
    var at := if r < 0 then NO_INDEX else r;
    ApplySound(s, DoSetIndex(e, at));
    ApplySound(SetIndex(s, e, at), DoRemove(q, at));
  }

  /** That list loses that entry, and no list anything else. */
  lemma RemoveEntryLists(s: State, e: nat)
    requires e in s.ents && s.ents[e].owner in s.qs && |s.qs[s.ents[e].owner].items| < NO_INDEX
    ensures var q, s' := s.ents[e].owner, RemoveEntry(s, e); var r := Find(s.qs[q].items, e);
      && s'.qs.Keys == s.qs.Keys
      && (forall p :: p in s.qs && p != q ==>
            s'.qs[p].items == s.qs[p].items && s'.qs[p].cursorIndex == s.qs[p].cursorIndex)
      && s'.qs[q].items == if r < 0 then s.qs[q].items else s.qs[q].items[..r] + s.qs[q].items[r+1..]
  {
    var q := s.ents[e].owner;
    var r := Find(s.qs[q].items, e);
    var at := if r < 0 then NO_INDEX else r;
    var s1 := SetIndex(s, e, at);
    assert s1.qs == s.qs && RemoveEntry(s, e) == RemovePos(s1, q, at);
    RemovedAt(s1, q, at);
  }

  lemma RemovedAt(s: State, q: nat, pos: nat)
    requires q in s.qs
    ensures var s', items := RemovePos(s, q, pos), s.qs[q].items;
      && s'.qs.Keys == s.qs.Keys
      && (forall p :: p in s.qs && p != q ==>
            s'.qs[p].items == s.qs[p].items && s'.qs[p].cursorIndex == s.qs[p].cursorIndex)
      && s'.qs[q].items == if pos >= |items| then items else items[..pos] + items[pos+1..]
  {
    if pos < |s.qs[q].items| { RemoveLists(s, q, pos); }
  }

  /** The position that is played next: after the current entry, or at the cursor index once
      the entry is marked as removed or there is none. */
  function NextIndex(s: State, q: nat): int
    requires q in s.qs
  {
    match s.qs[q].cursor
    case None => s.qs[q].cursorIndex
    case Some(e) =>
      if e in s.ents && s.ents[e].index != NO_INDEX && s.ents[e].owner in s.qs
      then Find(s.qs[s.ents[e].owner].items, e) + 1
      else s.qs[q].cursorIndex
  }

  /** The current entry is the cursor as long as it exists, and marked as removed exactly if it
      is not listed or was taken out of another list. */
  ghost predicate Current(s: State, q: nat, e: nat, taken: bool) {
    && q in s.qs
    && (e in s.ents ==> s.ents[e].owner == q && s.qs[q].cursor == Some(e))
    && (e in s.ents ==> (s.ents[e].index != NO_INDEX <==> e in s.qs[q].items && !taken))
    && (e !in s.ents ==> s.qs[q].cursor == None)
  }

  ghost predicate Follows(s: State, q: nat, e: nat, taken: bool) {
    Counted(s, multiset{}) && Current(s, q, e, taken)
  }

  lemma UnrefCurrent(s: State, q: nat, e: nat, x: nat, taken: bool)
    requires Current(s, q, e, taken)
    ensures Current(Unref(s, x), q, e, taken)
  {
  }

  lemma RemoveCurrent(s: State, r: Removal, q: nat, e: nat, taken: bool)
    requires r.q in s.qs && r.pos < |s.qs[r.q].items| && Current(s, q, e, taken) && ListLinked(s.ents, s.qs[r.q].items)
    ensures Current(RemovePos(s, r.q, r.pos), q, e, taken || TakesFromOther(s, r, q, e))
  {
    var x := s.qs[r.q].items[r.pos];
    RemoveLinked(s.ents, s.qs[r.q].items, r.pos);
    var s1 := Detach(SetIndex(s, x, NO_INDEX), r.q, r.pos);
    assert Current(s1, q, e, taken || TakesFromOther(s, r, q, e));
    UnrefCurrent(s1, q, e, x, taken || TakesFromOther(s, r, q, e));
  }

  lemma RemoveFollows(s: State, r: Removal, q: nat, e: nat, taken: bool)
    requires r.q in s.qs && Follows(s, q, e, taken)
    ensures Follows(RemovePos(s, r.q, r.pos), q, e, taken || TakesFromOther(s, r, q, e))
  {
    RemoveKeeps(s, r.q, r.pos);
    assert ListLinked(s.ents, s.qs[r.q].items);
    if r.pos < |s.qs[r.q].items| { RemoveCurrent(s, r, q, e, taken); }
  }

  lemma {:induction false} RemoveAllFollows(s: State, rs: seq<Removal>, q: nat, e: nat, taken: bool)
    requires FromLists(s, rs) && Follows(s, q, e, taken)
    ensures Follows(RemoveAll(s, rs), q, e, taken || TakenFromOther(s, rs, q, e))
    decreases |rs|
  {
    if rs != [] {
      KeysStay(s, rs[0]);
      RemoveFollows(s, rs[0], q, e, taken);
      RemoveAllFollows(RemovePos(s, rs[0].q, rs[0].pos), rs[1..], q, e, taken || TakesFromOther(s, rs[0], q, e));
    }
  }

  lemma NextIndexIs(s: State, q: nat, e: nat, taken: bool)
    requires Follows(s, q, e, taken)
    ensures NextIndex(s, q) ==
      if e in s.qs[q].items && !taken then Find(s.qs[q].items, e) + 1 else s.qs[q].cursorIndex
  {
    assert ListLinked(s.ents, s.qs[q].items);
  }

  /** The current entry sits where its original place is among the places left. */
  lemma FindPlace(items: seq<nat>, left: seq<nat>, c: nat)
    requires Distinct(items) && Increasing(left) && c < |items| && forall i :: 0 <= i < |left| ==> left[i] < |items|
    ensures items[c] in At(items, left) <==> c in left
    ensures c in left ==> Find(At(items, left), items[c]) == Before(left, c)
  {
    NextIsFirstAfter(left, c);
    var r := At(items, left);
    if c in left { assert r[Before(left, c)] == items[c]; }
  }

  /** An entry of the list plays and is its cursor. */
  ghost predicate Plays(s: State, q: nat) {
    && q in s.qs && s.qs[q].cursorIndex < |s.qs[q].items|
    && var e := s.qs[q].items[s.qs[q].cursorIndex];
      s.qs[q].cursor == Some(e) && e in s.ents && s.ents[e].owner == q && s.ents[e].index != NO_INDEX
  }

  /** The entry that plays. */
  ghost function Playing(s: State, q: nat): nat
    requires Plays(s, q)
  {
    s.qs[q].items[s.qs[q].cursorIndex]
  }

  /** The current entry was removed through another list while it is still in its own. */
  ghost predicate Astray(s: State, rs: seq<Removal>, q: nat)
    requires FromLists(s, rs) && Plays(s, q)
  {
    TakenFromOther(s, rs, q, Playing(s, q)) && s.qs[q].cursorIndex in Left(s, rs, q)
  }

  lemma NextByPlaces(s: State, rs: seq<Removal>, q: nat)
    requires Counted(s, multiset{}) && FromLists(s, rs) && Plays(s, q)
    ensures var c, left := s.qs[q].cursorIndex, Left(s, rs, q);
      NextIndex(RemoveAll(s, rs), q) == if Astray(s, rs, q) then Before(left, c) else NextPosition(left, c)
  {
    var c, items, left := s.qs[q].cursorIndex, s.qs[q].items, Left(s, rs, q);
    assert ListLinked(s.ents, items);
    CursorStays(s, rs, q);
    LeftPlaces(s, rs, q);
    RemoveAllFollows(s, rs, q, items[c], false);
    NextIndexIs(RemoveAll(s, rs), q, items[c], TakenFromOther(s, rs, q, items[c]));
    FindPlace(items, left, c);
    NextIsFirstAfter(left, c);
  }

  /** Items are removed, from any lists in any order, while the entry at the cursor plays; it may
      be removed, or even freed, itself. What is played next stood behind it, and is the first
      item left of those, if and only if one is left and the entry did not go astray. */
  lemma NextAfterRemovals(s: State, rs: seq<Removal>, q: nat)
    requires Counted(s, multiset{}) && FromLists(s, rs) && Plays(s, q)
    ensures RemoveAll(s, rs).qs[q].items == ItemsLeft(s, rs, q)
    ensures var c, left := s.qs[q].cursorIndex, Left(s, rs, q);
      FirstBehind(left, c, NextIndex(RemoveAll(s, rs), q)) <==> SomeBehind(left, c) && !Astray(s, rs, q)
  {
    CursorStays(s, rs, q);
    LeftPlaces(s, rs, q);
    NextByPlaces(s, rs, q);
    WhereNext(Left(s, rs, q), s.qs[q].cursorIndex, NextIndex(RemoveAll(s, rs), q), Astray(s, rs, q));
  }

  /** The other cases. An entry astray is played again. With nothing left behind an entry still
      listed, next is past the end. With nothing left behind a removed one, the last of the items
      before it is played. */
  lemma NextOtherwise(s: State, rs: seq<Removal>, q: nat)
    requires Counted(s, multiset{}) && FromLists(s, rs) && Plays(s, q)
    ensures RemoveAll(s, rs).qs[q].items == ItemsLeft(s, rs, q)
    ensures NotBehind(Left(s, rs, q), s.qs[q].cursorIndex, NextIndex(RemoveAll(s, rs), q), Astray(s, rs, q))
  {
    CursorStays(s, rs, q);
    LeftPlaces(s, rs, q);
    NextByPlaces(s, rs, q);
    WhereNext(Left(s, rs, q), s.qs[q].cursorIndex, NextIndex(RemoveAll(s, rs), q), Astray(s, rs, q));
  }

  /** Where next is, among the places left, when it is not behind `c`. */
  ghost predicate NotBehind(left: seq<nat>, c: nat, next: int, astray: bool) {
    && (astray ==> 0 <= next < |left| && left[next] == c)
    && (!astray && !SomeBehind(left, c) && c in left ==> next == |left|)
    && (!SomeBehind(left, c) && c !in left && left != [] ==> next == |left| - 1 && left[next] < c)
    && (left == [] ==> next == 0)
  }

  lemma WhereNext(left: seq<nat>, c: nat, next: int, astray: bool)
    requires Increasing(left) && (astray ==> c in left)
    requires next == if astray then Before(left, c) else NextPosition(left, c)
    ensures FirstBehind(left, c, next) <==> SomeBehind(left, c) && !astray
    ensures NotBehind(left, c, next, astray)
  {
    NextIsFirstAfter(left, c);
  }

  // ------------------------------------------------------------ such cases

  /** Entry 1 of a list of two plays and is removed through a view of the list: it is played
      again, although entry 2 is behind it. */
  lemma PlayedAgain() returns (s: State)
    ensures Reached(s) && Plays(s, 0) && Playing(s, 0) == 1 && 3 in s.qs && s.qs[0].items == [1, 2]
    ensures var s' := RemovePos(s, 3, 0); 0 in s'.qs && s'.qs[0].items == [1, 2] && NextIndex(s', 0) == 0
  {
    var s0 := ViewOfOne();
    ReachedStep(s0, DoStart(1));
    var s1 := StartTrack(s0, 1);
    ReachedStep(s1, DoSetCursor(0, 1, 0));
    s := SetCursor(s1, 0, 1, 0);
    var s' := RemovePos(s, 3, 0);
    assert s'.ents[1] == Entry(0, NO_INDEX, 2) && s'.qs[0] == s.qs[0];
  }

  lemma SecondPlays() returns (s: State)
    ensures Reached(s) && Plays(s, 0) && Playing(s, 0) == 2 && s.qs == map[0 := List([1, 2], Some(2), 1)]
    ensures 1 in s.ents && s.ents[1] == Entry(0, 0, 1) && 2 in s.ents && s.ents[2] == Entry(0, 1, 2)
  {
    var s0 := TwoListed();
    ReachedStep(s0, DoStart(2));
    var s1 := StartTrack(s0, 2);
    ReachedStep(s1, DoSetCursor(0, 2, 1));
    s := SetCursor(s1, 0, 2, 1);
  }

  /** Entry 2 of a list of two plays and is removed: entry 1 is played next, which stood before
      it. No other list is involved. */
  lemma PlayedBefore() returns (s: State)
    ensures Reached(s) && Plays(s, 0) && Playing(s, 0) == 2 && s.qs == map[0 := List([1, 2], Some(2), 1)]
    ensures var s' := RemovePos(s, 0, 1); 0 in s'.qs && s'.qs[0].items == [1] && NextIndex(s', 0) == 0
  {
    s := SecondPlays();
    var s' := RemovePos(s, 0, 1);
    assert s'.ents[2] == Entry(0, NO_INDEX, 1) && s'.qs[0].items == [1] && s'.qs[0].cursorIndex == 0;
  }

  // ------------------------------------------------------------ play previous

  /** The position that is played when going back: before the one that the current entry remembers,
      which is not looked up again, or the cursor index once the entry is marked as removed. */
  function PrevIndex(s: State, q: nat): nat
    requires q in s.qs
  {
    match s.qs[q].cursor
    case None => s.qs[q].cursorIndex
    case Some(e) =>
      if e in s.ents && s.ents[e].index != NO_INDEX then (s.ents[e].index - 1) % 0x1_0000_0000
      else s.qs[q].cursorIndex
  }

  /** Removals leave what an entry remembers, or mark it as removed. */
  lemma RemoveIndex(s: State, r: Removal, e: nat)
    requires r.q in s.qs
    ensures var s' := RemovePos(s, r.q, r.pos); e in s'.ents ==>
      e in s.ents && (s'.ents[e].index == s.ents[e].index || s'.ents[e].index == NO_INDEX)
  {
  }

  lemma {:induction false} RemoveAllIndex(s: State, rs: seq<Removal>, e: nat)
    requires FromLists(s, rs)
    ensures var s' := RemoveAll(s, rs); e in s'.ents ==>
      e in s.ents && (s'.ents[e].index == s.ents[e].index || s'.ents[e].index == NO_INDEX)
    decreases |rs|
  {
    if rs != [] {
      KeysStay(s, rs[0]);
      RemoveIndex(s, rs[0], e);
      RemoveAllIndex(RemovePos(s, rs[0].q, rs[0].pos), rs[1..], e);
    }
  }

  /** An entry plays, remembers its true position, and is left in its list by any removals. */
  ghost predicate StaysListed(s: State, rs: seq<Removal>, q: nat) {
    && Counted(s, multiset{}) && FromLists(s, rs) && Plays(s, q) && |s.qs[q].items| < NO_INDEX
    && s.ents[Playing(s, q)].index == s.qs[q].cursorIndex
    && s.qs[q].cursorIndex in Left(s, rs, q) && !TakenFromOther(s, rs, q, Playing(s, q))
  }

  /** All places below `c` are left. */
  ghost predicate NoneGone(left: seq<nat>, c: nat) { forall k :: 0 <= k < c ==> k in left }

  /** Going back then leads to the item before the entry if and only if there is one and no item
      before it was removed. */
  lemma PrevAfterRemovals(s: State, rs: seq<Removal>, q: nat)
    requires StaysListed(s, rs, q)
    ensures RemoveAll(s, rs).qs[q].items == ItemsLeft(s, rs, q)
    ensures var c, left := s.qs[q].cursorIndex, Left(s, rs, q); var p := Before(left, c);
      && p < |left| && left[p] == c
      && (PrevIndex(RemoveAll(s, rs), q) == p - 1 <==> p > 0 && NoneGone(left, c))
  {
    CursorStays(s, rs, q);
    LeftPlaces(s, rs, q);
    PrevRemembered(s, rs, q);
    PrevPlace(Left(s, rs, q), s.qs[q].cursorIndex);
  }

  lemma PrevPlace(left: seq<nat>, c: nat)
    requires Increasing(left) && c in left
    ensures var p := Before(left, c);
      p <= c && p < |left| && left[p] == c && (p == c <==> NoneGone(left, c))
  {
    NextIsFirstAfter(left, c);
    PlacesBefore(left, c);
  }

  /** It is still the cursor, and what it remembers is the place it had. */
  lemma PrevRemembered(s: State, rs: seq<Removal>, q: nat)
    requires StaysListed(s, rs, q)
    ensures var c := s.qs[q].cursorIndex; PrevIndex(RemoveAll(s, rs), q) == if c == 0 then 0xFFFF_FFFF else c - 1
  {
    var e, s' := Playing(s, q), RemoveAll(s, rs);
    StillThere(s, rs, q);
    RemoveAllFollows(s, rs, q, e, false);
    RemoveAllIndex(s, rs, e);
    PrevIndexIs(s', q, e, s.qs[q].cursorIndex);
  }

  lemma PrevIndexIs(s: State, q: nat, e: nat, index: nat)
    requires Current(s, q, e, false) && e in s.qs[q].items && e in s.ents && index < NO_INDEX
    requires s.ents[e].index == index || s.ents[e].index == NO_INDEX
    ensures PrevIndex(s, q) == if index == 0 then 0xFFFF_FFFF else index - 1
  {
  }

  lemma StillThere(s: State, rs: seq<Removal>, q: nat)
    requires StaysListed(s, rs, q)
    ensures var e, s' := Playing(s, q), RemoveAll(s, rs); e in s'.qs[q].items && e in s'.ents
  {
    var c, items, s' := s.qs[q].cursorIndex, s.qs[q].items, RemoveAll(s, rs);
    assert ListLinked(s.ents, items);
    CursorStays(s, rs, q);
    LeftPlaces(s, rs, q);
    FindPlace(items, Left(s, rs, q), c);
    RemoveAllFollows(s, rs, q, items[c], false);
    assert ListLinked(s'.ents, s'.qs[q].items);
  }

  /** As many places below `c` are left as there were exactly if all of them are. */
  lemma {:induction false} PlacesBefore(left: seq<nat>, c: nat)
    requires Increasing(left)
    ensures Before(left, c) <= c
    ensures Before(left, c) == c <==> NoneGone(left, c)
  {
    BeforeIs(left, c);
    if c == 0 {
      NoneBelowZero(left);
    } else {
      PlacesBefore(left, c - 1);
      BeforeNext(left, c - 1);
    }
  }

  lemma {:induction false} NoneBelowZero(left: seq<nat>)
    ensures Before(left, 0) == 0
  {
    if left != [] { NoneBelowZero(left[..|left|-1]); }
  }

  lemma BeforeNext(left: seq<nat>, c: nat)
    requires Increasing(left)
    ensures Before(left, c + 1) == Before(left, c) + if c in left then 1 else 0
  {
    BeforeIs(left, c);
    BeforeIs(left, c + 1);
    var b, b' := Before(left, c), Before(left, c + 1);
    assert b < |left| ==> left[b] >= c;
    assert b' < |left| ==> left[b'] > c;
    assert b' > 0 ==> left[b'-1] <= c;
    if c in left {
      var k :| 0 <= k < |left| && left[k] == c;
      assert k == b;
      assert b + 1 < |left| ==> left[b] < left[b+1];
    }
  }

  /** Entry 2 of a list of two plays, and entry 1 is removed: going back plays entry 2 again. */
  lemma PlayedItself() returns (s: State)
    ensures Reached(s) && Plays(s, 0) && Playing(s, 0) == 2 && s.qs == map[0 := List([1, 2], Some(2), 1)]
    ensures var s' := RemovePos(s, 0, 0); 0 in s'.qs && s'.qs[0].items == [2] && PrevIndex(s', 0) == 0
  {
    s := SecondPlays();
    var s' := RemovePos(s, 0, 0);
    assert s'.ents[2] == Entry(0, 1, 2) && s'.qs[0].items == [2];
  }
}
