/** Explicit-stack iteration over a file-name tree: the cursor and the pre-order walk. */
module TreeCursor {
  import opened Common
  import opened NameOrder
  import opened FileTree

  /** One level of the cursor's two stacks: a block and the entry it was left at. */
  datatype Frame = Frame(b: Block, i: nat)

  /** `c->curblock`: NULL, a block, or the mark "(void*)-1" left by the post-order walk. */
  datatype BlockPtr = Null | At(b: Block) | Visited

  predicate GoodStack(stk: seq<Frame>) {
    forall k :: 0 <= k < |stk| ==> stk[k].i < |stk[k].b.entries|
  }

  function PlaceOf(stk: seq<Frame>): Place
    requires GoodStack(stk)
    ensures |PlaceOf(stk).addr| == |PlaceOf(stk).path| == |stk|
  {
    if stk == [] then ROOT else
      var f := stk[|stk|-1];
      Below(PlaceOf(stk[..|stk|-1]), f.i, f.b.entries[f.i].name)
  }

  // ------------------------------------------------------------ depth

  /** The entries before `n` are known to nest no deeper than the stacks allow. */
  ghost predicate FitsBefore(b: Block, n: nat, depth: nat) {
    && depth <= MAX_DEPTH && n <= |b.entries|
    && forall j :: 0 <= j < n ==> EntryFits(b.entries[j], MAX_DEPTH - depth)
  }

  ghost predicate StackFits(stk: seq<Frame>) {
    forall k :: 0 <= k < |stk| ==> FitsBefore(stk[k].b, stk[k].i, k)
  }

  // ------------------------------------------------------------ pre-order listing

  /** What a pre-order walk still owes once the current block is finished. */
  ghost function Pending(stk: seq<Frame>): seq<Visit>
    requires GoodStack(stk)
  {
    if stk == [] then [] else
      var f, rest := stk[|stk|-1], stk[..|stk|-1];
      PreFrom(f.b, f.i + 1, PlaceOf(rest)) + Pending(rest)
  }

  /** What it still owes when the entries before `n` of block `b` are dealt with. */
  ghost function Owed(b: Block, n: nat, stk: seq<Frame>): seq<Visit>
    requires GoodStack(stk)
  {
    PreFrom(b, n, PlaceOf(stk)) + Pending(stk)
  }

  function VisitOf(b: Block, i: nat, stk: seq<Frame>): Visit
    requires GoodStack(stk) && i < |b.entries|
    ensures |VisitOf(b, i, stk).place.addr| == |stk| + 1
  {
    Visit(Below(PlaceOf(stk), i, b.entries[i].name), b.entries[i].children.Some?)
  }

  /** Standing on entry `i`: its children first, then the entries after it. */
  ghost function OwedAfter(b: Block, i: nat, stk: seq<Frame>): seq<Visit>
    requires GoodStack(stk) && i < |b.entries|
  {
    PreBelow(b.entries[i], VisitOf(b, i, stk).place) + Owed(b, i + 1, stk)
  }

  lemma OwedStep(b: Block, n: nat, stk: seq<Frame>)
    requires GoodStack(stk) && n < |b.entries|
    ensures Owed(b, n, stk) == [VisitOf(b, n, stk)] + OwedAfter(b, n, stk)
  {
  }

  lemma OwedLeave(b: Block, n: nat, stk: seq<Frame>)
    requires GoodStack(stk) && n >= |b.entries|
    ensures stk == [] ==> Owed(b, n, stk) == []
    ensures stk != [] ==>
      Owed(b, n, stk) == Owed(stk[|stk|-1].b, stk[|stk|-1].i + 1, stk[..|stk|-1])
  {
  }

  lemma OwedEnter(b: Block, i: nat, stk: seq<Frame>)
    requires GoodStack(stk) && i < |b.entries|
    ensures b.entries[i].children.Some? ==>
      Owed(b.entries[i].children.value, 0, stk + [Frame(b, i)]) == OwedAfter(b, i, stk)
    ensures b.entries[i].children.None? ==> Owed(b, i + 1, stk) == OwedAfter(b, i, stk)
  {
    var stk' := stk + [Frame(b, i)];
    assert stk'[..|stk'|-1] == stk;
  }

  /** A directory met when the stacks are full: the walk cannot enter it. */
  predicate TooDeep(v: Visit) { v.dir && |v.place.addr| == MAX_DEPTH + 1 }

  /** A listing that ends with the first directory too deep to enter. */
  ghost function Cut(vs: seq<Visit>): seq<Visit> {
    if vs == [] then [] else if TooDeep(vs[0]) then [vs[0]] else [vs[0]] + Cut(vs[1..])
  }

  lemma {:induction false} CutConcat(a: seq<Visit>, b: seq<Visit>)
    requires forall k :: 0 <= k < |a| - 1 ==> !TooDeep(a[k])
    ensures Cut(a + b) == if a != [] && TooDeep(a[|a|-1]) then a else a + Cut(b)
  {
    if a == [] {
      assert a + b == b;
    } else {
      assert (a + b)[1..] == a[1..] + b;
      if |a| > 1 { CutConcat(a[1..], b); }
      assert |a| == 1 ==> a[1..] + b == b;
    }
  }

  /** The cut loses nothing exactly when no directory but the last entry is too deep. */
  lemma {:induction false} CutCompleteIff(vs: seq<Visit>)
    ensures Cut(vs) == vs <==> forall k :: 0 <= k < |vs| - 1 ==> !TooDeep(vs[k])
  {
    if |vs| > 1 {
      CutCompleteIff(vs[1..]);
      if TooDeep(vs[0]) {
        assert |Cut(vs)| == 1;
      } else {
        assert Cut(vs)[1..] == Cut(vs[1..]);
        if forall k :: 0 <= k < |vs[1..]| - 1 ==> !TooDeep(vs[1..][k]) {
          assert forall k :: 1 <= k < |vs| - 1 ==> vs[k] == vs[1..][k-1];
        }
      }
    }
  }

  /** A tree nested at most `MAX_DEPTH` levels has no directory too deep to enter. */
  lemma {:induction false} FitsNoneTooDeep(b: Block, i: nat, at: Place, k: nat)
    requires |at.addr| <= MAX_DEPTH && Fits(b, MAX_DEPTH - |at.addr|)
    requires k < |PreFrom(b, i, at)|
    ensures !TooDeep(PreFrom(b, i, at)[k])
    decreases b, |b.entries| - i
  {
    var e := b.entries[i];
    assert EntryFits(e, MAX_DEPTH - |at.addr|);
    var here := Below(at, i, e.name);
    var c := PreBelow(e, here);
    if 0 < k <= |c| {
      FitsNoneTooDeep(e.children.value, 0, here, k - 1);
      assert PreFrom(b, i, at)[k] == c[k-1];
    } else if k > |c| {
      FitsNoneTooDeep(b, i + 1, at, k - 1 - |c|);
      assert PreFrom(b, i, at)[k] == PreFrom(b, i + 1, at)[k - 1 - |c|];
    }
  }

  lemma FitsComplete(root: Block)
    requires Fits(root, MAX_DEPTH)
    ensures Cut(PreOrder(root)) == PreOrder(root)
  {
    forall k | 0 <= k < |PreOrder(root)| ensures !TooDeep(PreOrder(root)[k]) {
      FitsNoneTooDeep(root, 0, ROOT, k);
    }
    CutCompleteIff(PreOrder(root));
  }

  /** Entries still to be stepped over in the blocks on the stack. */
  ghost function PendingWork(stk: seq<Frame>): nat {
    if stk == [] then 0 else
      var f := stk[|stk|-1];
      WorkFrom(f.b, f.i + 1) + PendingWork(stk[..|stk|-1])
  }

  ghost function WorkOf(b: Block, n: nat, stk: seq<Frame>): nat { WorkFrom(b, n) + PendingWork(stk) }

  lemma WorkEnter(b: Block, n: nat, stk: seq<Frame>)
    requires n < |b.entries|
    ensures b.entries[n].children.Some? ==>
      WorkOf(b.entries[n].children.value, 0, stk + [Frame(b, n)]) < WorkOf(b, n, stk)
    ensures WorkOf(b, n + 1, stk) < WorkOf(b, n, stk)
  {
    var stk' := stk + [Frame(b, n)];
    assert stk'[..|stk'|-1] == stk;
    assert PendingWork(stk') == WorkFrom(b, n + 1) + PendingWork(stk);
    assert WorkFrom(b, n) == 1 + WorkBelow(b.entries[n]) + WorkFrom(b, n + 1);
  }

  class Cursor {
    var cur: Option<nat>
    var curblock: BlockPtr
    var stk: seq<Frame>

    constructor ()
      ensures cur == None && curblock == Null && stk == []
    {
      cur, curblock, stk := None, Null, [];
    }

    ghost predicate Valid()
      reads this
    {
      && |stk| <= MAX_DEPTH && GoodStack(stk)
      && (curblock.Null? ==> cur.None? && stk == [])
      && (curblock.At? && cur.Some? ==> cur.value < |curblock.b.entries|)
    }

    /** Index of the entry after the current one. */
    ghost function Next(): nat
      reads this
    {
      if cur.None? then 0 else cur.value + 1
    }

    method NextInBlock(b: Block) returns (e: Option<nat>)
      requires cur.Some? ==> cur.value < |b.entries|
      modifies this`cur
      ensures e == if old(Next()) < |b.entries| then Some(old(Next())) else None
      ensures cur == if e.Some? then e else old(cur)
    {
      var i := if cur.None? then 0 else cur.value + 1;
      if i == |b.entries| { return None; }
      cur := Some(i);
      e := cur;
    }

    /** Enters the children of entry `i`; refuses when the stacks are full. */
    method Push(b: Block, i: nat) returns (child: Option<Block>)
      requires i < |b.entries| && b.entries[i].children.Some? && |stk| <= MAX_DEPTH
      modifies this
      ensures old(|stk|) == 64 ==> child.None? && cur == old(cur) && curblock == old(curblock) && stk == old(stk)
      ensures old(|stk|) < 64 ==>
        && child == b.entries[i].children && curblock == At(child.value) && cur.None?
        && stk == old(stk) + [Frame(b, i)]
    {
      if |stk| == MAX_DEPTH { return None; }
      stk := stk + [Frame(b, i)];
      cur := None;
      curblock := At(b.entries[i].children.value);
      child := Some(curblock.b);
    }

    method Pop() returns (parent: Option<Block>)
      modifies this
      ensures old(stk) == [] ==> parent.None? && cur == old(cur) && curblock == old(curblock) && stk == old(stk)
      ensures old(stk) != [] ==>
        var f := old(stk)[|old(stk)|-1];
        && stk == old(stk)[..|old(stk)|-1] && cur == Some(f.i) && curblock == At(f.b) && parent == Some(f.b)
    {
      if stk == [] { return None; }
      var f := stk[|stk|-1];
      stk := stk[..|stk|-1];
      cur := Some(f.i);
      curblock := At(f.b);
      parent := Some(f.b);
    }

    // ---------------------------------------------------------- pre-order

    ghost predicate OnEntry()
      reads this
    {
      Valid() && curblock.At? && cur.Some?
    }

    /** The visit of the entry the cursor stands on. */
    function Here(): Visit
      reads this
      requires OnEntry()
    {
      VisitOf(curblock.b, cur.value, stk)
    }

    /** Everything still to be listed after the entry the cursor stands on. */
    ghost function Rest(root: Block): seq<Visit>
      reads this
      requires Valid() && !curblock.Visited?
    {
      if curblock.Null? then Owed(root, 0, [])
      else if cur.None? then Owed(curblock.b, 0, stk)
      else OwedAfter(curblock.b, cur.value, stk)
    }

    /** The entry the cursor stands on cannot be entered. */
    ghost predicate Stuck()
      reads this
    {
      OnEntry() && TooDeep(Here())
    }

    /** The entry after the current one in its block, or after the nearest ancestor that has
        one: the loop of `NextR`. */
    method Climb(b0: Block) returns (r: Option<Entry>)
      requires Valid() && curblock == At(b0)
      modifies this
      ensures Valid() && curblock.At?
      ensures r.Some? ==> OnEntry() && r.value == curblock.b.entries[cur.value]
      ensures r.Some? ==> old(Owed(b0, Next(), stk)) == [Here()] + OwedAfter(curblock.b, cur.value, stk)
      ensures r.None? ==> old(Owed(b0, Next(), stk)) == [] && stk == []
    {
      ghost var owed := Owed(b0, Next(), stk);
      var b := b0;
      while true
        invariant Valid() && curblock == At(b) && Owed(b, Next(), stk) == owed
        decreases |stk|
      {
        ghost var n, s := Next(), stk;
        var i := NextInBlock(b);
        if i.Some? {
          OwedStep(b, n, s);
          return Some(b.entries[i.value]);
        }
        OwedLeave(b, n, s);
        var parent := Pop();
        if parent.None? { return None; }
        b := parent.value;
      }
    }

    /** Goes inside the current entry when it is a directory: the first part of `NextR`. */
    method Enter(root: Block) returns (ok: bool)
      requires Valid() && !curblock.Visited?
      modifies this
      ensures Valid() && curblock.At?
      ensures ok == !old(Stuck()) && (!ok ==> stk == old(stk))
      ensures ok ==> Owed(curblock.b, Next(), stk) == old(Rest(root))
    {
      if curblock.Null? { curblock := At(root); }
      if cur.Some? {
        OwedEnter(curblock.b, cur.value, stk);
        if curblock.b.entries[cur.value].children.Some? {
          var child := Push(curblock.b, cur.value);
          return child.Some?;
        }
      }
      ok := true;
    }

    /** Next entry, parent before children. `None` means that nothing is left, or that the
        current entry is a directory too deep to enter. */
    method NextR(root: Block) returns (r: Option<Entry>)
      requires Valid() && !curblock.Visited?
      modifies this
      ensures Valid() && curblock.At?
      ensures r.Some? ==> OnEntry() && r.value == curblock.b.entries[cur.value]
      ensures r.Some? ==> old(Rest(root)) == [Here()] + Rest(root)
      ensures r.None? <==> old(Rest(root)) == [] || old(Stuck())
      ensures r.None? ==> stk == if old(Stuck()) then old(stk) else []
    {
      var ok := Enter(root);
      if !ok { return None; }
      r := Climb(curblock.b);
    }
  }

  /** A pre-order walk under way: `out` is listed, the cursor stands on its last visit. */
  ghost predicate Listing(c: Cursor, root: Block, out: seq<Visit>)
    reads c
  {
    && c.Valid() && !c.curblock.Visited?
    && out + c.Rest(root) == PreOrder(root)
    && (forall k :: 0 <= k < |out| - 1 ==> !TooDeep(out[k]))
    && (out == [] ==> !c.OnEntry())
    && (out != [] ==> c.OnEntry() && c.Here() == out[|out|-1])
  }

  method ListStep(c: Cursor, root: Block, out: seq<Visit>) returns (more: bool, out': seq<Visit>)
    requires Listing(c, root, out)
    modifies c
    ensures more ==> Listing(c, root, out') && |c.Rest(root)| < old(|c.Rest(root)|)
    ensures !more ==> out' == Cut(PreOrder(root))
  {
    ghost var rest := c.Rest(root);
    CutConcat(out, rest);
    var e := c.NextR(root);
    if e.None? { return false, out; }
    assert out + rest == out + [c.Here()] + c.Rest(root);
    return true, out + [c.Here()];
  }

  /** Repeats `NextR` on a fresh cursor until it returns nothing. */
  method ListAll(root: Block) returns (out: seq<Visit>)
    ensures out == Cut(PreOrder(root))
    ensures Fits(root, 64) ==> out == PreOrder(root)
    ensures out == PreOrder(root) <==> forall k :: 0 <= k < |PreOrder(root)| - 1 ==> !TooDeep(PreOrder(root)[k])
  {
    var c := new Cursor();
    out := [];
    var more := true;
    while more
      invariant fresh(c) && (more ==> Listing(c, root, out))
      invariant !more ==> out == Cut(PreOrder(root))
      decreases more, if more then |c.Rest(root)| else 0
    {
      more, out := ListStep(c, root, out);
    }
    CutCompleteIff(PreOrder(root));
    if Fits(root, MAX_DEPTH) { FitsComplete(root); }
  }
}
