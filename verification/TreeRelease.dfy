/** Releasing a file-name tree: every block is freed after its children, once, and no
    block is read after it was freed. */
module TreeRelease {
  import opened Common
  import opened FileTree
  import opened TreeCursor

  /** Blocks still to be released once the current one is. */
  ghost function PendingBlocks(stk: seq<Frame>): seq<nat> {
    if stk == [] then [] else
      var f := stk[|stk|-1];
      PostFrom(f.b, f.i + 1) + [f.b.id] + PendingBlocks(stk[..|stk|-1])
  }

  /** Blocks still to be released when the entries before `n` of `b` are dealt with. */
  ghost function OwedBlocks(b: Block, n: nat, stk: seq<Frame>): seq<nat>
  {
    PostFrom(b, n) + [b.id] + PendingBlocks(stk)
  }

  lemma OwedBlocksEnter(b: Block, n: nat, stk: seq<Frame>)
    requires n < |b.entries|
    ensures b.entries[n].children.Some? ==>
      OwedBlocks(b, n, stk) == OwedBlocks(b.entries[n].children.value, 0, stk + [Frame(b, n)])
    ensures b.entries[n].children.None? ==> OwedBlocks(b, n, stk) == OwedBlocks(b, n + 1, stk)
  {
    var stk' := stk + [Frame(b, n)];
    assert stk'[..|stk'|-1] == stk;
    var e := b.entries[n];
    assert PostFrom(b, n) == PostBelow(e) + PostFrom(b, n + 1);
    if e.children.Some? {
      var c := e.children.value;
      assert PostBelow(e) == PostFrom(c, 0) + [c.id];
      assert OwedBlocks(c, 0, stk') == PostFrom(c, 0) + [c.id] + (PostFrom(b, n + 1) + [b.id] + PendingBlocks(stk));
    }
  }

  /** The stack leads from `root` down to `b`. */
  ghost predicate Leads(root: Block, stk: seq<Frame>, b: Block) {
    if stk == [] then b == root else
      var f := stk[|stk|-1];
      && f.i < |f.b.entries| && f.b.entries[f.i].children == Some(b)
      && Leads(root, stk[..|stk|-1], f.b)
  }

  lemma {:induction false} LeadsFits(root: Block, stk: seq<Frame>, b: Block)
    requires Leads(root, stk, b) && |stk| <= MAX_DEPTH && Fits(root, MAX_DEPTH)
    ensures Fits(b, MAX_DEPTH - |stk|)
  {
    if stk != [] {
      var f := stk[|stk|-1];
      LeadsFits(root, stk[..|stk|-1], f.b);
      assert EntryFits(f.b.entries[f.i], MAX_DEPTH - |stk| + 1);
    }
  }

  /** Walking inside block `b`, next entry `n`. */
  ghost predicate Inside(root: Block, b: Block, n: nat, stk: seq<Frame>) {
    |stk| <= MAX_DEPTH && Leads(root, stk, b) && StackFits(stk) && FitsBefore(b, n, |stk|)
  }

  /** Between two calls, after a block was handed out. */
  ghost predicate Between(root: Block, stk: seq<Frame>) {
    stk != [] ==>
      var f := stk[|stk|-1];
      f.i < |f.b.entries| && Inside(root, f.b, f.i + 1, stk[..|stk|-1])
  }

  lemma InsideEnter(root: Block, b: Block, n: nat, stk: seq<Frame>)
    requires Inside(root, b, n, stk) && n < |b.entries|
    ensures b.entries[n].children.Some? && |stk| < MAX_DEPTH ==>
      Inside(root, b.entries[n].children.value, 0, stk + [Frame(b, n)])
    ensures b.entries[n].children.Some? && |stk| == MAX_DEPTH ==> !Fits(root, MAX_DEPTH)
    ensures b.entries[n].children.None? ==> Inside(root, b, n + 1, stk)
  {
    var stk' := stk + [Frame(b, n)];
    assert stk'[..|stk'|-1] == stk;
    if b.entries[n].children.Some? && |stk| == MAX_DEPTH && Fits(root, MAX_DEPTH) {
      LeadsFits(root, stk, b);
    }
  }

  lemma InsideLeave(root: Block, b: Block, n: nat, stk: seq<Frame>)
    requires Inside(root, b, n, stk) && n == |b.entries|
    ensures Between(root, stk)
    ensures stk == [] ==> b == root && Fits(root, MAX_DEPTH)
  {
    if stk != [] {
      var f, rest := stk[|stk|-1], stk[..|stk|-1];
      assert Fits(b, MAX_DEPTH - |stk|);
      assert FitsBefore(f.b, f.i, |rest|);
      assert EntryFits(f.b.entries[f.i], MAX_DEPTH - |rest|);
      assert StackFits(rest);
    }
  }

  /** The walk stands before entry `n` of `b` and owes the blocks `owed`, all of them live. */
  ghost predicate Descending(root: Block, b: Block, n: nat, stk: seq<Frame>, owed: seq<nat>, live: set<nat>) {
    && Inside(root, b, n, stk) && OwedBlocks(b, n, stk) == owed
    && forall k :: 0 <= k < |owed| ==> owed[k] in live
  }

  lemma DescendStep(root: Block, b: Block, n: nat, stk: seq<Frame>, owed: seq<nat>, live: set<nat>)
    requires Descending(root, b, n, stk, owed, live)
    ensures b.id in live
    ensures n == |b.entries| ==>
      && Between(root, stk) && owed == [b.id] + PendingBlocks(stk)
      && (stk == [] ==> b == root && Fits(root, MAX_DEPTH))
    ensures n < |b.entries| && b.entries[n].children.None? ==>
      Descending(root, b, n + 1, stk, owed, live) && WorkOf(b, n + 1, stk) < WorkOf(b, n, stk)
    ensures n < |b.entries| && b.entries[n].children.Some? && |stk| == MAX_DEPTH ==> !Fits(root, MAX_DEPTH)
    ensures n < |b.entries| && b.entries[n].children.Some? && |stk| < MAX_DEPTH ==>
      var c, stk' := b.entries[n].children.value, stk + [Frame(b, n)];
      Descending(root, c, 0, stk', owed, live) && WorkOf(c, 0, stk') < WorkOf(b, n, stk)
  {
    assert owed[|PostFrom(b, n)|] == b.id;
    if n == |b.entries| {
      InsideLeave(root, b, n, stk);
    } else {
      OwedBlocksEnter(b, n, stk);
      InsideEnter(root, b, n, stk);
      WorkEnter(b, n, stk);
    }
  }

  ghost predicate Releasing(c: Cursor, root: Block)
    reads c
  {
    c.Valid() && !c.curblock.At? && (c.curblock.Visited? ==> Between(root, c.stk))
  }

  ghost function StillOwed(c: Cursor, root: Block): seq<nat>
    reads c
  {
    if c.curblock.Null? then OwedBlocks(root, 0, []) else PendingBlocks(c.stk)
  }

  /** Next block to free, after everything below it. `live` is the set of blocks not freed:
      each block is asserted to be in it where the code reads the block. `None` with the
      cursor still inside a block means that the stacks were too small for the tree. */
  method NextPost(c: Cursor, root: Block, ghost live: set<nat>) returns (r: Option<Block>)
    requires Releasing(c, root)
    requires forall k :: 0 <= k < |StillOwed(c, root)| ==> StillOwed(c, root)[k] in live
    modifies c
    ensures r.Some? ==> Releasing(c, root) && c.curblock.Visited?
    ensures r.Some? ==> old(StillOwed(c, root)) == [r.value.id] + StillOwed(c, root)
    ensures r.Some? && c.stk == [] ==> r.value == root && Fits(root, MAX_DEPTH)
    ensures r.None? && c.curblock.Visited? ==> old(StillOwed(c, root)) == [] && old(c.curblock.Visited? && c.stk == [])
    ensures r.None? && !c.curblock.Visited? ==> old(StillOwed(c, root)) != [] && !Fits(root, MAX_DEPTH)
  {
    ghost var owed := StillOwed(c, root);
    if c.curblock.Null? { c.curblock := At(root); }
    var b := root;
    if c.curblock.Visited? {
      var parent := c.Pop();
      if parent.None? { return None; }
      b := parent.value;
    }
    r := DescendPost(c, root, b, owed, live);
  }

  /** What a call leaves behind: the block handed out was the first one owed, or the tree is
      too deep. */
  ghost predicate HandedOut(c: Cursor, root: Block, owed: seq<nat>, r: Option<Block>)
    reads c
  {
    && (r.Some? ==> Releasing(c, root) && c.curblock.Visited? && owed == [r.value.id] + StillOwed(c, root))
    && (r.Some? && c.stk == [] ==> r.value == root && Fits(root, MAX_DEPTH))
    && (r.None? ==> !c.curblock.Visited? && !Fits(root, MAX_DEPTH))
  }

  ghost predicate Standing(c: Cursor, root: Block, b: Block, owed: seq<nat>, live: set<nat>)
    reads c
  {
    c.Valid() && c.curblock == At(b) && Descending(root, b, c.Next(), c.stk, owed, live)
  }

  /** The loop of `NextPost`. */
  method DescendPost(c: Cursor, root: Block, b0: Block, ghost owed: seq<nat>, ghost live: set<nat>)
    returns (r: Option<Block>)
    requires Standing(c, root, b0, owed, live)
    modifies c
    ensures HandedOut(c, root, owed, r)
  {
    var b := b0;
    while true
      invariant Standing(c, root, b, owed, live)
      decreases WorkOf(b, c.Next(), c.stk)
    {
      var next;
      next, r := PostStep(c, root, b, owed, live);
      if next.None? { return; }
      b := next.value;
    }
  }

  /** One turn of the loop: the block to look at next, or else the result. */
  method PostStep(c: Cursor, root: Block, b: Block, ghost owed: seq<nat>, ghost live: set<nat>)
    returns (next: Option<Block>, r: Option<Block>)
    requires Standing(c, root, b, owed, live)
    modifies c
    ensures next.Some? ==> Standing(c, root, next.value, owed, live)
    ensures next.Some? ==> WorkOf(next.value, c.Next(), c.stk) < old(WorkOf(b, c.Next(), c.stk))
    ensures next.None? ==> HandedOut(c, root, owed, r)
  {
    DescendStep(root, b, c.Next(), c.stk, owed, live);
    assert b.id in live;
    var e := c.NextInBlock(b);
    if e.None? {
      c.curblock := Visited;
      return None, Some(b);
    }
    next, r := Some(b), None;
    if b.entries[e.value].children.Some? {
      next := c.Push(b, e.value);
    }
  }

  /** Frees the blocks that `NextPost` hands out. A tree that fits the stacks is released
      completely, children before parents; of a deeper one the root is never released. */
  method FreeAll(root: Block, live: set<nat>) returns (freed: seq<nat>, live': set<nat>)
    requires Distinct(PostOrder(root))
    requires forall k :: 0 <= k < |PostOrder(root)| ==> PostOrder(root)[k] in live
    ensures Fits(root, 64) ==> freed == PostOrder(root)
    ensures !Fits(root, 64) ==> freed < PostOrder(root) && root.id !in freed
    ensures live' == live - set id | id in freed
  {
    var c := new Cursor();
    freed, live' := [], live;
    ghost var all := PostOrder(root);
    assert OwedBlocks(root, 0, []) == all;
    while true
      invariant fresh(c) && Releasing(c, root)
      invariant freed + StillOwed(c, root) == all
      invariant freed != [] ==> c.curblock.Visited?
      invariant c.curblock.Visited? && c.stk == [] ==> Fits(root, MAX_DEPTH)
      invariant live' == live - set id | id in freed
      decreases |StillOwed(c, root)|
    {
      ghost var owed := StillOwed(c, root);
      OwedAreLive(all, freed, owed, live, live');
      var b := NextPost(c, root, live');
      if b.None? {
        LastIsRoot(root, all, freed, owed);
        break;
      }
      assert b.value.id in live' by { assert owed[0] == b.value.id; }
      freed, live' := freed + [b.value.id], live' - {b.value.id};
    }
  }

  lemma OwedAreLive(all: seq<nat>, freed: seq<nat>, owed: seq<nat>, live: set<nat>, live': set<nat>)
    requires all == freed + owed && Distinct(all)
    requires forall k :: 0 <= k < |all| ==> all[k] in live
    requires live' == live - set id | id in freed
    ensures forall k :: 0 <= k < |owed| ==> owed[k] in live'
  {
    forall k | 0 <= k < |owed| ensures owed[k] in live' {
      assert all[|freed| + k] == owed[k];
      forall j | 0 <= j < |freed| ensures freed[j] != owed[k] { assert all[j] == freed[j]; }
    }
  }

  lemma LastIsRoot(root: Block, all: seq<nat>, freed: seq<nat>, owed: seq<nat>)
    requires all == PostOrder(root) && all == freed + owed && Distinct(all)
    ensures owed != [] ==> freed < all && root.id !in freed
    ensures owed == [] ==> freed == all
  {
    if owed != [] {
      assert all[|all|-1] == root.id;
      forall j | 0 <= j < |freed| ensures freed[j] != root.id { assert all[j] == freed[j]; }
    }
  }
}
