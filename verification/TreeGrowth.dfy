/** A file-name tree that grows while it is walked: what it will have become in the end.

    After an entry is listed its user may attach a child block to it; what is attached depends
    on the entry's place, and the new block's entries are listed, and attached to, in turn. */
module TreeGrowth {
  import opened Common
  import opened FileTree
  import opened TreeCursor

  /** What the user attaches to the entry at a place, if anything. */
  type Attach = Place -> Option<Block>

  /** `b` with `child` attached to entry `i`. */
  function Attached(b: Block, i: nat, child: Block): Block
    requires i < |b.entries|
  {
    b.(entries := b.entries[i := b.entries[i].(children := Some(child))])
  }

  /** The tree with `child` attached to the entry at address `a`. */
  ghost function AttachAt(b: Block, a: seq<nat>, child: Block): Block
    requires IsAddr(b, a)
    decreases |a|
  {
    if |a| == 1 then Attached(b, a[0], child)
    else Attached(b, a[0], AttachAt(b.entries[a[0]].children.value, a[1..], child))
  }

  // ------------------------------------------------------------ the grown tree

  /** Everything is attached that will be, down to the blocks that no walk can enter. */
  ghost function Grow(b: Block, at: Place, attach: Attach): Block
    decreases MAX_DEPTH + 1 - |at.addr|, 2
  {
    if |at.addr| > MAX_DEPTH then b else Partly(b, at, 0, 0, attach)
  }

  ghost function GrowChild(c: Option<Block>, at: Place, attach: Attach): Option<Block>
    requires |at.addr| <= MAX_DEPTH + 1
    decreases MAX_DEPTH + 1 - |at.addr|, 3
  {
    if c.None? then None else Some(Grow(c.value, at, attach))
  }

  /** The children of an entry once its user had the chance to attach some. */
  function Children(e: Entry, here: Place, attach: Attach): Option<Block> {
    if attach(here).Some? then attach(here) else e.children
  }

  /** The block as it will be, when a walk has dealt with everything below the first `n`
      entries and has listed the first `m`. */
  ghost function Partly(b: Block, at: Place, n: nat, m: nat, attach: Attach): (r: Block)
    requires |at.addr| <= MAX_DEPTH
    ensures r.id == b.id && |r.entries| == |b.entries|
    ensures forall j :: 0 <= j < |b.entries| ==> r.entries[j] == EntryPartly(b, at, n, m, attach, j)
    decreases MAX_DEPTH + 1 - |at.addr|, 1
  {
    Block(b.id, seq(|b.entries|, j requires 0 <= j < |b.entries| => EntryPartly(b, at, n, m, attach, j)))
  }

  ghost function EntryPartly(b: Block, at: Place, n: nat, m: nat, attach: Attach, j: nat): (r: Entry)
    requires |at.addr| <= MAX_DEPTH && j < |b.entries|
    ensures r.name == b.entries[j].name
    decreases MAX_DEPTH + 1 - |at.addr|, 0
  {
    var e := b.entries[j];
    var here := Below(at, j, e.name);
    if j < n then e
    else e.(children := GrowChild(if j < m then e.children else Children(e, here, attach), here, attach))
  }

  /** The whole tree as `root` will have become. */
  ghost function Grown(root: Block, attach: Attach): Block { Grow(root, ROOT, attach) }

  /** Every entry keeps its name, and its children grow: those attached to it if there are any, or
      else those it had. */
  lemma GrowEach(b: Block, at: Place, attach: Attach, j: nat)
    requires |at.addr| <= 64 && j < |b.entries|
    ensures var r, e := Grow(b, at, attach), b.entries[j];
      var here := Place(at.addr + [j], at.path + [e.name]);
      var c := if attach(here).Some? then attach(here) else e.children;
      && r.id == b.id && |r.entries| == |b.entries| && r.entries[j].name == e.name
      && (c.None? ==> r.entries[j].children.None?)
      && (c.Some? ==> r.entries[j].children == Some(Grow(c.value, here, attach)))
  {
    var here := Below(at, j, b.entries[j].name);
    var c := Children(b.entries[j], here, attach);
    assert MAX_DEPTH == 64;
    assert Grow(b, at, attach) == Partly(b, at, 0, 0, attach);
    assert Grow(b, at, attach).entries[j] == EntryPartly(b, at, 0, 0, attach, j);
    assert Grow(b, at, attach).entries[j].children == GrowChild(c, here, attach);
    assert here == Place(at.addr + [j], at.path + [b.entries[j].name]);
  }

  /** What no walk can enter stays as it was attached. */
  lemma GrowNoFurther(b: Block, at: Place, attach: Attach)
    requires |at.addr| > 64
    ensures Grow(b, at, attach) == b
  {
  }

  /** Attaching gives the entry at the address its children and nothing else. */
  lemma {:induction false} AttachedThere(b: Block, a: seq<nat>, child: Block)
    requires IsAddr(b, a)
    ensures IsAddr(AttachAt(b, a, child), a)
    ensures EntryAt(AttachAt(b, a, child), a) == EntryAt(b, a).(children := Some(child))
    decreases |a|
  {
    if |a| > 1 { AttachedThere(b.entries[a[0]].children.value, a[1..], child); }
  }

  /** An entry that is not below it keeps its name, and its children if the address is not below
      that entry. */
  lemma {:induction false} AttachedElsewhere(b: Block, a: seq<nat>, child: Block, d: seq<nat>)
    requires IsAddr(b, a) && IsAddr(b, d) && !(a < d)
    ensures IsAddr(AttachAt(b, a, child), d)
    ensures EntryAt(AttachAt(b, a, child), d).name == EntryAt(b, d).name
    ensures !(d <= a) ==> EntryAt(AttachAt(b, a, child), d) == EntryAt(b, d)
    decreases |a|
  {
    if a[0] == d[0] && |a| > 1 && |d| > 1 {
      assert a[1..] < d[1..] ==> a < d by { assert a == [a[0]] + a[1..] && d == [d[0]] + d[1..]; }
      assert d[1..] <= a[1..] ==> d <= a by { assert a == [a[0]] + a[1..] && d == [d[0]] + d[1..]; }
      AttachedElsewhere(b.entries[a[0]].children.value, a[1..], child, d[1..]);
    } else if a[0] == d[0] && |a| == 1 {
      assert a == [d[0]] == d[..1];
    } else if a[0] == d[0] {
      assert d == [a[0]] == a[..1];
    }
  }

  // ------------------------------------------------------------ steps of a walk

  /** Everything below all entries is dealt with. */
  lemma PartlyDone(b: Block, at: Place, attach: Attach)
    requires |at.addr| <= MAX_DEPTH
    ensures Partly(b, at, |b.entries|, |b.entries|, attach) == b
  {
    assert Partly(b, at, |b.entries|, |b.entries|, attach).entries == b.entries;
  }

  /** An entry without children is dealt with. */
  lemma PartlySkip(b: Block, at: Place, n: nat, attach: Attach)
    requires |at.addr| <= MAX_DEPTH && n < |b.entries| && b.entries[n].children.None?
    ensures Partly(b, at, n, |b.entries|, attach) == Partly(b, at, n + 1, |b.entries|, attach)
  {
    var p, q := Partly(b, at, n, |b.entries|, attach), Partly(b, at, n + 1, |b.entries|, attach);
    forall j | 0 <= j < |b.entries| ensures p.entries[j] == q.entries[j] {
      assert p.entries[j] == EntryPartly(b, at, n, |b.entries|, attach, j);
      assert q.entries[j] == EntryPartly(b, at, n + 1, |b.entries|, attach, j);
      assert j == n ==> GrowChild(b.entries[j].children, Below(at, j, b.entries[j].name), attach) == None;
    }
    assert p.entries == q.entries;
  }

  /** The children of an entry will have become the grown children. */
  lemma PartlyEnter(b: Block, at: Place, n: nat, attach: Attach)
    requires |at.addr| <= MAX_DEPTH && n < |b.entries| && b.entries[n].children.Some?
    ensures var p, c := Partly(b, at, n, |b.entries|, attach), b.entries[n].children.value;
      p == Attached(p, n, Grow(c, Below(at, n, b.entries[n].name), attach))
  {
    var p := Partly(b, at, n, |b.entries|, attach);
    var q := Attached(p, n, Grow(b.entries[n].children.value, Below(at, n, b.entries[n].name), attach));
    assert p.entries[n] == EntryPartly(b, at, n, |b.entries|, attach, n);
    assert p.entries == q.entries;
  }

  /** The children of entry `n` are dealt with. */
  lemma PartlyLeave(b: Block, at: Place, n: nat, x: Block, attach: Attach)
    requires |at.addr| <= MAX_DEPTH && n < |b.entries|
    ensures Attached(Partly(b, at, n, |b.entries|, attach), n, x) ==
      Partly(Attached(b, n, x), at, n + 1, |b.entries|, attach)
  {
    var p, b' := Attached(Partly(b, at, n, |b.entries|, attach), n, x), Attached(b, n, x);
    var q := Partly(b', at, n + 1, |b.entries|, attach);
    forall j | 0 <= j < |b.entries| ensures p.entries[j] == q.entries[j] {
      assert j != n ==> b'.entries[j] == b.entries[j];
    }
    assert p.entries == q.entries;
  }

  /** The entry just listed, once its user had the chance to attach something. */
  function Served(b: Block, at: Place, i: nat, attach: Attach): Block
    requires i < |b.entries|
  {
    var here := Below(at, i, b.entries[i].name);
    if attach(here).Some? then Attached(b, i, attach(here).value) else b
  }

  /** One more entry is listed. */
  lemma PartlyServe(b: Block, at: Place, i: nat, attach: Attach)
    requires |at.addr| <= MAX_DEPTH && i < |b.entries|
    ensures Partly(b, at, 0, i, attach) == Partly(Served(b, at, i, attach), at, 0, i + 1, attach)
  {
    var b' := Served(b, at, i, attach);
    var p, q := Partly(b, at, 0, i, attach), Partly(b', at, 0, i + 1, attach);
    forall j | 0 <= j < |b.entries| ensures p.entries[j] == q.entries[j] {
      assert j != i ==> b'.entries[j] == b.entries[j];
    }
    assert p.entries == q.entries;
  }

  // ------------------------------------------------------------ around the current block

  /** The whole tree around block `b`. */
  ghost function Whole(stk: seq<Frame>, b: Block): Block
    requires GoodStack(stk)
  {
    if stk == [] then b else
      var f := stk[|stk|-1];
      Whole(stk[..|stk|-1], Attached(f.b, f.i, b))
  }

  /** The whole tree as it will be when the current block will have become `x`. */
  ghost function Outcome(stk: seq<Frame>, x: Block, attach: Attach): Block
    requires GoodStack(stk) && |stk| <= MAX_DEPTH
  {
    if stk == [] then x else
      var f, rest := stk[|stk|-1], stk[..|stk|-1];
      Outcome(rest, Attached(Partly(f.b, PlaceOf(rest), f.i, |f.b.entries|, attach), f.i, x), attach)
  }

  lemma {:induction false} WholeAttach(stk: seq<Frame>, b: Block, a: seq<nat>, child: Block)
    requires GoodStack(stk) && IsAddr(b, a)
    ensures IsAddr(Whole(stk, b), PlaceOf(stk).addr + a)
    ensures AttachAt(Whole(stk, b), PlaceOf(stk).addr + a, child) == Whole(stk, AttachAt(b, a, child))
  {
    if stk == [] {
      assert PlaceOf(stk).addr + a == a;
    } else {
      var f, rest := stk[|stk|-1], stk[..|stk|-1];
      var b', a' := Attached(f.b, f.i, b), [f.i] + a;
      assert a'[1..] == a;
      assert PlaceOf(stk).addr + a == PlaceOf(rest).addr + a';
      WholeAttach(rest, b', a', child);
      assert AttachAt(b', a', child) == Attached(f.b, f.i, AttachAt(b, a, child));
    }
  }

  // ------------------------------------------------------------ trees that do not grow

  ghost predicate Never(attach: Attach) { forall p :: attach(p).None? }

  lemma {:induction false} GrowNothing(b: Block, at: Place, attach: Attach)
    requires Never(attach)
    ensures Grow(b, at, attach) == b
    decreases b
  {
    if |at.addr| <= MAX_DEPTH {
      var r := Grow(b, at, attach);
      forall j | 0 <= j < |b.entries| ensures r.entries[j] == b.entries[j] {
        EntryNothing(b, at, 0, 0, attach, j);
      }
      assert r.entries == b.entries;
    }
  }

  lemma {:induction false} EntryNothing(b: Block, at: Place, n: nat, m: nat, attach: Attach, j: nat)
    requires Never(attach) && |at.addr| <= MAX_DEPTH && j < |b.entries|
    ensures EntryPartly(b, at, n, m, attach, j) == b.entries[j]
    decreases b, 0
  {
    var e := b.entries[j];
    if e.children.Some? { GrowNothing(e.children.value, Below(at, j, e.name), attach); }
  }

  lemma PartlyNothing(b: Block, at: Place, n: nat, m: nat, attach: Attach)
    requires Never(attach) && |at.addr| <= MAX_DEPTH
    ensures Partly(b, at, n, m, attach) == b
  {
    var r := Partly(b, at, n, m, attach);
    forall j | 0 <= j < |b.entries| ensures r.entries[j] == b.entries[j] { EntryNothing(b, at, n, m, attach, j); }
    assert r.entries == b.entries;
  }

  lemma {:induction false} OutcomeNothing(stk: seq<Frame>, x: Block, attach: Attach)
    requires GoodStack(stk) && |stk| <= MAX_DEPTH && Never(attach)
    ensures Outcome(stk, x, attach) == Whole(stk, x)
    decreases |stk|
  {
    if stk != [] {
      var f, rest := stk[|stk|-1], stk[..|stk|-1];
      PartlyNothing(f.b, PlaceOf(rest), f.i, |f.b.entries|, attach);
      OutcomeNothing(rest, Attached(f.b, f.i, x), attach);
    }
  }

  // ------------------------------------------------------------ depth

  /** What is too deep inside the current block is too deep in the whole tree. */
  lemma {:induction false} OutcomeFits(stk: seq<Frame>, x: Block, attach: Attach)
    requires GoodStack(stk) && |stk| <= MAX_DEPTH && Fits(Outcome(stk, x, attach), MAX_DEPTH)
    ensures Fits(x, MAX_DEPTH - |stk|)
    decreases |stk|
  {
    if stk != [] {
      var f, rest := stk[|stk|-1], stk[..|stk|-1];
      var p := Attached(Partly(f.b, PlaceOf(rest), f.i, |f.b.entries|, attach), f.i, x);
      OutcomeFits(rest, p, attach);
      assert EntryFits(p.entries[f.i], MAX_DEPTH - |rest|);
    }
  }
}
