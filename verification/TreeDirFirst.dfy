/** The directory-first walk, with child blocks attached to entries while it runs.

    Blocks are values here, so the cursor carries the part of the tree it stands in: the
    block on top is the current child of the entry each frame was left at, and leaving a
    block stores it back into its parent (in memory both are the same block). */
module TreeDirFirst {
  import opened Common
  import opened FileTree
  import opened TreeCursor
  import opened TreeGrowth

  // ------------------------------------------------------------ what is listed

  /** What is listed before the current block is entered. */
  ghost function Before(stk: seq<Frame>): seq<Place>
    requires GoodStack(stk)
    decreases |stk|, 0
  {
    if stk == [] then [] else
      var f, rest := stk[|stk|-1], stk[..|stk|-1];
      ListedTo(f.b, f.i, rest)
  }

  /** What is listed when block `b` and everything below its first `n` entries is. */
  ghost function ListedTo(b: Block, n: nat, stk: seq<Frame>): seq<Place>
    requires GoodStack(stk) && n <= |b.entries|
    decreases |stk|, 1
  {
    Before(stk) + Own(b, |b.entries|, PlaceOf(stk)) + SubsUpTo(b, n, PlaceOf(stk))
  }

  /** A block's own listing depends on its names only. */
  lemma {:induction false} OwnSame(a: Block, b: Block, n: nat, at: Place)
    requires n <= |a.entries| == |b.entries| && forall j :: 0 <= j < n ==> a.entries[j].name == b.entries[j].name
    ensures Own(a, n, at) == Own(b, n, at)
  {
    if n > 0 { OwnSame(a, b, n - 1, at); }
  }

  lemma {:induction false} SubsSame(a: Block, b: Block, n: nat, at: Place)
    requires n <= |a.entries| && n <= |b.entries| && forall j :: 0 <= j < n ==> a.entries[j] == b.entries[j]
    ensures SubsUpTo(a, n, at) == SubsUpTo(b, n, at)
  {
    if n > 0 { SubsSame(a, b, n - 1, at); }
  }

  lemma {:induction false} WorkAttached(b: Block, i: nat, child: Block, n: nat)
    requires i < |b.entries| && i < n
    ensures WorkFrom(Attached(b, i, child), n) == WorkFrom(b, n)
    decreases |b.entries| - n
  {
    if n < |b.entries| { WorkAttached(b, i, child, n + 1); }
  }

  // ------------------------------------------------------------ prefixes of the outcome

  lemma PrefixUnder<T>(p: seq<T>, a: seq<T>, b: seq<T>)
    requires a <= b
    ensures p + a <= p + b
  {
    assert (p + b)[..|p + a|] == p + b[..|a|];
  }

  lemma PrefixTransitive<T>(a: seq<T>, b: seq<T>, c: seq<T>)
    requires a <= b && b <= c
    ensures a <= c
  {
    assert c[..|a|] == b[..|a|];
  }

  lemma {:induction false} OwnPrefix(b: Block, n: nat, m: nat, at: Place)
    requires n <= m <= |b.entries|
    ensures Own(b, n, at) <= Own(b, m, at)
  {
    if n < m { OwnPrefix(b, n, m - 1, at); }
  }

  lemma {:induction false} SubsPrefix(b: Block, n: nat, m: nat, at: Place)
    requires n <= m <= |b.entries|
    ensures SubsUpTo(b, n, at) <= SubsUpTo(b, m, at)
  {
    if n < m { SubsPrefix(b, n, m - 1, at); }
  }

  /** One level: what is listed before entry `i` is entered, and then all of its children. */
  lemma LevelListed(b: Block, p: Block, i: nat, at: Place)
    requires |b.entries| == |p.entries| && i < |b.entries| && p.entries[i].children.Some?
    requires forall j :: 0 <= j < |b.entries| ==> p.entries[j].name == b.entries[j].name
    requires forall j :: 0 <= j < i ==> p.entries[j] == b.entries[j]
    ensures Own(p, |p.entries|, at) == Own(b, |b.entries|, at)
    ensures SubsUpTo(p, i + 1, at) ==
      SubsUpTo(b, i, at) + DirFirst(p.entries[i].children.value, Below(at, i, b.entries[i].name))
  {
    OwnSame(p, b, |b.entries|, at);
    SubsSame(p, b, i, at);
  }

  lemma LevelPrefix(p: Block, i: nat, at: Place, own: seq<Place>, subs: seq<Place>, sub: seq<Place>)
    requires i < |p.entries| && own == Own(p, |p.entries|, at) && subs + sub == SubsUpTo(p, i + 1, at)
    ensures own + subs + sub <= DirFirst(p, at)
  {
    SubsPrefix(p, i + 1, |p.entries|, at);
    ThreePrefix(own, subs, sub, SubsUpTo(p, |p.entries|, at));
  }

  lemma ThreePrefix<T>(own: seq<T>, subs: seq<T>, sub: seq<T>, all: seq<T>)
    requires subs + sub <= all
    ensures own + subs + sub <= own + all
  {
    PrefixUnder(own, subs + sub, all);
    assert own + (subs + sub) == own + subs + sub;
  }

  /** What is listed before the current block, and then all of it, begins the listing of the
      whole tree. */
  lemma {:induction false} CompletePrefix(stk: seq<Frame>, x: Block, attach: Attach)
    requires GoodStack(stk) && |stk| <= MAX_DEPTH
    ensures Before(stk) + DirFirst(x, PlaceOf(stk)) <= DirFirst(Outcome(stk, x, attach), ROOT)
    decreases |stk|
  {
    if stk == [] {
      assert Before(stk) + DirFirst(x, PlaceOf(stk)) == DirFirst(x, ROOT);
    } else {
      var f, rest := stk[|stk|-1], stk[..|stk|-1];
      var p := Attached(Partly(f.b, PlaceOf(rest), f.i, |f.b.entries|, attach), f.i, x);
      OneLevelUp(f, rest, p);
      CompletePrefix(rest, p, attach);
      PrefixTransitive(Before(stk) + DirFirst(x, PlaceOf(stk)), Before(rest) + DirFirst(p, PlaceOf(rest)),
        DirFirst(Outcome(rest, p, attach), ROOT));
    }
  }

  lemma OneLevelUp(f: Frame, rest: seq<Frame>, p: Block)
    requires GoodStack(rest) && f.i < |f.b.entries| == |p.entries| && p.entries[f.i].children.Some?
    requires forall j :: 0 <= j < |f.b.entries| ==> p.entries[j].name == f.b.entries[j].name
    requires forall j :: 0 <= j < f.i ==> p.entries[j] == f.b.entries[j]
    ensures var at := PlaceOf(rest);
      ListedTo(f.b, f.i, rest) + DirFirst(p.entries[f.i].children.value, Below(at, f.i, f.b.entries[f.i].name)) <=
        Before(rest) + DirFirst(p, at)
  {
    var at := PlaceOf(rest);
    var own, subs := Own(f.b, |f.b.entries|, at), SubsUpTo(f.b, f.i, at);
    var sub := DirFirst(p.entries[f.i].children.value, Below(at, f.i, f.b.entries[f.i].name));
    LevelListed(f.b, p, f.i, at);
    LevelPrefix(p, f.i, at, own, subs, sub);
    PrefixUnder(Before(rest), own + subs + sub, DirFirst(p, at));
    assert Before(rest) + own + subs + sub == Before(rest) + (own + subs + sub);
  }

  /** In the middle of a block: what is listed begins the listing of the outcome. */
  lemma ListedPrefix(stk: seq<Frame>, b: Block, n: nat, attach: Attach)
    requires GoodStack(stk) && |stk| <= MAX_DEPTH && n <= |b.entries|
    ensures Before(stk) + Own(b, n, PlaceOf(stk)) <=
      DirFirst(Outcome(stk, Partly(b, PlaceOf(stk), 0, n, attach), attach), ROOT)
  {
    var at := PlaceOf(stk);
    var x := Partly(b, at, 0, n, attach);
    OwnSame(x, b, |b.entries|, at);
    OwnPrefix(b, n, |b.entries|, at);
    PrefixTransitive(Own(b, n, at), Own(x, |b.entries|, at), DirFirst(x, at));
    PrefixUnder(Before(stk), Own(b, n, at), DirFirst(x, at));
    CompletePrefix(stk, x, attach);
    PrefixTransitive(Before(stk) + Own(b, n, at), Before(stk) + DirFirst(x, at),
      DirFirst(Outcome(stk, x, attach), ROOT));
  }

  // ------------------------------------------------------------ scanning for subdirectories

  /** What stays the same through one call: what is listed, the tree, what its user attaches
      and what the tree will have become. */
  datatype Call = Call(done: seq<Place>, tree: Block, attach: Attach, goal: Block)

  ghost predicate StackOk(stk: seq<Frame>) { |stk| <= MAX_DEPTH && GoodStack(stk) && StackFits(stk) }

  /** In block `b`, all of it listed and its first `n` entries gone through. */
  ghost predicate Scanning(b: Block, n: nat, stk: seq<Frame>, k: Call) {
    && StackOk(stk) && FitsBefore(b, n, |stk|)
    && ListedTo(b, n, stk) == k.done && Whole(stk, b) == k.tree
    && Outcome(stk, Partly(b, PlaceOf(stk), n, |b.entries|, k.attach), k.attach) == k.goal
  }

  /** Block `b` was just entered. */
  ghost predicate Entered(b: Block, stk: seq<Frame>, k: Call) {
    && StackOk(stk) && Before(stk) == k.done && Whole(stk, b) == k.tree
    && Outcome(stk, Partly(b, PlaceOf(stk), 0, 0, k.attach), k.attach) == k.goal
  }

  lemma ScanSkip(b: Block, n: nat, stk: seq<Frame>, k: Call)
    requires Scanning(b, n, stk, k) && n < |b.entries| && b.entries[n].children.None?
    ensures Scanning(b, n + 1, stk, k) && WorkOf(b, n + 1, stk) < WorkOf(b, n, stk)
  {
    WorkEnter(b, n, stk);
    PartlySkip(b, PlaceOf(stk), n, k.attach);
    assert SubsUpTo(b, n + 1, PlaceOf(stk)) == SubsUpTo(b, n, PlaceOf(stk));
  }

  lemma ScanEnter(b: Block, n: nat, stk: seq<Frame>, k: Call)
    requires Scanning(b, n, stk, k) && n < |b.entries| && b.entries[n].children.Some? && |stk| < MAX_DEPTH
    ensures var c, stk' := b.entries[n].children.value, stk + [Frame(b, n)];
      Entered(c, stk', k) && WorkOf(c, 0, stk') < WorkOf(b, n, stk)
  {
    var c, stk' := b.entries[n].children.value, stk + [Frame(b, n)];
    assert stk'[..|stk'|-1] == stk;
    WorkEnter(b, n, stk);
    PartlyEnter(b, PlaceOf(stk), n, k.attach);
    assert b.entries[n].(children := Some(c)) == b.entries[n];
    assert b.entries[n := b.entries[n]] == b.entries;
    assert Attached(b, n, c) == b;
  }

  /** A directory that cannot be entered shows that the tree is too deep. */
  lemma ScanTooDeep(b: Block, n: nat, stk: seq<Frame>, k: Call)
    requires Scanning(b, n, stk, k) && n < |b.entries| && b.entries[n].children.Some? && |stk| == MAX_DEPTH
    ensures !Fits(k.goal, MAX_DEPTH)
  {
    var x := Partly(b, PlaceOf(stk), n, |b.entries|, k.attach);
    assert x.entries[n] == EntryPartly(b, PlaceOf(stk), n, |b.entries|, k.attach, n);
    assert !EntryFits(x.entries[n], 0);
    if Fits(k.goal, MAX_DEPTH) { OutcomeFits(stk, x, k.attach); }
  }

  lemma LeaveFits(b: Block, stk: seq<Frame>)
    requires StackOk(stk) && stk != [] && FitsBefore(b, |b.entries|, |stk|)
    ensures var f, rest := stk[|stk|-1], stk[..|stk|-1];
      StackOk(rest) && FitsBefore(Attached(f.b, f.i, b), f.i + 1, |rest|)
  {
    var f, rest := stk[|stk|-1], stk[..|stk|-1];
    var p := Attached(f.b, f.i, b);
    assert Fits(b, MAX_DEPTH - |stk|);
    assert FitsBefore(f.b, f.i, |rest|);
    forall j | 0 <= j < f.i + 1 ensures EntryFits(p.entries[j], MAX_DEPTH - |rest|) {
      assert j < f.i ==> p.entries[j] == f.b.entries[j];
    }
  }

  /** With the last block left, what is listed is told from its parent. */
  lemma LeaveLists(f: Frame, rest: seq<Frame>, b: Block)
    requires GoodStack(rest) && f.i < |f.b.entries|
    ensures ListedTo(Attached(f.b, f.i, b), f.i + 1, rest) ==
      ListedTo(f.b, f.i, rest) + DirFirst(b, Below(PlaceOf(rest), f.i, f.b.entries[f.i].name))
  {
    LevelListed(f.b, Attached(f.b, f.i, b), f.i, PlaceOf(rest));
  }

  lemma ScanLeave(b: Block, stk: seq<Frame>, k: Call)
    requires Scanning(b, |b.entries|, stk, k) && stk != []
    ensures var f, rest := stk[|stk|-1], stk[..|stk|-1]; var p := Attached(f.b, f.i, b);
      Scanning(p, f.i + 1, rest, k) && WorkOf(p, f.i + 1, rest) == WorkOf(b, |b.entries|, stk)
  {
    var f, rest := stk[|stk|-1], stk[..|stk|-1];
    LeaveFits(b, stk);
    LeaveLists(f, rest, b);
    assert ListedTo(b, |b.entries|, stk) == Before(stk) + DirFirst(b, PlaceOf(stk));
    WorkAttached(f.b, f.i, b, f.i + 1);
    PartlyDone(b, PlaceOf(stk), k.attach);
    PartlyLeave(f.b, PlaceOf(rest), f.i, b, k.attach);
  }

  lemma ScanDone(b: Block, k: Call)
    requires Scanning(b, |b.entries|, [], k)
    ensures k.done == DirFirst(k.tree, ROOT) && k.tree == k.goal && Fits(k.goal, MAX_DEPTH)
  {
    assert Before([]) == [];
    PartlyDone(b, ROOT, k.attach);
  }

  // ------------------------------------------------------------ the cursor

  /** The answer of a call: an entry, nothing left, or a NULL block read because the stacks
      were too small for the tree. */
  datatype Step = Got(place: Place) | Finished | NullRead

  /** Where the scan for the next subdirectory stands. */
  datatype Scan = Scanned | Inside | Over | NoRoom

  class DirCursor {
    var cur: Option<nat>
    var curblock: Option<Block>
    var stk: seq<Frame>

    constructor ()
      ensures Valid() && curblock == None
    {
      cur, curblock, stk := None, None, [];
    }

    ghost predicate Valid()
      reads this
    {
      && StackOk(stk)
      && (curblock.None? ==> cur.None? && stk == [])
      && (curblock.Some? && cur.Some? ==> cur.value < |curblock.value.entries|)
    }

    ghost function Next(): nat
      reads this
    {
      if cur.None? then 0 else cur.value + 1
    }

    /** The tree as it is now. */
    ghost function Tree(root: Block): Block
      reads this
      requires Valid()
    {
      if curblock.None? then root else Whole(stk, curblock.value)
    }

    /** What it will have become, when the first `n` entries of the current block are listed. */
    ghost function Goal(root: Block, n: nat, attach: Attach): Block
      reads this
      requires Valid()
    {
      if curblock.None? then Grown(root, attach)
      else Outcome(stk, Partly(curblock.value, PlaceOf(stk), 0, n, attach), attach)
    }

    /** The entries returned so far. */
    ghost function Listed(): seq<Place>
      reads this
      requires Valid()
    {
      if curblock.None? then [] else Before(stk) + Own(curblock.value, Next(), PlaceOf(stk))
    }

    ghost predicate ListingHere(root: Block, k: Call)
      reads this
    {
      Valid() && curblock.Some? && Tree(root) == k.tree && Listed() == k.done && Goal(root, Next(), k.attach) == k.goal
    }

    ghost predicate ScanningHere(k: Call)
      reads this
    {
      Valid() && curblock.Some? && Scanning(curblock.value, Next(), stk, k)
    }

    ghost predicate EnteredHere(k: Call)
      reads this
    {
      Valid() && curblock.Some? && cur.None? && Entered(curblock.value, stk, k)
    }

    ghost function Work(): nat
      reads this
      requires curblock.Some?
    {
      WorkOf(curblock.value, Next(), stk)
    }

    method NextInBlock() returns (e: Option<nat>)
      requires Valid() && curblock.Some?
      modifies this`cur
      ensures Valid()
      ensures e == if old(Next()) < |curblock.value.entries| then Some(old(Next())) else None
      ensures cur == if e.Some? then e else old(cur)
    {
      var i := if cur.None? then 0 else cur.value + 1;
      if i == |curblock.value.entries| { return None; }
      cur := Some(i);
      e := cur;
    }

    /** Back to the parent block, which holds the block just left. */
    method Leave(ghost k: Call)
      requires ScanningHere(k) && stk != [] && Next() == |curblock.value.entries|
      modifies this
      ensures ScanningHere(k) && Work() == old(Work()) && |stk| < old(|stk|)
    {
      var b, f := curblock.value, stk[|stk|-1];
      ScanLeave(b, stk, k);
      stk, cur, curblock := stk[..|stk|-1], Some(f.i), Some(Attached(f.b, f.i, b));
    }

    /** Into the children of entry `i`, the next one to scan; false when the stacks are full. */
    method Enter(i: nat, ghost k: Call) returns (ok: bool)
      requires Valid() && curblock.Some? && i < |curblock.value.entries| && curblock.value.entries[i].children.Some?
      requires Scanning(curblock.value, i, stk, k)
      modifies this
      ensures Valid() && curblock.Some?
      ensures ok ==> EnteredHere(k) && Work() < old(WorkOf(curblock.value, i, stk))
      ensures !ok ==> !Fits(k.goal, MAX_DEPTH)
    {
      var b := curblock.value;
      if |stk| == MAX_DEPTH {
        ScanTooDeep(b, i, stk, k);
        return false;
      }
      ScanEnter(b, i, stk, k);
      stk, cur, curblock := stk + [Frame(b, i)], None, b.entries[i].children;
      ok := true;
    }

    /** What a scan that stands at `r` has found. */
    ghost predicate Found(r: Scan, k: Call)
      reads this
    {
      && Valid() && curblock.Some?
      && match r
        case Scanned => ScanningHere(k)
        case Inside => EnteredHere(k)
        case Over => k.done == DirFirst(k.tree, ROOT) && k.tree == k.goal && Fits(k.goal, MAX_DEPTH)
        case NoRoom => !Fits(k.goal, MAX_DEPTH)
    }

    /** One step of the scan: the next entry, or back to the parent block. */
    method ScanStep(ghost k: Call) returns (r: Scan)
      requires ScanningHere(k)
      modifies this
      ensures Found(r, k)
      ensures r.Inside? ==> Work() < old(Work())
      ensures r.Scanned? ==> Work() < old(Work()) || (Work() == old(Work()) && |stk| < old(|stk|))
    {
      ghost var n := Next();
      var e := NextInBlock();
      if e.None? {
        if stk == [] {
          ScanDone(curblock.value, k);
          return Over;
        }
        Leave(k);
        return Scanned;
      }
      if curblock.value.entries[e.value].children.Some? {
        var ok := Enter(e.value, k);
        return if ok then Inside else NoRoom;
      }
      ScanSkip(curblock.value, n, stk, k);
      return Scanned;
    }

    /** Goes through the current block again for the first subdirectory not entered yet,
        and through its ancestors in turn; enters what it finds. */
    method EnterNextDir(ghost k: Call) returns (r: Scan)
      requires ScanningHere(k)
      modifies this
      ensures Found(r, k) && !r.Scanned?
      ensures r.Inside? ==> Work() < old(Work())
    {
      r := Scanned;
      while r.Scanned?
        invariant Found(r, k)
        invariant r.Scanned? ==> Work() <= old(Work())
        invariant r.Inside? ==> Work() < old(Work())
        decreases r.Scanned?, Work(), |stk|
      {
        r := ScanStep(k);
      }
    }

    /** The entry the cursor stands on was just returned as `p`. */
    ghost predicate Returned(root: Block, p: Place, k: Call)
      reads this
    {
      && Valid() && curblock.Some? && cur.Some?
      && p == Below(PlaceOf(stk), cur.value, curblock.value.entries[cur.value].name)
      && Tree(root) == k.tree && Listed() == k.done + [p] && Goal(root, cur.value, k.attach) == k.goal
    }

    /** The next entry of the current block; at its end the block is to be gone through again. */
    method NextOwn(ghost root: Block, ghost k: Call) returns (r: Option<Place>)
      requires ListingHere(root, k)
      modifies this`cur
      ensures r.Some? ==> Returned(root, r.value, k)
      ensures r.None? ==> ScanningHere(k) && cur.None?
    {
      ghost var n := Next();
      var e := NextInBlock();
      if e.Some? {
        return Some(Below(PlaceOf(stk), e.value, curblock.value.entries[e.value].name));
      }
      cur := None;
      assert n == |curblock.value.entries|;
      assert Scanning(curblock.value, 0, stk, k);
      r := None;
    }

    /** Next entry, a whole directory before its subdirectories. */
    method NextRCtx(root: Block, ghost attach: Attach) returns (r: Step)
      requires Valid()
      modifies this
      ensures Valid() && curblock.Some?
      ensures r.Got? ==> Returned(root, r.place,
        Call(old(Listed()), old(Tree(root)), attach, old(Goal(root, Next(), attach))))
      ensures r.Finished? ==> old(Listed()) == DirFirst(old(Tree(root)), ROOT)
      ensures r.Finished? ==> old(Tree(root)) == old(Goal(root, Next(), attach))
      ensures r.Finished? ==> Fits(old(Tree(root)), MAX_DEPTH)
      ensures r.NullRead? ==> !Fits(old(Goal(root, Next(), attach)), MAX_DEPTH)
    {
      ghost var k := Call(Listed(), Tree(root), attach, Goal(root, Next(), attach));
      if curblock.None? { curblock := Some(root); }
      while true
        invariant ListingHere(root, k)
        decreases WorkOf(curblock.value, 0, stk)
      {
        var p := NextOwn(root, k);
        if p.Some? { return Got(p.value); }
        var found := EnterNextDir(k);
        if found.Over? { return Finished; }
        if found.NoRoom? { return NullRead; }
      }
    }

    /** Attaches a block to the entry just returned. */
    method Attach(root: Block, child: Block)
      requires Valid() && curblock.Some? && cur.Some?
      modifies this`curblock
      ensures Valid() && curblock.Some? && curblock.value.id == old(curblock.value.id)
      ensures var was := old(curblock.value.entries);
        cur.value < |was| && curblock.value.entries == was[cur.value := was[cur.value].(children := Some(child))]
      ensures Listed() == old(Listed())
      ensures IsAddr(old(Tree(root)), PlaceOf(stk).addr + [cur.value])
      ensures Tree(root) == AttachAt(old(Tree(root)), PlaceOf(stk).addr + [cur.value], child)
    {
      ghost var b := curblock.value;
      WholeAttach(stk, b, [cur.value], child);
      curblock := Some(Attached(curblock.value, cur.value, child));
      OwnSame(curblock.value, b, Next(), PlaceOf(stk));
    }
  }

  // ------------------------------------------------------------ whole walks

  /** The tree once its user has attached what it wants to the entry just listed. */
  ghost predicate GrownBy(was: Block, p: Place, attach: Attach, tree: Block) {
    if attach(p).None? then tree == was
    else IsAddr(was, p.addr) && tree == AttachAt(was, p.addr, attach(p).value)
  }

  /** `tree` has grown out of `root` by attaching to each of the listed places, in order. */
  ghost predicate GrownAlong(root: Block, out: seq<Place>, attach: Attach, tree: Block)
    decreases |out|
  {
    if out == [] then tree == root
    else
      var p, before := out[|out|-1], out[..|out|-1];
      exists t :: GrownBy(t, p, attach, tree) && GrownAlong(root, before, attach, t)
  }

  lemma GrownStep(root: Block, out: seq<Place>, p: Place, attach: Attach, was: Block, tree: Block)
    requires GrownAlong(root, out, attach, was) && GrownBy(was, p, attach, tree)
    ensures GrownAlong(root, out + [p], attach, tree)
  {
    assert (out + [p])[..|out|] == out;
  }

  /** A walk under way: what it has listed, the tree, and what that will have become. */
  ghost predicate Walking(c: DirCursor, root: Block, attach: Attach, out: seq<Place>, tree: Block)
    reads c
  {
    && c.Valid() && c.Listed() == out && c.Tree(root) == tree
    && c.Goal(root, c.Next(), attach) == Grown(root, attach)
  }

  /** The user of the walk attaches a block to the entry just listed, or not. */
  method Serve(c: DirCursor, root: Block, attach: Attach, p: Place, ghost k: Call) returns (ghost tree: Block)
    requires c.Returned(root, p, k) && k.attach == attach && k.goal == Grown(root, attach)
    modifies c
    ensures Walking(c, root, attach, k.done + [p], tree) && GrownBy(k.tree, p, attach, tree)
  {
    ghost var b, at, i := c.curblock.value, PlaceOf(c.stk), c.cur.value;
    PartlyServe(b, at, i, attach);
    tree := k.tree;
    var child := attach(p);
    if child.Some? {
      c.Attach(root, child.value);
      tree := c.Tree(root);
    }
    assert c.curblock.value == Served(b, at, i, attach);
  }

  /** One entry is listed. */
  method ListOne(c: DirCursor, root: Block, attach: Attach, ghost out: seq<Place>, ghost was: Block)
    returns (r: Step, ghost tree: Block)
    requires Walking(c, root, attach, out, was)
    modifies c
    ensures r.Got? ==> Walking(c, root, attach, out + [r.place], tree) && GrownBy(was, r.place, attach, tree)
    ensures !r.Got? ==> tree == was
    ensures r.Finished? ==> out == DirFirst(was, ROOT) && was == Grown(root, attach) && Fits(was, MAX_DEPTH)
    ensures r.NullRead? ==> !Fits(Grown(root, attach), MAX_DEPTH)
  {
    tree := was;
    r := c.NextRCtx(root, attach);
    if r.Got? {
      tree := Serve(c, root, attach, r.place, Call(out, was, attach, Grown(root, attach)));
    }
  }

  /** At any time the entries listed begin the listing of the tree as it is, and of the tree
      as it will be. */
  lemma WalkPrefix(c: DirCursor, root: Block, attach: Attach, out: seq<Place>, tree: Block)
    requires Walking(c, root, attach, out, tree)
    ensures out <= DirFirst(Grown(root, attach), ROOT) && out <= DirFirst(tree, ROOT)
  {
    if c.curblock.Some? && c.Next() <= |c.curblock.value.entries| {
      ListedPrefix(c.stk, c.curblock.value, c.Next(), attach);
      var never: Attach := (p: Place) => None;
      ListedPrefix(c.stk, c.curblock.value, c.Next(), never);
      PartlyNothing(c.curblock.value, PlaceOf(c.stk), 0, c.Next(), never);
      OutcomeNothing(c.stk, c.curblock.value, never);
    }
  }

  /** Lists a tree that grows while it is listed: after an entry is returned its user attaches
      to it whatever `attach` gives for its place. After any number of calls the entries listed
      begin the listing of the tree as it is, and of the fully grown tree. */
  method WalkSome(root: Block, attach: Attach, calls: nat) returns (out: seq<Place>, r: Step, ghost tree: Block)
    ensures GrownAlong(root, out, attach, tree)
    ensures out <= DirFirst(Grown(root, attach), ROOT) && out <= DirFirst(tree, ROOT)
    ensures r.Got? ==> |out| == calls
    ensures r.Finished? ==> tree == Grown(root, attach) && out == DirFirst(tree, ROOT)
  {
    var c := new DirCursor();
    out, r, tree := [], Got(ROOT), root;
    while |out| < calls
      invariant fresh(c) && Walking(c, root, attach, out, tree) && GrownAlong(root, out, attach, tree)
      invariant |out| <= calls && r.Got?
      decreases calls - |out|
    {
      ghost var was := tree;
      WalkPrefix(c, root, attach, out, tree);
      r, tree := ListOne(c, root, attach, out, tree);
      if !r.Got? { return; }
      GrownStep(root, out, r.place, attach, was, tree);
      out := out + [r.place];
    }
    WalkPrefix(c, root, attach, out, tree);
  }

  /** The walk always ends: it lists the fully grown tree, every directory before its
      subdirectories, if and only if the grown tree has at most 64 levels. */
  method WalkGrowing(root: Block, attach: Attach) returns (out: seq<Place>, ok: bool)
    ensures ok <==> Fits(Grown(root, attach), 64)
    ensures ok ==> out == DirFirst(Grown(root, attach), ROOT)
    ensures out <= DirFirst(Grown(root, attach), ROOT)
  {
    var c := new DirCursor();
    out := [];
    ghost var tree := root;
    while true
      invariant fresh(c) && Walking(c, root, attach, out, tree)
      decreases |DirFirst(Grown(root, attach), ROOT)| - |out|
    {
      WalkPrefix(c, root, attach, out, tree);
      var r;
      r, tree := ListOne(c, root, attach, out, tree);
      if !r.Got? { return out, r.Finished?; }
      WalkPrefix(c, root, attach, out + [r.place], tree);
      out := out + [r.place];
    }
  }

  /** A tree that does not grow is listed completely if and only if it has at most 64 levels. */
  method ListAll(root: Block) returns (out: seq<Place>, ok: bool)
    ensures ok <==> Fits(root, 64)
    ensures ok ==> out == DirFirst(root, ROOT)
    ensures out <= DirFirst(root, ROOT)
  {
    var never: Attach := (p: Place) => None;
    GrowNothing(root, ROOT, never);
    out, ok := WalkGrowing(root, never);
  }
}
