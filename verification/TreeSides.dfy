/** The comparison of trees that may be deeper than the cursors' stacks. A side that meets a
    directory it cannot enter ends there, but keeps its depth; while the other side is less deep
    the comparison then takes both for finished. */
module TreeSides {
  import opened Common
  import opened NameOrder
  import opened FileTree
  import opened TreeCursor
  import opened TreeCompare

  /** The depth of a side: that of its next entry, or the one at which it has ended. */
  ghost function DepthOn(s: seq<Place>, end: nat): nat
    requires Named(s)
  {
    if s == [] then end else |s[0].path| - 1
  }

  ghost function AnswerSides(l: seq<Place>, le: nat, r: seq<Place>, re: nat, same: Same): Kind
    requires Named(l) && Named(r)
  {
    Answer(Head(l), DepthOn(l, le), Head(r), DepthOn(r, re), same)
  }

  /** All answers over two sides that end at depths `le` and `re`. */
  ghost function CompareSides(l: seq<Place>, le: nat, r: seq<Place>, re: nat, same: Same): seq<Row>
    requires Named(l) && Named(r)
    decreases |l| + |r|
  {
    var k := AnswerSides(l, le, r, re, same);
    if k.Done? || (l == [] && r == []) then [] else
      [Row(k, Head(l), Head(r))] + CompareSides(Step(l, k.Right?), le, Step(r, k.Left?), re, same)
  }

  /** One side has ended at a depth that the other's next entry does not reach. */
  ghost predicate Early(l: seq<Place>, le: nat, r: seq<Place>, re: nat)
    requires Named(l) && Named(r)
  {
    (l == [] && r != [] && DepthOn(r, re) < le) || (r == [] && l != [] && DepthOn(l, le) < re)
  }

  /** The answer is that of the listings, unless the comparison ends early. */
  lemma AnswerSame(l: seq<Place>, le: nat, r: seq<Place>, re: nat, same: Same)
    requires Named(l) && Named(r)
    ensures AnswerSides(l, le, r, re, same) == if Early(l, le, r, re) then Done else AnswerOn(l, r, same)
  {
  }

  /** What is reported is a beginning of what the listings give. */
  lemma {:induction false} SidesPrefix(l: seq<Place>, le: nat, r: seq<Place>, re: nat, same: Same)
    requires Named(l) && Named(r)
    ensures CompareSides(l, le, r, re, same) <= CompareLists(l, r, same)
    decreases |l| + |r|
  {
    AnswerSame(l, le, r, re, same);
    var k := AnswerSides(l, le, r, re, same);
    if !k.Done? { SidesPrefix(Step(l, k.Right?), le, Step(r, k.Left?), re, same); }
  }

  // ------------------------------------------------------------ when nothing is lost

  /** The last path of a side. */
  ghost function LastPath(s: seq<Place>): Path
    requires s != []
  {
    s[|s|-1].path
  }

  /** Every entry of `r` that comes after all of `l` is at least as deep as `l` ends. */
  ghost predicate Deep(l: seq<Place>, le: nat, r: seq<Place>)
    requires Named(r)
  {
    forall k :: 0 <= k < |r| && (l != [] ==> PathLess(LastPath(l), r[k].path)) ==> |r[k].path| - 1 >= le
  }

  /** The last path is not smaller than the first, nor smaller than anything smaller than it. */
  lemma LastNotLess(s: seq<Place>, x: Path)
    requires Walk(s) && s != [] && (x == s[0].path || PathLess(x, s[0].path))
    ensures !PathLess(LastPath(s), x)
  {
    var last := LastPath(s);
    if |s| > 1 { WalkIncreasing(s, |s| - 1); }
    if PathLess(last, x) {
      if x != s[0].path { PathLessTransitive(last, x, s[0].path); }
      if |s| > 1 { PathLessTransitive(last, s[0].path, last); }
      PathLessIrreflexive(last);
    }
  }

  /** The first side moves on: if it ends, all that is left of the second comes after it. */
  lemma DeepFirst(a: seq<Place>, end: nat, b: seq<Place>)
    requires Walk(a) && Walk(b) && a != [] && (b != [] ==> PathLess(a[0].path, b[0].path))
    ensures Deep(a, end, b) <==> Deep(a[1..], end, b)
  {
    if |a| == 1 { AllAfter(a[0].path, b, 0); }
  }

  /** The second side moves on: what it leaves behind does not come after the first. */
  lemma DeepSecond(a: seq<Place>, end: nat, b: seq<Place>)
    requires Walk(a) && Walk(b) && b != []
    requires if a == [] then |b[0].path| - 1 >= end else PathLess(b[0].path, a[0].path)
    ensures Deep(a, end, b) <==> Deep(a, end, b[1..])
  {
    if a != [] { LastNotLess(a, b[0].path); }
    DropFirst(a, end, b);
  }

  /** Both move on, past one path. */
  lemma DeepBoth(a: seq<Place>, end: nat, b: seq<Place>)
    requires Walk(a) && Walk(b) && a != [] && b != [] && a[0].path == b[0].path
    ensures Deep(a, end, b) <==> Deep(a[1..], end, b[1..])
  {
    LastNotLess(a, b[0].path);
    DropFirst(a, end, b);
    if |a| == 1 { AllAfter(a[0].path, b, 1); }
  }

  lemma DropFirst(a: seq<Place>, end: nat, b: seq<Place>)
    requires Named(b) && b != [] && ((a != [] && !PathLess(LastPath(a), b[0].path)) || |b[0].path| - 1 >= end)
    ensures Deep(a, end, b) <==> Deep(a, end, b[1..])
  {
    assert forall k :: 0 < k < |b| ==> b[k] == b[1..][k-1];
  }

  /** Everything from `n` on is greater than `x`, which is at most the first path. */
  lemma AllAfter(x: Path, s: seq<Place>, n: nat)
    requires Walk(s) && n <= 1 && (s != [] ==> if n == 0 then PathLess(x, s[0].path) else x == s[0].path)
    ensures forall i :: n <= i < |s| ==> PathLess(x, s[i].path)
  {
    forall i | n <= i < |s| ensures PathLess(x, s[i].path) {
      if i > 0 {
        WalkIncreasing(s, i);
        if n == 0 { PathLessTransitive(x, s[0].path, s[i].path); }
      }
    }
  }

  /** One answer keeps whether a side is deep enough after the other. */
  lemma DeepStep(l: seq<Place>, le: nat, r: seq<Place>, re: nat, same: Same)
    requires Ready(l, r) && !AnswerOn(l, r, same).Done? && !Early(l, le, r, re)
    ensures var k := AnswerOn(l, r, same); var l', r' := Step(l, k.Right?), Step(r, k.Left?);
      Ready(l', r') && (Deep(l, le, r) <==> Deep(l', le, r')) && (Deep(r, re, l) <==> Deep(r', re, l'))
  {
    ReadyStep(l, r, same);
    var k := AnswerOn(l, r, same);
    if k.Left? {
      DeepFirst(l, le, r);
      DeepSecond(r, re, l);
    } else if k.Right? {
      DeepSecond(l, le, r);
      DeepFirst(r, re, l);
    } else {
      DeepBoth(l, le, r);
      DeepBoth(r, re, l);
    }
  }

  /** Everything is reported if and only if each side, once it has ended, finds the other at
      least as deep to the last. */
  lemma {:induction false} SidesFullIff(l: seq<Place>, le: nat, r: seq<Place>, re: nat, same: Same)
    requires Ready(l, r)
    ensures CompareSides(l, le, r, re, same) == CompareLists(l, r, same) <==> Deep(l, le, r) && Deep(r, re, l)
    decreases |l| + |r|
  {
    AnswerSame(l, le, r, re, same);
    if l == [] && r == [] {
      assert CompareSides(l, le, r, re, same) == [] == CompareLists(l, r, same);
    } else if Early(l, le, r, re) {
      assert CompareSides(l, le, r, re, same) == [] && CompareLists(l, r, same) != [];
      if l == [] { assert |r[0].path| - 1 < le; } else { assert |l[0].path| - 1 < re; }
    } else {
      DeepStep(l, le, r, re, same);
      var k := AnswerOn(l, r, same);
      var l', r' := Step(l, k.Right?), Step(r, k.Left?);
      SidesFullIff(l', le, r', re, same);
      SameTail(Row(k, Head(l), Head(r)), CompareSides(l', le, r', re, same), CompareLists(l', r', same));
    }
  }

  lemma SameTail<T>(x: T, a: seq<T>, b: seq<T>)
    ensures [x] + a == [x] + b <==> a == b
  {
    if [x] + a == [x] + b { assert a == ([x] + a)[1..] == ([x] + b)[1..] == b; }
  }

  // ------------------------------------------------------------ columns of a beginning

  lemma {:induction false} LeftOf(a: seq<Row>, b: seq<Row>)
    ensures LeftColumn(a + b) == LeftColumn(a) + LeftColumn(b)
    decreases |a|
  {
    if a == [] {
      assert a + b == b;
    } else {
      assert (a + b)[1..] == a[1..] + b;
      LeftOf(a[1..], b);
      Regroup(if a[0].kind.Right? then [] else [a[0].l], LeftColumn(a[1..]), LeftColumn(b));
    }
  }

  lemma {:induction false} RightOf(a: seq<Row>, b: seq<Row>)
    ensures RightColumn(a + b) == RightColumn(a) + RightColumn(b)
    decreases |a|
  {
    if a == [] {
      assert a + b == b;
    } else {
      assert (a + b)[1..] == a[1..] + b;
      RightOf(a[1..], b);
      Regroup(if a[0].kind.Left? then [] else [a[0].r], RightColumn(a[1..]), RightColumn(b));
    }
  }

  lemma Regroup<T>(x: seq<T>, a: seq<T>, b: seq<T>)
    ensures x + (a + b) == x + a + b
  {
  }

  /** Every row reports something. */
  lemma SomeColumn(rows: seq<Row>)
    requires rows != []
    ensures |LeftColumn(rows)| + |RightColumn(rows)| > 0
  {
  }

  lemma {:induction false} AllLength(s: seq<Place>)
    ensures |AllOf(s)| == |s|
  {
    if s != [] { AllLength(s[1..]); }
  }

  /** A beginning of the answers reports both sides completely only if it is all of them. */
  lemma FullByColumns(rows: seq<Row>, l: seq<Place>, r: seq<Place>, same: Same)
    requires Named(l) && Named(r) && rows <= CompareLists(l, r, same)
    ensures |LeftColumn(rows)| <= |l| && |RightColumn(rows)| <= |r|
    ensures rows == CompareLists(l, r, same) <==> |LeftColumn(rows)| == |l| && |RightColumn(rows)| == |r|
  {
    var all := CompareLists(l, r, same);
    var rest := all[|rows|..];
    assert all == rows + rest;
    LeftOf(rows, rest);
    RightOf(rows, rest);
    if rest != [] { SomeColumn(rest); }
    ColumnsComplete(l, r, same);
    AllLength(l);
    AllLength(r);
  }

  // ------------------------------------------------------------ trees

  /** The depth at which a walk ends: it stays inside when it cannot enter the last directory. */
  ghost function EndDepth(vs: seq<Visit>): nat { if vs != [] && TooDeep(vs[|vs|-1]) then MAX_DEPTH else 0 }

  /** What a cursor can list of a tree. */
  ghost function Reach(b: Block): seq<Visit> { Cut(PreOrder(b)) }

  ghost function Side(b: Block): seq<Place> { PlacesOf(Reach(b)) }

  lemma {:induction false} CutIsPrefix(vs: seq<Visit>)
    ensures Cut(vs) <= vs && (vs != [] ==> Cut(vs) != [])
  {
    if vs != [] && !TooDeep(vs[0]) { CutIsPrefix(vs[1..]); }
  }

  lemma PlacesPrefix(a: seq<Visit>, b: seq<Visit>)
    requires a <= b
    ensures PlacesOf(a) <= PlacesOf(b) && (|PlacesOf(a)| == |PlacesOf(b)| ==> a == b)
  {
    assert b == a + b[|a|..];
    PlacesOfConcat(a, b[|a|..]);
    if a != b { assert PlacesOf(b[|a|..]) != []; }
  }

  /** Both sides start in step, whatever the depth of the trees. */
  lemma SidesReady(lb: Block, rb: Block)
    requires Sorted(lb) && Sorted(rb)
    ensures Ready(Side(lb), Side(rb))
  {
    SideWalk(lb);
    SideWalk(rb);
  }

  lemma SideWalk(b: Block)
    requires Sorted(b)
    ensures Walk(Side(b)) && (Side(b) != [] ==> |Side(b)[0].path| == 1)
    ensures Side(b) <= PlacesOf(PreOrder(b)) && (|Side(b)| == |PlacesOf(PreOrder(b))| <==> Reach(b) == PreOrder(b))
  {
    PreOrderWalk(b);
    CutIsPrefix(PreOrder(b));
    PlacesPrefix(Reach(b), PreOrder(b));
    WalkBegins(PlacesOf(PreOrder(b)), Side(b));
  }

  lemma WalkBegins(s: seq<Place>, t: seq<Place>)
    requires Walk(s) && t <= s
    ensures Walk(t)
  {
    forall k | 0 <= k < |t| - 1 ensures Follows(t[k].path, t[k+1].path) { assert t[k] == s[k] && t[k+1] == s[k+1]; }
  }

  /** No directory of the tree but its last entry is too deep to enter. */
  ghost predicate Reachable(b: Block) { forall k :: 0 <= k < |PreOrder(b)| - 1 ==> !TooDeep(PreOrder(b)[k]) }

  /** The walks reach everything, and if a tree ends with a directory too deep to enter, all that
      comes after it in the other tree is just as deep. */
  ghost predicate Comparable(lb: Block, rb: Block)
    requires Named(Side(lb)) && Named(Side(rb))
  {
    && Reachable(lb) && Reachable(rb)
    && Deep(Side(lb), EndDepth(Reach(lb)), Side(rb)) && Deep(Side(rb), EndDepth(Reach(rb)), Side(lb))
  }

  /** All entries of both trees are reported. */
  ghost predicate ReportsAll(rows: seq<Row>, lb: Block, rb: Block) {
    LeftColumn(rows) == AllOf(PlacesOf(PreOrder(lb))) && RightColumn(rows) == AllOf(PlacesOf(PreOrder(rb)))
  }

  ghost function RowsOf(lb: Block, rb: Block, same: Same): seq<Row>
    requires Named(Side(lb)) && Named(Side(rb))
  {
    CompareSides(Side(lb), EndDepth(Reach(lb)), Side(rb), EndDepth(Reach(rb)), same)
  }

  lemma SideFullIff(b: Block)
    requires Sorted(b)
    ensures |Side(b)| <= |PlacesOf(PreOrder(b))|
    ensures |Side(b)| == |PlacesOf(PreOrder(b))| <==> Reachable(b)
    ensures Reachable(b) ==> Side(b) == PlacesOf(PreOrder(b))
  {
    SideWalk(b);
    CutCompleteIff(PreOrder(b));
  }

  /** A beginning of the answers reports both trees if it is all of them and the walks reach
      everything, and only then. */
  lemma ReportsBySides(rows: seq<Row>, lb: Block, rb: Block, same: Same)
    requires Sorted(lb) && Sorted(rb) && Named(Side(lb)) && Named(Side(rb))
    requires rows <= CompareLists(Side(lb), Side(rb), same)
    ensures ReportsAll(rows, lb, rb) <==>
      Reachable(lb) && Reachable(rb) && rows == CompareLists(Side(lb), Side(rb), same)
  {
    SideFullIff(lb);
    SideFullIff(rb);
    FullByColumns(rows, Side(lb), Side(rb), same);
    ColumnsComplete(Side(lb), Side(rb), same);
    AllLength(PlacesOf(PreOrder(lb)));
    AllLength(PlacesOf(PreOrder(rb)));
  }

  /** Both trees are reported completely if and only if they are comparable. */
  lemma ReportsAllIff(lb: Block, rb: Block, same: Same)
    requires Sorted(lb) && Sorted(rb)
    ensures Named(Side(lb)) && Named(Side(rb))
    ensures RowsOf(lb, rb, same) <= CompareLists(Side(lb), Side(rb), same)
    ensures ReportsAll(RowsOf(lb, rb, same), lb, rb) <==> Comparable(lb, rb)
  {
    SidesReady(lb, rb);
    SidesPrefix(Side(lb), EndDepth(Reach(lb)), Side(rb), EndDepth(Reach(rb)), same);
    SidesFullIff(Side(lb), EndDepth(Reach(lb)), Side(rb), EndDepth(Reach(rb)), same);
    ReportsBySides(RowsOf(lb, rb, same), lb, rb, same);
  }

  /** Trees of at most 64 levels are comparable. */
  lemma FitsComparable(lb: Block, rb: Block)
    requires Sorted(lb) && Sorted(rb) && Fits(lb, MAX_DEPTH) && Fits(rb, MAX_DEPTH)
    ensures Named(Side(lb)) && Named(Side(rb)) && Comparable(lb, rb)
  {
    SidesReady(lb, rb);
    NoneStuck(lb);
    NoneStuck(rb);
  }

  lemma NoneStuck(b: Block)
    requires Fits(b, MAX_DEPTH)
    ensures Reachable(b) && EndDepth(Reach(b)) == 0
  {
    forall k | 0 <= k < |PreOrder(b)| ensures !TooDeep(PreOrder(b)[k]) { FitsNoneTooDeep(b, 0, ROOT, k); }
    FitsComplete(b);
  }

  // ------------------------------------------------------------ an input

  /** Directories inside each other, `n` of them, each named "a". */
  function Chain(n: nat): Block {
    if n == 0 then Block(0, []) else Block(n, [Entry("a", Some(Chain(n - 1)))])
  }

  lemma {:induction false} ChainVisits(n: nat, at: Place)
    ensures var vs := PreFrom(Chain(n), 0, at);
      |vs| == n && forall k :: 0 <= k < n ==> vs[k].dir && |vs[k].place.addr| == |at.addr| + k + 1
    ensures forall v :: v in PreFrom(Chain(n), 0, at) ==> at.path + ["a"] <= v.place.path
  {
    if n > 0 {
      var here := Below(at, 0, "a");
      ChainVisits(n - 1, here);
      var below := PreFrom(Chain(n - 1), 0, here);
      assert PreFrom(Chain(n), 1, at) == [];
      assert PreFrom(Chain(n), 0, at) == [Visit(here, true)] + below;
      forall v | v in below ensures here.path <= v.place.path {
        assert here.path == (here.path + ["a"])[..|here.path|];
      }
    }
  }

  lemma {:induction false} ChainSorted(n: nat)
    ensures Sorted(Chain(n))
  {
    if n > 0 { ChainSorted(n - 1); }
  }

  /** Of a tree that is one chain of directories all but the last can be gone through. */
  lemma ChainReach(c: Block, vs: seq<Visit>)
    requires vs == PreOrder(c) && |vs| == MAX_DEPTH + 1
    requires forall k :: 0 <= k < |vs| ==> vs[k].dir && |vs[k].place.addr| == k + 1
    requires ["a"] <= vs[MAX_DEPTH].place.path
    ensures Reach(c) == vs && EndDepth(Reach(c)) == MAX_DEPTH
    ensures Side(c) != [] && ["a"] <= LastPath(Side(c))
  {
    CutCompleteIff(vs);
    PlacesAt(vs, MAX_DEPTH);
  }

  /** Against a file "b" behind it the comparison ends early. */
  lemma EndsBefore(lb: Block, rb: Block, same: Same)
    requires Sorted(lb) && Sorted(rb) && rb == Block(0, [Entry("b", None)])
    requires EndDepth(Reach(lb)) == MAX_DEPTH && Side(lb) != [] && ["a"] <= LastPath(Side(lb))
    ensures Named(Side(lb)) && Named(Side(rb)) && !ReportsAll(RowsOf(lb, rb, same), lb, rb)
  {
    ReportsAllIff(lb, rb, same);
    OneFile(rb);
    PathLessAt(LastPath(Side(lb)), ["b"], 0);
    assert !Deep(Side(lb), MAX_DEPTH, Side(rb));
  }

  lemma OneFile(b: Block)
    requires b == Block(0, [Entry("b", None)])
    ensures |Side(b)| == 1 && Side(b)[0].path == ["b"]
  {
    assert PreFrom(b, 1, ROOT) == [];
    assert PreOrder(b) == [Visit(Below(ROOT, 0, "b"), false)];
    PlacesAt(Reach(b), 0);
  }

  lemma ChainVs(n: nat, c: Block)
    requires c == Chain(n) && n > 0
    ensures var vs := PreOrder(c);
      && |vs| == n && (forall k :: 0 <= k < n ==> vs[k].dir && |vs[k].place.addr| == k + 1)
      && ["a"] <= vs[n-1].place.path
  {
    ChainVisits(n, ROOT);
    assert PreOrder(c)[n-1] in PreOrder(c) && [] + ["a"] == ["a"];
  }

  lemma ChainEnds(n: nat, c: Block)
    requires n == 65 && c == Chain(n)
    ensures Sorted(c) && EndDepth(Reach(c)) == MAX_DEPTH && Side(c) != [] && ["a"] <= LastPath(Side(c))
  {
    ChainSorted(n);
    ChainVs(n, c);
    ChainReach(c, PreOrder(c));
  }

  /** A chain of 65 directories, the last of them empty, against a tree with one file "b" behind
      it: the file is not reported. */
  lemma EndsEarly(n: nat, lb: Block, rb: Block, same: Same)
    requires n == 65 && lb == Chain(n) && rb == Block(0, [Entry("b", None)])
    ensures Sorted(lb) && Sorted(rb) && Named(Side(lb)) && Named(Side(rb)) && !ReportsAll(RowsOf(lb, rb, same), lb, rb)
  {
    ChainEnds(n, lb);
    EndsBefore(lb, rb, same);
  }
}
