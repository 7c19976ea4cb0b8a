/** Lock-step comparison of two sorted file-name trees, over their pre-order listings. */
module TreeCompare {
  import opened Common
  import opened NameOrder
  import opened FileTree

  datatype Kind = Done | Eq | Left | Right | Neq

  /** One answer of the comparison: its kind and the entries the two cursors stood on. */
  datatype Row = Row(kind: Kind, l: Option<Place>, r: Option<Place>)

  /** The caller's comparison of two entries with the same name: true for EQ, false for NEQ. */
  type Same = (Place, Place) -> bool

  function NameOf(p: Place): string
    requires p.path != []
  {
    p.path[|p.path|-1]
  }

  /** Compares two entries, either of which may be missing. */
  function Cmp1(l: Option<Place>, r: Option<Place>, same: Same): Kind
    requires (l.Some? ==> l.value.path != []) && (r.Some? ==> r.value.path != [])
  {
    if l.None? then
      if r.None? then Done else Right
    else if r.None? then Left
    else
      var i := Compare(NameOf(l.value), NameOf(r.value));
      if i < 0 then Left else if i > 0 then Right
      else if same(l.value, r.value) then Eq else Neq
  }

  /** The answer when the cursors stand on `l` and `r`, at the given depths: the side that
      is deeper goes on alone until it leaves its block. */
  function Answer(l: Option<Place>, ld: nat, r: Option<Place>, rd: nat, same: Same): Kind
    requires (l.Some? ==> l.value.path != []) && (r.Some? ==> r.value.path != [])
  {
    Cmp1(if ld < rd then None else l, if ld > rd then None else r, same)
  }

  // ------------------------------------------------------------ the comparison over two listings

  ghost function Head(s: seq<Place>): Option<Place> { if s == [] then None else Some(s[0]) }

  ghost function DepthOf(s: seq<Place>): nat
    requires forall k :: 0 <= k < |s| ==> s[k].path != []
  {
    if s == [] then 0 else |s[0].path| - 1
  }

  ghost predicate Named(s: seq<Place>) { forall k :: 0 <= k < |s| ==> s[k].path != [] }

  ghost function AnswerOn(l: seq<Place>, r: seq<Place>, same: Same): Kind
    requires Named(l) && Named(r)
    ensures AnswerOn(l, r, same).Done? <==> l == [] && r == []
    ensures l == [] && r != [] ==> AnswerOn(l, r, same).Right?
    ensures l != [] && r == [] ==> AnswerOn(l, r, same).Left?
  {
    Answer(Head(l), DepthOf(l), Head(r), DepthOf(r), same)
  }

  /** The listings left after an answer. */
  ghost function Step(s: seq<Place>, stay: bool): seq<Place> { if stay || s == [] then s else s[1..] }

  /** All answers over two listings, in order. */
  ghost function CompareLists(l: seq<Place>, r: seq<Place>, same: Same): seq<Row>
    requires Named(l) && Named(r)
    decreases |l| + |r|
  {
    var k := AnswerOn(l, r, same);
    if k.Done? then [] else
      [Row(k, Head(l), Head(r))] + CompareLists(Step(l, k.Right?), Step(r, k.Left?), same)
  }

  // ------------------------------------------------------------ paths met by a pre-order walk

  /** `q` can follow `p` in the pre-order of a sorted tree: the first child of `p`, or a
      later sibling of `p` or of one of its ancestors. */
  ghost predicate Follows(p: Path, q: Path) {
    && q != [] && |q| <= |p| + 1 && q[..|q|-1] == p[..|q|-1]
    && (|q| <= |p| ==> NameLess(p[|q|-1], q[|q|-1]))
  }

  ghost predicate Walk(s: seq<Place>) {
    Named(s) && forall k :: 0 <= k < |s| - 1 ==> Follows(s[k].path, s[k+1].path)
  }

  /** Names strictly increase inside every block. */
  ghost predicate Sorted(b: Block)
    decreases b
  {
    && (forall i, j :: 0 <= i < j < |b.entries| ==> NameLess(b.entries[i].name, b.entries[j].name))
    && (forall i :: 0 <= i < |b.entries| ==> SortedBelow(b.entries[i]))
  }

  ghost predicate SortedBelow(e: Entry)
    decreases e
  {
    e.children.Some? ==> Sorted(e.children.value)
  }

  lemma {:induction false} PlacesAt(vs: seq<Visit>, k: nat)
    requires k < |vs|
    ensures |PlacesOf(vs)| == |vs| && PlacesOf(vs)[k] == vs[k].place
  {
    if k > 0 {
      PlacesAt(vs[1..], k - 1);
    } else if |vs| > 1 {
      PlacesAt(vs[1..], 0);
    }
  }

  /** Consecutive visits of the pre-order of a sorted tree. */
  lemma {:induction false} PreFollows(b: Block, i: nat, at: Place, k: nat)
    requires Sorted(b) && k + 1 < |PreFrom(b, i, at)|
    ensures Follows(PreFrom(b, i, at)[k].place.path, PreFrom(b, i, at)[k+1].place.path)
    decreases b, |b.entries| - i
  {
    var e := b.entries[i];
    var here := Below(at, i, e.name);
    var c := PreBelow(e, here);
    var all := PreFrom(b, i, at);
    assert SortedBelow(e);
    if 0 < k < |c| {
      PreFollows(e.children.value, 0, here, k - 1);
      assert all[k] == c[k-1] && all[k+1] == c[k];
    } else if k > |c| {
      PreFollows(b, i + 1, at, k - 1 - |c|);
      assert all[k] == PreFrom(b, i + 1, at)[k - 1 - |c|] && all[k+1] == PreFrom(b, i + 1, at)[k - |c|];
    } else {
      var a := PreSound(b, i, at, k);
      var a' := PreSound(b, i, at, k + 1);
      if k < |c| {
        FirstBelow(e.children.value, here);
        assert all[1] == c[0];
      } else {
        assert all[k+1] == PreFrom(b, i + 1, at)[0];
        var p, q := all[k].place.path, all[k+1].place.path;
        assert q == at.path + [b.entries[i+1].name];
        assert q[..|q|-1] == at.path == p[..|q|-1];
        assert p[|at.path|] == NamesAt(b, a)[0];
      }
    }
  }

  lemma FirstBelow(b: Block, at: Place)
    requires PreFrom(b, 0, at) != []
    ensures b.entries != [] && PreFrom(b, 0, at)[0].place.path == at.path + [b.entries[0].name]
  {
  }

  lemma PreOrderWalk(root: Block)
    requires Sorted(root)
    ensures Walk(PlacesOf(PreOrder(root)))
    ensures PreOrder(root) != [] ==> |PlacesOf(PreOrder(root))[0].path| == 1
  {
    var vs := PreOrder(root);
    var s := PlacesOf(vs);
    if vs != [] { PlacesAt(vs, 0); }
    forall k | 0 <= k < |s| ensures s[k].path != [] {
      PlacesAt(vs, k);
      var a := PreSound(root, 0, ROOT, k);
    }
    forall k | 0 <= k < |s| - 1 ensures Follows(s[k].path, s[k+1].path) {
      PlacesAt(vs, k);
      PlacesAt(vs, k + 1);
      PreFollows(root, 0, ROOT, k);
    }
  }

  // ------------------------------------------------------------ the two sides stay in step

  /** The two sides share the blocks they are both inside; the deeper one is below an entry
      that comes before the other side's entry. */
  ghost predicate InStep(p: Path, q: Path) {
    && p != [] && q != []
    && var m := if |p| <= |q| then |p| else |q|;
      && p[..m-1] == q[..m-1]
      && (|p| > |q| ==> NameLess(p[m-1], q[m-1]))
      && (|p| < |q| ==> NameLess(q[m-1], p[m-1]))
  }

  /** The left side goes first: it is deeper, or its name is smaller. */
  ghost predicate GoesFirst(p: Path, q: Path) {
    p != [] && q != [] && (|p| > |q| || (|p| == |q| && NameLess(p[|p|-1], q[|q|-1])))
  }

  lemma InStepAdvance(p: Path, q: Path, p': Path)
    requires InStep(p, q) && GoesFirst(p, q) && Follows(p, p')
    ensures InStep(p', q)
  {
    var k, m := |p'| - 1, |q|;
    if k >= m {
      assert p'[..m-1] == p'[..k][..m-1] == p[..k][..m-1] == p[..m-1];
      assert p'[m-1] == p'[..k][m-1] == p[..k][m-1] == p[m-1];
    } else {
      assert p'[..k] == p[..k] == p[..m-1][..k] == q[..m-1][..k] == q[..k];
      if k < m - 1 { assert q[k] == q[..m-1][k] == p[..m-1][k] == p[k]; }
    }
  }

  lemma InStepBoth(p: Path, p': Path, q': Path)
    requires Follows(p, p') && Follows(p, q')
    ensures InStep(p', q')
  {
    var k, j := |p'| - 1, |q'| - 1;
    if k >= j {
      assert p'[..j] == p'[..k][..j] == p[..k][..j] == p[..j];
      if k > j { assert p'[j] == p'[..k][j] == p[..k][j] == p[j]; }
    } else {
      assert q'[..k] == q'[..j][..k] == p[..j][..k] == p[..k];
      assert q'[k] == q'[..j][k] == p[..j][k] == p[k];
    }
  }

  lemma GoesFirstLess(p: Path, q: Path)
    requires InStep(p, q) && GoesFirst(p, q)
    ensures PathLess(p, q)
  {
    PathLessAt(p, q, |q| - 1);
  }

  lemma {:induction false} WalkIncreasing(s: seq<Place>, k: nat)
    requires Walk(s) && 0 < k < |s|
    ensures PathLess(s[0].path, s[k].path)
  {
    var p, q := s[k-1].path, s[k].path;
    assert Follows(p, q);
    PathLessAt(p, q, |q| - 1);
    if k > 1 {
      WalkIncreasing(s, k - 1);
      PathLessTransitive(s[0].path, p, q);
    }
  }

  ghost function PathsOf(s: seq<Place>): set<Path> { set p | p in s :: p.path }

  lemma HeadNotIn(x: Path, s: seq<Place>)
    requires Walk(s) && s != [] && PathLess(x, s[0].path)
    ensures x !in PathsOf(s)
  {
    forall k | 0 <= k < |s| ensures s[k].path != x {
      if k > 0 {
        WalkIncreasing(s, k);
        PathLessTransitive(x, s[0].path, s[k].path);
      }
      PathLessIrreflexive(x);
    }
  }

  lemma HeadOnce(s: seq<Place>)
    requires Walk(s) && s != []
    ensures PathsOf(s) == {s[0].path} + PathsOf(s[1..]) && s[0].path !in PathsOf(s[1..])
  {
    forall k | 0 < k < |s| ensures s[k].path != s[0].path {
      WalkIncreasing(s, k);
      PathLessIrreflexive(s[0].path);
    }
    forall x | x in PathsOf(s) ensures x in {s[0].path} + PathsOf(s[1..]) {
      var p :| p in s && p.path == x;
      assert p == s[0] || p in s[1..];
    }
  }

  // ------------------------------------------------------------ what the answers mean

  /** The left entries reported: every row but those that report the right side alone. */
  ghost function LeftColumn(rows: seq<Row>): seq<Option<Place>> {
    if rows == [] then [] else
      (if rows[0].kind.Right? then [] else [rows[0].l]) + LeftColumn(rows[1..])
  }

  ghost function RightColumn(rows: seq<Row>): seq<Option<Place>> {
    if rows == [] then [] else
      (if rows[0].kind.Left? then [] else [rows[0].r]) + RightColumn(rows[1..])
  }

  ghost function AllOf(s: seq<Place>): seq<Option<Place>> {
    if s == [] then [] else [Some(s[0])] + AllOf(s[1..])
  }

  predicate Paired(row: Row) { row.kind.Eq? || row.kind.Neq? }

  /** A paired row joins two entries of the same full path and carries the caller's verdict. */
  ghost predicate GoodPair(row: Row, same: Same) {
    Paired(row) ==>
      && row.l.Some? && row.r.Some? && row.l.value.path == row.r.value.path
      && (row.kind.Eq? <==> same(row.l.value, row.r.value))
  }

  ghost function PairedPaths(rows: seq<Row>): set<Path> {
    if rows == [] then {} else
      (if Paired(rows[0]) && rows[0].l.Some? then {rows[0].l.value.path} else {}) + PairedPaths(rows[1..])
  }

  /** Each side is reported completely, in its own order. */
  lemma {:induction false} ColumnsComplete(l: seq<Place>, r: seq<Place>, same: Same)
    requires Named(l) && Named(r)
    ensures LeftColumn(CompareLists(l, r, same)) == AllOf(l)
    ensures RightColumn(CompareLists(l, r, same)) == AllOf(r)
    decreases |l| + |r|
  {
    var k := AnswerOn(l, r, same);
    if !k.Done? {
      var l', r' := Step(l, k.Right?), Step(r, k.Left?);
      ColumnsComplete(l', r', same);
      var rows := CompareLists(l, r, same);
      assert rows[1..] == CompareLists(l', r', same);
      assert !k.Right? ==> l != [];
      assert !k.Left? ==> r != [];
    }
  }

  /** Both sides, when not finished, are in step. */
  ghost predicate Ready(l: seq<Place>, r: seq<Place>) {
    Walk(l) && Walk(r) && (l != [] && r != [] ==> InStep(l[0].path, r[0].path))
  }

  lemma ReadyStep(l: seq<Place>, r: seq<Place>, same: Same)
    requires Ready(l, r) && !AnswerOn(l, r, same).Done?
    ensures var k := AnswerOn(l, r, same);
      && Ready(Step(l, k.Right?), Step(r, k.Left?))
      && (k.Left? ==> l != [] && (r != [] ==> PathLess(l[0].path, r[0].path)))
      && (k.Right? ==> r != [] && (l != [] ==> PathLess(r[0].path, l[0].path)))
      && (k.Eq? || k.Neq? ==> l != [] && r != [] && l[0].path == r[0].path && (k.Eq? <==> same(l[0], r[0])))
  {
    var k := AnswerOn(l, r, same);
    WalkTail(l);
    WalkTail(r);
    if l != [] && r != [] {
      var p, q := l[0].path, r[0].path;
      AnswerMeans(l[0], r[0], same);
      if k.Left? {
        GoesFirstLess(p, q);
        if |l| > 1 { InStepAdvance(p, q, l[1].path); }
      } else if k.Right? {
        GoesFirstLess(q, p);
        if |r| > 1 { InStepAdvance(q, p, r[1].path); }
      } else {
        if |l| > 1 && |r| > 1 { InStepBoth(p, l[1].path, r[1].path); }
      }
    }
  }

  /** The answer for two entries in step tells which goes first, or that they are the same. */
  lemma AnswerMeans(l: Place, r: Place, same: Same)
    requires InStep(l.path, r.path)
    ensures var k := Answer(Some(l), |l.path| - 1, Some(r), |r.path| - 1, same);
      && !k.Done? && (k.Left? ==> GoesFirst(l.path, r.path)) && (k.Right? ==> GoesFirst(r.path, l.path))
      && (k.Eq? || k.Neq? ==> l.path == r.path && (k.Eq? <==> same(l, r)))
  {
    var p, q := l.path, r.path;
    assert p == p[..|p|-1] + [NameOf(l)] && q == q[..|q|-1] + [NameOf(r)];
  }

  lemma WalkTail(s: seq<Place>)
    requires Walk(s)
    ensures s != [] ==> Walk(s[1..])
    ensures |s| > 1 ==> Follows(s[0].path, s[1].path)
  {
    if s != [] {
      forall k | 0 <= k < |s[1..]| - 1 ensures Follows(s[1..][k].path, s[1..][k+1].path) {
        assert Follows(s[k+1].path, s[k+2].path);
      }
    }
  }

  /** Over walks of sorted trees the pairs are exactly the paths found on both sides. */
  lemma {:induction false} PairsExact(l: seq<Place>, r: seq<Place>, same: Same)
    requires Ready(l, r)
    ensures PairedPaths(CompareLists(l, r, same)) == PathsOf(l) * PathsOf(r)
    decreases |l| + |r|
  {
    var k := AnswerOn(l, r, same);
    if !k.Done? {
      ReadyStep(l, r, same);
      PairsExact(Step(l, k.Right?), Step(r, k.Left?), same);
      PairsStep(l, r, same);
      PairsOfFirst(l, r, same);
    }
  }

  /** The paths on both sides, told from those left after one answer. */
  lemma PairsStep(l: seq<Place>, r: seq<Place>, same: Same)
    requires Ready(l, r) && !AnswerOn(l, r, same).Done?
    ensures var k := AnswerOn(l, r, same); var later := PathsOf(Step(l, k.Right?)) * PathsOf(Step(r, k.Left?));
      PathsOf(l) * PathsOf(r) == if k.Left? || k.Right? || l == [] then later else {l[0].path} + later
  {
    var k := AnswerOn(l, r, same);
    ReadyStep(l, r, same);
    if l != [] { HeadOnce(l); }
    if r != [] { HeadOnce(r); }
    if k.Left? && r != [] { HeadNotIn(l[0].path, r); }
    if k.Right? && l != [] { HeadNotIn(r[0].path, l); }
    var later := PathsOf(Step(l, k.Right?)) * PathsOf(Step(r, k.Left?));
    PairsCombine(l, r, k, if k.Left? || k.Right? then later else {l[0].path} + later, later);
  }

  lemma PairsOfFirst(l: seq<Place>, r: seq<Place>, same: Same)
    requires Named(l) && Named(r) && !AnswerOn(l, r, same).Done?
    ensures var k := AnswerOn(l, r, same);
      var later := PairedPaths(CompareLists(Step(l, k.Right?), Step(r, k.Left?), same));
      PairedPaths(CompareLists(l, r, same)) == if k.Left? || k.Right? || l == [] then later else {l[0].path} + later
  {
    var k := AnswerOn(l, r, same);
    var rest := CompareLists(Step(l, k.Right?), Step(r, k.Left?), same);
    assert CompareLists(l, r, same) == [Row(k, Head(l), Head(r))] + rest;
    PairedCons(Row(k, Head(l), Head(r)), rest);
  }

  lemma PairedCons(row: Row, rest: seq<Row>)
    ensures PairedPaths([row] + rest) ==
      (if Paired(row) && row.l.Some? then {row.l.value.path} else {}) + PairedPaths(rest)
  {
    assert ([row] + rest)[1..] == rest;
  }

  /** Paired rows are right, and no row says that the comparison is over. */
  lemma {:induction false} RowsGood(l: seq<Place>, r: seq<Place>, same: Same)
    requires Ready(l, r)
    ensures forall row :: row in CompareLists(l, r, same) ==> GoodPair(row, same) && !row.kind.Done?
    decreases |l| + |r|
  {
    var k := AnswerOn(l, r, same);
    if !k.Done? {
      ReadyStep(l, r, same);
      RowsGood(Step(l, k.Right?), Step(r, k.Left?), same);
      assert GoodPair(Row(k, Head(l), Head(r)), same);
    }
  }

  lemma PairsCombine(l: seq<Place>, r: seq<Place>, k: Kind, now: set<Path>, later: set<Path>)
    requires Named(l) && Named(r) && !k.Done?
    requires l != [] ==> PathsOf(l) == {l[0].path} + PathsOf(l[1..]) && l[0].path !in PathsOf(l[1..])
    requires r != [] ==> PathsOf(r) == {r[0].path} + PathsOf(r[1..]) && r[0].path !in PathsOf(r[1..])
    requires later == PathsOf(Step(l, k.Right?)) * PathsOf(Step(r, k.Left?))
    requires k.Left? ==> l != [] && l[0].path !in PathsOf(r) && now == later
    requires k.Right? ==> r != [] && r[0].path !in PathsOf(l) && now == later
    requires k.Eq? || k.Neq? ==> l != [] && r != [] && l[0].path == r[0].path && now == {l[0].path} + later
    ensures now == PathsOf(l) * PathsOf(r)
  {
  }
}
