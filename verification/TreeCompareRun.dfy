/** The comparison of two file-name trees by two cursors. */
module TreeCompareRun {
  import opened Common
  import opened NameOrder
  import opened FileTree
  import opened TreeCursor
  import opened TreeCompare
  import opened TreeSides

  // ------------------------------------------------------------ the two cursors

  /** The cursor stands on the first of the visits `todo`, or has ended at depth `end`: outside
      the tree, or before a directory that it could not enter. */
  ghost predicate Ahead(c: Cursor, root: Block, todo: seq<Visit>, end: nat)
    reads c
  {
    && c.Valid() && c.curblock.At?
    && (c.cur.None? ==> todo == [] && |c.stk| == end)
    && (c.cur.Some? ==> todo == Cut([c.Here()] + c.Rest(root)) && end == EndDepth(todo))
  }

  /** Puts a fresh cursor on the first entry of `root`. */
  method InitSide(c: Cursor, root: Block)
    requires c.cur == None && c.curblock == Null && c.stk == []
    modifies c
    ensures Ahead(c, root, Reach(root), EndDepth(Reach(root)))
  {
    var e := c.NextInBlock(root);
    c.curblock := At(root);
    assert PreOrder(root) == Owed(root, 0, []);
    if e.Some? {
      OwedStep(root, 0, []);
      assert PreOrder(root) == [c.Here()] + c.Rest(root);
    }
  }

  /** Moves past the first visit; a cursor that cannot go on forgets its entry. */
  method AdvanceSide(c: Cursor, root: Block, ghost todo: seq<Visit>, ghost end: nat)
    requires Ahead(c, root, todo, end) && c.cur.Some?
    modifies c
    ensures Ahead(c, root, todo[1..], end)
  {
    WhatIsLeft(c.Here(), c.Rest(root), todo, end);
    Advance(c, root);
  }

  /** The cursor moves on in pre-order, or forgets its entry. */
  method Advance(c: Cursor, root: Block)
    requires c.Valid() && c.curblock.At? && c.cur.Some?
    modifies c
    ensures c.Valid() && c.curblock.At?
    ensures c.cur.None? <==> old(TooDeep(c.Here())) || old(c.Rest(root)) == []
    ensures c.cur.None? ==> |c.stk| == if old(TooDeep(c.Here())) then MAX_DEPTH else 0
    ensures c.cur.Some? ==> old(c.Rest(root)) == [c.Here()] + c.Rest(root)
  {
    assert c.Stuck() <==> TooDeep(c.Here());
    var e := c.NextR(root);
    if e.None? { c.cur := None; }
  }

  /** Past one visit: the rest, or the end. */
  lemma WhatIsLeft(v: Visit, rest: seq<Visit>, todo: seq<Visit>, end: nat)
    requires todo == Cut([v] + rest) && end == EndDepth(todo)
    ensures TooDeep(v) ==> todo[1..] == [] && end == MAX_DEPTH
    ensures !TooDeep(v) && rest == [] ==> todo[1..] == [] && end == 0
    ensures !TooDeep(v) && rest != [] ==> todo[1..] == Cut(rest) && end == EndDepth(todo[1..])
  {
    CutOne(v, rest);
  }

  lemma CutOne(v: Visit, rest: seq<Visit>)
    ensures Cut([v] + rest) == if TooDeep(v) then [v] else [v] + Cut(rest)
    ensures !TooDeep(v) && rest != [] ==> EndDepth(Cut([v] + rest)) == EndDepth(Cut(rest))
    ensures !TooDeep(v) && rest == [] ==> EndDepth(Cut([v] + rest)) == 0
  {
    assert ([v] + rest)[1..] == rest;
    CutIsPrefix(rest);
  }

  method CurrentPlace(c: Cursor) returns (p: Option<Place>)
    requires c.Valid() && c.curblock.At?
    ensures p == if c.cur.None? then None else Some(c.Here().place)
  {
    p := if c.cur.None? then None else Some(c.Here().place);
  }

  lemma AheadHead(c: Cursor, root: Block, todo: seq<Visit>, end: nat)
    requires Ahead(c, root, todo, end) && Named(PlacesOf(todo))
    ensures Head(PlacesOf(todo)) == if c.cur.None? then None else Some(c.Here().place)
    ensures DepthOn(PlacesOf(todo), end) == |c.stk|
  {
    if c.cur.Some? { CutOne(c.Here(), c.Rest(root)); }
  }

  ghost function Moved(s: seq<Visit>, stay: bool): seq<Visit> { if stay || s == [] then s else s[1..] }

  /** One answer of the comparison; both cursors move past what it reports. */
  method CmpNext(lc: Cursor, rc: Cursor, lb: Block, rb: Block, same: Same,
      ghost lt: seq<Visit>, ghost le: nat, ghost rt: seq<Visit>, ghost re: nat) returns (row: Row)
    requires lc != rc && Ahead(lc, lb, lt, le) && Ahead(rc, rb, rt, re)
    requires Named(PlacesOf(lt)) && Named(PlacesOf(rt))
    modifies lc, rc
    ensures row.kind == AnswerSides(PlacesOf(lt), le, PlacesOf(rt), re, same)
    ensures row.l == Head(PlacesOf(lt)) && row.r == Head(PlacesOf(rt))
    ensures Ahead(lc, lb, Moved(lt, row.kind.Right?), le)
    ensures Ahead(rc, rb, Moved(rt, row.kind.Left?), re)
  {
    AheadHead(lc, lb, lt, le);
    AheadHead(rc, rb, rt, re);
    var l := CurrentPlace(lc);
    var r := CurrentPlace(rc);
    var kind := Answer(l, |lc.stk|, r, |rc.stk|, same);
    if !kind.Right? && lc.cur.Some? { AdvanceSide(lc, lb, lt, le); }
    if !kind.Left? && rc.cur.Some? { AdvanceSide(rc, rb, rt, re); }
    row := Row(kind, l, r);
  }

  // ------------------------------------------------------------ whole comparisons

  lemma PlacesTail(vs: seq<Visit>)
    ensures vs == [] <==> PlacesOf(vs) == []
    ensures vs != [] ==> PlacesOf(vs[1..]) == PlacesOf(vs)[1..]
  {
  }

  lemma CompareStep(lt: seq<Visit>, le: nat, rt: seq<Visit>, re: nat, same: Same)
    requires Named(PlacesOf(lt)) && Named(PlacesOf(rt))
    ensures var l, r := PlacesOf(lt), PlacesOf(rt); var k := AnswerSides(l, le, r, re, same);
      && (k.Done? ==> CompareSides(l, le, r, re, same) == [])
      && (!k.Done? ==>
        var lt', rt' := Moved(lt, k.Right?), Moved(rt, k.Left?);
        && |lt'| + |rt'| < |lt| + |rt| && Named(PlacesOf(lt')) && Named(PlacesOf(rt'))
        && CompareSides(l, le, r, re, same) ==
            [Row(k, Head(l), Head(r))] + CompareSides(PlacesOf(lt'), le, PlacesOf(rt'), re, same))
  {
    AnswerSame(PlacesOf(lt), le, PlacesOf(rt), re, same);
    PlacesTail(lt);
    PlacesTail(rt);
  }

  /** Answers until the comparison says that it is done. */
  method CompareRest(lc: Cursor, rc: Cursor, lb: Block, rb: Block, same: Same,
      ghost lt: seq<Visit>, ghost le: nat, ghost rt: seq<Visit>, ghost re: nat) returns (rows: seq<Row>)
    requires lc != rc && Ahead(lc, lb, lt, le) && Ahead(rc, rb, rt, re)
    requires Named(PlacesOf(lt)) && Named(PlacesOf(rt))
    modifies lc, rc
    ensures rows == CompareSides(PlacesOf(lt), le, PlacesOf(rt), re, same)
    decreases |lt| + |rt|
  {
    CompareStep(lt, le, rt, re, same);
    var row := CmpNext(lc, rc, lb, rb, same, lt, le, rt, re);
    if row.kind.Done? { return []; }
    rows := CompareRest(lc, rc, lb, rb, same, Moved(lt, row.kind.Right?), le, Moved(rt, row.kind.Left?), re);
    rows := [row] + rows;
  }

  method CompareLoop(lb: Block, rb: Block, same: Same) returns (rows: seq<Row>)
    requires Named(Side(lb)) && Named(Side(rb))
    ensures rows == RowsOf(lb, rb, same)
  {
    var lc := new Cursor();
    var rc := new Cursor();
    InitSide(lc, lb);
    InitSide(rc, rb);
    rows := CompareRest(lc, rc, lb, rb, same, Reach(lb), EndDepth(Reach(lb)), Reach(rb), EndDepth(Reach(rb)));
  }

  /** Compares two sorted trees of any depth to the end. The rows report both trees completely,
      each in pre-order, if and only if the trees are comparable, as trees of at most 64 levels
      are; they then pair exactly the entries found in both under one path. In any case they begin
      the comparison of what the cursors can reach, and every pair is right. */
  method CompareAll(lb: Block, rb: Block, same: Same) returns (rows: seq<Row>)
    requires Sorted(lb) && Sorted(rb)
    ensures Named(Side(lb)) && Named(Side(rb)) && rows <= CompareLists(Side(lb), Side(rb), same)
    ensures ReportsAll(rows, lb, rb) <==> Comparable(lb, rb)
    ensures Fits(lb, 64) && Fits(rb, 64) ==> ReportsAll(rows, lb, rb)
    ensures ReportsAll(rows, lb, rb) ==>
      PairedPaths(rows) == PathsOf(PlacesOf(PreOrder(lb))) * PathsOf(PlacesOf(PreOrder(rb)))
    ensures forall row :: row in rows ==> GoodPair(row, same) && !row.kind.Done?
  {
    ReportsAllIff(lb, rb, same);
    if Fits(lb, MAX_DEPTH) && Fits(rb, MAX_DEPTH) { FitsComparable(lb, rb); }
    SidesReady(lb, rb);
    BeginningGood(RowsOf(lb, rb, same), Side(lb), Side(rb), same);
    if ReportsAll(RowsOf(lb, rb, same), lb, rb) { PairsReported(lb, rb, same); }
    rows := CompareLoop(lb, rb, same);
  }

  lemma PairsReported(lb: Block, rb: Block, same: Same)
    requires Sorted(lb) && Sorted(rb) && Named(Side(lb)) && Named(Side(rb))
    requires ReportsAll(RowsOf(lb, rb, same), lb, rb) && RowsOf(lb, rb, same) <= CompareLists(Side(lb), Side(rb), same)
    ensures PairedPaths(RowsOf(lb, rb, same)) == PathsOf(PlacesOf(PreOrder(lb))) * PathsOf(PlacesOf(PreOrder(rb)))
  {
    SidesReady(lb, rb);
    SideFullIff(lb);
    SideFullIff(rb);
    ReportsBySides(RowsOf(lb, rb, same), lb, rb, same);
    PairsExact(Side(lb), Side(rb), same);
  }

  lemma BeginningGood(rows: seq<Row>, l: seq<Place>, r: seq<Place>, same: Same)
    requires Ready(l, r) && rows <= CompareLists(l, r, same)
    ensures forall row :: row in rows ==> GoodPair(row, same) && !row.kind.Done?
  {
    RowsGood(l, r, same);
    forall row | row in rows ensures row in CompareLists(l, r, same) {
      var k :| 0 <= k < |rows| && rows[k] == row;
      assert CompareLists(l, r, same)[k] == row;
    }
  }
}
