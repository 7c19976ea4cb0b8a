/** Whole runs of the conveyor: from the first filter added to the last one closed. */
module ConveyorRuns {
  import opened Common
  import opened ConveyorLog
  import opened ConveyorModel

  // ------------------------------------------------------------ order of the filters

  ghost predicate SameOrder(a: seq<nat>, b: seq<nat>) {
    forall i, j, k, l :: 0 <= i < j < |a| && 0 <= k < |b| && 0 <= l < |b| && b[k] == a[i] && b[l] == a[j] ==> k < l
  }

  /** From `c` to `c'` filters may come and go, but those in both chains keep their relative
      order, and one that has left never comes back. */
  ghost predicate Evolves(c: Chain, c': Chain) {
    && c.n <= c'.n && SameOrder(c.active, c'.active)
    && forall f :: 0 <= f < c.n && f !in c.active ==> f !in c'.active
  }

  lemma EvolvesReflexive(c: Chain)
    requires Shape(c)
    ensures Evolves(c, c)
  {
  }

  lemma EvolvesTransitive(a: Chain, b: Chain, c: Chain)
    requires Evolves(a, b) && Evolves(b, c) && Shape(a) && Shape(b)
    ensures Evolves(a, c)
  {
    forall i, j, k, l | 0 <= i < j < |a.active| && 0 <= k < |c.active| && 0 <= l < |c.active|
      && c.active[k] == a.active[i] && c.active[l] == a.active[j]
      ensures k < l
    {
      assert a.active[i] in b.active && a.active[j] in b.active;
      var i' :| 0 <= i' < |b.active| && b.active[i'] == a.active[i];
      var j' :| 0 <= j' < |b.active| && b.active[j'] == a.active[j];
      assert i' < j';
    }
  }

  lemma InsertOrder(a: seq<nat>, at: nat, x: nat)
    requires Distinct(a) && at <= |a| && x !in a
    ensures SameOrder(a, InsertAt(a, at, x))
    ensures forall f :: f in InsertAt(a, at, x) ==> f == x || f in a
  {
    var b := InsertAt(a, at, x);
    forall i, j, k, l | 0 <= i < j < |a| && 0 <= k < |b| && 0 <= l < |b| && b[k] == a[i] && b[l] == a[j]
      ensures k < l
    {
      assert k != at && l != at;
      assert a[if k < at then k else k - 1] == a[i] && a[if l < at then l else l - 1] == a[j];
    }
  }

  lemma RemoveOrder(a: seq<nat>, from: nat, to: nat)
    requires Distinct(a) && from <= to <= |a|
    ensures SameOrder(a, a[..from] + a[to..])
    ensures forall f :: f in a[..from] + a[to..] ==> f in a
  {
    var b := a[..from] + a[to..];
    forall i, j, k, l | 0 <= i < j < |a| && 0 <= k < |b| && 0 <= l < |b| && b[k] == a[i] && b[l] == a[j]
      ensures k < l
    {
      assert a[if k < from then k else k + to - from] == a[i] && a[if l < from then l else l + to - from] == a[j];
    }
  }

  lemma AddEvolves(c: Chain, a: Add)
    requires OnFilter(c)
    ensures Evolves(c, TrackFilter(c, a).0)
  {
    AddPlace(c, a);
    if c.n < MAX_FILTERS {
      InsertOrder(c.active, PlaceFor(c, AddPos(c, a.prev)), c.n);
    } else {
      SameFilters(c, TrackFilter(c, a).0);
    }
  }

  lemma {:induction false} AddAllEvolves(c: Chain, adds: seq<Add>)
    requires OnFilter(c)
    ensures Evolves(c, AddAll(c, adds))
    decreases |adds|
  {
    if adds == [] {
      EvolvesReflexive(c);
    } else {
      AddEvolves(c, adds[0]);
      AddKeepsShape(c, adds[0]);
      var c1 := TrackFilter(c, adds[0]).0;
      AddAllEvolves(c1, adds[1..]);
      EvolvesTransitive(c, c1, AddAll(c1, adds[1..]));
    }
  }

  lemma SameFilters(c: Chain, c': Chain)
    requires Shape(c) && c'.n == c.n && c'.active == c.active
    ensures Evolves(c, c')
  {
  }

  lemma RunEvolves(c: Chain, turn: Turn)
    requires OnFilter(c)
    ensures Evolves(c, FilterRun(c, turn).0)
  {
    var f := c.active[c.cur];
    var c1 := WithSkip(c.(held := c.held - {f}), f, false);
    SameFilters(c, c1);
    if !(c.pool[f].skip && c.cur != 0) {
      var c1' := c1.(first := c.cur == 0);
      SameFilters(c, c1');
      var (c2, ready) := OpenFilter(c1', turn);
      OpenEvolves(c1', turn);
      EvolvesTransitive(c, c1', c2);
      if ready.Ok? {
        var c3 := c2.(okd := c2.okd - {f}, log := c2.log + [Process(f, c2.fwd, c2.first, f in c2.okd)]);
        AddAllEvolves(c3, turn.adds);
        EvolvesTransitive(c, c2, AddAll(c3, turn.adds));
      }
    }
  }

  lemma OpenEvolves(c: Chain, turn: Turn)
    requires OnFilter(c)
    ensures Evolves(c, OpenFilter(c, turn).0)
  {
    var f := c.active[c.cur];
    if c.pool[f].open || !c.pool[f].iface.hasOpen {
      SameFilters(c, OpenFilter(c, turn).0);
    } else {
      var c1 := c.(log := c.log + [Try(f)]);
      AddAllEvolves(c1, turn.openAdds);
      var c2 := AddAll(c1, turn.openAdds);
      assert Evolves(c, c2);
      assert OpenFilter(c, turn).0.active == c2.active && OpenFilter(c, turn).0.n == c2.n;
    }
  }

  lemma GoForwardActive(c: Chain, f: set<nat>)
    requires c.active != []
    ensures GoForward(c, f).0.active == c.active && GoForward(c, f).0.n == c.n
  {
  }

  /** Which filters an answer leaves in the chain. */
  lemma HandleActive(c: Chain, r: Code)
    requires OnFilter(c)
    ensures var c' := HandleResult(c, r).0;
      && c'.n == c.n
      && (r.Done? ==> c'.active == c.active[..c.cur] + c.active[c.cur+1..])
      && (r.LastOut? ==> c'.active == c.active[..0] + c.active[c.cur+1..])
      && (!r.Done? && !r.LastOut? ==> c'.active == c.active)
  {
    if r.Done? {
      DoneActive(c);
    } else if r.LastOut? {
      LastOutActive(c);
    } else {
      RestActive(c, r);
    }
  }

  lemma DoneActive(c: Chain)
    requires OnFilter(c)
    ensures var c' := HandleResult(c, Done).0; c'.n == c.n && c'.active == c.active[..c.cur] + c.active[c.cur+1..]
  {
    var c1 := c.(active := RemoveAt(c.active, c.cur), cur := (c.cur - 1) % UINT);
    if c1.active != [] { GoForwardActive(c1, {}); }
  }

  lemma LastOutActive(c: Chain)
    requires OnFilter(c)
    ensures var c' := HandleResult(c, LastOut).0; c'.n == c.n && c'.active == c.active[..0] + c.active[c.cur+1..]
  {
    assert c.active[..0] + c.active[c.cur+1..] == c.active[c.cur+1..];
    var c1 := c.(active := c.active[c.cur+1..], cur := NO_CUR);
    if c1.active != [] { GoForwardActive(c1, {}); }
  }

  lemma RestActive(c: Chain, r: Code)
    requires OnFilter(c) && !r.Done? && !r.LastOut?
    ensures var c' := HandleResult(c, r).0; c'.n == c.n && c'.active == c.active
  {
  }

  lemma RemoveEvolves(c: Chain, c': Chain, from: nat, to: nat)
    requires Shape(c) && from <= to <= |c.active| && c'.n == c.n && c'.active == c.active[..from] + c.active[to..]
    ensures Evolves(c, c')
  {
    RemoveOrder(c.active, from, to);
  }

  lemma HandleEvolves(c: Chain, r: Code)
    requires OnFilter(c)
    ensures Evolves(c, HandleResult(c, r).0)
  {
    var c' := HandleResult(c, r).0;
    HandleActive(c, r);
    if r.Done? {
      RemoveEvolves(c, c', c.cur, c.cur + 1);
    } else if r.LastOut? {
      RemoveEvolves(c, c', 0, c.cur + 1);
    } else {
      SameFilters(c, c');
    }
  }

  lemma TurnEvolves(c: Chain, turn: Turn)
    requires OnFilter(c)
    ensures Evolves(c, TurnOnce(c, turn).0)
  {
    var (c1, r1) := FilterRun(c, turn);
    RunEvolves(c, turn);
    HandleEvolves(c1, r1);
    EvolvesTransitive(c, c1, HandleResult(c1, r1).0);
  }

  // ------------------------------------------------------------ who waits for whom

  /** A filter that handed data forward waits until it gets control. */
  lemma HeldStays(c: Chain, turn: Turn, h: nat)
    requires Inv(c) && h in c.held && h != c.active[c.cur]
    ensures h in TurnOnce(c, turn).0.held
  {
    var f := c.active[c.cur];
    PickKeeps(c);
    var c1 := WithSkip(c.(held := c.held - {f}), f, false);
    if !(c.pool[f].skip && c.cur != 0) {
      FirstKeeps(c1, f, c.cur == 0);
      HeldInOpen(c1.(first := c.cur == 0), turn, f);
    }
    HeldInHandle(FilterRun(c, turn).0, FilterRun(c, turn).1);
  }

  lemma HeldInHandle(c: Chain, r: Code)
    requires OnFilter(c)
    ensures c.held <= HandleResult(c, r).0.held
  {
  }

  lemma HeldInOpen(c: Chain, turn: Turn, f: nat)
    requires Mid(c, f, {})
    ensures var (c2, ready) := OpenFilter(c, turn);
      c2.held == c.held && ProcessFilter(c2, turn).0.held == c.held
  {
    var (c2, ready) := OpenFilter(c, turn);
    HeldInAdds(c.(log := c.log + [Try(f)]), turn.openAdds);
    HeldInAdds(c2.(okd := c2.okd - {f}, log := c2.log + [Process(f, c2.fwd, c2.first, f in c2.okd)]), turn.adds);
  }

  lemma {:induction false} HeldInAdds(c: Chain, adds: seq<Add>)
    requires OnFilter(c)
    ensures AddAll(c, adds).held == c.held
    decreases |adds|
  {
    if adds != [] {
      AddKeepsShape(c, adds[0]);
      HeldInAdds(TrackFilter(c, adds[0]).0, adds[1..]);
    }
  }

  /** A filter that answers with data, is still in chain and is not the last one, waits. */
  lemma ForwardHolds(c: Chain, turn: Turn)
    requires OnFilter(c)
    ensures var (c', r) := TurnOnce(c, turn); var f := c.active[c.cur];
      r.Data? && f in c'.active ==> f in c'.held
  {
    HandleHolds(FilterRun(c, turn).0, FilterRun(c, turn).1);
  }

  lemma HandleHolds(c: Chain, r: Code)
    requires OnFilter(c)
    ensures var (c', r') := HandleResult(c, r); var f := c.active[c.cur];
      r'.Data? && f in c'.active ==> f in c'.held
  {
    HandleActive(c, r);
    if r.Done? {
      GoneOnce(c.active, c.cur, c.cur, c.cur + 1);
    } else if r.LastOut? {
      GoneOnce(c.active, c.cur, 0, c.cur + 1);
    }
  }

  lemma GoneOnce(a: seq<nat>, i: nat, from: nat, to: nat)
    requires Distinct(a) && from <= i < to <= |a|
    ensures a[i] !in a[..from] + a[to..]
  {
    var b := a[..from] + a[to..];
    forall k | 0 <= k < |b| ensures b[k] != a[i] { assert b[k] == a[if k < from then k else k + to - from]; }
  }

  // ------------------------------------------------------------ runs

  /** Turns until the chain ends or the environment's turns are used up; a turn that answers
      `Async` suspends the track and the next one resumes it. */
  ghost function RunTurns(c: Chain, turns: seq<Turn>): (Chain, Code)
    requires Inv(c)
    decreases |turns|
  {
    if turns == [] then (c, Async) else
      TurnKeepsInv(c, turns[0]);
      var (c', r) := TurnOnce(c, turns[0]);
      if Ended(r) then (c', r) else RunTurns(c', turns[1..])
  }

  /** A run ends with the first turn that ends the track; until then each turn starts from what the
      turns before it have left. */
  lemma {:induction false} RunsJoin(c: Chain, turns: seq<Turn>, turn: Turn)
    requires Inv(c)
    ensures var (c1, r1) := RunTurns(c, turns);
      if Ended(r1) then RunTurns(c, turns + [turn]) == (c1, r1)
      else Inv(c1) && var (c2, r2) := TurnOnce(c1, turn);
        RunTurns(c, turns + [turn]) == (c2, if Ended(r2) then r2 else Async)
    decreases |turns|
  {
    var all := turns + [turn];
    if turns == [] {
      TurnKeepsInv(c, turn);
      assert all[0] == turn && all[1..] == [];
    } else {
      assert all[0] == turns[0] && all[1..] == turns[1..] + [turn];
      TurnKeepsInv(c, turns[0]);
      var (c', r) := TurnOnce(c, turns[0]);
      if !Ended(r) { RunsJoin(c', turns[1..], turn); }
    }
  }

  /** No turn of the run gives control to `f`. */
  ghost predicate NeverPicked(c: Chain, turns: seq<Turn>, f: nat)
    requires Inv(c)
    decreases |turns|
  {
    turns == [] || (
      c.active[c.cur] != f &&
      var (c', r) := TurnOnce(c, turns[0]);
      TurnKeepsInv(c, turns[0]);
      (Ended(r) || NeverPicked(c', turns[1..], f)))
  }

  /** An instance exists exactly while the log says that the filter is open. */
  ghost predicate InstancesLogged(c: Chain) {
    && |c.pool| == MAX_FILTERS && GoodLog(c.log)
    && (forall f :: f in OpenNow(c.log) ==> f < MAX_FILTERS)
    && (forall f :: 0 <= f < MAX_FILTERS ==> (c.pool[f].open <==> f in OpenNow(c.log)))
  }

  lemma AgreesLogged(c: Chain, except: set<nat>)
    requires Shape(c) && LogAgrees(c, except)
    ensures InstancesLogged(c)
  {
    OpenedWasTried(c.log);
  }

  /** In every run the invariant holds at each loop head, so the cursor is in range each time
      a filter is picked; the filters keep their order; and the history is well formed. */
  lemma {:induction false} RunsKeep(c: Chain, turns: seq<Turn>)
    requires Inv(c)
    ensures var (c', r) := RunTurns(c, turns);
      && (!Ended(r) ==> Inv(c')) && Shape(c') && InstancesLogged(c') && Evolves(c, c')
    decreases |turns|
  {
    if turns == [] {
      EvolvesReflexive(c);
      AgreesLogged(c, {});
    } else {
      TurnKeepsInv(c, turns[0]);
      TurnEvolves(c, turns[0]);
      var (c1, r) := TurnOnce(c, turns[0]);
      if Ended(r) {
        AgreesLogged(c1, {c.active[c.cur]});
      } else {
        RunsKeep(c1, turns[1..]);
        EvolvesTransitive(c, c1, RunTurns(c1, turns[1..]).0);
      }
    }
  }

  /** After `f` hands data forward, and until it gets control back, only filters behind it
      run: at the end of every such run the cursor is behind `f`, or just back at it. */
  lemma {:induction false} DataStaysValid(c: Chain, turns: seq<Turn>, f: nat)
    requires Inv(c) && f in c.held && NeverPicked(c, turns, f)
    ensures var (c', r) := RunTurns(c, turns);
      !Ended(r) ==> f in c'.held && forall i :: 0 <= i < |c'.active| && c'.active[i] == f ==> i <= c'.cur
    decreases |turns|
  {
    if turns == [] {
      forall i | 0 <= i < |c.active| && c.active[i] == f ensures i <= c.cur {
        assert i != c.cur ==> Placed(c, i);
      }
    } else {
      TurnKeepsInv(c, turns[0]);
      HeldStays(c, turns[0], f);
      var (c1, r) := TurnOnce(c, turns[0]);
      if !Ended(r) { DataStaysValid(c1, turns[1..], f); }
    }
  }

  // ------------------------------------------------------------ start

  const EMPTY_SLOT := Slot(Iface(false, false), false, false)

  function NewChain(): Chain {
    Chain(seq(MAX_FILTERS, i => EMPTY_SLOT), 0, [], NO_CUR, false, false, {}, {}, [])
  }

  /** Filters added before the start go to the end of the chain. */
  ghost predicate Loading(c: Chain) {
    && NotStarted(c) && c.held == {} && c.okd == {} && c.log == []
    && forall f :: 0 <= f < MAX_FILTERS ==> !c.pool[f].open
  }

  lemma NewIsLoading()
    ensures Loading(NewChain())
  {
  }

  lemma LoadKeeps(c: Chain, a: Add)
    requires Loading(c)
    ensures Loading(TrackFilter(c, a).0)
    ensures c.n < MAX_FILTERS ==> TrackFilter(c, a).0.active == c.active + [c.n]
  {
    FilterAddShape(c, a.iface, AddPos(c, a.prev));
    if c.n < MAX_FILTERS { assert InsertAt(c.active, |c.active|, c.n) == c.active + [c.n]; }
  }

  lemma StartInv(c: Chain)
    requires Loading(c) && c.active != []
    ensures Inv(c.(cur := 0))
  {
    assert Tried([]) == {} && OpenNow([]) == {};
  }

  // ------------------------------------------------------------ closing

  /** The filters below `i` that are open, from the last added to the first. */
  ghost function ClosingOrder(pool: seq<Slot>, i: nat): Log
    requires i <= |pool|
  {
    if i == 0 then [] else (if pool[i-1].open then [Closed(i - 1)] else []) + ClosingOrder(pool, i - 1)
  }

  /** That is: each open filter below `i` once, later additions first, and no other. */
  lemma {:induction false} ClosingOrderExact(pool: seq<Slot>, i: nat)
    requires i <= |pool|
    ensures var order := ClosingOrder(pool, i);
      && (forall k :: 0 <= k < |order| ==> order[k].Closed? && order[k].f < i && pool[order[k].f].open)
      && (forall j, k :: 0 <= j < k < |order| ==> order[j].f > order[k].f)
      && (forall f :: 0 <= f < i && pool[f].open ==> Closed(f) in order)
  {
    if i > 0 { ClosingOrderExact(pool, i - 1); }
  }

  /** Closes pool entry `f`; a filter with a close function becomes the current one. */
  function CloseOne(c: Chain, f: nat): Chain
    requires f < |c.pool|
  {
    if !c.pool[f].open then c else
      var c1 := c.(pool := c.pool[f := c.pool[f].(open := false)], log := c.log + [Closed(f)]);
      if c.pool[f].iface.hasClose then
        c1.(cur := 0, active := if c.active == [] then [] else c.active[0 := f])
      else c1
  }

  /** Closes the pool entries below `i`, from the last to the first. */
  function CloseBelow(c: Chain, i: nat): Chain
    requires i <= |c.pool|
    decreases i
  {
    if i == 0 then c else CloseBelow(CloseOne(c, i - 1), i - 1)
  }

  function CloseAll(c: Chain): Chain
    requires |c.pool| == MAX_FILTERS
  {
    CloseBelow(c, MAX_FILTERS)
  }

  lemma {:induction false} ClosingOrderFrame(p: seq<Slot>, q: seq<Slot>, i: nat)
    requires i <= |p| && |q| == |p| && forall k :: 0 <= k < i ==> p[k].open == q[k].open
    ensures ClosingOrder(p, i) == ClosingOrder(q, i)
  {
    if i > 0 { ClosingOrderFrame(p, q, i - 1); }
  }

  lemma CloseOneKeeps(c: Chain, f: nat)
    requires InstancesLogged(c) && f < MAX_FILTERS
    ensures InstancesLogged(CloseOne(c, f)) && !CloseOne(c, f).pool[f].open
    ensures forall k :: 0 <= k < MAX_FILTERS && k != f ==> CloseOne(c, f).pool[k] == c.pool[k]
  {
    Extend(c.log, Closed(f));
  }

  lemma {:induction false} CloseBelowKeeps(c: Chain, i: nat)
    requires InstancesLogged(c) && i <= MAX_FILTERS
    ensures var c' := CloseBelow(c, i);
      && InstancesLogged(c')
      && (forall k :: 0 <= k < i ==> !c'.pool[k].open)
      && (forall k :: i <= k < MAX_FILTERS ==> c'.pool[k] == c.pool[k])
    decreases i
  {
    if i > 0 {
      CloseOneKeeps(c, i - 1);
      CloseBelowKeeps(CloseOne(c, i - 1), i - 1);
    }
  }

  lemma {:induction false} CloseBelowLog(c: Chain, i: nat)
    requires i <= |c.pool|
    ensures CloseBelow(c, i).log == c.log + ClosingOrder(c.pool, i)
    decreases i
  {
    if i > 0 {
      var c1 := CloseOne(c, i - 1);
      CloseBelowLog(c1, i - 1);
      ClosingOrderFrame(c.pool, c1.pool, i - 1);
      assert c1.log == c.log + if c.pool[i-1].open then [Closed(i - 1)] else [];
    }
  }

  /** Closing reaches every open filter, in reverse order of addition, and closing again
      (once when the chain finishes, once when the track is freed) calls nothing. */
  lemma CloseOnce(c: Chain)
    requires InstancesLogged(c)
    ensures var c' := CloseAll(c);
      && c'.log == c.log + ClosingOrder(c.pool, MAX_FILTERS)
      && InstancesLogged(c') && OpenNow(c'.log) == {}
      && CloseAll(c').log == c'.log
  {
    CloseBelowKeeps(c, MAX_FILTERS);
    CloseBelowLog(c, MAX_FILTERS);
    var c' := CloseAll(c);
    CloseBelowLog(c', MAX_FILTERS);
    NothingToClose(c'.pool, MAX_FILTERS);
  }

  lemma {:induction false} NothingToClose(p: seq<Slot>, i: nat)
    requires i <= |p| && forall k :: 0 <= k < i ==> !p[k].open
    ensures ClosingOrder(p, i) == []
  {
    if i > 0 { NothingToClose(p, i - 1); }
  }

  /** From the start, through any run, to the end of closing: the history is well formed and
      every filter that was opened has been closed. */
  lemma WholeRun(c: Chain, turns: seq<Turn>)
    requires Loading(c) && c.active != []
    ensures Inv(c.(cur := 0))
    ensures var c1 := RunTurns(c.(cur := 0), turns).0;
      |c1.pool| == MAX_FILTERS && var c2 := CloseAll(c1); GoodLog(c2.log) && OpenNow(c2.log) == {}
  {
    StartInv(c);
    RunsKeep(c.(cur := 0), turns);
    var c1 := RunTurns(c.(cur := 0), turns).0;
    CloseOnce(c1);
  }
}
