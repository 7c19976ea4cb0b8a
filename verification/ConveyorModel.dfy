/** The filter conveyor of a track as a state machine: what one turn of the chain does, and
    what every run keeps. The filters themselves are the environment: a filter may return
    any code and may add filters before or after itself whenever it is called. */
module ConveyorModel {
  import opened Common
  import opened ConveyorLog

  const MAX_FILTERS := 20

  /** The cursor is a 32-bit unsigned number; -1 stands for "not started". */
  const UINT := 0x1_0000_0000
  const NO_CUR := 0xFFFF_FFFF

  /** What a filter returns; `Bad` is any number outside the enumeration. */
  datatype Code = Data | Ok | Done | LastOut | More | Back | Async | Fin | Err | Bad

  datatype Iface = Iface(hasOpen: bool, hasClose: bool)

  /** One place of the filter pool; `open` says that the filter has an instance. */
  datatype Slot = Slot(iface: Iface, open: bool, skip: bool)

  /** `held`: filters that handed data forward and have not got control back since.
      `okd`: filters whose last answer was `Ok`. Both, and `log`, are history. */
  datatype Chain = Chain(
    pool: seq<Slot>, n: nat, active: seq<nat>, cur: nat, first: bool, fwd: bool,
    held: set<nat>, okd: set<nat>, log: Log)

  datatype Add = Add(iface: Iface, prev: bool)

  datatype OpenResult = OpenOk | OpenSkip | OpenErr

  /** The environment's part of one turn: what the filter does when opened and processed. */
  datatype Turn = Turn(openAdds: seq<Add>, openResult: OpenResult, adds: seq<Add>, code: Code)

  // ------------------------------------------------------------ shape of the chain

  /** The active filters are distinct pool entries in use. */
  ghost predicate Shape(c: Chain) {
    && |c.pool| == MAX_FILTERS && c.n <= MAX_FILTERS && |c.active| <= c.n
    && Distinct(c.active)
    && (forall i :: 0 <= i < |c.active| ==> c.active[i] < c.n)
    && (forall f :: f in c.held || f in c.okd ==> f < c.n)
    && (forall f :: c.n <= f < MAX_FILTERS ==> !c.pool[f].open)
  }

  ghost predicate OnFilter(c: Chain) { Shape(c) && c.cur < |c.active| }

  ghost predicate NotStarted(c: Chain) { Shape(c) && c.cur == NO_CUR }

  // ------------------------------------------------------------ operations

  /** Where a filter added at `pos` goes: the end, unless `pos` is a place inside. */
  function PlaceFor(c: Chain, pos: nat): nat {
    if pos >= 0x8000_0000 || pos == |c.active| then |c.active| else pos
  }

  /** Adds a filter: the new chain and the filter's index, or -1 when the pool is full. */
  function FilterAdd(c: Chain, iface: Iface, pos: nat): (Chain, int)
    requires Shape(c) && PlaceFor(c, pos) <= |c.active|
  {
    var full: int := -1;
    if c.n == MAX_FILTERS then (c, full) else
      var at := PlaceFor(c, pos);
      (c.(pool := c.pool[c.n := Slot(iface, false, false)], n := c.n + 1,
          active := InsertAt(c.active, at, c.n)), at)
  }

  /** Position for a filter added by the one at the cursor, or before the start. */
  function AddPos(c: Chain, prev: bool): nat {
    if c.cur == NO_CUR then NO_CUR else if prev then c.cur else (c.cur + 1) % UINT
  }

  /** Adds next to the current filter, which stays the current one. The result counts from
      1; 0 reports a full pool. */
  function TrackFilter(c: Chain, a: Add): (Chain, int)
    requires OnFilter(c) || NotStarted(c)
  {
    var (c', r) := FilterAdd(c, a.iface, AddPos(c, a.prev));
    if a.prev && r == c'.cur then (c'.(cur := c'.cur + 1), r + 1) else (c', r + 1)
  }

  function AddAll(c: Chain, adds: seq<Add>): (r: Chain)
    requires OnFilter(c)
    ensures OnFilter(r) && r.active[r.cur] == c.active[c.cur]
    decreases |adds|
  {
    if adds == [] then c else
      AddKeepsShape(c, adds[0]);
      AddAll(TrackFilter(c, adds[0]).0, adds[1..])
  }

  lemma FilterAddShape(c: Chain, iface: Iface, pos: nat)
    requires Shape(c) && PlaceFor(c, pos) <= |c.active|
    ensures Shape(FilterAdd(c, iface, pos).0)
  {
    if c.n < MAX_FILTERS {
      var at := PlaceFor(c, pos);
      InsertDistinct(c.active, at, c.n);
      var r := InsertAt(c.active, at, c.n);
      forall i | 0 <= i < |r| ensures r[i] < c.n + 1 {
        if i != at { assert r[i] == c.active[if i < at then i else i - 1]; }
      }
    }
  }

  /** Next to the cursor: the place asked for, and where the cursor ends up. */
  lemma AddPlace(c: Chain, a: Add)
    requires OnFilter(c)
    ensures PlaceFor(c, AddPos(c, a.prev)) == if a.prev then c.cur else c.cur + 1
    ensures TrackFilter(c, a).0.cur == if c.n < MAX_FILTERS && a.prev then c.cur + 1 else c.cur
    ensures TrackFilter(c, a).0 == FilterAdd(c, a.iface, AddPos(c, a.prev)).0.(cur := TrackFilter(c, a).0.cur)
  {
  }

  lemma AddKeepsShape(c: Chain, a: Add)
    requires OnFilter(c)
    ensures var c' := TrackFilter(c, a).0; OnFilter(c') && c'.active[c'.cur] == c.active[c.cur]
  {
    AddPlace(c, a);
    FilterAddShape(c, a.iface, AddPos(c, a.prev));
  }

  function WithOpen(c: Chain, f: nat): Chain
    requires f < |c.pool|
  {
    c.(pool := c.pool[f := c.pool[f].(open := true)], log := c.log + [Opened(f)])
  }

  function WithSkip(c: Chain, f: nat, skip: bool): Chain
    requires f < |c.pool|
  {
    c.(pool := c.pool[f := c.pool[f].(skip := skip)])
  }

  /** Opens the current filter when it has no instance yet. The code is `Ok` when the filter
      is ready to process. */
  function OpenFilter(c: Chain, turn: Turn): (r: (Chain, Code))
    requires OnFilter(c)
    ensures OnFilter(r.0) && r.0.active[r.0.cur] == c.active[c.cur]
    ensures r.1.Ok? || r.1.Done? || r.1.Err?
  {
    var f := c.active[c.cur];
    if c.pool[f].open then (c, Ok) else
      var c1 := c.(log := c.log + [Try(f)]);
      if !c.pool[f].iface.hasOpen then (WithOpen(c1, f), Ok) else
        var c2 := AddAll(c1, turn.openAdds);
        match turn.openResult
        case OpenErr => (c2, Err)
        case OpenSkip => (c2, Done)
        case OpenOk => (WithOpen(c2, f), Ok)
  }

  function ProcessFilter(c: Chain, turn: Turn): (r: (Chain, Code))
    requires OnFilter(c)
    ensures OnFilter(r.0) && r.0.active[r.0.cur] == c.active[c.cur]
  {
    var f := c.active[c.cur];
    var c1 := c.(okd := c.okd - {f}, log := c.log + [Process(f, c.fwd, c.first, f in c.okd)]);
    (AddAll(c1, turn.adds), turn.code)
  }

  /** Calls the filter at the cursor, which has control from here on. */
  function FilterRun(c: Chain, turn: Turn): (r: (Chain, Code))
    requires OnFilter(c)
    ensures OnFilter(r.0) && r.0.active[r.0.cur] == c.active[c.cur]
  {
    var f := c.active[c.cur];
    var c1 := WithSkip(c.(held := c.held - {f}), f, false);
    if c.pool[f].skip && c.cur != 0 then (c1, More) else
      var (c2, ready) := OpenFilter(c1.(first := c.cur == 0), turn);
      if !ready.Ok? then (c2, ready) else ProcessFilter(c2, turn)
  }

  /** Moves forward, unless the last filter in chain has returned data. The filter that
      hands the data over is `f`, if it is still in the chain. */
  function GoForward(c: Chain, f: set<nat>): (Chain, Code)
    requires c.active != []
  {
    if (c.cur + 1) % UINT == |c.active| then (c, More)
    else (c.(cur := (c.cur + 1) % UINT, held := c.held + f), Data)
  }

  /** What the conveyor does with a filter's answer. */
  function HandleResult(c: Chain, r: Code): (Chain, Code)
    requires OnFilter(c)
  {
    var f := c.active[c.cur];
    match r
    case Done =>
      var c1 := c.(active := RemoveAt(c.active, c.cur), cur := (c.cur - 1) % UINT);
      if c1.active == [] then (c1, Fin) else GoForward(c1, {})
    case LastOut =>
      var c1 := c.(active := c.active[c.cur+1..], cur := NO_CUR);
      if c1.active == [] then (c1, Fin) else GoForward(c1, {})
    case Ok => GoForward(WithSkip(c, f, true).(okd := c.okd + {f}), {f})
    case Data => GoForward(c, {f})
    case More => if c.cur == 0 then (c, Err) else (c.(cur := c.cur - 1), More)
    case Back => if c.cur == 0 then (c, Err) else (c.(cur := c.cur - 1), Back)
    case Async => (c, Async)
    case Fin => (c, Fin)
    case Err => (c, Err)
    case Bad => (c, Err)
  }

  predicate Ended(r: Code) { r.Fin? || r.Err? }

  /** The direction flag follows the answer. */
  function Flagged(c: Chain, r: Code): Chain {
    c.(fwd := if r.Data? then true else if r.More? || r.Back? then false else c.fwd)
  }

  /** One pass of the run loop. */
  function TurnOnce(c: Chain, turn: Turn): (Chain, Code)
    requires OnFilter(c)
  {
    var (c1, r1) := FilterRun(c, turn);
    var (c2, r2) := HandleResult(c1, r1);
    (Flagged(c2, r2), r2)
  }

  // ------------------------------------------------------------ what every state keeps

  /** Filter `i` against the cursor, when the cursor stands elsewhere: a filter that waits
      for its data to be used is before the cursor; one that answered `Ok` is before the
      cursor if it must be skipped on the way back, and after it once it was skipped. */
  ghost predicate Placed(c: Chain, i: nat)
    requires Shape(c) && i < |c.active|
  {
    var f := c.active[i];
    && (f in c.held ==> i < c.cur)
    && (f in c.okd ==> if c.pool[f].skip then i < c.cur else i > c.cur)
  }

  /** The filter at the cursor: if it answered `Ok` and was skipped since, it was reached
      with forward data. */
  ghost predicate Reached(c: Chain)
    requires OnFilter(c)
  {
    var f := c.active[c.cur];
    f in c.okd && !c.pool[f].skip ==> c.fwd
  }

  /** The log agrees with the pool: an instance exists exactly while the filter is open, and
      a filter in chain that was tried is open. */
  ghost predicate LogAgrees(c: Chain, except: set<nat>)
    requires Shape(c)
  {
    && GoodLog(c.log)
    && (forall f :: f in Tried(c.log) ==> f < c.n)
    && (forall f :: 0 <= f < MAX_FILTERS ==> (c.pool[f].open <==> f in OpenNow(c.log)))
    && (forall i :: 0 <= i < |c.active| && c.active[i] !in except && c.active[i] in Tried(c.log) ==>
          c.pool[c.active[i]].open)
  }

  /** At the head of the run loop. */
  ghost predicate Inv(c: Chain) {
    && OnFilter(c) && LogAgrees(c, {})
    && (forall i :: 0 <= i < |c.active| && i != c.cur ==> Placed(c, i))
    && Reached(c)
  }

  /** While the filter at the cursor has control. */
  ghost predicate Mid(c: Chain, f: nat, except: set<nat>) {
    && OnFilter(c) && c.active[c.cur] == f && f !in c.held && LogAgrees(c, except)
    && (forall i :: 0 <= i < |c.active| && i != c.cur ==> Placed(c, i))
  }

  lemma AddKeepsMid(c: Chain, a: Add, f: nat, except: set<nat>)
    requires Mid(c, f, except) && except <= {f}
    ensures Mid(TrackFilter(c, a).0, f, except)
  {
    var c' := TrackFilter(c, a).0;
    AddKeepsShape(c, a);
    AddPlace(c, a);
    if c.n < MAX_FILTERS {
      var at := PlaceFor(c, AddPos(c, a.prev));
      forall i | 0 <= i < |c'.active| && i != c'.cur ensures Placed(c', i) {
        if i != at {
          assert Placed(c, if i < at then i else i - 1);
        }
      }
      OpenedWasTried(c.log);
    }
  }

  lemma {:induction false} AddAllKeepsMid(c: Chain, adds: seq<Add>, f: nat, except: set<nat>)
    requires Mid(c, f, except) && except <= {f}
    ensures var c' := AddAll(c, adds);
      && Mid(c', f, except) && c'.log == c.log && c'.fwd == c.fwd && c'.first == c.first
      && c'.okd == c.okd && c'.held == c.held && c'.pool[f] == c.pool[f]
    decreases |adds|
  {
    if adds != [] {
      AddKeepsMid(c, adds[0], f, except);
      AddAllKeepsMid(TrackFilter(c, adds[0]).0, adds[1..], f, except);
    }
  }

  // ------------------------------------------------------------ one turn keeps the invariant

  lemma PickKeeps(c: Chain)
    requires Inv(c)
    ensures var f := c.active[c.cur]; Mid(WithSkip(c.(held := c.held - {f}), f, false), f, {})
  {
    var f := c.active[c.cur];
    var c1 := WithSkip(c.(held := c.held - {f}), f, false);
    forall i | 0 <= i < |c1.active| && i != c1.cur ensures Placed(c1, i) { assert Placed(c, i); }
  }

  lemma FirstKeeps(c: Chain, f: nat, first: bool)
    requires Mid(c, f, {})
    ensures Mid(c.(first := first), f, {})
  {
    var c1 := c.(first := first);
    forall i | 0 <= i < |c1.active| && i != c1.cur ensures Placed(c1, i) { assert Placed(c, i); }
  }

  lemma TryKeeps(c: Chain, f: nat)
    requires Mid(c, f, {}) && !c.pool[f].open
    ensures Mid(c.(log := c.log + [Try(f)]), f, {f})
    ensures f in Tried(c.log + [Try(f)]) && f !in EverOpened(c.log + [Try(f)])
  {
    Extend(c.log, Try(f));
    OpenedWasTried(c.log);
    var c' := c.(log := c.log + [Try(f)]);
    forall i | 0 <= i < |c'.active| && i != c'.cur ensures Placed(c', i) { assert Placed(c, i); }
  }

  lemma OpenedKeeps(c: Chain, f: nat)
    requires Mid(c, f, {f}) && f in Tried(c.log) && f !in EverOpened(c.log)
    ensures Mid(WithOpen(c, f), f, {}) && f in OpenNow(WithOpen(c, f).log)
  {
    Extend(c.log, Opened(f));
    var c' := WithOpen(c, f);
    forall i | 0 <= i < |c'.active| && i != c'.cur ensures Placed(c', i) { assert Placed(c, i); }
  }

  lemma OpenKeeps(c: Chain, turn: Turn, f: nat)
    requires Mid(c, f, {})
    ensures var (c', r) := OpenFilter(c, turn);
      && (r.Ok? ==> Mid(c', f, {}) && f in OpenNow(c'.log) && c'.okd == c.okd && c'.fwd == c.fwd && c'.first == c.first)
      && (!r.Ok? ==> Mid(c', f, {f}))
  {
    if !c.pool[f].open {
      var c1 := c.(log := c.log + [Try(f)]);
      TryKeeps(c, f);
      if c.pool[f].iface.hasOpen {
        AddAllKeepsMid(c1, turn.openAdds, f, {f});
        OpenedKeeps(AddAll(c1, turn.openAdds), f);
      } else {
        OpenedKeeps(c1, f);
      }
    }
  }

  lemma ProcessKeeps(c: Chain, turn: Turn, f: nat)
    requires Mid(c, f, {}) && f in OpenNow(c.log) && (f in c.okd ==> c.fwd || c.first)
    ensures var (c', r) := ProcessFilter(c, turn); Mid(c', f, {}) && f !in c'.okd && r == turn.code
  {
    var e := Process(f, c.fwd, c.first, f in c.okd);
    Extend(c.log, e);
    var c1 := c.(okd := c.okd - {f}, log := c.log + [e]);
    forall i | 0 <= i < |c1.active| && i != c1.cur ensures Placed(c1, i) { assert Placed(c, i); }
    AddAllKeepsMid(c1, turn.adds, f, {});
  }

  lemma RunKeeps(c: Chain, turn: Turn)
    requires Inv(c)
    ensures var (c', r) := FilterRun(c, turn); Answered(c', c.active[c.cur], r)
  {
    var f := c.active[c.cur];
    PickKeeps(c);
    var c1 := WithSkip(c.(held := c.held - {f}), f, false);
    if !(c.pool[f].skip && c.cur != 0) {
      var c1' := c1.(first := c.cur == 0);
      FirstKeeps(c1, f, c.cur == 0);
      OpenKeeps(c1', turn, f);
      var (c2, ready) := OpenFilter(c1', turn);
      if ready.Ok? {
        ProcessKeeps(c2, turn, f);
        var (c3, r) := ProcessFilter(c2, turn);
        assert Mid(c3, f, {f});
      }
    }
  }

  /** The filters from `from` up to `to`, the current one among them, leave the chain. */
  lemma RemovedKeeps(c: Chain, c': Chain, from: nat, to: nat)
    requires OnFilter(c) && LogAgrees(c, {c.active[c.cur]}) && from <= c.cur < to <= |c.active|
    requires c' == c.(active := c.active[..from] + c.active[to..], cur := c'.cur)
    ensures Shape(c') && LogAgrees(c', {})
  {
    assert forall i :: 0 <= i < |c'.active| ==> c'.active[i] == c.active[if i < from then i else i + to - from];
    assert Distinct(c'.active);
  }

  /** The current filter, and those from `from` on before it, leave the chain; the cursor
      goes to the filter behind them, or back if there is none. */
  lemma RemovedInv(c: Chain, c': Chain, from: nat)
    requires OnFilter(c) && Mid(c, c.active[c.cur], {c.active[c.cur]}) && from <= c.cur
    requires |c'.active| == from + |c.active| - c.cur - 1 && c'.active != []
    requires c' == c.(active := c.active[..from] + c.active[c.cur+1..], fwd := c'.fwd, cur := c'.cur)
    requires if from < |c'.active| then c'.cur == from && c'.fwd else c'.cur == from - 1
    requires from == c.cur || from == 0
    ensures Inv(c')
  {
    RemovedKeeps(c, c'.(fwd := c.fwd), from, c.cur + 1);
    forall i | 0 <= i < |c'.active| && i != c'.cur ensures Placed(c', i) { RemovedPlaced(c, c', from, i); }
    assert c'.active[c'.cur] == c.active[if c'.cur < from then c'.cur else c.cur + 1];
    assert Placed(c, if c'.cur < from then c'.cur else c.cur + 1);
  }

  lemma RemovedPlaced(c: Chain, c': Chain, from: nat, i: nat)
    requires OnFilter(c) && Mid(c, c.active[c.cur], {c.active[c.cur]}) && from <= c.cur
    requires c' == c.(active := c.active[..from] + c.active[c.cur+1..], fwd := c'.fwd, cur := c'.cur)
    requires if from < |c'.active| then c'.cur == from && c'.fwd else c'.cur == from - 1
    requires (from == c.cur || from == 0) && i < |c'.active| && i != c'.cur
    ensures Placed(c', i)
  {
    var j := if i < from then i else i + c.cur + 1 - from;
    assert c'.active[i] == c.active[j];
    assert Placed(c, j);
  }

  /** The cursor may wrap to -1 and forward again. */
  lemma WrapBack(cur: nat)
    requires cur < UINT
    ensures ((cur - 1) % UINT + 1) % UINT == cur
    ensures cur > 0 ==> (cur - 1) % UINT == cur - 1
  {
  }

  lemma DoneKeeps(c: Chain, f: nat)
    requires Mid(c, f, {f}) && |c.active| > 1
    ensures var (c', r) := HandleResult(c, Done); (r.Data? || r.More?) && Inv(Flagged(c', r))
  {
    var (c', r) := HandleResult(c, Done);
    var last := c.cur + 1 == |c.active|;
    WrapBack(c.cur);
    assert c'.cur == (if last then c.cur - 1 else c.cur) && r == (if last then More else Data);
    RemovedInv(c, Flagged(c', r), c.cur);
  }

  lemma LastOutKeeps(c: Chain, f: nat)
    requires Mid(c, f, {f}) && c.cur + 1 < |c.active|
    ensures var (c', r) := HandleResult(c, LastOut); r.Data? && Inv(Flagged(c', r))
  {
    var (c', r) := HandleResult(c, LastOut);
    assert c.active[..0] + c.active[c.cur+1..] == c.active[c.cur+1..];
    RemovedInv(c, Flagged(c', r), 0);
  }

  lemma ForwardKeeps(c: Chain, f: nat)
    requires Mid(c, f, {}) && (f in c.okd ==> c.pool[f].skip)
    ensures var (c', r) := GoForward(c, {f}); (r.Data? || r.More?) && Inv(Flagged(c', r))
  {
    var (c', r) := GoForward(c, {f});
    var last := c.cur + 1 == |c.active|;
    assert c'.cur == (if last then c.cur else c.cur + 1) && r == (if last then More else Data);
    var c2 := Flagged(c', r);
    forall i | 0 <= i < |c2.active| && i != c2.cur ensures Placed(c2, i) {
      if i != c.cur { assert Placed(c, i) && c.active[i] != f; }
    }
    if !last { assert Placed(c, c.cur + 1); }
  }

  lemma BackKeeps(c: Chain, f: nat)
    requires Mid(c, f, {}) && c.cur > 0 && (f in c.okd ==> !c.pool[f].skip)
    ensures Inv(c.(cur := c.cur - 1, fwd := false))
  {
    var c2 := c.(cur := c.cur - 1, fwd := false);
    forall i | 0 <= i < |c2.active| && i != c2.cur ensures Placed(c2, i) {
      if i != c.cur { assert Placed(c, i); }
    }
    assert Placed(c, c.cur - 1);
  }

  lemma OkKeepsMid(c: Chain, f: nat)
    requires Mid(c, f, {})
    ensures Mid(WithSkip(c, f, true).(okd := c.okd + {f}), f, {})
  {
    var c' := WithSkip(c, f, true).(okd := c.okd + {f});
    forall i | 0 <= i < |c'.active| && i != c'.cur ensures Placed(c', i) {
      assert Placed(c, i);
      assert c.active[i] != f;
    }
  }

  lemma EmptiedKeeps(c: Chain, f: nat, cur: nat)
    requires OnFilter(c) && LogAgrees(c, {f})
    ensures Shape(c.(active := [], cur := cur)) && LogAgrees(c.(active := [], cur := cur), {f})
  {
  }

  /** What the environment may answer with: see `RunKeeps`. */
  ghost predicate Answered(c: Chain, f: nat, r: Code) {
    && Mid(c, f, if r.Done? || r.Err? then {f} else {})
    && (r.Done? || r.Err? || f !in c.okd || (r.More? && !c.pool[f].skip))
  }

  ghost predicate AfterTurn(c: Chain, f: nat, r: Code) {
    && (!Ended(r) ==> Inv(Flagged(c, r)) && (r.Data? || r.More? || r.Back? || r.Async?))
    && (Ended(r) ==> Shape(Flagged(c, r)) && LogAgrees(Flagged(c, r), {f}))
  }

  lemma LeaveKeeps(c: Chain, f: nat, r: Code)
    requires Answered(c, f, r) && (r.Done? || r.LastOut?)
    ensures var (c', r') := HandleResult(c, r); AfterTurn(c', f, r')
  {
    if r.Done? {
      if |c.active| > 1 {
        DoneKeeps(c, f);
      } else {
        assert RemoveAt(c.active, c.cur) == [];
        EmptiedKeeps(c, f, (c.cur - 1) % UINT);
      }
    } else if c.cur + 1 < |c.active| {
      LastOutKeeps(c, f);
    } else {
      EmptiedKeeps(c, f, NO_CUR);
    }
  }

  lemma MoveKeeps(c: Chain, f: nat, r: Code)
    requires Answered(c, f, r) && (r.Data? || r.Ok? || r.More? || r.Back?)
    ensures var (c', r') := HandleResult(c, r); AfterTurn(c', f, r')
  {
    if r.Ok? {
      OkKeepsMid(c, f);
      ForwardKeeps(WithSkip(c, f, true).(okd := c.okd + {f}), f);
    } else if r.Data? {
      ForwardKeeps(c, f);
    } else if c.cur > 0 {
      BackKeeps(c, f);
    }
  }

  lemma StopKeeps(c: Chain, f: nat, r: Code)
    requires Answered(c, f, r) && (r.Async? || r.Fin? || r.Err? || r.Bad?)
    ensures var (c', r') := HandleResult(c, r); AfterTurn(c', f, r')
  {
    if r.Async? {
      forall i | 0 <= i < |c.active| && i != c.cur ensures Placed(Flagged(c, r), i) { assert Placed(c, i); }
    }
  }

  /** From the loop head to the loop head: as long as the track goes on, or is suspended,
      the invariant holds again. */
  lemma TurnKeepsInv(c: Chain, turn: Turn)
    requires Inv(c)
    ensures var (c', r) := TurnOnce(c, turn);
      && (!Ended(r) ==> Inv(c') && (r.Data? || r.More? || r.Back? || r.Async?))
      && (Ended(r) ==> Shape(c') && LogAgrees(c', {c.active[c.cur]}))
  {
    RunKeeps(c, turn);
    var f := c.active[c.cur];
    var (c1, r1) := FilterRun(c, turn);
    if r1.Done? || r1.LastOut? {
      LeaveKeeps(c1, f, r1);
    } else if r1.Data? || r1.Ok? || r1.More? || r1.Back? {
      MoveKeeps(c1, f, r1);
    } else {
      StopKeeps(c1, f, r1);
    }
  }
}
