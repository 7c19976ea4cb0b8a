/** What a filter's answer does to the chain, told by the chain's fields: which filter runs next,
    in which direction, and when the track ends. */
module ConveyorAnswers {
  import opened Common
  import opened ConveyorLog
  import opened ConveyorModel

  /** A filter is left in the chain behind the current one. */
  ghost predicate HasNext(c: Chain) { c.cur + 1 < |c.active| }

  /** The answers that end a track, given the filter that gives them. */
  ghost predicate Ends(c: Chain, r: Code) {
    match r
    case Fin => true
    case Err => true
    case Bad => true
    case More => c.cur == 0
    case Back => c.cur == 0
    case Done => |c.active| == 1
    case LastOut => !HasNext(c)
    case Data => false
    case Ok => false
    case Async => false
  }

  /** Data goes to the next filter. From the last one it goes nowhere: that filter is asked again,
      without data. */
  lemma DataGoesOn(c: Chain, r: Code)
    requires OnFilter(c) && (r.Data? || r.Ok?)
    ensures var (c', r') := HandleResult(c, r);
      && c'.active == c.active && c'.n == c.n
      && (HasNext(c) ==> r' == Data && c'.cur == c.cur + 1)
      && (!HasNext(c) ==> r' == More && c'.cur == c.cur)
  {
  }

  /** `Ok` also says that the filter is to be skipped once on the way back; nothing else is
      remembered of an answer. */
  lemma OkIsSkipped(c: Chain, r: Code)
    requires OnFilter(c)
    ensures var c', f := HandleResult(c, r).0, c.active[c.cur];
      && (forall g :: 0 <= g < |c.pool| ==>
            c'.pool[g] == if g == f && r.Ok? then c.pool[g].(skip := true) else c.pool[g])
      && c'.log == c.log && c'.first == c.first && c'.okd == c.okd + if r.Ok? then {f} else {}
  {
  }

  /** A filter that wants more data, or sends data back, gives control to the one before it. */
  lemma BackwardStep(c: Chain, r: Code)
    requires OnFilter(c) && (r.More? || r.Back?)
    ensures var (c', r') := HandleResult(c, r);
      if c.cur > 0 then r' == r && c' == c.(cur := c'.cur) && c'.cur == c.cur - 1 else r' == Err && c' == c
  {
  }

  /** A finished filter leaves the chain; the one behind it gets its data. If it was the last, the
      one before it is asked for more. */
  lemma DoneLeaves(c: Chain)
    requires OnFilter(c)
    ensures var (c', r') := HandleResult(c, Done);
      && c'.active == c.active[..c.cur] + c.active[c.cur+1..]
      && (|c.active| == 1 ==> r' == Fin)
      && (HasNext(c) ==> r' == Data && c'.cur == c.cur && c'.active[c'.cur] == c.active[c.cur + 1])
      && (|c.active| > 1 && !HasNext(c) ==> r' == More && c'.cur == c.cur - 1)
  {
  }

  /** With its last output a filter takes all filters before it out of the chain. */
  lemma LastOutLeaves(c: Chain)
    requires OnFilter(c)
    ensures var (c', r') := HandleResult(c, LastOut);
      && c'.active == c.active[c.cur+1..]
      && if HasNext(c) then r' == Data && c'.cur == 0 else r' == Fin
  {
  }

  /** A suspended track is left as it is. */
  lemma AsyncStays(c: Chain)
    requires OnFilter(c)
    ensures HandleResult(c, Async) == (c, Async)
  {
  }

  /** The track ends with exactly these answers: finished if a filter says so or none is left, and
      with an error otherwise. */
  lemma EndsIff(c: Chain, r: Code)
    requires OnFilter(c)
    ensures Ended(HandleResult(c, r).1) <==> Ends(c, r)
    ensures HandleResult(c, r).1 == Fin <==> r.Fin? || (Ends(c, r) && (r.Done? || r.LastOut?))
  {
  }

  // ------------------------------------------------------------ the call of a filter

  /** The filter is passed over: it had answered `Ok` and is not first in chain. */
  ghost predicate PassedOver(c: Chain)
    requires OnFilter(c)
  {
    c.pool[c.active[c.cur]].skip && c.cur != 0
  }

  /** The filter is opened in this turn, by a function of its own. */
  ghost predicate Opens(c: Chain)
    requires OnFilter(c)
  {
    var s := c.pool[c.active[c.cur]]; !s.open && s.iface.hasOpen
  }

  /** How many filters there are once `k` more are added. */
  function Grown(n: nat, k: nat): nat { if n + k <= 20 then n + k else 20 }

  /** What opening answers, and the filters added by then. Nothing that the filter is told
      changes. */
  lemma OpenAnswers(c: Chain, turn: Turn)
    requires OnFilter(c)
    ensures var (c', ready) := OpenFilter(c, turn);
      && c'.first == c.first && c'.fwd == c.fwd && c'.okd == c.okd
      && (Opens(c) && turn.openResult.OpenErr? ==> ready == Err)
      && (Opens(c) && turn.openResult.OpenSkip? ==> ready == Done)
      && (!Opens(c) || turn.openResult.OpenOk? ==> ready == Ok)
      && (c'.pool[c.active[c.cur]].open <==> ready == Ok || c.pool[c.active[c.cur]].open)
      && c'.n == Grown(c.n, if Opens(c) then |turn.openAdds| else 0) && |c'.active| - |c.active| == c'.n - c.n
  {
    var f := c.active[c.cur];
    if Opens(c) {
      var c1 := c.(log := c.log + [Try(f)]);
      AddsKeepFlags(c1, turn.openAdds);
      AddsKeepSlot(c1, turn.openAdds, f);
    }
  }

  /** What processing answers, what the filter was told, and the filters it has added. */
  lemma ProcessAnswers(c: Chain, turn: Turn)
    requires OnFilter(c)
    ensures var (c', r) := ProcessFilter(c, turn); var f := c.active[c.cur];
      && r == turn.code && c'.first == c.first && c'.okd == c.okd - {f}
      && c'.log == c.log + [Process(f, c.fwd, c.first, f in c.okd)]
      && c'.n == Grown(c.n, |turn.adds|) && |c'.active| - |c.active| == c'.n - c.n
  {
    var f := c.active[c.cur];
    AddsKeepFlags(c.(okd := c.okd - {f}, log := c.log + [Process(f, c.fwd, c.first, f in c.okd)]), turn.adds);
  }

  /** The state in which a filter that is not passed over is opened or processed. */
  function Called(c: Chain): Chain
    requires OnFilter(c)
  {
    WithSkip(c.(held := c.held - {c.active[c.cur]}), c.active[c.cur], false).(first := c.cur == 0)
  }

  /** What a turn's call of the filter answers: to be passed over, to be asked for more; else what
      its opening or its processing answers, called as first in chain exactly at place 0. */
  lemma CallAnswers(c: Chain, turn: Turn)
    requires OnFilter(c)
    ensures PassedOver(c) ==> FilterRun(c, turn).1 == More
    ensures !PassedOver(c) && Opens(c) && turn.openResult.OpenErr? ==> FilterRun(c, turn).1 == Err
    ensures !PassedOver(c) && Opens(c) && turn.openResult.OpenSkip? ==> FilterRun(c, turn).1 == Done
    ensures !PassedOver(c) && (!Opens(c) || turn.openResult.OpenOk?) ==>
      var (c', r) := FilterRun(c, turn); var f := c.active[c.cur];
      && r == turn.code && c'.first == (c.cur == 0)
      && c'.log != [] && c'.log[|c'.log|-1] == Process(f, c.fwd, c.cur == 0, f in c.okd)
      && c'.n == Grown(Grown(c.n, if Opens(c) then |turn.openAdds| else 0), |turn.adds|)
      && |c'.active| - |c.active| == c'.n - c.n
  {
    if !PassedOver(c) {
      var c1 := Called(c);
      var (c2, ready) := OpenFilter(c1, turn);
      assert Opens(c1) == Opens(c);
      OpenAnswers(c1, turn);
      if ready.Ok? { ProcessAnswers(c2, turn); }
    }
  }

  /** A filter passed over is not called; the mark is gone, so that it is called the next time. */
  lemma PassedOverOnce(c: Chain, turn: Turn)
    requires OnFilter(c) && PassedOver(c)
    ensures var c' := FilterRun(c, turn).0;
      OnFilter(c') && c'.log == c.log && c'.active == c.active && c'.cur == c.cur && !PassedOver(c')
  {
  }

  /** Added filters come in closed and change nothing that is told to a filter. */
  lemma {:induction false} AddsKeepFlags(c: Chain, adds: seq<Add>)
    requires OnFilter(c)
    ensures var c' := AddAll(c, adds);
      && c'.first == c.first && c'.fwd == c.fwd && c'.log == c.log && c'.okd == c.okd && c'.held == c.held
      && c'.n == Grown(c.n, |adds|) && |c'.active| - |c.active| == c'.n - c.n
    decreases |adds|
  {
    if adds != [] {
      AddKeepsShape(c, adds[0]);
      NewSlot(c, adds[0]);
      AddsKeepFlags(TrackFilter(c, adds[0]).0, adds[1..]);
    }
  }

  /** Nor an instance or a mark. */
  lemma {:induction false} AddsKeepSlot(c: Chain, adds: seq<Add>, f: nat)
    requires OnFilter(c) && f < c.n
    ensures AddAll(c, adds).pool[f] == c.pool[f]
    decreases |adds|
  {
    if adds != [] {
      AddKeepsShape(c, adds[0]);
      NewSlot(c, adds[0]);
      AddsKeepSlot(TrackFilter(c, adds[0]).0, adds[1..], f);
    }
  }

  // ------------------------------------------------------------ a turn

  lemma HandleKeepsDirection(c: Chain, r: Code)
    requires OnFilter(c)
    ensures HandleResult(c, r).0.fwd == c.fwd
  {
  }

  /** The direction of the next call: with data after data, without it on the way back, and
      unchanged by suspension. */
  lemma TurnDirection(c: Chain, turn: Turn)
    requires OnFilter(c)
    ensures var (c', r) := TurnOnce(c, turn);
      (r.Data? ==> c'.fwd) && (r.More? || r.Back? ==> !c'.fwd) && (r.Async? ==> c'.fwd == FilterRun(c, turn).0.fwd)
  {
    var (c1, r1) := FilterRun(c, turn);
    HandleKeepsDirection(c1, r1);
  }

  /** A turn ends the track exactly with these answers of the filter that is called. */
  lemma TurnEndsIff(c: Chain, turn: Turn)
    requires OnFilter(c)
    ensures var (c1, r1) := FilterRun(c, turn); Ended(TurnOnce(c, turn).1) <==> Ends(c1, r1)
  {
    var (c1, r1) := FilterRun(c, turn);
    EndsIff(c1, r1);
  }

  /** Such as data from a filter that is not the last: the one behind it, which it may have just
      added, is called with it. */
  lemma DataReachesNext(c: Chain, turn: Turn)
    requires OnFilter(c) && !PassedOver(c) && (!Opens(c) || turn.openResult.OpenOk?)
    requires (turn.code.Data? || turn.code.Ok?) && HasNext(FilterRun(c, turn).0)
    ensures var c1 := FilterRun(c, turn).0; var (c', r) := TurnOnce(c, turn);
      && c1.active[c1.cur] == c.active[c.cur]
      && r == Data && c'.fwd && c'.active == c1.active && c'.cur == c1.cur + 1
  {
    CallAnswers(c, turn);
    DataGoesOn(FilterRun(c, turn).0, turn.code);
  }

  // ------------------------------------------------------------ a new filter

  /** The pool entry of a new filter, and all others. */
  lemma NewSlot(c: Chain, a: Add)
    requires OnFilter(c) || NotStarted(c)
    ensures var c' := TrackFilter(c, a).0;
      if c.n == MAX_FILTERS then c' == c
      else c'.n == c.n + 1 && c'.pool[c.n] == Slot(a.iface, false, false) && |c'.active| == |c.active| + 1
    ensures var c' := TrackFilter(c, a).0; forall f :: 0 <= f < |c.pool| && f != c.n ==> c'.pool[f] == c.pool[f]
  {
  }
}
