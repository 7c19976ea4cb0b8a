/** The track object: the conveyor's fields updated in place, each operation proved to do
    what the state machine of `ConveyorModel` does. */
module Track {
  import opened Common
  import opened ConveyorLog
  import opened ConveyorModel
  import opened ConveyorRuns
  import opened ConveyorAnswers

  class Track {
    var pool: seq<Slot>
    var used: nat
    var active: seq<nat>
    var cur: nat
    var first: bool
    var fwd: bool
    ghost var held: set<nat>
    ghost var okd: set<nat>
    ghost var log: Log

    ghost function State(): Chain
      reads this
    {
      Chain(pool, used, active, cur, first, fwd, held, okd, log)
    }

    constructor ()
      ensures State() == NewChain() && Loading(State())
    {
      pool := seq(MAX_FILTERS, i => EMPTY_SLOT);
      used, active, cur, first, fwd := 0, [], NO_CUR, false, false;
      held, okd, log := {}, {}, [];
      new;
      NewIsLoading();
    }

    method AddAt(iface: Iface, pos: nat) returns (r: int)
      requires Shape(State()) && PlaceFor(State(), pos) <= |active|
      modifies this
      ensures (State(), r) == FilterAdd(old(State()), iface, pos)
    {
      if used == MAX_FILTERS { return -1; }
      var f := used;
      pool := pool[f := Slot(iface, false, false)];
      used := used + 1;
      if pos >= 0x8000_0000 || pos == |active| {
        r := |active|;
        active := active + [f];
        assert active == InsertAt(old(active), |old(active)|, f);
      } else {
        r := pos;
        active := active[..pos] + [f] + active[pos..];
      }
    }

    /** Adds a filter next to the current one, which stays current, or at the end before the
        start. The result counts from one; it is 0 when the pool is full. */
    method AddFilter(a: Add) returns (r: int)
      requires OnFilter(State()) || NotStarted(State())
      modifies this
      ensures (State(), r) == TrackFilter(old(State()), a)
      ensures old(OnFilter(State())) ==>
        OnFilter(State()) && active[cur] == old(active[cur]) && Evolves(old(State()), State())
      ensures r == 0 <==> old(used) == 20
      ensures old(OnFilter(State())) && r > 0 ==> r - 1 == (if a.prev then cur - 1 else cur + 1) < |active|
      ensures old(OnFilter(State())) && r > 0 ==> active[r - 1] == old(used)
    {
      if OnFilter(State()) { Neighbour(State(), a); }
      r := AddNext(a);
    }

    method AddNext(a: Add) returns (r: int)
      requires OnFilter(State()) || NotStarted(State())
      modifies this
      ensures (State(), r) == TrackFilter(old(State()), a)
    {
      var pos := (cur + 1) % UINT;
      if a.prev { pos := cur; }
      if cur == NO_CUR { pos := NO_CUR; }
      r := AddAt(a.iface, pos);
      if a.prev && r == cur { cur := cur + 1; }
      r := r + 1;
    }

    /** A called filter adds its neighbours. */
    method AddFilters(adds: seq<Add>)
      requires OnFilter(State())
      modifies this
      ensures OnFilter(State()) && State() == AddAll(old(State()), adds)
      decreases |adds|
    {
      if adds != [] {
        var r := AddFilter(adds[0]);
        AddFilters(adds[1..]);
      }
    }

    method SetOpen(f: nat, open: bool)
      requires f < |pool|
      modifies this`pool
      ensures pool == old(pool)[f := old(pool)[f].(open := open)]
    {
      pool := pool[f := pool[f].(open := open)];
    }

    /** The filter's open function, if it has one and was not called yet. */
    method Open(turn: Turn) returns (r: Code)
      requires OnFilter(State())
      modifies this
      ensures (State(), r) == OpenFilter(old(State()), turn)
    {
      var f := active[cur];
      if pool[f].open { return Ok; }
      log := log + [Try(f)];
      if pool[f].iface.hasOpen {
        AddFilters(turn.openAdds);
        if turn.openResult.OpenErr? { return Err; }
        if turn.openResult.OpenSkip? { return Done; }
      }
      SetOpen(f, true);
      log := log + [Opened(f)];
      r := Ok;
    }

    /** Calls the filter at the cursor. */
    method RunFilter(turn: Turn) returns (r: Code)
      requires OnFilter(State())
      modifies this
      ensures (State(), r) == FilterRun(old(State()), turn)
    {
      var f := active[cur];
      held := held - {f};
      var skip := pool[f].skip;
      pool := pool[f := pool[f].(skip := false)];
      if skip && cur != 0 { return More; }
      first := cur == 0;
      r := Open(turn);
      if !r.Ok? { return r; }
      log := log + [Process(f, fwd, first, f in okd)];
      okd := okd - {f};
      AddFilters(turn.adds);
      r := turn.code;
    }

    method Forward(ghost f: set<nat>) returns (r: Code)
      requires active != []
      modifies this
      ensures (State(), r) == GoForward(old(State()), f)
    {
      if (cur + 1) % UINT == |active| { return More; }
      cur := (cur + 1) % UINT;
      held := held + f;
      r := Data;
    }

    /** Handles the filter's answer: data goes to the next filter in chain, and what is left of it
        behind the last one is asked for again; the track ends exactly with the answers of `Ends`. */
    method Handle(code: Code) returns (r: Code)
      requires OnFilter(State())
      modifies this
      ensures (State(), r) == HandleResult(old(State()), code)
      ensures Ended(r) <==> Ends(old(State()), code)
      ensures (code.Data? || code.Ok?) && old(cur + 1 < |active|) ==> r == Data && cur == old(cur) + 1
      ensures (code.Data? || code.Ok?) && old(cur + 1 == |active|) ==> r == More && cur == old(cur)
      ensures code.Data? || code.Ok? || code.More? || code.Back? || code.Async? ==> active == old(active)
      ensures (code.More? || code.Back?) && old(cur) > 0 ==> r == code && cur == old(cur) - 1
      ensures code.Async? ==> r == Async && cur == old(cur)
    {
      EndsIff(State(), code);
      HandleFields(State(), code);
      r := Answer(code);
    }

    method Answer(code: Code) returns (r: Code)
      requires OnFilter(State())
      modifies this
      ensures (State(), r) == HandleResult(old(State()), code)
    {
      var f := active[cur];
      match code {
        case Done =>
          active := active[..cur] + active[cur+1..];
          cur := (cur - 1) % UINT;
          if active == [] { return Fin; }
          r := Forward({});
        case LastOut =>
          active := active[cur+1..];
          cur := NO_CUR;
          if active == [] { return Fin; }
          r := Forward({});
        case Ok =>
          pool := pool[f := pool[f].(skip := true)];
          okd := okd + {f};
          r := Forward({f});
        case Data => r := Forward({f});
        case More =>
          if cur == 0 { return Err; }
          cur := cur - 1;
          r := More;
        case Back =>
          if cur == 0 { return Err; }
          cur := cur - 1;
          r := Back;
        case Async => r := Async;
        case Fin => r := Fin;
        case Err => r := Err;
        case Bad => r := Err;
      }
    }

    /** One pass of the run loop. Unless the track ends the invariant holds again, so that the
        next filter is picked in range. */
    method OneTurn(turn: Turn) returns (r: Code)
      requires Inv(State())
      modifies this
      ensures (State(), r) == TurnOnce(old(State()), turn)
      ensures !Ended(r) ==> Inv(State())
      ensures Evolves(old(State()), State())
    {
      TurnKeepsInv(State(), turn);
      TurnEvolves(State(), turn);
      r := CallAndHandle(turn);
    }

    method CallAndHandle(turn: Turn) returns (r: Code)
      requires OnFilter(State())
      modifies this
      ensures (State(), r) == TurnOnce(old(State()), turn)
    {
      r := RunFilter(turn);
      r := Handle(r);
      if r.Data? { fwd := true; } else if r.More? || r.Back? { fwd := false; }
    }

    /** The run loop, over the turns the environment takes: the chain keeps its shape and the
        order of its filters, an instance exists exactly while its filter is open, and unless
        the track has ended the invariant holds. */
    method Run(turns: seq<Turn>) returns (r: Code)
      requires Inv(State())
      modifies this
      ensures (State(), r) == RunTurns(old(State()), turns)
      ensures Shape(State()) && Evolves(old(State()), State()) && InstancesLogged(State())
      ensures !Ended(r) ==> Inv(State())
    {
      RunsKeep(State(), turns);
      r := RunLoop(turns);
    }

    method RunLoop(turns: seq<Turn>) returns (r: Code)
      requires Inv(State())
      modifies this
      ensures (State(), r) == RunTurns(old(State()), turns)
    {
      r := Async;
      var i := 0;
      while i < |turns| && !Ended(r)
        invariant 0 <= i <= |turns|
        invariant Ended(r) ==> (State(), r) == RunTurns(old(State()), turns)
        invariant !Ended(r) ==> Inv(State()) && RunTurns(State(), turns[i..]) == RunTurns(old(State()), turns)
        decreases |turns| - i
      {
        assert turns[i..][0] == turns[i] && turns[i..][1..] == turns[i+1..];
        r := OneTurn(turns[i]);
        i := i + 1;
      }
      if !Ended(r) { r := Async; }
    }

    method CloseFilter(f: nat)
      requires f < |pool|
      modifies this
      ensures State() == CloseOne(old(State()), f)
      ensures old(pool[f].open && pool[f].iface.hasClose) ==> cur == 0 && (active != [] ==> active[0] == f)
    {
      if pool[f].open {
        if pool[f].iface.hasClose {
          if active != [] { active := active[0 := f]; }
          cur := 0;
        }
        log := log + [Closed(f)];
        SetOpen(f, false);
      }
    }

    /** Closes exactly the open filters, the last added first; none is left open. */
    method Close()
      requires InstancesLogged(State())
      modifies this
      ensures State() == CloseAll(old(State())) && InstancesLogged(State())
      ensures log == old(log) + ClosingOrder(old(pool), MAX_FILTERS)
      ensures OpenNow(log) == {} && forall f :: 0 <= f < MAX_FILTERS ==> !pool[f].open
    {
      CloseOnce(State());
      CloseLoop();
    }

    method CloseLoop()
      requires |pool| == MAX_FILTERS
      modifies this
      ensures State() == CloseAll(old(State()))
    {
      var i := MAX_FILTERS;
      while i > 0
        invariant 0 <= i <= MAX_FILTERS == |pool|
        invariant CloseBelow(State(), i) == CloseAll(old(State()))
      {
        i := i - 1;
        CloseFilter(i);
      }
    }
  }

  /** The answers that leave the chain as it is. */
  lemma HandleFields(c: Chain, code: Code)
    requires OnFilter(c)
    ensures var (c', r) := HandleResult(c, code);
      && (code.Data? || code.Ok? ==> c'.active == c.active)
      && ((code.Data? || code.Ok?) && HasNext(c) ==> r == Data && c'.cur == c.cur + 1)
      && ((code.Data? || code.Ok?) && !HasNext(c) ==> r == More && c'.cur == c.cur)
      && (code.More? || code.Back? ==> c'.active == c.active && (c.cur > 0 ==> r == code && c'.cur == c.cur - 1))
      && (code.Async? ==> r == Async && c' == c)
  {
    if code.Data? || code.Ok? { DataGoesOn(c, code); }
    if code.More? || code.Back? { BackwardStep(c, code); }
    if code.Async? { AsyncStays(c); }
  }

  /** Where the new filter ends up. */
  lemma Neighbour(c: Chain, a: Add)
    requires OnFilter(c)
    ensures var (c', r) := TrackFilter(c, a);
      && OnFilter(c') && c'.active[c'.cur] == c.active[c.cur] && Evolves(c, c')
      && (r == 0 <==> c.n == MAX_FILTERS)
      && (r > 0 ==> r - 1 == (if a.prev then c'.cur - 1 else c'.cur + 1) < |c'.active| && c'.active[r - 1] == c.n)
  {
    AddKeepsShape(c, a);
    AddEvolves(c, a);
    AddPlace(c, a);
  }

  /** A whole life of a track: filters are added, it is started, run and closed, and closed
      once more when it is freed. The history is well formed and no filter stays open. */
  method WholeLife(filters: seq<Add>, turns: seq<Turn>) returns (t: Track)
    ensures GoodLog(t.log) && OpenNow(t.log) == {}
  {
    t := new Track();
    for i := 0 to |filters|
      invariant fresh(t) && Loading(t.State())
    {
      LoadKeeps(t.State(), filters[i]);
      var r := t.AddFilter(filters[i]);
    }
    if t.active != [] {
      StartInv(t.State());
      t.cur := 0;
      var r := t.Run(turns);
    } else {
      LoadingLogged(t.State());
    }
    t.Close();
    t.Close();
    assert InstancesLogged(t.State());
  }

  lemma LoadingLogged(c: Chain)
    requires Loading(c)
    ensures InstancesLogged(c)
  {
  }
}
