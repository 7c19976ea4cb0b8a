/** Who frees a track. The worker's run, the user's stop() and the filters' wake() are
    separate threads of control; each step below is atomic, and stop() and wake() may fall
    between any two steps of a run. */
module Lifecycle {

  datatype State = Running | Finished | Stop | Stopping

  /** The worker: not in the track's run, inside the run loop, or past the loop with the
      chain finished but the state not updated yet. */
  datatype Worker = Idle | InLoop | Ending

  /** `pending`: the track's task is in the worker's queue (it is there at most once).
      `finished` and `stopped` record that the chain has ended and that stop() was called. */
  datatype Track = Track(st: State, worker: Worker, pending: bool, finished: bool, stopped: bool, freed: nat)

  datatype Outcome = Continue | Suspend | End

  datatype Event =
    | Start              // the track is started: its task is posted
    | RunBegin           // the worker takes the task from the queue and calls the run function
    | Iterate(o: Outcome) // one pass of the run loop
    | Finish             // the compare-and-swap after the loop, and what follows it
    | UserStop
    | Wake

  const CREATED := Track(Running, Idle, false, false, false, 0)

  /** Steps that can be taken: the worker runs what is in its queue and goes on with what it
      runs; the track's users do not touch a track that is gone. */
  predicate Enabled(t: Track, e: Event) {
    match e
    case RunBegin => t.pending && t.worker.Idle?
    case Iterate(o) => t.worker.InLoop?
    case Finish => t.worker.Ending?
    case Start => t.freed == 0
    case UserStop => t.freed == 0
    case Wake => t.freed == 0
  }

  /** Frees the track; the pending task, if any, is removed from the queue first. */
  function Close(t: Track): Track { t.(pending := false, worker := Idle, freed := t.freed + 1) }

  function Step(t: Track, e: Event): Track {
    match e
    case Start => t.(pending := true)
    case Wake => t.(pending := true)
    case RunBegin =>
      var t1 := t.(pending := false);
      if t.st.Finished? then Close(t1) else t1.(worker := InLoop)
    case Iterate(o) =>
      var t1 := t.(st := if t.st.Stop? then Stopping else t.st);
      (match o
       case Continue => t1
       case Suspend => t1.(worker := Idle)
       case End => t1.(worker := Ending, finished := true))
    case Finish =>
      if t.st.Running? then t.(st := Finished, worker := Idle) else Close(t)
    case UserStop =>
      t.(st := if t.st.Running? then Stop else t.st, stopped := true,
         pending := t.pending || t.st.Running? || t.st.Finished?)
  }

  /** No wake() is outstanding once the chain has finished, unless stop() was called too. */
  predicate Quiet(t: Track, e: Event) {
    && ((e.Wake? || e.Start?) ==> t.st.Finished? ==> t.stopped)
    && (e.Finish? && t.st.Running? ==> !t.pending)
  }

  ghost predicate Inv(t: Track) {
    && (t.st.Finished? ==> t.finished && t.worker.Idle? && (t.pending ==> t.stopped))
    && (t.worker.Ending? ==> t.finished)
    && (t.finished && t.freed == 0 ==> t.st.Finished? || t.worker.Ending?)
    && (t.st.Stop? || t.st.Stopping? ==> t.stopped)
    && (t.stopped ==> !t.st.Running?)
    && (t.stopped && t.st.Finished? && t.freed == 0 ==> t.pending)
    && (t.st.Stop? && t.freed == 0 ==> t.pending || !t.worker.Idle?)
    && t.freed <= 1
    && (t.freed == 1 ==> t.finished && t.stopped && !t.pending && t.worker.Idle?)
  }

  ghost predicate LegalRun(t: Track, es: seq<Event>)
    decreases |es|
  {
    es == [] || (Enabled(t, es[0]) && Quiet(t, es[0]) && LegalRun(Step(t, es[0]), es[1..]))
  }

  ghost function After(t: Track, es: seq<Event>): Track
    decreases |es|
  {
    if es == [] then t else After(Step(t, es[0]), es[1..])
  }

  /** A run takes one step after the other. */
  lemma {:induction false} OneStepMore(t: Track, es: seq<Event>, e: Event)
    requires LegalRun(t, es)
    ensures LegalRun(t, es + [e]) <==> Enabled(After(t, es), e) && Quiet(After(t, es), e)
    ensures LegalRun(t, es + [e]) ==> After(t, es + [e]) == Step(After(t, es), e)
    decreases |es|
  {
    var all := es + [e];
    if es == [] {
      assert all[0] == e && all[1..] == [];
    } else {
      assert all[0] == es[0] && all[1..] == es[1..] + [e];
      OneStepMore(Step(t, es[0]), es[1..], e);
    }
  }

  /** The states that can follow, in any number of steps. */
  predicate LeadsTo(a: State, b: State) {
    a == b || a.Running? || (a.Stop? && b.Stopping?)
  }

  /** In every run the state only moves from running to finished, or from running to stop to
      stopping; the track is freed at most once, only after the chain has finished and stop()
      was called, in either order; and nothing of it is queued or running then. */
  lemma {:induction false} FreedOnceAfterBoth(t: Track, es: seq<Event>)
    requires Inv(t) && LegalRun(t, es)
    ensures var t' := After(t, es);
      && Inv(t') && LeadsTo(t.st, t'.st) && t'.freed <= 1
      && (t'.freed == 1 ==> t'.finished && t'.stopped && !t'.pending && t'.worker.Idle?)
    decreases |es|
  {
    if es != [] { FreedOnceAfterBoth(Step(t, es[0]), es[1..]); }
  }

  /** The free is the last step of its run: no step of the worker follows it, because the
      pending task went with it. */
  lemma {:induction false} FreeIsLast(t: Track, es: seq<Event>, k: nat)
    requires Inv(t) && LegalRun(t, es) && k < |es|
    ensures After(t, es[..k]).freed == 0
    decreases |es|
  {
    if k > 0 {
      FreeIsLast(Step(t, es[0]), es[1..], k - 1);
      assert es[..k][1..] == es[1..][..k-1];
    }
  }

  /** A track that has finished and was told to stop is freed by the worker's next step. */
  lemma BothMeansFreed(t: Track)
    requires Inv(t) && t.freed == 0 && t.finished && t.stopped
    ensures t.st.Finished? ==> Enabled(t, RunBegin) && Step(t, RunBegin).freed == 1
    ensures !t.st.Finished? ==> Enabled(t, Finish) && Step(t, Finish).freed == 1
  {
  }

  // ------------------------------------------------------------ stop() is noticed

  /** A track told to stop is in the worker's queue or in its hands until the filters are told. */
  lemma {:induction false} StopIsNoticed(t: Track, es: seq<Event>)
    requires Inv(t) && LegalRun(t, es)
    ensures var t' := After(t, es); t'.st.Stop? && t'.freed == 0 ==> t'.pending || !t'.worker.Idle?
    decreases |es|
  {
    if es != [] { StopIsNoticed(Step(t, es[0]), es[1..]); }
  }

  /** The next pass of the run loop tells them, whatever comes of it. */
  lemma NextPassTells(t: Track, o: Outcome)
    requires t.st.Stop? && t.worker.InLoop?
    ensures Enabled(t, Iterate(o)) && Step(t, Iterate(o)).st == Stopping
  {
  }

  /** stop() of a running or finished track that the worker does not have in hand makes it run. */
  lemma StopWakesWorker(t: Track)
    requires t.freed == 0 && (t.st.Running? || t.st.Finished?)
    ensures Enabled(t, UserStop)
    ensures var t' := Step(t, UserStop);
      t'.stopped && t'.pending && (t.worker.Idle? ==> Enabled(t', RunBegin))
    ensures t.st.Running? ==> Step(t, UserStop).st == Stop
    ensures t.st.Finished? ==> Step(t, UserStop).st == Finished
  {
  }

  /** A second stop() posts nothing. */
  lemma StopAgain(t: Track)
    requires t.freed == 0 && (t.st.Stop? || t.st.Stopping?)
    ensures Enabled(t, UserStop)
    ensures Step(t, UserStop) == t.(stopped := true)
  {
  }

  /** Start and wake make an idle worker run; the run goes on until its outcome says otherwise. */
  lemma WorkerRuns(t: Track)
    requires t.freed == 0 && t.worker.Idle? && !t.st.Finished?
    ensures Enabled(t, Wake) && Enabled(Step(t, Wake), RunBegin)
    ensures Enabled(t, Start) && Enabled(Step(t, Start), RunBegin)
    ensures t.pending ==> var t' := Step(t, RunBegin);
      && t'.worker.InLoop? && !t'.pending && t'.freed == 0
      && Enabled(Step(t', Iterate(Continue)), Iterate(Continue))
      && Step(t', Iterate(Suspend)).worker.Idle?
      && Enabled(Step(t', Iterate(End)), Finish)
  {
  }

  /** From suspension, stop() and a chain that then ends free the track. */
  lemma StopThenEndFrees(t: Track)
    requires Inv(t) && t.st.Running? && t.worker.Idle? && t.freed == 0
    ensures LegalRun(t, [UserStop, RunBegin, Iterate(End), Finish])
    ensures After(t, [UserStop, RunBegin, Iterate(End), Finish]).freed == 1
  {
    var t1 := Step(t, UserStop);
    var t2 := Step(t1, RunBegin);
    var t3 := Step(t2, Iterate(End));
    FourSteps(t, t1, t2, t3, [UserStop, RunBegin, Iterate(End), Finish]);
  }

  /** A chain that ends while the track runs does not free it; the stop() after that does. */
  lemma EndThenStopFrees(t: Track)
    requires Inv(t) && t.st.Running? && t.worker.InLoop? && t.freed == 0 && !t.pending
    ensures LegalRun(t, [Iterate(End), Finish, UserStop, RunBegin])
    ensures After(t, [Iterate(End), Finish]).freed == 0 && After(t, [Iterate(End), Finish]).st.Finished?
    ensures After(t, [Iterate(End), Finish, UserStop, RunBegin]).freed == 1
  {
    var t1 := Step(t, Iterate(End));
    var t2 := Step(t1, Finish);
    var t3 := Step(t2, UserStop);
    FourSteps(t, t1, t2, t3, [Iterate(End), Finish, UserStop, RunBegin]);
    assert After(t1, [Finish]) == Step(t1, Finish);
    assert [Iterate(End), Finish][1..] == [Finish];
  }

  lemma FourSteps(t: Track, t1: Track, t2: Track, t3: Track, es: seq<Event>)
    requires |es| == 4 && t1 == Step(t, es[0]) && t2 == Step(t1, es[1]) && t3 == Step(t2, es[2])
    requires Enabled(t, es[0]) && Quiet(t, es[0]) && Enabled(t1, es[1]) && Quiet(t1, es[1])
    requires Enabled(t2, es[2]) && Quiet(t2, es[2]) && Enabled(t3, es[3]) && Quiet(t3, es[3])
    ensures LegalRun(t, es) && After(t, es) == Step(t3, es[3])
  {
    assert es[1..][1..] == es[2..] && es[2..][1..] == es[3..] && es[3..][1..] == [];
    assert LegalRun(t3, es[3..]) && After(t3, es[3..]) == Step(t3, es[3]);
    assert LegalRun(t2, es[2..]) && After(t2, es[2..]) == After(t3, es[3..]);
    assert LegalRun(t1, es[1..]) && After(t1, es[1..]) == After(t2, es[2..]);
  }

  // ------------------------------------------------------------ from the creation on

  /** Every run of a new track. */
  lemma EveryRun(es: seq<Event>)
    requires LegalRun(CREATED, es)
    ensures var t := After(CREATED, es);
      && Inv(t) && t.freed <= 1 && (t.freed == 1 ==> t.finished && t.stopped && !t.pending && t.worker.Idle?)
    ensures var t := After(CREATED, es); t.st.Stop? && t.freed == 0 ==> t.pending || !t.worker.Idle?
    ensures forall k :: 0 <= k < |es| ==> After(CREATED, es[..k]).freed == 0
  {
    FreedOnceAfterBoth(CREATED, es);
    forall k | 0 <= k < |es| ensures After(CREATED, es[..k]).freed == 0 { FreeIsLast(CREATED, es, k); }
  }

  // ------------------------------------------------------------ `Quiet` is the weakest condition

  /** The worker's next run of the track frees it although stop() was not called. */
  predicate EarlyFree(t: Track) {
    t.freed == 0 && Enabled(t, RunBegin) && Step(t, RunBegin).freed == 1 && !Step(t, RunBegin).stopped
  }

  /** A step keeps the invariant if and only if it is quiet; one that is not leaves a track
      that the worker frees too early, and one that is does not. */
  lemma QuietIff(t: Track, e: Event)
    requires Inv(t) && Enabled(t, e)
    ensures Quiet(t, e) <==> Inv(Step(t, e))
    ensures Quiet(t, e) <==> !EarlyFree(Step(t, e))
  {
  }

  ghost predicate EnabledRun(t: Track, es: seq<Event>)
    decreases |es|
  {
    es == [] || (Enabled(t, es[0]) && EnabledRun(Step(t, es[0]), es[1..]))
  }

  /** Among all runs, whatever the timing of wake(), those made of quiet steps are exactly the
      ones in which the worker is never about to free the track before stop(). */
  lemma {:induction false} EarlyFreeIff(t: Track, es: seq<Event>)
    requires Inv(t) && EnabledRun(t, es)
    ensures LegalRun(t, es) <==> forall k :: 0 <= k <= |es| ==> !EarlyFree(After(t, es[..k]))
    decreases |es|
  {
    if es == [] {
      assert After(t, es[..0]) == t;
    } else {
      var t' := Step(t, es[0]);
      QuietIff(t, es[0]);
      assert After(t, es[..0]) == t;
      assert After(t, es[..1]) == After(t', es[..1][1..]) == t';
      forall k | 0 <= k < |es| ensures After(t, es[..k + 1]) == After(t', es[1..][..k]) {
        assert es[..k + 1][1..] == es[1..][..k];
      }
      if Quiet(t, es[0]) {
        EarlyFreeIff(t', es[1..]);
        assert forall k :: 0 < k <= |es| ==> After(t, es[..k]) == After(t', es[1..][..k - 1]);
      }
    }
  }

  /** A run in which a wake() arrives after the end: the track is freed without stop(). */
  lemma WakeAfterFinish()
    ensures var t := After(CREATED, [Start, RunBegin, Iterate(End), Finish, Wake, RunBegin]);
      t.freed == 1 && !t.stopped
    ensures !LegalRun(CREATED, [Start, RunBegin, Iterate(End), Finish, Wake, RunBegin])
  {
    var t1 := Step(CREATED, Start);
    var t2 := Step(t1, RunBegin);
    var t3 := Step(t2, Iterate(End));
    var t4 := Step(t3, Finish);
    var t5 := Step(t4, Wake);
    assert After(t5, [RunBegin]) == Step(t5, RunBegin);
    assert [Wake, RunBegin][1..] == [RunBegin];
    assert After(t4, [Wake, RunBegin]) == After(t5, [RunBegin]);
    assert [Finish, Wake, RunBegin][1..] == [Wake, RunBegin];
    assert [Iterate(End), Finish, Wake, RunBegin][1..] == [Finish, Wake, RunBegin];
    assert After(t2, [Iterate(End), Finish, Wake, RunBegin]) == After(t3, [Finish, Wake, RunBegin]);
    assert [RunBegin, Iterate(End), Finish, Wake, RunBegin][1..] == [Iterate(End), Finish, Wake, RunBegin];
    assert [Start, RunBegin, Iterate(End), Finish, Wake, RunBegin][1..] ==
      [RunBegin, Iterate(End), Finish, Wake, RunBegin];
  }
}
