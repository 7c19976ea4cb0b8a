/** History of the calls that the conveyor makes into filters, and what a well-formed
    history means. */
module ConveyorLog {

  /** `Process` records whether the filter was entered with forward data, as first in
      chain, and whether it had answered `Ok` the last time. */
  datatype Event =
    | Try(f: nat)
    | Opened(f: nat)
    | Process(f: nat, fwd: bool, first: bool, wasOk: bool)
    | Closed(f: nat)

  type Log = seq<Event>

  function Last(l: Log): Event
    requires l != []
  {
    l[|l|-1]
  }

  function Init(l: Log): Log
    requires l != []
  {
    l[..|l|-1]
  }

  /** Filters whose open was attempted. */
  ghost function Tried(l: Log): set<nat> {
    if l == [] then {} else Tried(Init(l)) + (if Last(l).Try? then {Last(l).f} else {})
  }

  /** Filters that were opened at some time. */
  ghost function EverOpened(l: Log): set<nat> {
    if l == [] then {} else EverOpened(Init(l)) + (if Last(l).Opened? then {Last(l).f} else {})
  }

  /** Filters that are open at the end of the history. */
  ghost function OpenNow(l: Log): set<nat> {
    if l == [] then {}
    else if Last(l).Opened? then OpenNow(Init(l)) + {Last(l).f}
    else if Last(l).Closed? then OpenNow(Init(l)) - {Last(l).f}
    else OpenNow(Init(l))
  }

  ghost predicate GoodEvent(l: Log, e: Event) {
    match e
    case Try(f) => f !in Tried(l)
    case Opened(f) => f in Tried(l) && f !in EverOpened(l)
    case Process(f, fwd, first, wasOk) => f in OpenNow(l) && (wasOk ==> fwd || first)
    case Closed(f) => f in OpenNow(l)
  }

  ghost predicate GoodLog(l: Log) {
    l == [] || (GoodLog(Init(l)) && GoodEvent(Init(l), Last(l)))
  }

  lemma Extend(l: Log, e: Event)
    ensures Tried(l + [e]) == Tried(l) + (if e.Try? then {e.f} else {})
    ensures EverOpened(l + [e]) == EverOpened(l) + (if e.Opened? then {e.f} else {})
    ensures OpenNow(l + [e]) ==
      if e.Opened? then OpenNow(l) + {e.f} else if e.Closed? then OpenNow(l) - {e.f} else OpenNow(l)
    ensures GoodLog(l + [e]) <==> GoodLog(l) && GoodEvent(l, e)
  {
    assert Init(l + [e]) == l;
  }

  lemma {:induction false} OpenedWasTried(l: Log)
    requires GoodLog(l)
    ensures OpenNow(l) <= EverOpened(l) <= Tried(l)
  {
    if l != [] { OpenedWasTried(Init(l)); }
  }

  lemma {:induction false} PrefixGood(l: Log, i: nat)
    requires GoodLog(l) && i <= |l|
    ensures GoodLog(l[..i])
    ensures i < |l| ==> GoodEvent(l[..i], l[i])
  {
    if i == |l| {
      assert l[..i] == l;
    } else {
      PrefixGood(Init(l), i);
      assert Init(l)[..i] == l[..i];
    }
  }

  lemma {:induction false} Kept(l: Log, i: nat, j: nat)
    requires i <= j <= |l|
    ensures Tried(l[..i]) <= Tried(l[..j]) && EverOpened(l[..i]) <= EverOpened(l[..j])
    decreases j
  {
    if i < j {
      Kept(l, i, j - 1);
      Extend(l[..j-1], l[j-1]);
      assert l[..j] == l[..j-1] + [l[j-1]];
    }
  }

  /** A filter is tried, opened and closed at most once. */
  lemma OnceEach(l: Log, i: nat, j: nat)
    requires GoodLog(l) && i < j < |l| && l[i].f == l[j].f
    ensures l[i].Try? ==> !l[j].Try?
    ensures l[i].Opened? ==> !l[j].Opened?
    ensures l[i].Closed? ==> !l[j].Closed? && !l[j].Process?
  {
    PrefixGood(l, i);
    PrefixGood(l, j);
    Extend(l[..i], l[i]);
    assert l[..i+1] == l[..i] + [l[i]];
    Kept(l, i + 1, j);
    if l[i].Closed? {
      OpenedWasTried(l[..i]);
      StaysClosed(l, l[i].f, i + 1, j);
    }
  }

  lemma {:induction false} StaysClosed(l: Log, f: nat, i: nat, j: nat)
    requires GoodLog(l) && i <= j <= |l| && f in EverOpened(l[..i]) && f !in OpenNow(l[..i])
    ensures f !in OpenNow(l[..j])
    decreases j
  {
    if i < j {
      StaysClosed(l, f, i, j - 1);
      PrefixGood(l, j - 1);
      Kept(l, i, j - 1);
      Extend(l[..j-1], l[j-1]);
      assert l[..j] == l[..j-1] + [l[j-1]];
    }
  }

  /** Every call of process falls between the filter's opening and its closing. */
  lemma {:induction false} OpenMeansOpened(l: Log, f: nat) returns (k: nat)
    requires f in OpenNow(l)
    ensures k < |l| && l[k] == Opened(f) && forall j :: k < j < |l| ==> l[j] != Closed(f)
  {
    if Last(l) == Opened(f) {
      k := |l| - 1;
    } else {
      k := OpenMeansOpened(Init(l), f);
    }
  }
}
