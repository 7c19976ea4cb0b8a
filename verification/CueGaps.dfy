/** Track boundaries of a cue sheet: the machine that turns INDEX lines, as they come, into
    one time span per track, in the four ways of treating the gap before a track. */
module CueGaps {
  import opened Common

  datatype Gap = Prev | Prev1 | Curr | Skip

  /** The 32-bit value -1: not set. */
  const UNSET := 0xFFFF_FFFF

  /** A span in CD frames; an end of 0 means "to the end of the file". */
  datatype Span = Span(from: nat, to: nat)

  datatype Token = File | TrackNum | Index00(val: nat) | Index(val: nat) | EndOfSheet

  // ------------------------------------------------------------ sheets

  /** The INDEX lines of one track: 00 (the start of the gap) if present, 01, and others. */
  datatype TrackLines = TrackLines(gap: Option<nat>, start: nat, more: seq<nat>)

  /** Where a track begins if its gap belongs to it. */
  function GapStart(t: TrackLines): nat { if t.gap.Some? then t.gap.value else t.start }

  /** A sheet with one FILE whose INDEX values increase. */
  predicate Sheet(ts: seq<TrackLines>) {
    && ts != []
    && (forall k :: 0 <= k < |ts| ==> GapStart(ts[k]) <= ts[k].start < UNSET)
    && (forall k :: 0 <= k < |ts| ==> ts[k].gap.Some? ==> ts[k].gap.value < ts[k].start)
    && (forall k :: 0 <= k < |ts| - 1 ==> ts[k].start < GapStart(ts[k+1]))
    && (ts[0].more != [] ==> ts[0].start < ts[0].more[0] < UNSET && (|ts| > 1 ==> ts[0].more[0] < GapStart(ts[1])))
  }

  /** The tracks as the machine sees them: an INDEX after 01 in the first track, unlike in
      the others, starts a track of its own. */
  function Seen(ts: seq<TrackLines>): (r: seq<TrackLines>)
    requires Sheet(ts)
    ensures Sheet(r) && r[0].more == []
  {
    if ts[0].more == [] then ts else
      var r := [ts[0].(more := []), TrackLines(None, ts[0].more[0], ts[0].more[1..])] + ts[1..];
      assert forall k :: 2 <= k < |r| ==> r[k] == ts[k-1];
      assert forall k :: 0 <= k < |r| - 1 ==> r[k].start < GapStart(r[k+1]) by {
        forall k | 0 <= k < |r| - 1 ensures r[k].start < GapStart(r[k+1]) {
          if k >= 2 { assert ts[k-1].start < GapStart(ts[k]); }
        }
      }
      r
  }

  /** Where the span of track `k` begins and ends, as the mode promises. */
  function SpanStart(mode: Gap, ts: seq<TrackLines>, k: nat): nat
    requires k < |ts|
  {
    match mode
    case Prev => ts[k].start
    case Prev1 => if k == 0 then GapStart(ts[k]) else ts[k].start
    case Curr => GapStart(ts[k])
    case Skip => ts[k].start
  }

  function SpanEnd(mode: Gap, ts: seq<TrackLines>, k: nat): nat
    requires k < |ts|
  {
    if k == |ts| - 1 then 0 else
      match mode
      case Prev => ts[k+1].start
      case Prev1 => ts[k+1].start
      case Curr => GapStart(ts[k+1])
      case Skip => GapStart(ts[k+1])
  }

  function ExpectedSpan(mode: Gap, ts: seq<TrackLines>, k: nat): Span
    requires k < |ts|
  {
    Span(SpanStart(mode, ts, k), SpanEnd(mode, ts, k))
  }

  /** The spans of the tracks from `k` on. */
  function ExpectedFrom(mode: Gap, ts: seq<TrackLines>, k: nat): (r: seq<Span>)
    ensures |r| == if k <= |ts| then |ts| - k else 0
    ensures forall j :: k <= j < |ts| ==> r[j - k] == ExpectedSpan(mode, ts, j)
    decreases |ts| - k
  {
    if k >= |ts| then [] else [ExpectedSpan(mode, ts, k)] + ExpectedFrom(mode, ts, k + 1)
  }

  // ------------------------------------------------------------ tokens of a sheet

  /** Lines INDEX 02 and so on. */
  function MoreTokens(more: seq<nat>): seq<Token> {
    if more == [] then [] else [Index(more[0])] + MoreTokens(more[1..])
  }

  function IndexTokens(t: TrackLines): seq<Token> {
    (if t.gap.Some? then [Index00(t.gap.value)] else []) + ([Index(t.start)] + MoreTokens(t.more))
  }

  /** The tracks from `k` on, and the end of the sheet. */
  function TokensFrom(ts: seq<TrackLines>, k: nat): seq<Token>
    decreases |ts| - k
  {
    if k >= |ts| then [EndOfSheet] else [TrackNum] + (IndexTokens(ts[k]) + TokensFrom(ts, k + 1))
  }

  /** A sheet as the reader meets it. */
  function Tokens(ts: seq<TrackLines>): seq<Token> { [File] + TokensFrom(ts, 0) }

  // ------------------------------------------------------------ the machine

  datatype Machine = Machine(from: nat, trkFrom: nat, trkTo: nat, first: bool, next: bool)

  const ZERO := Machine(0, 0, 0, false, false)

  /** What a token does, and the span it completes. */
  function Take(mode: Gap, m: Machine, t: Token): (Machine, Option<Span>) {
    match t
    case File => (m.(from := UNSET, first := true), None)
    case TrackNum => (m.(trkFrom := UNSET, trkTo := UNSET, next := false), None)
    case Index00(v) =>
      if m.first then (if mode.Prev1? || mode.Curr? then m.(from := v) else m, None)
      else if mode.Skip? then (m.(trkTo := v), None)
      else if mode.Curr? then (m.(trkTo := v, trkFrom := m.from, from := v), None)
      else (m, None)
    case Index(v) =>
      if m.first then (m.(first := false, from := if m.from == UNSET then v else m.from), None)
      else if m.next then (m, None)
      else
        var m1 := if m.trkFrom == UNSET then m.(trkFrom := m.from, from := v) else m;
        var m2 := if m1.trkTo == UNSET then m1.(trkTo := v) else m1;
        (m2.(next := true), Some(Span(m2.trkFrom, m2.trkTo)))
    case EndOfSheet => (m.(trkFrom := m.from, trkTo := 0), Some(Span(m.from, 0)))
  }

  /** Spans that end before they begin are reported and left out. */
  predicate Proper(s: Span) { s.to == 0 || s.from < s.to }

  function Kept(r: Option<Span>): seq<Span> { if r.Some? && Proper(r.value) then [r.value] else [] }

  ghost function After(mode: Gap, m: Machine, tokens: seq<Token>): Machine
    decreases |tokens|
  {
    if tokens == [] then m else After(mode, Take(mode, m, tokens[0]).0, tokens[1..])
  }

  /** The spans that a sequence of tokens yields. */
  ghost function Spans(mode: Gap, m: Machine, tokens: seq<Token>): seq<Span>
    decreases |tokens|
  {
    if tokens == [] then [] else
      var (m', r) := Take(mode, m, tokens[0]);
      Kept(r) + Spans(mode, m', tokens[1..])
  }

  class CueMachine {
    const mode: Gap
    var from: nat
    var trkFrom: nat
    var trkTo: nat
    var first: bool
    var next: bool

    constructor (mode: Gap)
      ensures this.mode == mode && State() == ZERO
    {
      this.mode := mode;
      from, trkFrom, trkTo, first, next := 0, 0, 0, false, false;
    }

    ghost function State(): Machine
      reads this
    {
      Machine(from, trkFrom, trkTo, first, next)
    }

    /** Takes one token; returns a span when it is complete. */
    method Feed(t: Token) returns (r: Option<Span>)
      modifies this
      ensures (State(), r) == Take(mode, old(State()), t)
    {
      r := None;
      match t {
        case File =>
          from := UNSET;
          first := true;
        case TrackNum =>
          trkFrom, trkTo := UNSET, UNSET;
          next := false;
        case Index00(v) =>
          if first {
            if mode.Prev1? || mode.Curr? { from := v; }
          } else if mode.Skip? {
            trkTo := v;
          } else if mode.Curr? {
            trkTo := v;
            trkFrom := from;
            from := v;
          }
        case Index(v) =>
          if first {
            first := false;
            if from == UNSET { from := v; }
          } else if !next {
            if trkFrom == UNSET {
              trkFrom := from;
              from := v;
            }
            if trkTo == UNSET { trkTo := v; }
            next := true;
            r := Some(Span(trkFrom, trkTo));
          }
        case EndOfSheet =>
          trkFrom := from;
          trkTo := 0;
          r := Some(Span(trkFrom, trkTo));
      }
    }
  }

  /** Feeds any tokens to the machine and collects the spans. */
  method ReadTokens(mode: Gap, tokens: seq<Token>) returns (spans: seq<Span>)
    ensures spans == Spans(mode, ZERO, tokens)
    ensures forall k :: 0 <= k < |spans| ==> spans[k].to == 0 || spans[k].from < spans[k].to
  {
    var c := new CueMachine(mode);
    spans := [];
    assert tokens[0..] == tokens;
    for i := 0 to |tokens|
      invariant fresh(c) && c.mode == mode
      invariant forall k :: 0 <= k < |spans| ==> spans[k].to == 0 || spans[k].from < spans[k].to
      invariant spans + Spans(mode, c.State(), tokens[i..]) == Spans(mode, ZERO, tokens)
    {
      SpansStep(mode, c.State(), spans, tokens, i);
      var r := c.Feed(tokens[i]);
      spans := spans + Kept(r);
    }
  }

  lemma SpansStep(mode: Gap, m: Machine, spans: seq<Span>, tokens: seq<Token>, i: nat)
    requires i < |tokens|
    ensures var (m', r) := Take(mode, m, tokens[i]);
      spans + Spans(mode, m, tokens[i..]) == spans + Kept(r) + Spans(mode, m', tokens[i + 1..])
  {
    assert tokens[i..][0] == tokens[i] && tokens[i..][1..] == tokens[i + 1..];
  }

  // ------------------------------------------------------------ what a sheet yields

  lemma {:induction false} Concat(mode: Gap, m: Machine, a: seq<Token>, b: seq<Token>)
    ensures Spans(mode, m, a + b) == Spans(mode, m, a) + Spans(mode, After(mode, m, a), b)
    ensures After(mode, m, a + b) == After(mode, After(mode, m, a), b)
    decreases |a|
  {
    if a == [] {
      assert a + b == b;
    } else {
      assert (a + b)[1..] == a[1..] + b;
      var (m', r) := Take(mode, m, a[0]);
      Concat(mode, m', a[1..], b);
    }
  }

  lemma One(mode: Gap, m: Machine, t: Token, rest: seq<Token>)
    ensures Spans(mode, m, [t] + rest) == Kept(Take(mode, m, t).1) + Spans(mode, Take(mode, m, t).0, rest)
    ensures After(mode, m, [t] + rest) == After(mode, Take(mode, m, t).0, rest)
  {
    assert ([t] + rest)[1..] == rest;
  }

  /** INDEX 02 and later are skipped once the track's INDEX 01 was taken. */
  lemma {:induction false} MoreSkipped(mode: Gap, m: Machine, more: seq<nat>)
    requires !m.first && m.next
    ensures Spans(mode, m, MoreTokens(more)) == [] && After(mode, m, MoreTokens(more)) == m
    decreases |more|
  {
    if more != [] {
      One(mode, m, Index(more[0]), MoreTokens(more[1..]));
      MoreSkipped(mode, m, more[1..]);
    }
  }

  /** Between two tracks: `from` is where the span of track `k` will begin. */
  ghost predicate Ready(mode: Gap, m: Machine, ts: seq<TrackLines>, k: nat) {
    k < |ts| && !m.first && m.from == SpanStart(mode, ts, k)
  }

  /** A new track, nothing known of it yet. */
  ghost predicate Open(m: Machine) { m.trkFrom == m.trkTo == UNSET && !m.next }

  /** The INDEX lines of track `k + 1` complete the span of track `k`. */
  lemma NextIndexes(mode: Gap, m: Machine, ts: seq<TrackLines>, k: nat)
    requires Sheet(ts) && Ready(mode, m, ts, k) && Open(m) && k + 1 < |ts|
    ensures Spans(mode, m, IndexTokens(ts[k+1])) == [ExpectedSpan(mode, ts, k)]
    ensures Ready(mode, After(mode, m, IndexTokens(ts[k+1])), ts, k + 1)
  {
    var t := ts[k+1];
    StartsIncrease(mode, ts, k, k + 1);
    var m1 := if t.gap.Some? then Take(mode, m, Index00(t.gap.value)).0 else m;
    var rest := [Index(t.start)] + MoreTokens(t.more);
    if t.gap.Some? {
      One(mode, m, Index00(t.gap.value), rest);
    } else {
      assert IndexTokens(t) == rest;
    }
    One(mode, m1, Index(t.start), MoreTokens(t.more));
    MoreSkipped(mode, Take(mode, m1, Index(t.start)).0, t.more);
  }

  /** The tracks after `k`, and the end: the spans from `k` on. */
  lemma {:induction false} RestOfSheet(mode: Gap, m: Machine, ts: seq<TrackLines>, k: nat)
    requires Sheet(ts) && Ready(mode, m, ts, k)
    ensures Spans(mode, m, TokensFrom(ts, k + 1)) == ExpectedFrom(mode, ts, k)
    decreases |ts| - k
  {
    if k + 1 == |ts| {
      One(mode, m, EndOfSheet, []);
      assert [EndOfSheet] + [] == [EndOfSheet];
    } else {
      var m1 := Take(mode, m, TrackNum).0;
      One(mode, m, TrackNum, IndexTokens(ts[k+1]) + TokensFrom(ts, k + 2));
      Concat(mode, m1, IndexTokens(ts[k+1]), TokensFrom(ts, k + 2));
      NextIndexes(mode, m1, ts, k);
      RestOfSheet(mode, After(mode, m1, IndexTokens(ts[k+1])), ts, k + 1);
    }
  }

  lemma FileAndTrack(mode: Gap, rest: seq<Token>)
    ensures Spans(mode, ZERO, [File] + ([TrackNum] + rest)) ==
      Spans(mode, Machine(UNSET, UNSET, UNSET, true, false), rest)
  {
    One(mode, ZERO, File, [TrackNum] + rest);
    One(mode, Take(mode, ZERO, File).0, TrackNum, rest);
  }

  lemma GapFirst(mode: Gap, m: Machine, gap: Option<nat>, rest: seq<Token>)
    requires m.first
    ensures var m' := if gap.Some? then Take(mode, m, Index00(gap.value)).0 else m;
      Spans(mode, m, (if gap.Some? then [Index00(gap.value)] else []) + rest) == Spans(mode, m', rest)
  {
    if gap.Some? {
      One(mode, m, Index00(gap.value), rest);
    } else {
      assert [] + rest == rest;
    }
  }

  /** FILE, TRACK and INDEX 00 and 01 of the first track: no span is known yet. */
  lemma FirstTrack(mode: Gap, ts: seq<TrackLines>, rest: seq<Token>) returns (m: Machine)
    requires Sheet(ts)
    ensures Ready(mode, m, ts, 0) && Open(m)
    ensures var gap := if ts[0].gap.Some? then [Index00(ts[0].gap.value)] else [];
      Spans(mode, ZERO, [File] + ([TrackNum] + (gap + ([Index(ts[0].start)] + rest)))) == Spans(mode, m, rest)
  {
    var last := [Index(ts[0].start)] + rest;
    var gap := if ts[0].gap.Some? then [Index00(ts[0].gap.value)] else [];
    var m2 := Machine(UNSET, UNSET, UNSET, true, false);
    var m3 := if ts[0].gap.Some? then Take(mode, m2, Index00(ts[0].gap.value)).0 else m2;
    FileAndTrack(mode, gap + last);
    GapFirst(mode, m2, ts[0].gap, last);
    One(mode, m3, Index(ts[0].start), rest);
    m := Take(mode, m3, Index(ts[0].start)).0;
  }

  /** The tokens of a sheet yield one span per track that the machine sees, none left out, as
      the mode promises. */
  lemma SheetSpans(mode: Gap, ts: seq<TrackLines>)
    requires Sheet(ts)
    ensures Spans(mode, ZERO, Tokens(ts)) == ExpectedFrom(mode, Seen(ts), 0)
  {
    var rest := MoreTokens(ts[0].more) + TokensFrom(ts, 1);
    var m := FirstTrack(mode, ts, rest);
    FirstTokens(ts);
    if ts[0].more == [] {
      assert rest == TokensFrom(ts, 1);
      RestOfSheet(mode, m, ts, 0);
    } else {
      ExtraTrack(mode, m, ts);
    }
  }

  lemma FirstTokens(ts: seq<TrackLines>)
    requires Sheet(ts)
    ensures var gap := if ts[0].gap.Some? then [Index00(ts[0].gap.value)] else [];
      var rest := MoreTokens(ts[0].more) + TokensFrom(ts, 1);
      Tokens(ts) == [File] + ([TrackNum] + (gap + ([Index(ts[0].start)] + rest)))
  {
    Regroup(if ts[0].gap.Some? then [Index00(ts[0].gap.value)] else [], Index(ts[0].start),
      MoreTokens(ts[0].more), TokensFrom(ts, 1));
  }

  lemma Regroup(gap: seq<Token>, t: Token, more: seq<Token>, after: seq<Token>)
    ensures (gap + ([t] + more)) + after == gap + ([t] + (more + after))
  {
  }

  /** An INDEX after 01 in the first track is taken for the start of a track of its own. */
  lemma ExtraTrack(mode: Gap, m: Machine, ts: seq<TrackLines>)
    requires Sheet(ts) && ts[0].more != [] && Ready(mode, m, ts, 0) && Open(m)
    ensures Spans(mode, m, MoreTokens(ts[0].more) + TokensFrom(ts, 1)) == ExpectedFrom(mode, Seen(ts), 0)
  {
    SeenTokens(ts);
    SecondOpen(mode, m, Seen(ts));
  }

  lemma SeenTokens(ts: seq<TrackLines>)
    requires Sheet(ts) && ts[0].more != []
    ensures var seen := Seen(ts);
      && |seen| == |ts| + 1 && seen[0] == ts[0].(more := [])
      && IndexTokens(seen[1]) == MoreTokens(ts[0].more) && TokensFrom(seen, 2) == TokensFrom(ts, 1)
  {
    SameTokens(ts, Seen(ts), 1);
  }

  lemma SecondOpen(mode: Gap, m: Machine, ts: seq<TrackLines>)
    requires Sheet(ts) && |ts| > 1 && Ready(mode, m, ts, 0) && Open(m)
    ensures Spans(mode, m, IndexTokens(ts[1]) + TokensFrom(ts, 2)) == ExpectedFrom(mode, ts, 0)
  {
    Concat(mode, m, IndexTokens(ts[1]), TokensFrom(ts, 2));
    NextIndexes(mode, m, ts, 0);
    RestOfSheet(mode, After(mode, m, IndexTokens(ts[1])), ts, 1);
    ExpectedHead(mode, ts, 0);
  }

  lemma ExpectedHead(mode: Gap, ts: seq<TrackLines>, k: nat)
    requires k < |ts|
    ensures ExpectedFrom(mode, ts, k) == [ExpectedSpan(mode, ts, k)] + ExpectedFrom(mode, ts, k + 1)
  {
  }

  lemma {:induction false} SameTokens(a: seq<TrackLines>, b: seq<TrackLines>, k: nat)
    requires |b| == |a| + 1 && forall j :: k <= j < |a| ==> b[j + 1] == a[j]
    ensures TokensFrom(a, k) == TokensFrom(b, k + 1)
    decreases |a| - k
  {
    if k < |a| {
      SameTokens(a, b, k + 1);
      TokensHead(a, k);
      TokensHead(b, k + 1);
    }
  }

  lemma TokensHead(ts: seq<TrackLines>, k: nat)
    requires k < |ts|
    ensures TokensFrom(ts, k) == [TrackNum] + (IndexTokens(ts[k]) + TokensFrom(ts, k + 1))
  {
  }

  /** Reads a sheet to the end: one span per track that the machine sees, as the mode
      promises; that is one per track of the sheet exactly when the first track has no INDEX
      after 01. */
  method ReadSheet(mode: Gap, ts: seq<TrackLines>) returns (spans: seq<Span>)
    requires Sheet(ts)
    ensures |spans| == |Seen(ts)| && forall k :: 0 <= k < |spans| ==> spans[k] == ExpectedSpan(mode, Seen(ts), k)
    ensures |spans| == |ts| <==> ts[0].more == []
  {
    spans := ReadTokens(mode, Tokens(ts));
    SheetSpans(mode, ts);
  }

  // ------------------------------------------------------------ what the spans cover

  /** Time `t` falls into the span. */
  predicate InSpan(s: Span, t: nat) { s.from <= t && (s.to == 0 || t < s.to) }

  /** Time `t` falls into the gap before track `k`. */
  predicate InGap(ts: seq<TrackLines>, k: nat, t: nat)
    requires k < |ts|
  {
    GapStart(ts[k]) <= t < ts[k].start
  }

  lemma {:induction false} StartsIncrease(mode: Gap, ts: seq<TrackLines>, j: nat, k: nat)
    requires Sheet(ts) && j < k < |ts|
    ensures ts[j].start < GapStart(ts[k]) <= ts[k].start
    ensures SpanStart(mode, ts, j) < SpanEnd(mode, ts, j) <= SpanStart(mode, ts, k)
    decreases k
  {
    if j < k - 1 {
      StartsIncrease(mode, ts, j, k - 1);
      assert ts[k-1].start < GapStart(ts[k]);
    } else {
      assert ts[j].start < GapStart(ts[k]);
    }
  }

  /** No time is in two spans. */
  lemma SpansDisjoint(mode: Gap, ts: seq<TrackLines>, j: nat, k: nat, t: nat)
    requires Sheet(ts) && j < k < |ts|
    ensures !(InSpan(ExpectedSpan(mode, ts, j), t) && InSpan(ExpectedSpan(mode, ts, k), t))
  {
    StartsIncrease(mode, ts, j, k);
  }

  /** The last track whose span starts at or before `t`, among the first `k + 1`. */
  ghost function LastStart(mode: Gap, ts: seq<TrackLines>, k: nat, t: nat): nat
    requires k < |ts| && SpanStart(mode, ts, 0) <= t
    ensures LastStart(mode, ts, k, t) <= k && SpanStart(mode, ts, LastStart(mode, ts, k, t)) <= t
    ensures LastStart(mode, ts, k, t) < k ==> t < SpanStart(mode, ts, LastStart(mode, ts, k, t) + 1)
  {
    if k == 0 then 0 else if SpanStart(mode, ts, k) <= t then k else LastStart(mode, ts, k - 1, t)
  }

  /** From the start of the first span on, the spans tile the audio: with `Prev`, `Prev1` and
      `Curr` every time is in exactly one span; with `Skip` exactly the gaps are left out. */
  lemma SpansTile(mode: Gap, ts: seq<TrackLines>, t: nat) returns (k: nat)
    requires Sheet(ts) && t >= SpanStart(mode, ts, 0)
    ensures k < |ts|
    ensures !mode.Skip? ==> InSpan(ExpectedSpan(mode, ts, k), t)
    ensures mode.Skip? ==> (InSpan(ExpectedSpan(mode, ts, k), t) <==> forall j :: 0 < j < |ts| ==> !InGap(ts, j, t))
    ensures forall j :: 0 <= j < |ts| && j != k ==> !InSpan(ExpectedSpan(mode, ts, j), t)
  {
    k := LastStart(mode, ts, |ts| - 1, t);
    forall j | 0 <= j < |ts| && j != k ensures !InSpan(ExpectedSpan(mode, ts, j), t) {
      if j < k { StartsIncrease(mode, ts, j, k); } else { LaterStarts(mode, ts, k, j, t); }
    }
    if mode.Skip? {
      if k + 1 < |ts| && t >= GapStart(ts[k+1]) {
        assert InGap(ts, k + 1, t);
      } else {
        forall j | 0 < j < |ts| ensures !InGap(ts, j, t) {
          if j > k + 1 {
            StartsIncrease(mode, ts, k + 1, j);
          } else if j <= k && j > 0 && j < k {
            StartsIncrease(mode, ts, j, k);
          }
        }
      }
    }
  }

  /** The audio of track `k` itself: from its INDEX 01 to where the gap before the next begins. */
  ghost predicate InTrack(ts: seq<TrackLines>, k: nat, t: nat) {
    k < |ts| && ts[k].start <= t && (k + 1 < |ts| ==> t < GapStart(ts[k+1]))
  }

  /** In every mode it is in the span of the track, and in no other. */
  lemma TrackGoesTo(mode: Gap, ts: seq<TrackLines>, k: nat, t: nat)
    requires Sheet(ts) && InTrack(ts, k, t)
    ensures forall j :: 0 <= j < |ts| ==> (InSpan(ExpectedSpan(mode, ts, j), t) <==> j == k)
  {
    forall j | 0 <= j < |ts| ensures InSpan(ExpectedSpan(mode, ts, j), t) <==> j == k {
      if j < k { StartsIncrease(mode, ts, j, k); }
      if j > k { StartsIncrease(mode, ts, k, j); }
    }
  }

  /** The gap before a track goes to the track before, to the track itself, or to none; the one
      before the first track, which has no track before, to the first or to none. */
  lemma GapGoesTo(mode: Gap, ts: seq<TrackLines>, k: nat, t: nat)
    requires Sheet(ts) && k < |ts| && InGap(ts, k, t)
    ensures forall j :: 0 <= j < |ts| ==> (InSpan(ExpectedSpan(mode, ts, j), t) <==>
      match mode
      case Prev => j == k - 1
      case Prev1 => j == k - 1 || (j == 0 && k == 0)
      case Curr => j == k
      case Skip => false)
  {
    forall j | 0 <= j < |ts| && j != k ensures InSpan(ExpectedSpan(mode, ts, j), t) <==>
      j == k - 1 && (mode.Prev? || mode.Prev1?)
    {
      if j < k { BeforeGap(mode, ts, j, k); } else { StartsIncrease(mode, ts, k, j); }
    }
  }

  lemma BeforeGap(mode: Gap, ts: seq<TrackLines>, j: nat, k: nat)
    requires Sheet(ts) && j < k < |ts|
    ensures SpanStart(mode, ts, j) < GapStart(ts[k]) && 0 < SpanEnd(mode, ts, j)
    ensures j + 1 < k ==> SpanEnd(mode, ts, j) < GapStart(ts[k])
  {
    StartsIncrease(mode, ts, j, k);
    StartsIncrease(mode, ts, j, j + 1);
    if j + 1 < k { StartsIncrease(mode, ts, j + 1, k); }
  }

  lemma LaterStarts(mode: Gap, ts: seq<TrackLines>, k: nat, j: nat, t: nat)
    requires Sheet(ts) && k < j < |ts| && k + 1 < |ts| && t < SpanStart(mode, ts, k + 1)
    ensures t < SpanStart(mode, ts, j)
  {
    if j > k + 1 { StartsIncrease(mode, ts, k + 1, j); }
  }
}
