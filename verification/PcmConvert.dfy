/** Conversion of a block of samples between formats and between interleaved and planar
    layouts, for equal channel counts. */
module PcmConvert {
  import opened Common
  import opened PcmFormats

  /** Samples of all channels in turn, or one buffer for every channel. */
  datatype Block = Interleaved(data: seq<int>) | Planar(chans: seq<seq<int>>)

  // ------------------------------------------------------------ addresses

  /** Row `i`, column `c` of a table with rows of `n`. */
  function Slot(i: nat, n: nat, c: nat): nat { i * n + c }

  lemma SlotBound(i: nat, n: nat, c: nat, rows: nat)
    requires c < n && i < rows
    ensures Slot(i, n, c) < rows * n
  {
    assert (i + 1) * n <= rows * n;
  }

  lemma SlotUnique(i: nat, n: nat, c: nat, j: nat, d: nat)
    requires c < n && d < n && Slot(i, n, c) == Slot(j, n, d)
    ensures i == j && c == d
  {
    assert i < j ==> (i + 1) * n <= j * n;
    assert j < i ==> (j + 1) * n <= i * n;
  }

  /** The block holds so many samples of so many channels. */
  ghost predicate Holds(b: Block, nch: nat, count: nat) {
    match b
    case Interleaved(data) => count * nch <= |data|
    case Planar(chans) => nch <= |chans| && forall c :: 0 <= c < nch ==> count <= |chans[c]|
  }

  function Sample(b: Block, nch: nat, count: nat, ch: nat, i: nat): int
    requires Holds(b, nch, count) && ch < nch && i < count
  {
    match b
    case Interleaved(data) => SlotBound(i, nch, ch, count); data[Slot(i, nch, ch)]
    case Planar(chans) => chans[ch][i]
  }

  /** Output: room for `region` samples of every channel, interleaved or one region after
      the other. */
  datatype Layout = Layout(interleaved: bool, nch: nat, region: nat)

  function Size(l: Layout): nat { l.region * l.nch }

  function Place(l: Layout, ch: nat, i: nat): (r: nat)
    requires ch < l.nch && i < l.region
    ensures r < Size(l)
  {
    SlotBound(i, l.nch, ch, l.region);
    SlotBound(ch, l.region, i, l.nch);
    if l.interleaved then Slot(i, l.nch, ch) else Slot(ch, l.region, i)
  }

  lemma PlacesApart(l: Layout, ch: nat, i: nat, d: nat, j: nat)
    requires ch < l.nch && i < l.region && d < l.nch && j < l.region && Place(l, ch, i) == Place(l, d, j)
    ensures ch == d && i == j
  {
    if l.interleaved { SlotUnique(i, l.nch, ch, j, d); } else { SlotUnique(ch, l.region, i, d, j); }
  }

  lemma AllApart(l: Layout)
    ensures forall ch: nat, i: nat, d: nat, j: nat ::
      ch < l.nch && i < l.region && d < l.nch && j < l.region && (ch != d || i != j) ==>
      Place(l, ch, i) != Place(l, d, j)
  {
    forall ch: nat, i: nat, d: nat, j: nat |
      ch < l.nch && i < l.region && d < l.nch && j < l.region && (ch != d || i != j)
      ensures Place(l, ch, i) != Place(l, d, j)
    {
      if Place(l, ch, i) == Place(l, d, j) { PlacesApart(l, ch, i, d, j); }
    }
  }

  // ------------------------------------------------------------ what a conversion makes

  /** One sample converted; equal formats are copied. */
  function Value(from: Format, to: Format, x: int): (y: int)
    ensures from == to ==> y == x
    ensures from != to && Supported(from, to) ==> Convert(from, to, x) == Some(y)
  {
    if from == to then x else match Convert(from, to, x) case Some(y) => y case None => 0
  }

  /** Channel `ch` of the output holds its first `n` samples, converted. */
  ghost predicate ChannelDone(out: seq<int>, l: Layout, from: Format, to: Format, b: Block, count: nat, ch: nat, n: nat)
    requires |out| == Size(l) && Holds(b, l.nch, count) && n <= count <= l.region && ch < l.nch
  {
    forall i: nat :: i < n ==> out[Place(l, ch, i)] == Value(from, to, Sample(b, l.nch, count, ch, i))
  }

  ghost predicate FirstDone(out: seq<int>, l: Layout, from: Format, to: Format, b: Block, count: nat, n: nat)
    requires |out| == Size(l) && Holds(b, l.nch, count) && count <= l.region && n <= l.nch
  {
    forall ch: nat :: ch < n ==> ChannelDone(out, l, from, to, b, count, ch, count)
  }

  /** Every sample of every channel has been converted. */
  ghost predicate AllDone(out: seq<int>, l: Layout, from: Format, to: Format, b: Block, count: nat)
    requires |out| == Size(l) && Holds(b, l.nch, count) && count <= l.region
  {
    FirstDone(out, l, from, to, b, count, l.nch)
  }

  /** One more channel done, the others left alone. */
  lemma NextDone(was: seq<int>, out: seq<int>, l: Layout, from: Format, to: Format, b: Block, count: nat, ch: nat)
    requires |was| == |out| == Size(l) && Holds(b, l.nch, count) && count <= l.region && ch < l.nch
    requires FirstDone(was, l, from, to, b, count, ch) && ChannelDone(out, l, from, to, b, count, ch, count)
    requires forall c: nat, i: nat :: c < l.nch && c != ch && i < l.region ==>
      out[Place(l, c, i)] == was[Place(l, c, i)]
    ensures FirstDone(out, l, from, to, b, count, ch + 1)
  {
    forall c: nat | c < ch ensures ChannelDone(out, l, from, to, b, count, c, count) {
      assert ChannelDone(was, l, from, to, b, count, c, count);
    }
  }

  // ------------------------------------------------------------ the strided loops

  method ConvertChannel(out: array<int>, l: Layout, from: Format, to: Format, b: Block, count: nat, ch: nat)
    requires out.Length == Size(l) && Holds(b, l.nch, count) && count <= l.region && ch < l.nch
    modifies out
    ensures ChannelDone(out[..], l, from, to, b, count, ch, count)
    ensures forall c: nat, i: nat :: c < l.nch && c != ch && i < l.region ==>
      out[Place(l, c, i)] == old(out[Place(l, c, i)])
  {
    AllApart(l);
    for i := 0 to count
      invariant ChannelDone(out[..], l, from, to, b, count, ch, i)
      invariant forall c: nat, i: nat :: c < l.nch && c != ch && i < l.region ==>
        out[Place(l, c, i)] == old(out[Place(l, c, i)])
    {
      out[Place(l, ch, i)] := Value(from, to, Sample(b, l.nch, count, ch, i));
    }
  }

  method ConvertChannels(out: array<int>, l: Layout, from: Format, to: Format, b: Block, count: nat)
    requires out.Length == Size(l) && Holds(b, l.nch, count) && count <= l.region
    modifies out
    ensures AllDone(out[..], l, from, to, b, count)
  {
    for ch := 0 to l.nch
      invariant FirstDone(out[..], l, from, to, b, count, ch)
    {
      ghost var was := out[..];
      ConvertChannel(out, l, from, to, b, count, ch);
      NextDone(was, out[..], l, from, to, b, count, ch);
    }
  }

  // ------------------------------------------------------------ the direct copy

  method CopyTo(out: array<int>, at: nat, data: seq<int>, n: nat)
    requires n <= |data| && at + n <= out.Length
    modifies out
    ensures forall k :: 0 <= k < out.Length ==> out[k] == if at <= k < at + n then data[k - at] else old(out[k])
  {
    for k := 0 to n
      invariant forall j :: 0 <= j < out.Length ==> out[j] == if at <= j < at + k then data[j - at] else old(out[j])
    {
      out[at + k] := data[k];
    }
  }

  /** Interleaved to interleaved: one copy. */
  method CopyFlat(out: array<int>, l: Layout, f: Format, data: seq<int>, count: nat)
    requires l.interleaved && out.Length == Size(l) && Holds(Interleaved(data), l.nch, count) && count <= l.region
    modifies out
    ensures AllDone(out[..], l, f, f, Interleaved(data), count)
  {
    var n := count * l.nch;
    assert n <= out.Length by { assert count * l.nch <= l.region * l.nch; }
    CopyTo(out, 0, data, n);
    FlatIsDone(out[..], l, f, data, count);
  }

  lemma FlatIsDone(out: seq<int>, l: Layout, f: Format, data: seq<int>, count: nat)
    requires l.interleaved && |out| == Size(l) && Holds(Interleaved(data), l.nch, count) && count <= l.region
    requires count * l.nch <= |out| && forall j :: 0 <= j < count * l.nch ==> out[j] == data[j]
    ensures AllDone(out, l, f, f, Interleaved(data), count)
  {
    forall ch: nat, i: nat | ch < l.nch && i < count
      ensures out[Place(l, ch, i)] == Sample(Interleaved(data), l.nch, count, ch, i)
    {
      SlotBound(i, l.nch, ch, count);
    }
  }

  /** Planar to planar: one copy for every channel. */
  method CopyPlanes(out: array<int>, l: Layout, f: Format, chans: seq<seq<int>>, count: nat)
    requires !l.interleaved && out.Length == Size(l) && Holds(Planar(chans), l.nch, count) && count <= l.region
    modifies out
    ensures AllDone(out[..], l, f, f, Planar(chans), count)
  {
    for ch := 0 to l.nch
      invariant FirstDone(out[..], l, f, f, Planar(chans), count, ch)
    {
      ghost var was := out[..];
      var at := ch * l.region;
      assert at + count <= out.Length by { assert (ch + 1) * l.region <= l.nch * l.region; }
      CopyTo(out, at, chans[ch], count);
      PlaneCopied(was, out[..], l, f, chans, count, ch);
    }
  }

  lemma PlaneCopied(was: seq<int>, out: seq<int>, l: Layout, f: Format, chans: seq<seq<int>>, count: nat, ch: nat)
    requires !l.interleaved && |was| == |out| == Size(l) && ch < l.nch
    requires Holds(Planar(chans), l.nch, count) && count <= l.region
    requires FirstDone(was, l, f, f, Planar(chans), count, ch)
    requires var at := ch * l.region;
      forall k :: 0 <= k < |out| ==> out[k] == if at <= k < at + count then chans[ch][k - at] else was[k]
    ensures FirstDone(out, l, f, f, Planar(chans), count, ch + 1)
  {
    forall c: nat, i: nat | c < l.nch && c != ch && i < l.region ensures out[Place(l, c, i)] == was[Place(l, c, i)] {
      Apart(c, ch, l.region, i);
    }
    NextDone(was, out, l, f, f, Planar(chans), count, ch);
  }

  lemma Apart(c: nat, ch: nat, region: nat, i: nat)
    requires c != ch && i < region
    ensures c * region + i < ch * region || ch * region + region <= c * region + i
  {
    assert c < ch ==> (c + 1) * region <= ch * region;
    assert ch < c ==> (ch + 1) * region <= c * region;
  }

  // ------------------------------------------------------------ a block

  /** Which conversions exist: equal formats always, if the layouts agree or there is just
      one channel; all others by the table of pairs. */
  predicate Convertible(from: Format, to: Format, interleaved: bool, l: Layout) {
    l.nch <= 8 && (Supported(from, to) || (from == to && (interleaved == l.interleaved || l.nch == 1)))
  }

  /** One channel is the same in both layouts. */
  function Relaid(b: Block): Block
    requires Holds(b, 1, 0)
  {
    match b case Interleaved(data) => Planar([data]) case Planar(chans) => Interleaved(chans[0])
  }

  lemma RelaidSame(b: Block, count: nat)
    requires Holds(b, 1, count)
    ensures Holds(Relaid(b), 1, count)
    ensures forall i: nat :: i < count ==> Sample(Relaid(b), 1, count, 0, i) == Sample(b, 1, count, 0, i)
  {
  }

  lemma RelaidDone(out: seq<int>, l: Layout, f: Format, b: Block, count: nat)
    requires l.nch == 1 && |out| == Size(l) && Holds(b, 1, count) && Holds(Relaid(b), 1, count) && count <= l.region
    requires AllDone(out, l, f, f, Relaid(b), count)
    ensures AllDone(out, l, f, f, b, count)
  {
    RelaidSame(b, count);
    assert ChannelDone(out, l, f, f, Relaid(b), count, 0, count);
  }

  /** Same format: true if the samples could be copied as they are. */
  method CopyDirect(out: array<int>, l: Layout, f: Format, b: Block, count: nat) returns (ok: bool)
    requires out.Length == Size(l) && Holds(b, l.nch, count) && count <= l.region
    modifies out
    ensures ok == (b.Interleaved? == l.interleaved || l.nch == 1)
    ensures ok ==> AllDone(out[..], l, f, f, b, count)
    ensures !ok ==> out[..] == old(out[..])
  {
    ok := true;
    if b.Interleaved? != l.interleaved && l.nch == 1 {
      RelaidSame(b, count);
      CopySame(out, l, f, Relaid(b), count);
      RelaidDone(out[..], l, f, b, count);
    } else if b.Interleaved? == l.interleaved {
      CopySame(out, l, f, b, count);
    } else {
      ok := false;
    }
  }

  method CopySame(out: array<int>, l: Layout, f: Format, b: Block, count: nat)
    requires out.Length == Size(l) && Holds(b, l.nch, count) && count <= l.region && b.Interleaved? == l.interleaved
    modifies out
    ensures AllDone(out[..], l, f, f, b, count)
  {
    match b
    case Interleaved(data) => CopyFlat(out, l, f, data, count);
    case Planar(chans) => CopyPlanes(out, l, f, chans, count);
  }

  lemma EachDone(out: seq<int>, l: Layout, from: Format, to: Format, b: Block, count: nat)
    requires |out| == Size(l) && Holds(b, l.nch, count) && count <= l.region
    requires (from == to || Supported(from, to)) && AllDone(out, l, from, to, b, count)
    ensures forall ch: nat, i: nat :: ch < l.nch && i < count ==>
      var x, y := Sample(b, l.nch, count, ch, i), out[Place(l, ch, i)];
      if from == to then y == x else Convert(from, to, x) == Some(y)
  {
    forall ch: nat, i: nat | ch < l.nch && i < count
      ensures out[Place(l, ch, i)] == Value(from, to, Sample(b, l.nch, count, ch, i))
    {
      assert ChannelDone(out, l, from, to, b, count, ch, count);
    }
  }

  method ConvertBlock(out: array<int>, l: Layout, from: Format, to: Format, b: Block, count: nat) returns (ok: bool)
    requires out.Length == Size(l) && Holds(b, l.nch, count) && count <= l.region
    modifies out
    ensures ok == Convertible(from, to, b.Interleaved?, l)
    ensures ok ==> l.nch <= 8 && (from == to || Supported(from, to))
    ensures l.nch <= 8 && from == to && (b.Interleaved? == l.interleaved || l.nch == 1) ==> ok
    ensures l.nch <= 8 && Supported(from, to) ==> ok
    ensures ok ==> AllDone(out[..], l, from, to, b, count)
    ensures ok ==> forall ch: nat, i: nat :: ch < l.nch && i < count ==>
      var x, y := Sample(b, l.nch, count, ch, i), out[Place(l, ch, i)];
      if from == to then y == x else Convert(from, to, x) == Some(y)
    ensures !ok ==> out[..] == old(out[..])
  {
    if l.nch > 8 { return false; }
    if from == to {
      ok := CopyDirect(out, l, from, b, count);
      if ok {
        EachDone(out[..], l, from, to, b, count);
        return;
      }
    }
    if !Supported(from, to) { return false; }
    ConvertChannels(out, l, from, to, b, count);
    EachDone(out[..], l, from, to, b, count);
    ok := true;
  }
}
