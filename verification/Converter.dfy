/** The conversion filter: takes blocks of any size and hands on as much at a time as its
    buffer holds. */
module Converter {
  import opened Common
  import opened PcmFormats
  import opened PcmConvert

  datatype Code = Data | More | Done

  /** What the filter is given: a block and the number of samples per channel in it. */
  datatype Input = Input(block: Block, count: nat)

  ghost predicate Whole(x: Input, nch: nat, interleaved: bool) {
    Holds(x.block, nch, x.count) && x.block.Interleaved? == interleaved
  }

  /** One channel of a block. */
  ghost function Channel(x: Input, nch: nat, ch: nat): (r: seq<int>)
    requires Holds(x.block, nch, x.count) && ch < nch
  {
    seq(x.count, i requires 0 <= i < x.count => Sample(x.block, nch, x.count, ch, i))
  }

  /** Sample by sample. */
  ghost function Converted(from: Format, to: Format, s: seq<int>): (r: seq<int>) {
    seq(|s|, i requires 0 <= i < |s| => Value(from, to, s[i]))
  }

  lemma ConvertedSplit(from: Format, to: Format, a: seq<int>, b: seq<int>)
    ensures Converted(from, to, a + b) == Converted(from, to, a) + Converted(from, to, b)
  {
  }

  lemma ConvertedParts(from: Format, to: Format, s: seq<int>, n: nat)
    requires n <= |s|
    ensures Converted(from, to, s[..n]) + Converted(from, to, s[n..]) == Converted(from, to, s)
  {
    ConvertedSplit(from, to, s[..n], s[n..]);
    assert s[..n] + s[n..] == s;
  }

  /** The block from sample `off` on. */
  function Skip(b: Block, nch: nat, off: nat): Block
    requires Holds(b, nch, off)
  {
    match b
    case Interleaved(data) => Interleaved(data[off * nch..])
    case Planar(chans) => Planar(seq(nch, c requires 0 <= c < nch => chans[c][off..]))
  }

  lemma SkipHolds(b: Block, nch: nat, off: nat, n: nat)
    requires Holds(b, nch, off + n)
    ensures Holds(b, nch, off) && Holds(Skip(b, nch, off), nch, n)
  {
    assert (off + n) * nch == off * nch + n * nch;
  }

  lemma SkipSample(b: Block, nch: nat, off: nat, n: nat, ch: nat, i: nat)
    requires Holds(b, nch, off + n) && ch < nch && i < n
    ensures Holds(b, nch, off) && Holds(Skip(b, nch, off), nch, n)
    ensures Sample(Skip(b, nch, off), nch, n, ch, i) == Sample(b, nch, off + n, ch, off + i)
  {
    SkipHolds(b, nch, off, n);
    assert (off + i) * nch == off * nch + i * nch;
    if b.Interleaved? { SlotBound(i, nch, ch, n); }
  }

  lemma HoldsFewer(b: Block, nch: nat, n: nat, m: nat)
    requires Holds(b, nch, n) && m <= n
    ensures Holds(b, nch, m)
  {
    assert m * nch <= n * nch;
  }

  /** One channel of the samples in the output buffer. */
  ghost function Filled(out: seq<int>, l: Layout, count: nat, ch: nat): seq<int>
    requires |out| == Size(l) && count <= l.region && ch < l.nch
  {
    seq(count, i requires 0 <= i < count => out[Place(l, ch, i)])
  }

  /** A converted part of a block is that part of each channel, converted. */
  lemma PartDone(out: seq<int>, l: Layout, from: Format, to: Format, x: Input, off: nat, n: nat, ch: nat)
    requires |out| == Size(l) && n <= l.region && ch < l.nch && off + n <= x.count && Holds(x.block, l.nch, x.count)
    requires Holds(x.block, l.nch, off) && Holds(Skip(x.block, l.nch, off), l.nch, n)
    requires AllDone(out, l, from, to, Skip(x.block, l.nch, off), n)
    ensures Filled(out, l, n, ch) == Converted(from, to, Channel(x, l.nch, ch)[off..off + n])
  {
    HoldsFewer(x.block, l.nch, x.count, off + n);
    var part := Channel(x, l.nch, ch)[off..off + n];
    assert ChannelDone(out, l, from, to, Skip(x.block, l.nch, off), n, ch, n);
    forall i: nat | i < n ensures out[Place(l, ch, i)] == Value(from, to, part[i]) {
      SkipSample(x.block, l.nch, off, n, ch, i);
      SameSample(x.block, l.nch, off + n, x.count, ch, off + i);
    }
  }

  lemma SameSample(b: Block, nch: nat, n: nat, m: nat, ch: nat, i: nat)
    requires Holds(b, nch, n) && Holds(b, nch, m) && ch < nch && i < n && i < m
    ensures Sample(b, nch, n, ch, i) == Sample(b, nch, m, ch, i)
  {
  }

  class Converter {
    const from: Format
    const to: Format
    const interleaved: bool
    const l: Layout
    var src: Block
    var off: nat
    var left: nat
    const buf: array<int>
    var count: nat

    /** Made only for conversions that exist. */
    constructor (from: Format, to: Format, interleaved: bool, l: Layout)
      requires Convertible(from, to, interleaved, l)
      ensures Valid() && left == 0 && count == 0 && fresh(buf)
      ensures this.from == from && this.to == to && this.interleaved == interleaved && this.l == l
    {
      this.from, this.to, this.interleaved, this.l := from, to, interleaved, l;
      src := if interleaved then Interleaved([]) else Planar(seq(l.nch, c => []));
      off, left, count := 0, 0, 0;
      buf := new int[Size(l)];
    }

    ghost predicate Valid()
      reads this
    {
      && buf.Length == Size(l) && count <= l.region && Convertible(from, to, interleaved, l)
      && Holds(src, l.nch, off + left) && src.Interleaved? == interleaved
    }

    /** What has been taken in and not yet handed on. */
    ghost function Pending(ch: nat): seq<int>
      requires Valid() && ch < l.nch
      reads this
    {
      Channel(Input(src, off + left), l.nch, ch)[off..]
    }

    /** What the filter hands on. */
    ghost function Out(ch: nat): seq<int>
      requires Valid() && ch < l.nch
      reads this, buf
    {
      Filled(buf[..], l, count, ch)
    }

    method Take(x: Input)
      requires Valid() && Whole(x, l.nch, interleaved)
      modifies this
      ensures Valid() && count == old(count)
      ensures forall ch: nat :: ch < l.nch ==> Pending(ch) == Channel(x, l.nch, ch)
    {
      src, left, off := x.block, x.count, 0;
    }

    /** Converts what is there, as far as the buffer goes. */
    method Convert(first: bool) returns (r: Code)
      requires Valid()
      modifies this, buf
      ensures Valid() && src == old(src) && off + left == old(off + left) && left <= old(left)
      ensures r == Data ==> left < old(left) && count == old(left) - left == Min(old(left), l.region)
      ensures r == Data ==> forall ch: nat :: ch < l.nch ==>
        Pending(ch) == old(Pending(ch))[count..] && Out(ch) == Converted(from, to, old(Pending(ch))[..count])
      ensures r != Data ==> left == old(left) && (left == 0 || l.region == 0) && (r == Done <==> first)
    {
      var n := Min(left, l.region);
      if n == 0 {
        return if first then Done else More;
      }
      Fill(n);
      count, left, off := n, left - n, off + n;
      r := Data;
    }

    /** Converts the next `n` samples into the buffer. */
    method Fill(n: nat)
      requires Valid() && n <= left && n <= l.region
      modifies buf
      ensures forall ch: nat :: ch < l.nch ==> Filled(buf[..], l, n, ch) == Converted(from, to, old(Pending(ch))[..n])
    {
      HoldsFewer(src, l.nch, off + left, off + n);
      SkipHolds(src, l.nch, off, n);
      var ok := ConvertBlock(buf, l, from, to, Skip(src, l.nch, off), n);
      forall ch: nat | ch < l.nch ensures Filled(buf[..], l, n, ch) == Converted(from, to, old(Pending(ch))[..n]) {
        PartDone(buf[..], l, from, to, Input(src, off + left), off, n, ch);
        assert old(Pending(ch))[..n] == Channel(Input(src, off + left), l.nch, ch)[off..off + n];
      }
    }

    /** One call of the filter, with a new block or to go on with the last one. */
    method Process(x: Option<Input>, first: bool) returns (r: Code)
      requires Valid() && (x.Some? ==> Whole(x.value, l.nch, interleaved))
      modifies this, buf
      ensures Valid() && (x.None? ==> left <= old(left) && (r == Data ==> left < old(left)))
      ensures forall ch: nat :: ch < l.nch ==>
        var had := if x.Some? then Channel(x.value, l.nch, ch) else old(Pending(ch));
        if r == Data then
          0 < count <= |had| && Pending(ch) == had[count..] && Out(ch) == Converted(from, to, had[..count])
        else Pending(ch) == had && (had == [] || l.region == 0) && (r == Done <==> first)
    {
      if x.Some? { Take(x.value); }
      r := Convert(first);
    }

    /** The samples handed on, of one channel. */
    method Read(ch: nat) returns (s: seq<int>)
      requires Valid() && ch < l.nch
      ensures s == Out(ch)
    {
      s := [];
      for i := 0 to count
        invariant s == Out(ch)[..i]
      {
        s := s + [buf[Place(l, ch, i)]];
      }
    }
  }

  // ------------------------------------------------------------ a whole stream

  /** The filter is called with a block, and again until it asks for more; the output of one
      channel is collected. */
  method Drain(c: Converter, x: Option<Input>, ch: nat) returns (s: seq<int>)
    requires c.Valid() && (x.Some? ==> Whole(x.value, c.l.nch, c.interleaved)) && ch < c.l.nch
    modifies c, c.buf
    ensures c.Valid()
    ensures var had := if x.Some? then Channel(x.value, c.l.nch, ch) else old(c.Pending(ch));
      s == if c.l.region == 0 then [] else Converted(c.from, c.to, had)
    decreases x.Some?, c.left
  {
    ghost var had := if x.Some? then Channel(x.value, c.l.nch, ch) else c.Pending(ch);
    var r := c.Process(x, false);
    if r != Data { return []; }
    ghost var n := c.count;
    var part := c.Read(ch);
    var rest := Drain(c, None, ch);
    s := part + rest;
    ConvertedParts(c.from, c.to, had, n);
  }

  /** One channel of all blocks. */
  ghost function Joined(blocks: seq<Input>, nch: nat, ch: nat): seq<int>
    requires ch < nch && forall k :: 0 <= k < |blocks| ==> Holds(blocks[k].block, nch, blocks[k].count)
  {
    if blocks == [] then [] else Joined(blocks[..|blocks|-1], nch, ch) + Channel(blocks[|blocks|-1], nch, ch)
  }

  /** That is: each block's samples after those of the blocks before it. */
  lemma {:induction false} JoinedParts(blocks: seq<Input>, nch: nat, ch: nat, k: nat)
    requires ch < nch && k < |blocks| && forall j :: 0 <= j < |blocks| ==> Holds(blocks[j].block, nch, blocks[j].count)
    ensures var all, at := Joined(blocks, nch, ch), |Joined(blocks[..k], nch, ch)|;
      at + blocks[k].count <= |all| && all[at..at + blocks[k].count] == Channel(blocks[k], nch, ch)
    decreases |blocks|
  {
    var n := |blocks| - 1;
    if k < n {
      JoinedParts(blocks[..n], nch, ch, k);
      assert blocks[..n][..k] == blocks[..k];
    }
  }

  /** However the input is cut into blocks and however little fits the buffer (but something
      must), every channel comes out as if converted in one go. */
  method ConvertStream(from: Format, to: Format, interleaved: bool, l: Layout, blocks: seq<Input>, ch: nat)
    returns (out: Option<seq<int>>)
    requires ch < l.nch
    requires forall k :: 0 <= k < |blocks| ==>
      Holds(blocks[k].block, l.nch, blocks[k].count) && blocks[k].block.Interleaved? == interleaved
    ensures out.Some? <==> Convertible(from, to, interleaved, l)
    ensures out.Some? ==> out.value == if l.region == 0 then [] else Converted(from, to, Joined(blocks, l.nch, ch))
    ensures out.Some? && l.region > 0 ==> var given := Joined(blocks, l.nch, ch);
      && |out.value| == |given|
      && forall i :: 0 <= i < |given| ==>
          if from == to then out.value[i] == given[i] else Convert(from, to, given[i]) == Some(out.value[i])
  {
    if !Convertible(from, to, interleaved, l) { return None; }
    var c := new Converter(from, to, interleaved, l);
    var s: seq<int> := [];
    for k := 0 to |blocks|
      invariant c.Valid() && fresh(c) && fresh(c.buf)
      invariant c.from == from && c.to == to && c.interleaved == interleaved && c.l == l
      invariant s == if l.region == 0 then [] else Converted(from, to, Joined(blocks[..k], l.nch, ch))
    {
      var t := Drain(c, Some(blocks[k]), ch);
      s := s + t;
      assert blocks[..k + 1][..k] == blocks[..k];
      ConvertedSplit(from, to, Joined(blocks[..k], l.nch, ch), Channel(blocks[k], l.nch, ch));
    }
    assert blocks[..|blocks|] == blocks;
    out := Some(s);
  }
}
