/** The read cache of the file reader: aligned blocks of a fixed file are kept in a few
    buffers, and the reader must not be able to tell. */
module FileRead {
  import opened Common

  const ALIGN := 4096

  /** Offset of a buffer that was never filled. */
  const UNSET := 0xFFFF_FFFF_FFFF_FFFF

  function AlignFloor(off: nat): (r: nat)
    ensures r <= off < r + ALIGN && r % ALIGN == 0
  {
    off / ALIGN * ALIGN
  }

  /** What the kernel reads at an offset: all the bytes asked for that the file has. */
  function ReadAt(file: Bytes, off: nat, n: nat): (r: Bytes)
    ensures |r| <= n
    ensures r == if off < |file| then file[off..Min(off + n, |file|)] else []
  {
    if off < |file| then file[off..Min(off + n, |file|)] else []
  }

  datatype Buf = Buf(data: Bytes, off: nat)

  predicate Inside(b: Buf, off: nat) { b.off <= off < b.off + |b.data| }

  datatype Code = Data | Done

  class FileReader {
    const file: Bytes
    const cap: nat
    var offCur: nat
    var eof: bool
    var bufs: seq<Buf>
    var idx: nat
    var hits: nat
    var misses: nat

    constructor (file: Bytes, cap: nat)
      ensures this.file == file && this.cap == cap && Valid() && offCur == 0 && !eof
    {
      this.file, this.cap := file, cap;
      offCur, eof, idx, hits, misses := 0, false, 0, 0, 0;
      bufs := [Buf([], UNSET), Buf([], UNSET)];
    }

    /** A buffer is unused or holds what the kernel reads at its aligned offset. */
    ghost predicate GoodBuf(b: Buf) {
      b.data == [] || (b.off % ALIGN == 0 && b.data == ReadAt(file, b.off, cap))
    }

    ghost predicate Valid()
      reads this
    {
      |bufs| == 2 && idx < 2 && forall k :: 0 <= k < |bufs| ==> GoodBuf(bufs[k])
    }

    /** First buffer with the byte at `off`. */
    method Find(off: nat) returns (k: Option<nat>)
      modifies this`hits, this`misses
      ensures k.Some? ==> k.value < |bufs| && Inside(bufs[k.value], off)
      ensures k.None? ==> forall j :: 0 <= j < |bufs| ==> !Inside(bufs[j], off)
      ensures hits == old(hits) + (if k.Some? then 1 else 0) && misses == old(misses) + if k.None? then 1 else 0
    {
      var i := 0;
      while i < |bufs|
        invariant 0 <= i <= |bufs| && hits == old(hits) && misses == old(misses)
        invariant forall j :: 0 <= j < i ==> !Inside(bufs[j], off)
      {
        if Inside(bufs[i], off) {
          hits := hits + 1;
          return Some(i);
        }
        i := i + 1;
      }
      misses := misses + 1;
      k := None;
    }

    /** The buffer to fill next: they are used in turn. */
    method NextBuf() returns (k: nat)
      requires Valid()
      modifies this`idx
      ensures Valid() && k == old(idx) && idx == (k + 1) % 2
    {
      k := idx;
      idx := (idx + 1) % |bufs|;
    }

    /** A buffer that serves `off`: a cached one, or the next one after reading the block. */
    method Fetch(off: nat) returns (b: Buf)
      requires Valid()
      modifies this`hits, this`misses, this`idx, this`bufs
      ensures Valid() && b.off <= off && b.off % ALIGN == 0 && b.data == ReadAt(file, b.off, cap)
      ensures b.off == AlignFloor(off) || off < b.off + |b.data|
      ensures misses == old(misses) <==> exists j :: 0 <= j < |old(bufs)| && Inside(old(bufs)[j], off)
      ensures misses == old(misses) ==> bufs == old(bufs) && b in bufs
      ensures misses != old(misses) ==> bufs == old(bufs)[old(idx) := b] && b.off == AlignFloor(off)
    {
      var k := Find(off);
      if k.Some? { return bufs[k.value]; }
      var i := NextBuf();
      var at := AlignFloor(off);
      bufs := bufs[i := Buf(ReadAt(file, at, cap), at)];
      b := bufs[i];
    }

    /** Delivers the next chunk. */
    method Process(seek: Option<nat>) returns (r: Code, out: Bytes)
      requires Valid()
      modifies this
      ensures Valid() && Chunk(file, cap, if seek.Some? then seek.value else old(offCur), offCur, out)
      ensures (r.Done? <==> old(eof) && out == []) && (eof <==> out == [])
    {
      if seek.Some? { offCur := seek.value; }
      offCur, out := Serve(offCur);
      r := if eof && out == [] then Done else Data;
      eof := out == [];
    }

    /** The rest of the buffer that serves `off`, and where it ends in the file. */
    method Serve(off: nat) returns (end: nat, out: Bytes)
      requires Valid()
      modifies this
      ensures Valid() && Chunk(file, cap, off, end, out) && eof == old(eof)
    {
      var b := Fetch(off);
      SameBlock(b.off, off);
      ChunkFacts(file, cap, b, off);
      end := b.off + |b.data|;
      out := b.data[Min(|b.data|, off - b.off)..];
    }
  }

  /** A chunk that starts at `off` and ends at `end`: what the file holds there, and something
      unless the file ends before. A buffer smaller than a block serves its beginning only. */
  ghost predicate Chunk(file: Bytes, cap: nat, off: nat, end: nat, out: Bytes) {
    && out == (if off < end <= |file| then file[off..end] else [])
    && (cap >= ALIGN && off < |file| ==> off < end <= |file|)
    && (cap < ALIGN ==> end == AlignFloor(off) + |ReadAt(file, AlignFloor(off), cap)|)
    && (off >= |file| ==> out == [])
    && (cap >= ALIGN && off >= |file| ==> |file| <= end <= off)
  }

  /** The chunk cut from a buffer that serves `off`. */
  lemma ChunkFacts(file: Bytes, cap: nat, b: Buf, off: nat)
    requires b.off <= off && b.data == ReadAt(file, b.off, cap)
    requires b.off == AlignFloor(off) || off < b.off + |b.data|
    requires off < b.off + ALIGN ==> b.off == AlignFloor(off)
    ensures Chunk(file, cap, off, b.off + |b.data|, b.data[Min(|b.data|, off - b.off)..])
  {
    var end := b.off + |b.data|;
    if off < end { assert b.data[off - b.off..] == file[off..end]; }
  }

  lemma SameBlock(a: nat, off: nat)
    requires a % ALIGN == 0 && a <= off
    ensures off < a + ALIGN ==> a == AlignFloor(off)
  {
  }

  /** Reads a file from the start until the reader says it is done. The whole file is
      delivered exactly when the buffer is not smaller than the alignment, or holds the
      whole file; otherwise reading stops after the first block. */
  method ReadAll(file: Bytes, cap: nat) returns (out: Bytes)
    ensures cap >= 4096 || |file| <= cap ==> out == file
    ensures cap < 4096 && cap < |file| ==> out == file[..cap]
    ensures out == file <==> cap >= 4096 || |file| <= cap
  {
    var f := new FileReader(file, cap);
    var r, chunk := f.Process(None);
    out := chunk;
    ghost var end := if cap >= ALIGN then |file| else Min(cap, |file|);
    while !r.Done?
      invariant fresh(f) && f.Valid() && f.file == file && f.cap == cap
      invariant f.offCur <= end && out == file[..f.offCur]
      invariant cap < ALIGN ==> f.offCur == end
      invariant f.eof ==> f.offCur == end
      invariant r.Done? ==> f.offCur == end
      decreases end - f.offCur, !f.eof, !r.Done?
    {
      r, chunk := f.Process(None);
      out := out + chunk;
    }
  }

  /** One answer of the reader. */
  datatype Answer = Answer(r: Code, chunk: Bytes)

  /** What a reader without a cache may answer to a sequence of calls with optional seeks,
      from position `pos` on: each chunk is what the file holds there, it is empty only at the
      end of the file, the next one continues it, and `Done` repeats an empty chunk. */
  ghost predicate Transparent(file: Bytes, pos: nat, eof: bool, seeks: seq<Option<nat>>, answers: seq<Answer>)
    decreases |seeks|
  {
    && |answers| == |seeks|
    && (seeks == [] ||
        var off := Min(if seeks[0].Some? then seeks[0].value else pos, |file|);
        var a := answers[0];
        && off + |a.chunk| <= |file| && a.chunk == file[off..off + |a.chunk|]
        && (a.chunk == [] <==> off == |file|)
        && (a.r.Done? <==> eof && a.chunk == [])
        && Transparent(file, off + |a.chunk|, a.chunk == [], seeks[1..], answers[1..]))
  }

  /** With a buffer of at least the alignment the cache is invisible, whatever the seeks. */
  method ReadScript(f: FileReader, seeks: seq<Option<nat>>) returns (answers: seq<Answer>)
    requires f.Valid() && f.cap >= 4096
    modifies f
    ensures Transparent(f.file, Min(old(f.offCur), |f.file|), old(f.eof), seeks, answers)
    decreases |seeks|
  {
    if seeks == [] { return []; }
    var r, chunk := f.Process(seeks[0]);
    var rest := ReadScript(f, seeks[1..]);
    answers := [Answer(r, chunk)] + rest;
  }
}
