/** The write-back buffer of the file writer. Data may be written at any offset, in chunks
    of any size; the file must end up as if each chunk had been written directly. */
module FileWrite {
  import opened Common

  // ------------------------------------------------------------ files

  /** The byte at an offset; what was never written reads as zero. */
  function At(f: Bytes, i: nat): Byte { if i < |f| then f[i] else 0 }

  /** Writing at an offset, past the end of the file if need be. */
  function WriteAt(f: Bytes, off: nat, d: Bytes): Bytes {
    if d == [] then f else
      seq(Max(|f|, off + |d|), i requires 0 <= i => if off <= i < off + |d| then d[i - off] else At(f, i))
  }

  lemma WriteAtLength(f: Bytes, off: nat, d: Bytes)
    ensures |WriteAt(f, off, d)| == if d == [] then |f| else Max(|f|, off + |d|)
  {
  }

  lemma WriteAtIs(f: Bytes, off: nat, d: Bytes)
    ensures var r := WriteAt(f, off, d);
      && |r| == (if d == [] then |f| else Max(|f|, off + |d|))
      && forall i: nat :: At(r, i) == if off <= i < off + |d| then d[i - off] else At(f, i)
  {
    WriteAtLength(f, off, d);
  }

  lemma SameFile(a: Bytes, b: Bytes)
    requires |a| == |b| && forall i: nat :: At(a, i) == At(b, i)
    ensures a == b
  {
    forall i | 0 <= i < |a| ensures a[i] == b[i] { assert At(a, i) == At(b, i); }
  }

  function Truncate(f: Bytes, size: nat): (r: Bytes)
    ensures |r| == size && forall i :: 0 <= i < size ==> r[i] == At(f, i)
  {
    seq(size, i requires 0 <= i => At(f, i))
  }

  /** `d` with `e` laid over it from index `k` on. */
  function Overlay(d: Bytes, k: nat, e: Bytes): (r: Bytes)
    requires k <= |d|
    ensures |r| == Max(|d|, k + |e|)
    ensures forall i :: 0 <= i < |r| ==> r[i] == if k <= i < k + |e| then e[i - k] else d[i]
  {
    d[..k] + e + if k + |e| < |d| then d[k+|e|..] else []
  }

  /** Copying into a buffer lays the data over its contents. */
  lemma Overlaid(was: Bytes, now: Bytes, len: nat, k: nat, e: Bytes)
    requires |was| == |now| && k <= len <= |was| && k + |e| <= |was|
    requires forall i :: 0 <= i < |was| ==> now[i] == if k <= i < k + |e| then e[i - k] else was[i]
    ensures now[..Max(len, k + |e|)] == Overlay(was[..len], k, e)
  {
  }

  lemma WriteOverlay(f: Bytes, off: nat, d: Bytes, k: nat, e: Bytes)
    requires d != [] && k <= |d|
    ensures WriteAt(WriteAt(f, off, d), off + k, e) == WriteAt(f, off, Overlay(d, k, e))
  {
    var a, b := WriteAt(WriteAt(f, off, d), off + k, e), WriteAt(f, off, Overlay(d, k, e));
    WriteAtIs(f, off, d);
    WriteAtIs(WriteAt(f, off, d), off + k, e);
    WriteAtIs(f, off, Overlay(d, k, e));
    SameFile(a, b);
  }

  lemma OverlayHolds(f: Bytes, size: nat, off: nat, d: Bytes, k: nat, e: Bytes)
    requires d != [] && k <= |d|
    ensures Holds(f, size, off, Overlay(d, k, e), WriteAt(WriteAt(f, off, d), off + k, e),
      EndOf(EndOf(size, off, d), off + k, e))
  {
    WriteOverlay(f, off, d, k, e);
  }

  lemma WriteSplit(f: Bytes, off: nat, d: Bytes, n: nat)
    requires n <= |d|
    ensures WriteAt(WriteAt(f, off, d[..n]), off + n, d[n..]) == WriteAt(f, off, d)
  {
    var a, b := WriteAt(WriteAt(f, off, d[..n]), off + n, d[n..]), WriteAt(f, off, d);
    WriteAtIs(f, off, d[..n]);
    WriteAtIs(WriteAt(f, off, d[..n]), off + n, d[n..]);
    WriteAtIs(f, off, d);
    SameFile(a, b);
  }

  lemma TakeMore(f: Bytes, end: nat, off: nat, data: Bytes, c: nat, c': nat)
    requires c <= c' <= |data|
    ensures WriteAt(WriteAt(f, off, data[..c]), off + c, data[c..c']) == WriteAt(f, off, data[..c'])
    ensures EndOf(EndOf(end, off, data[..c]), off + c, data[c..c']) == EndOf(end, off, data[..c'])
  {
    WriteSplit(f, off, data[..c'], c);
    assert data[..c'][..c] == data[..c] && data[..c'][c..] == data[c..c'];
  }

  lemma MoreHolds(f: Bytes, size: nat, o: nat, d: Bytes, l: Bytes, e: nat,
      f0: Bytes, end0: nat, off0: nat, data: Bytes, c: nat, c': nat)
    requires c <= c' <= |data| && l == WriteAt(f0, off0, data[..c]) && e == EndOf(end0, off0, data[..c])
    requires Holds(f, size, o, d, WriteAt(l, off0 + c, data[c..c']), EndOf(e, off0 + c, data[c..c']))
    ensures Holds(f, size, o, d, WriteAt(f0, off0, data[..c']), EndOf(end0, off0, data[..c']))
  {
    TakeMore(f0, end0, off0, data, c, c');
  }

  lemma WriteTwice(f: Bytes, off: nat, d: Bytes)
    ensures WriteAt(WriteAt(f, off, d), off, d) == WriteAt(f, off, d)
  {
    WriteAtIs(f, off, d);
    WriteAtIs(WriteAt(f, off, d), off, d);
    SameFile(WriteAt(WriteAt(f, off, d), off, d), WriteAt(f, off, d));
  }

  /** Writing `d` at `o` gives the file `f'`, and the given end. */
  ghost predicate Holds(f: Bytes, size: nat, o: nat, d: Bytes, f': Bytes, end: nat) {
    WriteAt(f, o, d) == f' && EndOf(size, o, d) == end
  }

  function EndOf(size: nat, off: nat, d: Bytes): nat { if d == [] then size else Max(size, off + |d|) }

  // ------------------------------------------------------------ unbuffered reference

  /** One call of the writer: an optional seek and a chunk of data. */
  datatype Request = Request(seek: Option<nat>, data: Bytes)

  /** Where the last of some requests starts: where it seeks to, or else where the one before it
      has ended. */
  function StartAt(off: nat, rs: seq<Request>): nat
    requires rs != []
    decreases |rs|, 0
  {
    if rs[|rs|-1].seek.Some? then rs[|rs|-1].seek.value else EndAt(off, rs[..|rs|-1])
  }

  /** Where it ends; `off` before the first one. */
  function EndAt(off: nat, rs: seq<Request>): nat
    decreases |rs|, 1
  {
    if rs == [] then off else StartAt(off, rs) + |rs[|rs|-1].data|
  }

  /** Every chunk written directly, the first one at `off` unless it seeks. */
  ghost function Direct(f: Bytes, off: nat, rs: seq<Request>): Bytes
    decreases |rs|
  {
    if rs == [] then f else WriteAt(Direct(f, off, rs[..|rs|-1]), StartAt(off, rs), rs[|rs|-1].data)
  }

  /** The largest end of any chunk. */
  ghost function DirectEnd(size: nat, off: nat, rs: seq<Request>): nat
    decreases |rs|
  {
    if rs == [] then size else EndOf(DirectEnd(size, off, rs[..|rs|-1]), StartAt(off, rs), rs[|rs|-1].data)
  }

  /** One request more. */
  lemma OneMore(f: Bytes, size: nat, off: nat, rs: seq<Request>, r: Request)
    ensures var o, all := if r.seek.Some? then r.seek.value else EndAt(off, rs), rs + [r];
      && Direct(f, off, all) == WriteAt(Direct(f, off, rs), o, r.data)
      && DirectEnd(size, off, all) == EndOf(DirectEnd(size, off, rs), o, r.data)
      && EndAt(off, all) == o + |r.data|
  {
    var all := rs + [r];
    assert all[..|all|-1] == rs && all[|all|-1] == r;
  }

  // ------------------------------------------------------------ the writer

  datatype Code = More | Done

  class FileWriter {
    /** The file on disk. */
    var file: Bytes
    var offCur: nat
    var size: nat
    /** The buffer: `wlen` bytes that belong at `woff`. */
    const wbuf: array<Byte>
    var wlen: nat
    var woff: nat
    var fin: bool

    constructor (file0: Bytes, cap: nat)
      ensures Valid() && fresh(wbuf) && offCur == 0 && wlen == 0
      ensures Logical() == file == file0 && LogicalEnd() == size == 0
    {
      file := file0;
      wbuf := new Byte[cap];
      offCur, size, wlen, woff, fin := 0, 0, 0, 0, false;
    }

    ghost predicate Valid()
      reads this
    {
      wlen <= wbuf.Length
    }

    ghost function Buffered(): Bytes
      reads this, wbuf
      requires Valid()
    {
      wbuf[..wlen]
    }

    /** The file as a reader would have to see it: with the buffered bytes in place. */
    ghost function Logical(): Bytes
      reads this, wbuf
      requires Valid()
    {
      WriteAt(file, woff, Buffered())
    }

    ghost function LogicalEnd(): nat
      reads this, wbuf
      requires Valid()
    {
      EndOf(size, woff, Buffered())
    }

    method CopyIn(at: nat, d: Bytes)
      requires at + |d| <= wbuf.Length
      modifies wbuf
      ensures forall i :: 0 <= i < wbuf.Length ==> wbuf[i] == if at <= i < at + |d| then d[i - at] else old(wbuf[i])
    {
      forall i | 0 <= i < |d| { wbuf[at + i] := d[i]; }
    }

    /** New data that starts inside the buffer, or right at its end, goes into it as far as
        the buffer reaches. */
    method Extend(data: Bytes, off: nat) returns (n: nat)
      requires Valid() && wlen > 0 && woff <= off <= woff + wlen && off < woff + wbuf.Length
      modifies this`wlen, wbuf
      ensures Valid() && n <= |data| && (n < |data| ==> wlen == wbuf.Length) && wlen >= old(wlen)
      ensures data != [] ==> n > 0
      ensures Holds(file, size, woff, Buffered(),
        WriteAt(old(Logical()), off, data[..n]), EndOf(old(LogicalEnd()), off, data[..n]))
    {
      var k := off - woff;
      n := if |data| <= wbuf.Length - k then |data| else wbuf.Length - k;
      Lay(k, data[..n]);
    }

    /** Lays bytes over the buffer's contents from index `k` on: they are written at that place. */
    method Lay(k: nat, e: Bytes)
      requires Valid() && 0 < wlen && k <= wlen && k + |e| <= wbuf.Length
      modifies this`wlen, wbuf
      ensures Valid() && wlen == Max(old(wlen), k + |e|)
      ensures Holds(file, size, woff, Buffered(),
        WriteAt(old(Logical()), woff + k, e), EndOf(old(LogicalEnd()), woff + k, e))
    {
      ghost var before := Buffered();
      OverlayHolds(file, size, woff, before, k, e);
      LayOver(k, e);
      assert Buffered() == Overlay(before, k, e);
    }

    method LayOver(k: nat, e: Bytes)
      requires Valid() && k <= wlen && k + |e| <= wbuf.Length
      modifies this`wlen, wbuf
      ensures Valid() && wlen == Max(old(wlen), k + |e|) && Buffered() == Overlay(old(Buffered()), k, e)
    {
      CopyIn(k, e);
      if wlen < k + |e| { wlen := k + |e|; }
      Overlaid(old(wbuf[..]), wbuf[..], old(wlen), k, e);
    }

    /** Puts data into the buffer. Returns the data that was not taken, and what to write to
        the file: the offset, if there is something, and the bytes. */
    method BufWrite(data: Bytes, off: nat) returns (rest: Bytes, woffset: Option<nat>, out: Bytes)
      requires Valid()
      modifies this`wlen, this`woff, wbuf
      ensures Valid() && |rest| <= |data| && rest == data[|data| - |rest|..]
      ensures woffset.None? ==> rest == []
      ensures woffset.Some? ==> out != [] && (|rest| < |data| || (old(wlen) > 0 && rest == data))
      ensures old(wlen) == 0 ==> (woffset.None? <==> |data| <= wbuf.Length)
      ensures old(wlen) > 0 && woffset.Some? ==> woffset.value == old(woff) && out == Buffered()
      ensures var (o, d) := if woffset.Some? then (woffset.value, out) else (woff, Buffered());
        var taken := data[..|data| - |rest|];
        Holds(file, size, o, d, WriteAt(old(Logical()), off, taken), EndOf(old(LogicalEnd()), off, taken))
    {
      if data == [] { return data, None, []; }
      if wlen != 0 {
        var n := 0;
        if woff <= off <= woff + wlen && off < woff + wbuf.Length {
          var was := wlen;
          n := Extend(data, off);
          assert data[..|data| - |data[n..]|] == data[..n];
          if was < wlen && wlen != wbuf.Length { return data[n..], None, []; }
        }
        return data[n..], Some(woff), wbuf[..wlen];
      }
      assert data[..|data| - 0] == data;
      if wbuf.Length < |data| { return [], Some(off), data; }
      CopyIn(0, data);
      wlen, woff := |data|, off;
      assert wbuf[..wlen] == data;
      return [], None, [];
    }

    /** Hands bytes to the kernel. */
    method WriteOut(d: Bytes, off: nat)
      requires d != []
      modifies this`file, this`size
      ensures file == WriteAt(old(file), off, d) && size == EndOf(old(size), off, d)
    {
      file := WriteAt(file, off, d);
      if off + |d| > size { size := off + |d|; }
    }

    /** `c` bytes of the chunk are written, buffered or on disk. */
    ghost predicate Taken(f0: Bytes, end0: nat, off0: nat, data: Bytes, c: nat)
      reads this, wbuf
      requires c <= |data|
    {
      && Valid() && Logical() == WriteAt(f0, off0, data[..c])
      && LogicalEnd() == EndOf(end0, off0, data[..c])
    }

    /** One pass of the loop of `Process`: buffers data and flushes what has to go. */
    method Pass(data: Bytes, c: nat, off: nat, ghost f0: Bytes, ghost end0: nat, ghost off0: nat)
      returns (c': nat, flushed: bool)
      requires c <= |data| && off == off0 + c && Taken(f0, end0, off0, data, c)
      modifies this`file, this`size, this`wlen, this`woff, wbuf
      ensures c <= c' <= |data| && Taken(f0, end0, off0, data, c')
      ensures !flushed ==> c' == |data|
      ensures flushed ==> wlen == 0 && (c' > c || old(wlen) > 0)
    {
      var woffset, out;
      c', woffset, out := TakeSome(data, c, off, f0, end0, off0);
      flushed := woffset.Some?;
      if flushed {
        Flush(woffset.value, out, WriteAt(f0, off0, data[..c']), EndOf(end0, off0, data[..c']));
      }
    }

    /** Buffers data; what is to be written to the file, or else the buffer, makes up for it. */
    method TakeSome(data: Bytes, c: nat, off: nat, ghost f0: Bytes, ghost end0: nat, ghost off0: nat)
      returns (c': nat, woffset: Option<nat>, out: Bytes)
      requires c <= |data| && off == off0 + c && Taken(f0, end0, off0, data, c)
      modifies this`wlen, this`woff, wbuf
      ensures Valid() && c <= c' <= |data|
      ensures woffset.None? ==> c' == |data| && Taken(f0, end0, off0, data, c')
      ensures woffset.Some? ==> out != [] && (c' > c || old(wlen) > 0)
      ensures woffset.Some? ==>
        Holds(file, size, woffset.value, out, WriteAt(f0, off0, data[..c']), EndOf(end0, off0, data[..c']))
    {
      ghost var l, e := Logical(), LogicalEnd();
      var rest;
      rest, woffset, out := BufWrite(data[c..], off);
      c' := |data| - |rest|;
      assert data[c..][..|data[c..]| - |rest|] == data[c..c'];
      ghost var o, d := if woffset.Some? then woffset.value else woff, if woffset.Some? then out else Buffered();
      MoreHolds(file, size, o, d, l, e, f0, end0, off0, data, c, c');
    }

    /** Hands bytes to the kernel and empties the buffer. */
    method Flush(off: nat, d: Bytes, ghost f: Bytes, ghost end: nat)
      requires d != [] && Holds(file, size, off, d, f, end)
      modifies this`file, this`size, this`wlen, this`woff
      ensures Valid() && wlen == 0 && Logical() == f && LogicalEnd() == end
    {
      WriteOut(d, off);
      wlen, woff := 0, 0;
      assert Buffered() == [];
    }

    /** Takes one chunk. When the writer is first in chain this is the end of the data. */
    method Process(seek: Option<nat>, data: Bytes, first: bool) returns (r: Code)
      requires Valid()
      modifies this, wbuf
      ensures Valid()
      ensures var o := if seek.Some? then seek.value else old(offCur);
        && Logical() == WriteAt(old(Logical()), o, data)
        && LogicalEnd() == EndOf(old(LogicalEnd()), o, data)
        && (!first ==> r.More? && offCur == o + |data|)
        && (first ==> r.Done? && fin && file == Logical() && size == LogicalEnd())
    {
      var off0 := if seek.Some? then seek.value else offCur;
      ghost var f0, end0 := Logical(), LogicalEnd();
      var c := 0;
      var flushed := true;
      while flushed
        invariant 0 <= c <= |data| && Taken(f0, end0, off0, data, c)
        invariant !flushed ==> c == |data|
        decreases flushed, |data| - c, wlen
      {
        c, flushed := Pass(data, c, off0 + c, f0, end0, off0);
      }
      assert data[..c] == data;
      if first {
        FlushLast();
        fin := true;
        return Done;
      }
      offCur := off0 + c;
      r := More;
    }

    /** The last flush; the buffer is left as it is. */
    method FlushLast()
      requires Valid()
      modifies this`file, this`size
      ensures Logical() == old(Logical()) == file && LogicalEnd() == old(LogicalEnd()) == size
    {
      WriteTwice(file, woff, Buffered());
      if wlen != 0 { WriteOut(wbuf[..wlen], woff); }
    }

    /** Cuts the file to the largest end of any write. */
    method Close()
      modifies this`file
      ensures file == Truncate(old(file), size)
    {
      file := Truncate(file, size);
    }
  }

  /** The requests `rs` are served: the file is logically what direct writes give. */
  ghost predicate Served(w: FileWriter, file0: Bytes, rs: seq<Request>)
    reads w, w.wbuf
  {
    && w.Valid() && w.offCur == EndAt(0, rs)
    && w.Logical() == Direct(file0, 0, rs) && w.LogicalEnd() == DirectEnd(0, 0, rs)
  }

  method ServeOne(w: FileWriter, ghost file0: Bytes, ghost rs: seq<Request>, r: Request)
    requires Served(w, file0, rs)
    modifies w, w.wbuf
    ensures Served(w, file0, rs + [r])
  {
    OneMore(file0, 0, 0, rs, r);
    var code := w.Process(r.seek, r.data, false);
  }

  method ServeLast(w: FileWriter, ghost file0: Bytes, ghost rs: seq<Request>, r: Request)
    requires Served(w, file0, rs)
    modifies w, w.wbuf
    ensures w.file == Truncate(Direct(file0, 0, rs + [r]), DirectEnd(0, 0, rs + [r]))
  {
    OneMore(file0, 0, 0, rs, r);
    var code := w.Process(r.seek, r.data, true);
    w.Close();
  }

  /** A whole life of the writer on a file that may exist already: any sequence of seeks and
      writes, the last call being the one that ends the data. The file is what direct writes
      give, and its size is the largest end of any of them. */
  method WriteFile(file0: Bytes, cap: nat, rs: seq<Request>, last: Request) returns (file: Bytes)
    ensures file == Truncate(Direct(file0, 0, rs + [last]), DirectEnd(0, 0, rs + [last]))
  {
    var w := new FileWriter(file0, cap);
    for i := 0 to |rs|
      invariant fresh(w) && fresh(w.wbuf) && Served(w, file0, rs[..i])
    {
      ServeOne(w, file0, rs[..i], rs[i]);
      assert rs[..i] + [rs[i]] == rs[..i + 1];
    }
    assert rs[..|rs|] == rs;
    ServeLast(w, file0, rs, last);
    file := w.file;
  }

  // ------------------------------------------------------------ what direct writes give

  /** Where chunk `k` starts. */
  function Start(off: nat, rs: seq<Request>, k: nat): nat
    requires k < |rs|
  {
    StartAt(off, rs[..k + 1])
  }

  /** A seek is where its chunk starts; any other chunk starts where the one before it ends. */
  lemma StartIs(off: nat, rs: seq<Request>, k: nat)
    requires k < |rs|
    ensures rs[k].seek.Some? ==> Start(off, rs, k) == rs[k].seek.value
    ensures rs[k].seek.None? ==> Start(off, rs, k) == if k == 0 then off else Start(off, rs, k - 1) + |rs[k-1].data|
  {
    var upTo := rs[..k + 1];
    assert upTo[|upTo|-1] == rs[k] && upTo[..|upTo|-1] == rs[..k];
    if k > 0 { assert EndAt(off, rs[..k]) == StartAt(off, rs[..k]) + |rs[..k][k-1].data|; }
  }

  /** Chunk `k` has a byte for offset `i`. */
  ghost predicate Covers(off: nat, rs: seq<Request>, k: nat, i: nat) {
    k < |rs| && Start(off, rs, k) <= i < Start(off, rs, k) + |rs[k].data|
  }

  /** The last chunk adds its bytes and leaves all others. */
  lemma LastChunk(f: Bytes, off: nat, rs: seq<Request>, i: nat)
    requires rs != []
    ensures var n := |rs| - 1;
      At(Direct(f, off, rs), i) ==
        if Covers(off, rs, n, i) then rs[n].data[i - Start(off, rs, n)] else At(Direct(f, off, rs[..n]), i)
  {
    var n := |rs| - 1;
    assert rs[..n + 1] == rs;
    WriteAtIs(Direct(f, off, rs[..n]), StartAt(off, rs), rs[n].data);
  }

  lemma CoversFewer(off: nat, rs: seq<Request>, k: nat, i: nat)
    requires k + 1 < |rs|
    ensures Covers(off, rs[..|rs|-1], k, i) == Covers(off, rs, k, i)
    ensures Start(off, rs[..|rs|-1], k) == Start(off, rs, k)
  {
    assert rs[..|rs|-1][..k + 1] == rs[..k + 1];
  }

  /** The file's byte at `i` is that of the last chunk that covers it. */
  lemma {:induction false} ByteOfLast(f: Bytes, off: nat, rs: seq<Request>, k: nat, i: nat)
    requires Covers(off, rs, k, i) && forall j: nat :: k < j < |rs| ==> !Covers(off, rs, j, i)
    ensures At(Direct(f, off, rs), i) == rs[k].data[i - Start(off, rs, k)]
    decreases |rs|
  {
    LastChunk(f, off, rs, i);
    var n := |rs| - 1;
    if k < n {
      CoversFewer(off, rs, k, i);
      forall j: nat | k < j < n ensures !Covers(off, rs[..n], j, i) { CoversFewer(off, rs, j, i); }
      ByteOfLast(f, off, rs[..n], k, i);
    }
  }

  /** A byte that no chunk covers stays. */
  lemma {:induction false} ByteUntouched(f: Bytes, off: nat, rs: seq<Request>, i: nat)
    requires forall j: nat :: j < |rs| ==> !Covers(off, rs, j, i)
    ensures At(Direct(f, off, rs), i) == At(f, i)
    decreases |rs|
  {
    if rs != [] {
      LastChunk(f, off, rs, i);
      var n := |rs| - 1;
      forall j: nat | j < n ensures !Covers(off, rs[..n], j, i) { CoversFewer(off, rs, j, i); }
      ByteUntouched(f, off, rs[..n], i);
    }
  }

  /** Chunk `k` has data, and this is where it ends. */
  ghost predicate EndsAt(off: nat, rs: seq<Request>, k: nat, end: nat) {
    k < |rs| && rs[k].data != [] && end == Start(off, rs, k) + |rs[k].data|
  }

  /** The size is at least that of before and the end of every chunk that has data, and it is one
      of these. */
  lemma {:induction false} EndIsLargest(size: nat, off: nat, rs: seq<Request>) returns (k: nat)
    ensures size <= DirectEnd(size, off, rs)
    ensures forall j: nat, end: nat :: EndsAt(off, rs, j, end) ==> end <= DirectEnd(size, off, rs)
    ensures DirectEnd(size, off, rs) == size || EndsAt(off, rs, k, DirectEnd(size, off, rs))
    decreases |rs|
  {
    k := 0;
    if rs != [] {
      var n := |rs| - 1;
      assert rs[..n + 1] == rs;
      k := EndIsLargest(size, off, rs[..n]);
      forall j: nat, end: nat | EndsAt(off, rs, j, end) ensures end <= DirectEnd(size, off, rs) {
        if j < n {
          CoversFewer(off, rs, j, 0);
          assert EndsAt(off, rs[..n], j, end);
        }
      }
      if k < n { CoversFewer(off, rs, k, 0); }
      if DirectEnd(size, off, rs) != DirectEnd(size, off, rs[..n]) { k := n; }
    }
  }

  /** Truncation never lengthens the file: the largest end was reached by some write. */
  lemma {:induction false} EndIsReached(f: Bytes, size: nat, off: nat, rs: seq<Request>)
    requires size <= |f|
    ensures DirectEnd(size, off, rs) <= |Direct(f, off, rs)|
    decreases |rs|
  {
    if rs != [] {
      var n := |rs| - 1;
      EndIsReached(f, size, off, rs[..n]);
      WriteAtLength(Direct(f, off, rs[..n]), StartAt(off, rs), rs[n].data);
    }
  }
}
