/** The slice-by-eight algorithm over the operations of a register, and the laws of those
    operations from which it follows that the algorithm works bit by bit. */
module SliceByEight {
  import opened LinearSteps

  /** Operations on a register `R` fed with bytes `B`: one bit step, exclusive or and its
      complement, a byte as a register, the four bytes of a register from the lowest, the
      register without its lowest byte, and a little-endian word in memory. */
  datatype Ops<!R, !B> = Ops(
    bit: R -> R, xor: (R, R) -> R, not: R -> R, widen: B -> R,
    byteA: R -> R, byteB: R -> R, byteC: R -> R, byteD: R -> R, shift8: R -> R,
    load: (B, B, B, B) -> R)

  /** Eight bits through the register. */
  function ByteStep<R, B>(o: Ops<R, B>): R -> R { c => Iter(o.bit, 8, c) }

  /** The register after the bytes of `data` went in. */
  function Register<R, B>(o: Ops<R, B>, c: R, data: seq<B>): R { Feed(ByteStep(o), o.xor, o.widen, c, data) }

  /** The checksum of `data` that continues the one given as `seed`. */
  function Bitwise<R, B>(o: Ops<R, B>, data: seq<B>, seed: R): R { o.not(Register(o, o.not(seed), data)) }

  /** Table `k` at `b`, by the rule that generates the tables. */
  function Table<R, B>(o: Ops<R, B>, k: nat, b: R): R {
    if k == 0 then ByteStep(o)(b) else
      var t := Table(o, k - 1, b);
      o.xor(o.shift8(t), Table(o, 0, o.byteA(t)))
  }

  // ------------------------------------------------------------ laws

  /** Cutting a register into bytes: `r1`, `r2` and `r3` are what is left above the first
      byte, above the second one and above the third one, each moved down by a byte. */
  datatype Rests<!R> = Rests(r1: R -> R, r2: R -> R, r3: R -> R)

  ghost predicate SplitsA<R(!new), B>(o: Ops<R, B>, s: Rests<R>) {
    forall x {:trigger s.r1(x)} :: o.xor(o.byteA(x), s.r1(x)) == x && o.shift8(s.r1(x)) == o.shift8(x)
  }

  ghost predicate SplitsB<R(!new), B>(o: Ops<R, B>, s: Rests<R>) {
    forall x {:trigger s.r2(x)} :: o.shift8(x) == o.xor(o.byteB(x), s.r2(x))
  }

  ghost predicate SplitsC<R(!new), B>(o: Ops<R, B>, s: Rests<R>) {
    forall x {:trigger s.r3(x)} :: o.shift8(s.r2(x)) == o.xor(o.byteC(x), s.r3(x)) && o.shift8(s.r3(x)) == o.byteD(x)
  }

  ghost predicate Splits<R(!new), B>(o: Ops<R, B>, s: Rests<R>) { SplitsA(o, s) && SplitsB(o, s) && SplitsC(o, s) }

  /** What lies above the lowest byte moves down unchanged. */
  ghost predicate MovesDown<R(!new), B>(o: Ops<R, B>, s: Rests<R>) {
    forall x {:trigger s.r1(x)} {:trigger s.r2(x)} {:trigger s.r3(x)} ::
      && Iter(o.bit, 8, s.r1(x)) == o.shift8(s.r1(x))
      && Iter(o.bit, 8, s.r2(x)) == o.shift8(s.r2(x))
      && Iter(o.bit, 8, s.r3(x)) == o.shift8(s.r3(x))
  }

  ghost predicate LoadsBytes<R(!new), B(!new)>(o: Ops<R, B>) {
    forall a, b, c, d {:trigger o.load(a, b, c, d)} :: var w := o.load(a, b, c, d);
      o.byteA(w) == o.widen(a) && o.byteB(w) == o.widen(b) && o.byteC(w) == o.widen(c) && o.byteD(w) == o.widen(d)
  }

  /** A byte enters at the low end. */
  ghost predicate EntersLow<R(!new), B(!new)>(o: Ops<R, B>) {
    forall c, b {:trigger o.xor(c, o.widen(b))} ::
      && o.shift8(o.xor(c, o.widen(b))) == o.shift8(c)
      && o.byteA(o.xor(c, o.widen(b))) == o.xor(o.widen(b), o.byteA(c))
  }

  ghost predicate Laws<R(!new), B(!new)>(o: Ops<R, B>, s: Rests<R>) {
    && Linear(o.bit, o.xor) && Associative(o.xor) && Commutative(o.xor)
    && Splits(o, s) && MovesDown(o, s) && LoadsBytes(o) && EntersLow(o)
  }

  // ------------------------------------------------------------ tables and words

  lemma ByteLinear<R(!new), B(!new)>(o: Ops<R, B>)
    requires Linear(o.bit, o.xor)
    ensures Linear(ByteStep(o), o.xor)
  {
    var f := ByteStep(o);
    forall x, y ensures f(o.xor(x, y)) == o.xor(f(x), f(y)) { IterLinear(o.bit, o.xor, 8, x, y); }
  }

  lemma WordDigits<R(!new), B(!new)>(o: Ops<R, B>, s: Rests<R>, x: R)
    requires Splits(o, s) && MovesDown(o, s)
    ensures Digits(ByteStep(o), o.xor, x, o.byteA(x), o.byteB(x), o.byteC(x), o.byteD(x), s.r1(x), s.r2(x), s.r3(x))
  {
  }

  /** One look-up does the work of eight bits. */
  lemma TableStep<R(!new), B(!new)>(o: Ops<R, B>, s: Rests<R>, c: R)
    requires Laws(o, s)
    ensures ByteStep(o)(c) == o.xor(o.shift8(c), Table(o, 0, o.byteA(c)))
  {
    ByteLinear(o);
    var f := ByteStep(o);
    assert c == o.xor(o.byteA(c), s.r1(c));
    assert f(o.xor(o.byteA(c), s.r1(c))) == o.xor(f(o.byteA(c)), f(s.r1(c)));
    assert f(s.r1(c)) == o.shift8(c);
  }

  /** Table `k` runs a byte through the register `k + 1` times. */
  lemma {:induction false} TableIsSteps<R(!new), B(!new)>(o: Ops<R, B>, s: Rests<R>, k: nat, b: R)
    requires Laws(o, s)
    ensures Table(o, k, b) == Iter(ByteStep(o), k + 1, b)
    decreases k
  {
    IterSnoc(ByteStep(o), k, b);
    if k > 0 {
      TableIsSteps(o, s, k - 1, b);
      TableStep(o, s, Table(o, k - 1, b));
    }
  }

  // ------------------------------------------------------------ eight bytes at once

  /** The four look-ups for the first word. */
  function FirstFour<R, B>(o: Ops<R, B>, x: R): R {
    o.xor(
      o.xor(o.xor(Table(o, 7, o.byteA(x)), Table(o, 6, o.byteB(x))), Table(o, 5, o.byteC(x))),
      Table(o, 4, o.byteD(x)))
  }

  /** The four look-ups for the second word, with the first result between them. */
  function SecondFour<R, B>(o: Ops<R, B>, crc: R, w: R): R {
    o.xor(
      o.xor(o.xor(o.xor(Table(o, 3, o.byteA(w)), Table(o, 2, o.byteB(w))), crc), Table(o, 1, o.byteC(w))),
      Table(o, 0, o.byteD(w)))
  }

  lemma FirstFourIs<R(!new), B(!new)>(o: Ops<R, B>, s: Rests<R>, x: R)
    requires Laws(o, s)
    ensures FirstFour(o, x) == Iter(ByteStep(o), 8, x)
  {
    WordDigits(o, s, x);
    ByteLinear(o);
    TableIsSteps(o, s, 7, o.byteA(x));
    TableIsSteps(o, s, 6, o.byteB(x));
    TableIsSteps(o, s, 5, o.byteC(x));
    TableIsSteps(o, s, 4, o.byteD(x));
    WordLookups(ByteStep(o), o.xor, 8, x, o.byteA(x), o.byteB(x), o.byteC(x), o.byteD(x), s.r1(x), s.r2(x), s.r3(x),
      Table(o, 7, o.byteA(x)), Table(o, 6, o.byteB(x)), Table(o, 5, o.byteC(x)), Table(o, 4, o.byteD(x)));
  }

  lemma SecondFourIs<R(!new), B(!new)>(o: Ops<R, B>, s: Rests<R>, crc: R, w: R)
    requires Laws(o, s)
    ensures SecondFour(o, crc, w) == o.xor(crc, Iter(ByteStep(o), 4, w))
  {
    WordDigits(o, s, w);
    ByteLinear(o);
    var t3, t2 := Table(o, 3, o.byteA(w)), Table(o, 2, o.byteB(w));
    var t1, t0 := Table(o, 1, o.byteC(w)), Table(o, 0, o.byteD(w));
    TableIsSteps(o, s, 3, o.byteA(w));
    TableIsSteps(o, s, 2, o.byteB(w));
    TableIsSteps(o, s, 1, o.byteC(w));
    TableIsSteps(o, s, 0, o.byteD(w));
    WordLookups(ByteStep(o), o.xor, 4, w,
      o.byteA(w), o.byteB(w), o.byteC(w), o.byteD(w), s.r1(w), s.r2(w), s.r3(w), t3, t2, t1, t0);
    MoveIn(o.xor, t3, t2, crc, t1, t0);
  }

  lemma RegisterFour<R(!new), B(!new)>(o: Ops<R, B>, s: Rests<R>, c: R, d: seq<B>)
    requires Laws(o, s) && |d| >= 4
    ensures Register(o, c, d) == Register(o, Iter(ByteStep(o), 4, o.xor(c, o.load(d[0], d[1], d[2], d[3]))), d[4..])
  {
    var w := o.load(d[0], d[1], d[2], d[3]);
    WordDigits(o, s, w);
    ByteLinear(o);
    FeedFour(ByteStep(o), o.xor, o.widen, c, d, w, s.r1(w), s.r2(w), s.r3(w));
  }

  /** One pass of the fast loop over two words. */
  function SliceStep<R, B>(o: Ops<R, B>, crc: R, w0: R, w1: R): R { SecondFour(o, FirstFour(o, o.xor(crc, w0)), w1) }

  /** The fast loop does what eight bytes, bit by bit, do. */
  lemma SliceIsEightBytes<R(!new), B(!new)>(o: Ops<R, B>, s: Rests<R>, c: R, d: seq<B>)
    requires Laws(o, s) && |d| >= 8
    ensures Register(o, c, d) ==
      Register(o, SliceStep(o, c, o.load(d[0], d[1], d[2], d[3]), o.load(d[4], d[5], d[6], d[7])), d[8..])
  {
    var w0, w1 := o.load(d[0], d[1], d[2], d[3]), o.load(d[4], d[5], d[6], d[7]);
    RegisterFour(o, s, c, d);
    RegisterFour(o, s, Iter(ByteStep(o), 4, o.xor(c, w0)), d[4..]);
    assert d[4..][4..] == d[8..];
    assert d[4..][0] == d[4] && d[4..][1] == d[5] && d[4..][2] == d[6] && d[4..][3] == d[7];
    ByteLinear(o);
    TwoWords(ByteStep(o), o.xor, c, w0, w1);
    FirstFourIs(o, s, o.xor(c, w0));
    SecondFourIs(o, s, FirstFour(o, o.xor(c, w0)), w1);
  }

  // ------------------------------------------------------------ the function

  /** A byte through the first table. */
  function TableByte<R, B>(o: Ops<R, B>, crc: R, b: B): R {
    o.xor(Table(o, 0, o.xor(o.widen(b), o.byteA(crc))), o.shift8(crc))
  }

  lemma RegisterByte<R(!new), B(!new)>(o: Ops<R, B>, s: Rests<R>, c: R, d: seq<B>)
    requires Laws(o, s) && d != []
    ensures Register(o, c, d) == Register(o, TableByte(o, c, d[0]), d[1..])
  {
    TableStep(o, s, o.xor(c, o.widen(d[0])));
  }

  /** Taking the first `n` bytes with `step` is what the register `reg` does with them. */
  ghost predicate Advances<R(!new), B(!new)>(reg: (R, seq<B>) -> R, n: nat, step: (R, seq<B>) -> R) {
    forall c, d: seq<B> {:trigger step(c, d)} :: |d| >= n ==> reg(c, d) == reg(step(c, d), d[n..])
  }

  /** Bytes one at a time, from index `i0` up to `end`. */
  method ByteLoop<R(!new), B(!new)>(
      ghost reg: (R, seq<B>) -> R, step: (R, seq<B>) -> R, buf: seq<B>, i0: nat, end: nat, crc0: R)
    returns (crc: R)
    requires Advances(reg, 1, step) && i0 <= end <= |buf|
    ensures reg(crc, buf[end..]) == reg(crc0, buf[i0..])
  {
    crc := crc0;
    var i := i0;
    while i != end
      invariant i0 <= i <= end && reg(crc, buf[i..]) == reg(crc0, buf[i0..])
      decreases end - i
    {
      assert buf[i..][1..] == buf[i+1..];
      crc := step(crc, buf[i..]);
      i := i + 1;
    }
  }

  /** Eight bytes at a time, `n` times. */
  method WordLoop<R(!new), B(!new)>(
      ghost reg: (R, seq<B>) -> R, step: (R, seq<B>) -> R, buf: seq<B>, i0: nat, n: nat, crc0: R)
    returns (crc: R)
    requires Advances(reg, 8, step) && i0 + 8 * n <= |buf|
    ensures reg(crc, buf[i0 + 8 * n..]) == reg(crc0, buf[i0..])
  {
    crc := crc0;
    var i, limit := i0, i0 + 8 * n;
    ghost var k := n;
    while i < limit
      invariant i == limit - 8 * k && i0 <= i <= limit
      invariant reg(crc, buf[i..]) == reg(crc0, buf[i0..])
      decreases k
    {
      assert buf[i..][8..] == buf[i+8..];
      crc := step(crc, buf[i..]);
      i := i + 8;
      k := k - 1;
    }
  }

  /** Number of bytes before the next 8-byte boundary. */
  function ToBoundary(addr: nat): (n: nat)
    ensures n < 8 && (addr + n) % 8 == 0
  {
    (8 - addr % 8) % 8
  }

  /** The register after a buffer that starts at address `addr`. In a buffer of more than
      eight bytes, those before the first 8-byte boundary go one at a time and the words after
      it eight at a time; the rest goes one at a time. */
  method FeedBuffer<R(!new), B(!new)>(
      ghost reg: (R, seq<B>) -> R, byteStep: (R, seq<B>) -> R, wordStep: (R, seq<B>) -> R,
      buf: seq<B>, addr: nat, crc0: R) returns (crc: R)
    requires Advances(reg, 1, byteStep) && Advances(reg, 8, wordStep)
    ensures reg(crc, []) == reg(crc0, buf)
  {
    crc := crc0;
    var i := 0;
    assert buf[0..] == buf;
    if |buf| > 8 {
      i := ToBoundary(addr);
      crc := ByteLoop(reg, byteStep, buf, 0, i, crc);
      var n := (|buf| - i) / 8;
      crc := WordLoop(reg, wordStep, buf, i, n, crc);
      i := i + 8 * n;
    }
    crc := ByteLoop(reg, byteStep, buf, i, |buf|, crc);
    assert buf[|buf|..] == [];
  }

  function ByteChunk<R, B>(o: Ops<R, B>): (R, seq<B>) -> R {
    (c, d: seq<B>) => if d == [] then c else TableByte(o, c, d[0])
  }

  function WordChunk<R, B>(o: Ops<R, B>): (R, seq<B>) -> R {
    (c, d: seq<B>) => if |d| < 8 then c else
      SliceStep(o, c, o.load(d[0], d[1], d[2], d[3]), o.load(d[4], d[5], d[6], d[7]))
  }

  function RegisterOf<R, B>(o: Ops<R, B>): (R, seq<B>) -> R { (c, d) => Register(o, c, d) }

  lemma LawsAdvance<R(!new), B(!new)>(o: Ops<R, B>, s: Rests<R>)
    requires Laws(o, s)
    ensures Advances(RegisterOf(o), 1, ByteChunk(o)) && Advances(RegisterOf(o), 8, WordChunk(o))
  {
    var reg, one, eight := RegisterOf(o), ByteChunk(o), WordChunk(o);
    forall c, d: seq<B> | |d| >= 1 ensures reg(c, d) == reg(one(c, d), d[1..]) { RegisterByte(o, s, c, d); }
    forall c, d: seq<B> | |d| >= 8 ensures reg(c, d) == reg(eight(c, d), d[8..]) { SliceIsEightBytes(o, s, c, d); }
  }

  /** The checksum with table look-ups is the checksum bit by bit. */
  method Checksum<R(!new), B(!new)>(o: Ops<R, B>, buf: seq<B>, addr: nat, seed: R) returns (r: R)
    requires Advances(RegisterOf(o), 1, ByteChunk(o)) && Advances(RegisterOf(o), 8, WordChunk(o))
    ensures r == Bitwise(o, buf, seed)
  {
    var crc := FeedBuffer(RegisterOf(o), ByteChunk(o), WordChunk(o), buf, addr, o.not(seed));
    assert RegisterOf(o)(crc, []) == Register(o, crc, []) == crc;
    r := o.not(crc);
  }

  /** The checksum of a stream is the same however the stream is cut into chunks. */
  lemma Chained<R(!new), B(!new)>(o: Ops<R, B>, a: seq<B>, b: seq<B>, seed: R)
    requires var c := Register(o, o.not(seed), a); o.not(o.not(c)) == c
    ensures Bitwise(o, a + b, seed) == Bitwise(o, b, Bitwise(o, a, seed))
  {
    FeedConcat(ByteStep(o), o.xor, o.widen, o.not(seed), a, b);
  }
}
