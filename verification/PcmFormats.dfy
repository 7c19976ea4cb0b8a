/** Integer sample formats and the conversion of one sample. */
module PcmFormats {
  import opened Common

  /** `Int24In4` keeps 24 bits in the upper three of four bytes. */
  datatype Format = Int8 | Int16 | Int24 | Int24In4 | Int32

  function Half(f: Format): int {
    match f
    case Int8 => 0x80
    case Int16 => 0x8000
    case Int24 => 0x80_0000
    case Int24In4 => 0x8000_0000
    case Int32 => 0x8000_0000
  }

  ghost predicate InRange(f: Format, x: int) { -Half(f) <= x < Half(f) }

  /** The ranges in numbers. */
  lemma RangesAre(x: int)
    ensures InRange(Int8, x) <==> -128 <= x <= 127
    ensures InRange(Int16, x) <==> -32768 <= x <= 32767
    ensures InRange(Int24, x) <==> -8388608 <= x <= 8388607
    ensures InRange(Int32, x) <==> InRange(Int24In4, x)
    ensures InRange(Int32, x) <==> -2147483648 <= x <= 2147483647
  {
  }

  /** The value stored when `v` is written to a sample of this format. */
  function Wrap(f: Format, v: int): (r: int)
    ensures InRange(f, r)
    ensures InRange(f, v) ==> r == v
  {
    var m := v % (2 * Half(f));
    if m >= Half(f) then m - 2 * Half(f) else m
  }

  /** Division that rounds toward zero. */
  function Div256(a: int): int { if a >= 0 then a / 0x100 else -(-a / 0x100) }

  /** The 24 bits of a sample as an unsigned number. */
  function Unsigned24(x: int): int { x % 0x100_0000 }

  /** One sample converted; None for a pair of formats that is not supported. */
  function Convert(from: Format, to: Format, x: int): Option<int> {
    match (from, to)
    case (Int8, Int8) => Some(x)
    case (Int8, Int16) => Some(Wrap(Int16, x * 0x100))
    case (Int16, Int8) => Some(Wrap(Int8, Div256(x)))
    case (Int16, Int16) => Some(x)
    case (Int16, Int24) => Some(Wrap(Int24, x * 0x100))
    case (Int16, Int24In4) => Some(Wrap(Int24In4, Unsigned24(x * 0x100) * 0x100))
    case (Int16, Int32) => Some(Wrap(Int32, x * 0x10000))
    case (Int24, Int16) => Some(Wrap(Int16, Unsigned24(x) / 0x100))
    case (Int24, Int24) => Some(x)
    case (Int24, Int24In4) => Some(Wrap(Int24In4, Unsigned24(x) * 0x100))
    case (Int24, Int32) => Some(Wrap(Int32, Unsigned24(x) * 0x100))
    case (Int32, Int16) => Some(Wrap(Int16, x))
    case (Int32, Int24) => Some(Wrap(Int24, Div256(x)))
    case (Int32, Int24In4) => Some(Wrap(Int24In4, Unsigned24(Div256(x)) * 0x100))
    case (Int32, Int32) => Some(x)
    case _ => None
  }

  /** Whether samples of one format can be turned into another one by one. */
  predicate Supported(from: Format, to: Format) {
    match from
    case Int8 => to == Int8 || to == Int16
    case Int16 => true
    case Int24 => to != Int8
    case Int24In4 => false
    case Int32 => to != Int8
  }

  lemma SupportedIff(from: Format, to: Format, x: int)
    ensures Convert(from, to, x).Some? <==> Supported(from, to)
  {
  }

  /** A stored sample is always in the range of its format. */
  lemma StaysInRange(from: Format, to: Format, x: int)
    requires InRange(from, x) && Supported(from, to)
    ensures Convert(from, to, x).Some? && InRange(to, Convert(from, to, x).value)
  {
  }

  /** A wider format keeps the value, scaled to the new full range. */
  lemma WideningIsExact(from: Format, to: Format, x: int)
    requires InRange(from, x) && Supported(from, to) && Half(from) <= Half(to)
    requires to == Int24In4 ==> from != Int32
    ensures Convert(from, to, x) == Some(x * (Half(to) / Half(from)))
  {
    var scale := Half(to) / Half(from);
    match from
    case Int8 => assert scale == if to == Int8 then 1 else 0x100;
    case Int16 => assert scale == if to == Int16 then 1 else if to == Int24 then 0x100 else 0x10000;
      Widen24(x * 0x100);
    case Int24 => assert scale == if to == Int24 then 1 else 0x100;
      Widen24(x);
    case Int32 => assert scale == 1;
  }

  lemma Widen24(x: int)
    requires InRange(Int24, x)
    ensures Wrap(Int24In4, Unsigned24(x) * 0x100) == x * 0x100 == Wrap(Int32, Unsigned24(x) * 0x100)
  {
    assert Unsigned24(x) == if x < 0 then x + 0x100_0000 else x;
  }

  /** `y` is `x / 256` without its fraction. */
  predicate TowardZero(x: int, y: int) {
    if x >= 0 then 256 * y <= x < 256 * (y + 1) else 256 * (y - 1) < x <= 256 * y
  }

  lemma Div256Is(x: int)
    ensures TowardZero(x, Div256(x))
  {
  }

  /** Narrowing keeps the upper bits: from 24 to 16 bits it rounds down, elsewhere toward zero. */
  lemma Narrow16(x: int)
    requires InRange(Int16, x)
    ensures Convert(Int16, Int8, x) == Some(Div256(x)) && TowardZero(x, Div256(x))
  {
    Div256Is(x);
  }

  lemma Narrow24(x: int)
    requires InRange(Int24, x)
    ensures Convert(Int24, Int16, x) == Some(x / 0x100)
  {
    assert Unsigned24(x) == if x < 0 then x + 0x100_0000 else x;
  }

  lemma Narrow32(x: int)
    requires InRange(Int32, x)
    ensures Convert(Int32, Int24, x) == Some(Div256(x)) && TowardZero(x, Div256(x))
  {
    Div256Is(x);
  }

  lemma Narrow32In4(x: int)
    requires InRange(Int32, x)
    ensures Convert(Int32, Int24In4, x) == Some(Div256(x) * 0x100) && TowardZero(x, Div256(x))
  {
    Div256Is(x);
    var d := Div256(x);
    assert Unsigned24(d) == if d < 0 then d + 0x100_0000 else d;
  }

  /** 32 to 16 bits keeps the lower half instead. */
  lemma Narrow32To16(x: int) returns (y: int)
    requires InRange(Int32, x)
    ensures Convert(Int32, Int16, x) == Some(y) && -32768 <= y <= 32767 && (x - y) % 65536 == 0
    ensures x % 65536 == 0 ==> y == 0
  {
    y := Wrap(Int16, x);
    var m := x % 65536;
    assert x - m == x / 65536 * 65536;
    assert x - y == (x / 65536 + if m >= 0x8000 then 1 else 0) * 65536;
  }

  /** To a wider format and back by conversions of the same two formats is the identity,
      except for 16 to 32 bits: the way back keeps the lower half, which is zero. */
  lemma ThereAndBack(from: Format, to: Format, x: int)
    requires InRange(from, x) && Half(from) <= Half(to) && Supported(from, to) && Supported(to, from)
    ensures Convert(from, to, x).Some?
    ensures Convert(to, from, Convert(from, to, x).value) == Some(x) <==> !(from == Int16 && to == Int32) || x == 0
  {
    WideningIsExact(from, to, x);
    StaysInRange(from, to, x);
    if from == Int8 { Back8(x); }
    if from == Int16 { Back16(x); }
    if from == Int24 { Back24(x); }
  }

  lemma Back8(x: int)
    requires InRange(Int8, x)
    ensures Convert(Int16, Int8, x * 0x100) == Some(x)
  {
    Narrow16(x * 0x100);
  }

  lemma Back16(x: int)
    requires InRange(Int16, x)
    ensures Convert(Int24, Int16, x * 0x100) == Some(x)
    ensures Convert(Int32, Int16, x * 0x10000) == Some(0)
  {
    Narrow24(x * 0x100);
    var y := Narrow32To16(x * 0x10000);
  }

  lemma Back24(x: int)
    requires InRange(Int24, x)
    ensures Convert(Int32, Int24, x * 0x100) == Some(x)
  {
    Narrow32(x * 0x100);
  }
}
