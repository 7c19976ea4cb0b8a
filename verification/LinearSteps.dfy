/** Linear step functions over any type with an associative operation: what slicing a CRC
    into table look-ups rests on. */
module LinearSteps {

  function Iter<R>(f: R -> R, n: nat, c: R): R {
    if n == 0 then c else Iter(f, n - 1, f(c))
  }

  ghost predicate Linear<R(!new)>(f: R -> R, xor: (R, R) -> R) {
    forall x, y {:trigger f(xor(x, y))} :: f(xor(x, y)) == xor(f(x), f(y))
  }

  ghost predicate Associative<R(!new)>(xor: (R, R) -> R) {
    forall x, y, z {:trigger xor(x, xor(y, z))} {:trigger xor(xor(x, y), z)} :: xor(xor(x, y), z) == xor(x, xor(y, z))
  }

  lemma {:induction false} IterLinear<R(!new)>(f: R -> R, xor: (R, R) -> R, n: nat, a: R, b: R)
    requires Linear(f, xor)
    ensures Iter(f, n, xor(a, b)) == xor(Iter(f, n, a), Iter(f, n, b))
    decreases n
  {
    if n > 0 { IterLinear(f, xor, n - 1, f(a), f(b)); }
  }

  lemma {:induction false} IterAdd<R>(f: R -> R, m: nat, n: nat, c: R)
    ensures Iter(f, m + n, c) == Iter(f, n, Iter(f, m, c))
    decreases m
  {
    if m > 0 { IterAdd(f, m - 1, n, f(c)); }
  }

  lemma IterSnoc<R>(f: R -> R, n: nat, c: R)
    ensures Iter(f, n + 1, c) == f(Iter(f, n, c))
  {
    IterAdd(f, n, 1, c);
    var t := Iter(f, n, c);
    assert Iter(f, 1, t) == Iter(f, 0, f(t));
  }

  lemma IterFour<R>(f: R -> R, c: R)
    ensures Iter(f, 4, c) == f(f(f(f(c))))
  {
    assert Iter(f, 4, c) == Iter(f, 3, f(c)) == Iter(f, 2, f(f(c)));
    assert Iter(f, 2, f(f(c))) == Iter(f, 1, f(f(f(c)))) == Iter(f, 0, f(f(f(f(c)))));
  }

  /** A word made of four digits: `w` is `d0` over `u1`, and each step moves the rest down. */
  ghost predicate Digits<R>(f: R -> R, xor: (R, R) -> R, w: R, d0: R, d1: R, d2: R, d3: R, u1: R, u2: R, u3: R) {
    w == xor(d0, u1) && f(u1) == xor(d1, u2) && f(u2) == xor(d2, u3) && f(u3) == d3
  }

  /** Feeding four digits one at a time is the same as feeding their word at once. */
  lemma FeedWord<R(!new)>(f: R -> R, xor: (R, R) -> R, c: R, w: R, d0: R, d1: R, d2: R, d3: R, u1: R, u2: R, u3: R)
    requires Linear(f, xor) && Associative(xor) && Digits(f, xor, w, d0, d1, d2, d3, u1, u2, u3)
    ensures f(xor(f(xor(f(xor(f(xor(c, d0)), d1)), d2)), d3)) == Iter(f, 4, xor(c, w))
  {
    var c1 := f(xor(c, d0));
    var c2 := f(xor(c1, d1));
    var c3 := f(xor(c2, d2));
    assert f(xor(c, w)) == xor(c1, xor(d1, u2)) by { assert xor(c, w) == xor(xor(c, d0), u1); }
    assert f(xor(xor(c1, d1), u2)) == xor(c2, xor(d2, u3));
    assert f(xor(xor(c2, d2), u3)) == xor(c3, d3);
    IterFour(f, xor(c, w));
  }

  /** A word advances as the sum of its digits, the higher ones having less far to go. */
  lemma WordParts<R(!new)>(f: R -> R, xor: (R, R) -> R, n: nat, w: R, d0: R, d1: R, d2: R, d3: R, u1: R, u2: R, u3: R)
    requires n >= 3 && Linear(f, xor) && Digits(f, xor, w, d0, d1, d2, d3, u1, u2, u3)
    ensures Iter(f, n, w) == xor(Iter(f, n, d0), xor(Iter(f, n - 1, d1), xor(Iter(f, n - 2, d2), Iter(f, n - 3, d3))))
  {
    IterLinear(f, xor, n, d0, u1);
    IterLinear(f, xor, n - 1, d1, u2);
    IterLinear(f, xor, n - 2, d2, u3);
    assert Iter(f, n, u1) == Iter(f, n - 1, f(u1));
    assert Iter(f, n - 1, u2) == Iter(f, n - 2, f(u2));
    assert Iter(f, n - 2, u3) == Iter(f, n - 3, f(u3));
  }

  /** Two words, one after the other. */
  lemma TwoWords<R(!new)>(f: R -> R, xor: (R, R) -> R, c: R, w0: R, w1: R)
    requires Linear(f, xor)
    ensures Iter(f, 4, xor(Iter(f, 4, xor(c, w0)), w1)) == xor(Iter(f, 8, xor(c, w0)), Iter(f, 4, w1))
  {
    IterLinear(f, xor, 4, Iter(f, 4, xor(c, w0)), w1);
    IterAdd(f, 4, 4, xor(c, w0));
  }

  lemma IterEight<R>(f: R -> R, c0: R, c1: R, c2: R, c3: R, c4: R, c5: R, c6: R, c7: R, c8: R)
    requires f(c0) == c1 && f(c1) == c2 && f(c2) == c3 && f(c3) == c4
    requires f(c4) == c5 && f(c5) == c6 && f(c6) == c7 && f(c7) == c8
    ensures Iter(f, 8, c0) == c8
  {
    IterFour(f, c0);
    IterFour(f, c4);
    IterAdd(f, 4, 4, c0);
  }

  ghost predicate Commutative<R(!new)>(xor: (R, R) -> R) {
    forall x, y {:trigger xor(x, y)} :: xor(x, y) == xor(y, x)
  }

  /** The state after all the digits of `data` were fed, first to last. */
  function Feed<R, B>(f: R -> R, xor: (R, R) -> R, widen: B -> R, c: R, data: seq<B>): R
    decreases |data|
  {
    if data == [] then c else Feed(f, xor, widen, f(xor(c, widen(data[0]))), data[1..])
  }

  lemma {:induction false} FeedConcat<R, B>(f: R -> R, xor: (R, R) -> R, widen: B -> R, c: R, a: seq<B>, b: seq<B>)
    ensures Feed(f, xor, widen, c, a + b) == Feed(f, xor, widen, Feed(f, xor, widen, c, a), b)
    decreases |a|
  {
    if a == [] {
      assert a + b == b;
    } else {
      assert (a + b)[1..] == a[1..] + b;
      FeedConcat(f, xor, widen, f(xor(c, widen(a[0]))), a[1..], b);
    }
  }

  lemma FeedFour<R(!new), B>(f: R -> R, xor: (R, R) -> R, widen: B -> R, c: R, data: seq<B>, w: R, u1: R, u2: R, u3: R)
    requires |data| >= 4 && Linear(f, xor) && Associative(xor)
    requires Digits(f, xor, w, widen(data[0]), widen(data[1]), widen(data[2]), widen(data[3]), u1, u2, u3)
    ensures Feed(f, xor, widen, c, data) == Feed(f, xor, widen, Iter(f, 4, xor(c, w)), data[4..])
  {
    FeedWord(f, xor, c, w, widen(data[0]), widen(data[1]), widen(data[2]), widen(data[3]), u1, u2, u3);
    var c1 := f(xor(c, widen(data[0])));
    var c2 := f(xor(c1, widen(data[1])));
    var c3 := f(xor(c2, widen(data[2])));
    var c4 := f(xor(c3, widen(data[3])));
    assert data[1..][1..] == data[2..] && data[2..][1..] == data[3..] && data[3..][1..] == data[4..];
    assert Feed(f, xor, widen, c, data) == Feed(f, xor, widen, c1, data[1..]);
    assert Feed(f, xor, widen, c1, data[1..]) == Feed(f, xor, widen, c2, data[2..]);
    assert Feed(f, xor, widen, c2, data[2..]) == Feed(f, xor, widen, c3, data[3..]);
    assert Feed(f, xor, widen, c3, data[3..]) == Feed(f, xor, widen, c4, data[4..]);
  }

  /** The four look-ups for a word that has `n` steps to go. */
  lemma WordLookups<R(!new)>(f: R -> R, xor: (R, R) -> R, n: nat, w: R,
      d0: R, d1: R, d2: R, d3: R, u1: R, u2: R, u3: R, t0: R, t1: R, t2: R, t3: R)
    requires n >= 4 && Linear(f, xor) && Associative(xor) && Digits(f, xor, w, d0, d1, d2, d3, u1, u2, u3)
    requires t0 == Iter(f, n, d0) && t1 == Iter(f, n - 1, d1) && t2 == Iter(f, n - 2, d2) && t3 == Iter(f, n - 3, d3)
    ensures xor(xor(xor(t0, t1), t2), t3) == Iter(f, n, w)
  {
    WordParts(f, xor, n, w, d0, d1, d2, d3, u1, u2, u3);
    assert xor(xor(t0, t1), xor(t2, t3)) == xor(t0, xor(t1, xor(t2, t3)));
    assert xor(xor(xor(t0, t1), t2), t3) == xor(xor(t0, t1), xor(t2, t3));
  }

  lemma MoveIn<R(!new)>(xor: (R, R) -> R, a: R, b: R, y: R, c: R, d: R)
    requires Associative(xor) && Commutative(xor)
    ensures xor(xor(xor(xor(a, b), y), c), d) == xor(y, xor(xor(xor(a, b), c), d))
  {
    var ab := xor(a, b);
    assert xor(ab, y) == xor(y, ab);
    assert xor(xor(y, ab), c) == xor(y, xor(ab, c));
    assert xor(xor(y, xor(ab, c)), d) == xor(y, xor(xor(ab, c), d));
  }
}
