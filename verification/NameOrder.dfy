/** Orders used by the file-name tree: names compare byte by byte, a proper prefix
    coming first; paths (sequences of names) compare the same way, name by name. */
module NameOrder {

  predicate NameLess(a: string, b: string) {
    b != "" && (a == "" || a[0] < b[0] || (a[0] == b[0] && NameLess(a[1..], b[1..])))
  }

  /** Sign of the three-way comparison of two names. */
  function Compare(a: string, b: string): (r: int)
    ensures r < 0 <==> NameLess(a, b)
    ensures r == 0 <==> a == b
    ensures r > 0 <==> NameLess(b, a)
  {
    if a == b then
      NameLessIrreflexive(a);
      0
    else
      NameLessTotal(a, b);
      if NameLess(a, b) then -1 else 1
  }

  lemma {:induction false} NameLessIrreflexive(a: string)
    ensures !NameLess(a, a)
  {
    if a != "" { NameLessIrreflexive(a[1..]); }
  }

  lemma {:induction false} NameLessTotal(a: string, b: string)
    requires a != b
    ensures NameLess(a, b) <==> !NameLess(b, a)
  {
    if a != "" && b != "" && a[0] == b[0] {
      assert a == [a[0]] + a[1..] && b == [b[0]] + b[1..];
      NameLessTotal(a[1..], b[1..]);
    }
  }

  lemma {:induction false} NameLessTransitive(a: string, b: string, c: string)
    requires NameLess(a, b) && NameLess(b, c)
    ensures NameLess(a, c)
  {
    if a != "" && a[0] == b[0] == c[0] { NameLessTransitive(a[1..], b[1..], c[1..]); }
  }

  /** Where two names first differ decides; of a name and a longer one that begins with it, the
      shorter one comes first. */
  lemma {:induction false} NameLessAt(a: string, b: string, k: nat)
    requires k <= |a| && k <= |b| && a[..k] == b[..k]
    ensures k == |a| < |b| ==> NameLess(a, b) && !NameLess(b, a)
    ensures k < |a| && k < |b| && a[k] != b[k] ==> (NameLess(a, b) <==> a[k] < b[k])
  {
    if k > 0 {
      assert a[0] == a[..k][0] == b[..k][0] == b[0];
      assert a[1..][..k-1] == a[..k][1..] == b[..k][1..] == b[1..][..k-1];
      NameLessAt(a[1..], b[1..], k - 1);
    }
  }

  /** Full path of an entry: the names from the root block down to the entry. */
  type Path = seq<string>

  ghost predicate PathLess(p: Path, q: Path) {
    q != [] && (p == [] || NameLess(p[0], q[0]) || (p[0] == q[0] && PathLess(p[1..], q[1..])))
  }

  lemma {:induction false} PathLessIrreflexive(p: Path)
    ensures !PathLess(p, p)
  {
    if p != [] {
      NameLessIrreflexive(p[0]);
      PathLessIrreflexive(p[1..]);
    }
  }

  lemma {:induction false} PathLessTransitive(p: Path, q: Path, r: Path)
    requires PathLess(p, q) && PathLess(q, r)
    ensures PathLess(p, r)
  {
    if p != [] {
      if NameLess(p[0], q[0]) && NameLess(q[0], r[0]) {
        NameLessTransitive(p[0], q[0], r[0]);
      } else if p[0] == q[0] == r[0] && PathLess(p[1..], q[1..]) && PathLess(q[1..], r[1..]) {
        PathLessTransitive(p[1..], q[1..], r[1..]);
      }
    }
  }

  /** Two paths that agree before `k` are ordered by what follows. */
  lemma {:induction false} PathLessAt(p: Path, q: Path, k: nat)
    requires k <= |p| && k < |q| && p[..k] == q[..k]
    requires k == |p| || NameLess(p[k], q[k])
    ensures PathLess(p, q)
  {
    if k > 0 {
      assert p[0] == p[..k][0] == q[..k][0] == q[0];
      assert p[1..][..k-1] == p[..k][1..] == q[..k][1..] == q[1..][..k-1];
      PathLessAt(p[1..], q[1..], k - 1);
    }
  }
}
