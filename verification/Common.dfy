/** What several components share. */
module Common {

  datatype Option<+T> = None | Some(value: T)

  newtype Byte = x: int | 0 <= x < 256

  type Bytes = seq<Byte>

  function Min(a: nat, b: nat): nat { if a < b then a else b }

  function Max(a: nat, b: nat): nat { if a < b then b else a }

  ghost predicate Distinct(s: seq<nat>) { forall i, j :: 0 <= i < j < |s| ==> s[i] != s[j] }

  function InsertAt(s: seq<nat>, pos: nat, x: nat): (r: seq<nat>)
    requires pos <= |s|
    ensures |r| == |s| + 1 && r[pos] == x
    ensures forall i :: 0 <= i < pos ==> r[i] == s[i]
    ensures forall i :: pos < i < |r| ==> r[i] == s[i-1]
  {
    s[..pos] + [x] + s[pos..]
  }

  function RemoveAt(s: seq<nat>, pos: nat): (r: seq<nat>)
    requires pos < |s|
    ensures |r| == |s| - 1
    ensures forall i :: 0 <= i < pos ==> r[i] == s[i]
    ensures forall i :: pos <= i < |r| ==> r[i] == s[i+1]
  {
    s[..pos] + s[pos+1..]
  }

  lemma InsertDistinct(s: seq<nat>, pos: nat, x: nat)
    requires Distinct(s) && pos <= |s| && forall i :: 0 <= i < |s| ==> s[i] != x
    ensures Distinct(InsertAt(s, pos, x))
  {
    var r := InsertAt(s, pos, x);
    forall i, j | 0 <= i < j < |r| ensures r[i] != r[j] {
      if i != pos && j != pos {
        assert s[if i < pos then i else i - 1] != s[if j < pos then j else j - 1];
      }
    }
  }

  lemma InsertMembers(s: seq<nat>, pos: nat, x: nat)
    requires pos <= |s|
    ensures forall y :: y in InsertAt(s, pos, x) <==> y in s || y == x
  {
    var r := InsertAt(s, pos, x);
    forall y | y in s ensures y in r {
      var k :| 0 <= k < |s| && s[k] == y;
      assert r[if k < pos then k else k + 1] == y;
    }
    forall y | y in r && y != x ensures y in s {
      var k :| 0 <= k < |r| && r[k] == y;
      assert s[if k < pos then k else k - 1] == y;
    }
  }
}
