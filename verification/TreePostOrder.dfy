/** What post-order means: the listing of blocks corresponds one to one to the blocks of the
    tree, and a block comes after everything below it. */
module TreePostOrder {
  import opened Common
  import opened FileTree

  /** There is a block at this address: the root's is empty, any other is an entry's. */
  ghost predicate HasBlock(b: Block, a: seq<nat>)
    decreases |a|
  {
    a == [] ||
      (a[0] < |b.entries| && b.entries[a[0]].children.Some? && HasBlock(b.entries[a[0]].children.value, a[1..]))
  }

  ghost function BlockAt(b: Block, a: seq<nat>): Block
    requires HasBlock(b, a)
    decreases |a|
  {
    if a == [] then b else BlockAt(b.entries[a[0]].children.value, a[1..])
  }

  /** The number of blocks below the entries before `i`. */
  ghost function Earlier(b: Block, i: nat): nat
    requires i <= |b.entries|
  {
    if i == 0 then 0 else Earlier(b, i - 1) + |PostBelow(b.entries[i-1])|
  }

  lemma {:induction false} PostSplit(b: Block, i: nat)
    requires i <= |b.entries|
    ensures Earlier(b, i) + |PostFrom(b, i)| == |PostFrom(b, 0)| && PostFrom(b, i) == PostFrom(b, 0)[Earlier(b, i)..]
  {
    if i > 0 {
      PostSplit(b, i - 1);
      assert PostFrom(b, i - 1) == PostBelow(b.entries[i-1]) + PostFrom(b, i);
    }
  }

  lemma {:induction false} EarlierGrows(b: Block, i: nat, j: nat)
    requires i < j <= |b.entries|
    ensures Earlier(b, i) + |PostBelow(b.entries[i])| <= Earlier(b, j)
  {
    if i + 1 < j { EarlierGrows(b, i, j - 1); }
  }

  /** The place of a block in the listing. */
  ghost function Turn(b: Block, a: seq<nat>): nat
    requires HasBlock(b, a)
    decreases |a|
  {
    if a == [] then |PostFrom(b, 0)| else Earlier(b, a[0]) + Turn(b.entries[a[0]].children.value, a[1..])
  }

  lemma {:induction false} TurnIs(b: Block, a: seq<nat>)
    requires HasBlock(b, a)
    ensures Turn(b, a) < |PostOrder(b)| && PostOrder(b)[Turn(b, a)] == BlockAt(b, a).id
    ensures a != [] ==> Turn(b, a) < Earlier(b, a[0]) + |PostBelow(b.entries[a[0]])| <= |PostFrom(b, 0)|
    decreases |a|
  {
    if a != [] {
      var i := a[0];
      var child := b.entries[i].children.value;
      TurnIs(child, a[1..]);
      PostSplit(b, i);
      PostSplit(b, i + 1);
      var t := Turn(child, a[1..]);
      assert PostFrom(b, i) == PostOrder(child) + PostFrom(b, i + 1);
      assert PostFrom(b, 0)[Earlier(b, i) + t] == PostFrom(b, i)[t] == PostOrder(child)[t];
    }
  }

  /** A block below another one comes earlier. */
  lemma {:induction false} ChildrenFirst(b: Block, a: seq<nat>, below: seq<nat>)
    requires HasBlock(b, a) && HasBlock(b, below) && a < below
    ensures Turn(b, below) < Turn(b, a)
    decreases |a|
  {
    if a == [] {
      TurnIs(b, below);
    } else {
      assert a[0] == below[0];
      ChildrenFirst(b.entries[a[0]].children.value, a[1..], below[1..]);
    }
  }

  /** Different blocks have different places. */
  lemma {:induction false} TurnsDiffer(b: Block, a: seq<nat>, c: seq<nat>)
    requires HasBlock(b, a) && HasBlock(b, c) && Turn(b, a) == Turn(b, c)
    ensures a == c
    decreases |a|
  {
    TurnIs(b, a);
    TurnIs(b, c);
    if a != [] && c != [] {
      if a[0] < c[0] { EarlierGrows(b, a[0], c[0]); }
      if c[0] < a[0] { EarlierGrows(b, c[0], a[0]); }
      TurnsDiffer(b.entries[a[0]].children.value, a[1..], c[1..]);
      assert a == [a[0]] + a[1..] && c == [c[0]] + c[1..];
    }
  }

  /** Every place in the listing is that of a block of the tree. */
  lemma {:induction false} EveryTurn(b: Block, k: nat) returns (a: seq<nat>)
    requires k < |PostOrder(b)|
    ensures HasBlock(b, a) && Turn(b, a) == k
    decreases b
  {
    if k == |PostFrom(b, 0)| { return []; }
    PostSplit(b, |b.entries|);
    var i := EntryOf(b, k, |b.entries|);
    var child := b.entries[i].children.value;
    var rest := EveryTurn(child, k - Earlier(b, i));
    a := [i] + rest;
    assert a[1..] == rest;
  }

  lemma {:induction false} EntryOf(b: Block, k: nat, n: nat) returns (i: nat)
    requires n <= |b.entries| && k < Earlier(b, n)
    ensures i < n && Earlier(b, i) <= k < Earlier(b, i) + |PostBelow(b.entries[i])|
    decreases n
  {
    i := n - 1;
    if k < Earlier(b, n - 1) { i := EntryOf(b, k, n - 1); }
  }

  ghost predicate IsTurnOfOne(b: Block, k: nat) { exists a :: HasBlock(b, a) && Turn(b, a) == k }

  /** The listing is a one-to-one list of the tree's blocks, children before parents. */
  lemma PostOrderExact(b: Block)
    ensures forall a :: HasBlock(b, a) ==> Turn(b, a) < |PostOrder(b)| && PostOrder(b)[Turn(b, a)] == BlockAt(b, a).id
    ensures forall k: nat :: k < |PostOrder(b)| ==> IsTurnOfOne(b, k)
    ensures forall a, c :: HasBlock(b, a) && HasBlock(b, c) && a != c ==> Turn(b, a) != Turn(b, c)
    ensures forall a, c :: HasBlock(b, a) && HasBlock(b, c) && a < c ==> Turn(b, c) < Turn(b, a)
  {
    forall a | HasBlock(b, a) ensures Turn(b, a) < |PostOrder(b)| && PostOrder(b)[Turn(b, a)] == BlockAt(b, a).id {
      TurnIs(b, a);
    }
    forall k: nat | k < |PostOrder(b)| ensures IsTurnOfOne(b, k) { var a := EveryTurn(b, k); }
    forall a, c | HasBlock(b, a) && HasBlock(b, c) && a != c ensures Turn(b, a) != Turn(b, c) {
      if Turn(b, a) == Turn(b, c) { TurnsDiffer(b, a, c); }
    }
    forall a, c | HasBlock(b, a) && HasBlock(b, c) && a < c ensures Turn(b, c) < Turn(b, a) { ChildrenFirst(b, a, c); }
  }
}
