/** The file-name tree: blocks of entries, an entry optionally holding a child block,
    and the three recursive listings that the explicit-stack iterators must produce. */
module FileTree {
  import opened Common
  import opened NameOrder

  datatype Entry = Entry(name: string, children: Option<Block>)

  /** `id` stands for the block's memory address. */
  datatype Block = Block(id: nat, entries: seq<Entry>)

  /** Capacity of the cursor's stacks. */
  const MAX_DEPTH := 64

  /** Where an entry sits: its index, and its name, in every block from the root down. */
  datatype Place = Place(addr: seq<nat>, path: Path)

  const ROOT := Place([], [])

  function Below(at: Place, i: nat, name: string): Place {
    Place(at.addr + [i], at.path + [name])
  }

  // ------------------------------------------------------------ addresses

  ghost predicate IsAddr(b: Block, a: seq<nat>)
    decreases |a|
  {
    && a != [] && a[0] < |b.entries|
    && (|a| == 1 || (b.entries[a[0]].children.Some? && IsAddr(b.entries[a[0]].children.value, a[1..])))
  }

  ghost function EntryAt(b: Block, a: seq<nat>): Entry
    requires IsAddr(b, a)
    decreases |a|
  {
    if |a| == 1 then b.entries[a[0]] else EntryAt(b.entries[a[0]].children.value, a[1..])
  }

  /** The names met on the way to an entry, its own last. */
  ghost function NamesAt(b: Block, a: seq<nat>): Path
    requires IsAddr(b, a)
    ensures |NamesAt(b, a)| == |a| && NamesAt(b, a)[0] == b.entries[a[0]].name
    decreases |a|
  {
    [b.entries[a[0]].name] + (if |a| == 1 then [] else NamesAt(b.entries[a[0]].children.value, a[1..]))
  }

  ghost predicate AddrLess(a: seq<nat>, b: seq<nat>) {
    b != [] && (a == [] || a[0] < b[0] || (a[0] == b[0] && AddrLess(a[1..], b[1..])))
  }

  lemma {:induction false} AddrLessPrefix(p: seq<nat>, a: seq<nat>, b: seq<nat>)
    ensures AddrLess(p + a, p + b) == AddrLess(a, b)
  {
    if p == [] {
      assert p + a == a && p + b == b;
    } else {
      AddrLessPrefix(p[1..], a, b);
      assert (p + a)[1..] == p[1..] + a && (p + b)[1..] == p[1..] + b;
    }
  }

  lemma {:induction false} AddrLessDistinct(a: seq<nat>, b: seq<nat>)
    requires AddrLess(a, b)
    ensures a != b
  {
    if a != [] && a[0] == b[0] { AddrLessDistinct(a[1..], b[1..]); }
  }

  // ------------------------------------------------------------ depth

  /** Child blocks nest at most `room` levels below `b`. */
  predicate Fits(b: Block, room: nat)
    decreases b
  {
    forall i :: 0 <= i < |b.entries| ==> EntryFits(b.entries[i], room)
  }

  predicate EntryFits(e: Entry, room: nat)
    decreases e
  {
    e.children.Some? ==> room > 0 && Fits(e.children.value, room - 1)
  }

  /** No directory is nested deeper than that, counting one for those of `b` itself. */
  lemma {:induction false} FitsBounds(b: Block, room: nat, a: seq<nat>)
    requires Fits(b, room) && IsAddr(b, a) && EntryAt(b, a).children.Some?
    ensures |a| <= room
    decreases |a|
  {
    assert EntryFits(b.entries[a[0]], room);
    if |a| > 1 { FitsBounds(b.entries[a[0]].children.value, room - 1, a[1..]); }
  }

  /** Otherwise there is one. */
  lemma {:induction false} FitsNot(b: Block, room: nat) returns (a: seq<nat>)
    requires !Fits(b, room)
    ensures IsAddr(b, a) && EntryAt(b, a).children.Some? && |a| == room + 1
    decreases room
  {
    var i :| 0 <= i < |b.entries| && !EntryFits(b.entries[i], room);
    if room == 0 {
      a := [i];
    } else {
      var rest := FitsNot(b.entries[i].children.value, room - 1);
      a := [i] + rest;
      assert a[1..] == rest;
    }
  }

  // ------------------------------------------------------------ pre-order

  /** One listed entry; `dir` says whether it has a child block. */
  datatype Visit = Visit(place: Place, dir: bool)

  /** Parent before children: the entries from index `i` of a block found at `at`. */
  ghost function PreFrom(b: Block, i: nat, at: Place): seq<Visit>
    decreases b, |b.entries| - i
  {
    if i >= |b.entries| then [] else
      var e := b.entries[i];
      var here := Below(at, i, e.name);
      [Visit(here, e.children.Some?)] + PreBelow(e, here) + PreFrom(b, i + 1, at)
  }

  ghost function PreBelow(e: Entry, at: Place): seq<Visit>
    decreases e
  {
    if e.children.None? then [] else PreFrom(e.children.value, 0, at)
  }

  ghost function PreOrder(root: Block): seq<Visit> { PreFrom(root, 0, ROOT) }

  /** `v` is the visit of the entry at address `a` of a block found at `at`. */
  ghost predicate Visits(b: Block, at: Place, a: seq<nat>, v: Visit) {
    && IsAddr(b, a)
    && v.place == Place(at.addr + a, at.path + NamesAt(b, a))
    && v.dir == EntryAt(b, a).children.Some?
  }

  lemma VisitsFromChild(b: Block, at: Place, i: nat, a: seq<nat>, v: Visit)
    requires i < |b.entries| && b.entries[i].children.Some?
    requires Visits(b.entries[i].children.value, Below(at, i, b.entries[i].name), a, v)
    ensures Visits(b, at, [i] + a, v)
  {
    var c, name := b.entries[i].children.value, b.entries[i].name;
    assert ([i] + a)[1..] == a;
    assert NamesAt(b, [i] + a) == [name] + NamesAt(c, a);
    ConcatOne(at.addr, i, a);
    ConcatOne(at.path, name, NamesAt(c, a));
  }

  lemma ConcatOne<T>(p: seq<T>, x: T, q: seq<T>)
    ensures p + ([x] + q) == p + [x] + q
  {
  }

  /** Every visit in the listing is that of an entry of the tree. */
  lemma {:induction false} PreSound(b: Block, i: nat, at: Place, k: nat) returns (a: seq<nat>)
    requires k < |PreFrom(b, i, at)|
    ensures Visits(b, at, a, PreFrom(b, i, at)[k]) && a[0] >= i
    ensures k == 0 ==> a == [i]
    ensures 0 < k <= |PreBelow(b.entries[i], Below(at, i, b.entries[i].name))| ==> |a| > 1 && a[0] == i
    ensures k > |PreBelow(b.entries[i], Below(at, i, b.entries[i].name))| ==> a[0] > i
    decreases b, |b.entries| - i
  {
    var e := b.entries[i];
    var here := Below(at, i, e.name);
    var c := PreBelow(e, here);
    var v := PreFrom(b, i, at)[k];
    if k == 0 {
      a := [i];
    } else if k <= |c| {
      a := PreSound(e.children.value, 0, here, k - 1);
      assert v == c[k-1];
      VisitsFromChild(b, at, i, a, v);
      a := [i] + a;
    } else {
      a := PreSound(b, i + 1, at, k - 1 - |c|);
      assert v == PreFrom(b, i + 1, at)[k - 1 - |c|];
    }
  }

  /** Every entry of the tree is listed. */
  lemma {:induction false} PreCovers(b: Block, i: nat, at: Place, a: seq<nat>) returns (k: nat)
    requires IsAddr(b, a) && a[0] >= i
    ensures k < |PreFrom(b, i, at)| && PreFrom(b, i, at)[k].place.addr == at.addr + a
    decreases b, |b.entries| - i
  {
    var e := b.entries[i];
    var here := Below(at, i, e.name);
    if a[0] > i {
      k := PreCovers(b, i + 1, at, a);
      k := k + 1 + |PreBelow(e, here)|;
    } else if |a| == 1 {
      k := 0;
    } else {
      k := PreCovers(e.children.value, 0, here, a[1..]);
      k := k + 1;
      assert here.addr + a[1..] == at.addr + a;
    }
  }

  /** The listing is strictly increasing in the lexicographic order of addresses: no entry
      is listed twice, every parent comes before its children, siblings keep their order. */
  lemma {:induction false} PreIncreasing(b: Block, i: nat, at: Place, j: nat, k: nat)
    requires j < k < |PreFrom(b, i, at)|
    ensures AddrLess(PreFrom(b, i, at)[j].place.addr, PreFrom(b, i, at)[k].place.addr)
    decreases b, |b.entries| - i
  {
    var e := b.entries[i];
    var here := Below(at, i, e.name);
    var c := PreBelow(e, here);
    var all := PreFrom(b, i, at);
    if j > |c| {
      PreIncreasing(b, i + 1, at, j - 1 - |c|, k - 1 - |c|);
      assert all[j] == PreFrom(b, i + 1, at)[j - 1 - |c|];
      assert all[k] == PreFrom(b, i + 1, at)[k - 1 - |c|];
    } else if 0 < j && k <= |c| {
      PreIncreasing(e.children.value, 0, here, j - 1, k - 1);
      assert all[j] == c[j-1] && all[k] == c[k-1];
    } else {
      var x := PreSound(b, i, at, j);
      var y := PreSound(b, i, at, k);
      AddrLessPrefix(at.addr, x, y);
    }
  }

  /** Pre-order lists exactly the entries of the tree, each once, parents first. */
  lemma PreOrderExact(root: Block)
    ensures forall k :: 0 <= k < |PreOrder(root)| ==>
      Visits(root, ROOT, PreOrder(root)[k].place.addr, PreOrder(root)[k])
    ensures forall a :: IsAddr(root, a) ==> exists k :: 0 <= k < |PreOrder(root)| && PreOrder(root)[k].place.addr == a
    ensures forall j, k :: 0 <= j < k < |PreOrder(root)| ==>
      && AddrLess(PreOrder(root)[j].place.addr, PreOrder(root)[k].place.addr)
      && PreOrder(root)[j].place != PreOrder(root)[k].place
  {
    forall k | 0 <= k < |PreOrder(root)| ensures Visits(root, ROOT, PreOrder(root)[k].place.addr, PreOrder(root)[k]) {
      var a := PreSound(root, 0, ROOT, k);
      assert ROOT.addr + a == a;
    }
    forall a | IsAddr(root, a)
      ensures exists k :: 0 <= k < |PreOrder(root)| && PreOrder(root)[k].place.addr == a
    {
      var k := PreCovers(root, 0, ROOT, a);
      assert ROOT.addr + a == a;
      assert PreOrder(root)[k].place.addr == a;
    }
    forall j, k | 0 <= j < k < |PreOrder(root)|
      ensures AddrLess(PreOrder(root)[j].place.addr, PreOrder(root)[k].place.addr)
      ensures PreOrder(root)[j].place != PreOrder(root)[k].place
    {
      PreIncreasing(root, 0, ROOT, j, k);
      AddrLessDistinct(PreOrder(root)[j].place.addr, PreOrder(root)[k].place.addr);
    }
  }

  // ------------------------------------------------------------ directory first

  /** The first `n` entries of one block, without their children. */
  ghost function Own(b: Block, n: nat, at: Place): seq<Place>
    requires n <= |b.entries|
    ensures |Own(b, n, at)| == n
  {
    if n == 0 then [] else Own(b, n - 1, at) + [Below(at, n - 1, b.entries[n-1].name)]
  }

  /** Everything below the first `n` entries of a block. */
  ghost function SubsUpTo(b: Block, n: nat, at: Place): seq<Place>
    requires n <= |b.entries|
    decreases b, n
  {
    if n == 0 then [] else
      SubsUpTo(b, n - 1, at) + SubsOf(b.entries[n-1], Below(at, n - 1, b.entries[n-1].name))
  }

  ghost function SubsOf(e: Entry, at: Place): seq<Place>
    decreases e
  {
    if e.children.None? then [] else DirFirst(e.children.value, at)
  }

  /** A whole directory before its subdirectories. */
  ghost function DirFirst(b: Block, at: Place): seq<Place>
    decreases b, |b.entries| + 1
  {
    Own(b, |b.entries|, at) + SubsUpTo(b, |b.entries|, at)
  }

  /** The places of a pre-order listing. */
  ghost function PlacesOf(vs: seq<Visit>): seq<Place> {
    if vs == [] then [] else [vs[0].place] + PlacesOf(vs[1..])
  }

  lemma {:induction false} PlacesOfConcat(a: seq<Visit>, b: seq<Visit>)
    ensures PlacesOf(a + b) == PlacesOf(a) + PlacesOf(b)
  {
    if a == [] {
      assert a + b == b;
    } else {
      PlacesOfConcat(a[1..], b);
      assert (a + b)[1..] == a[1..] + b;
      var x, p, q := a[0].place, PlacesOf(a[1..]), PlacesOf(b);
      assert PlacesOf(a + b) == [x] + (p + q);
      assert [x] + (p + q) == [x] + p + q;
    }
  }

  /** Pre-order of the first `n` entries, cut at the front of the block. */
  ghost function PreUpTo(b: Block, n: nat, at: Place): seq<Visit>
    requires n <= |b.entries|
  {
    if n == 0 then [] else
      var e := b.entries[n-1];
      var here := Below(at, n - 1, e.name);
      PreUpTo(b, n - 1, at) + ([Visit(here, e.children.Some?)] + PreBelow(e, here))
  }

  lemma {:induction false} PreSplit(b: Block, n: nat, at: Place)
    requires n <= |b.entries|
    ensures PreFrom(b, 0, at) == PreUpTo(b, n, at) + PreFrom(b, n, at)
  {
    if n > 0 { PreSplit(b, n - 1, at); }
  }

  /** Directory-first order lists the same entries as pre-order, each as often. */
  lemma {:induction false} DirFirstPermutes(b: Block, at: Place)
    ensures multiset(DirFirst(b, at)) == multiset(PlacesOf(PreFrom(b, 0, at)))
    decreases b, |b.entries| + 1
  {
    DirFirstPermutesUpTo(b, |b.entries|, at);
    PreSplit(b, |b.entries|, at);
    assert PreFrom(b, 0, at) == PreUpTo(b, |b.entries|, at);
  }

  lemma PlacesOfStep(b: Block, n: nat, at: Place)
    requires 0 < n <= |b.entries|
    ensures var e := b.entries[n-1]; var here := Below(at, n - 1, e.name);
      PlacesOf(PreUpTo(b, n, at)) == PlacesOf(PreUpTo(b, n - 1, at)) + ([here] + PlacesOf(PreBelow(e, here)))
  {
    var e := b.entries[n-1];
    var here := Below(at, n - 1, e.name);
    var v := Visit(here, e.children.Some?);
    PlacesOfConcat(PreUpTo(b, n - 1, at), [v] + PreBelow(e, here));
    PlacesOfConcat([v], PreBelow(e, here));
    assert PlacesOf([v]) == [here];
  }

  lemma MultisetStep<T>(own: seq<T>, subs: seq<T>, pre: seq<T>, h: T, sub: seq<T>, below: seq<T>)
    requires multiset(own) + multiset(subs) == multiset(pre) && multiset(sub) == multiset(below)
    ensures multiset(own + [h]) + multiset(subs + sub) == multiset(pre + ([h] + below))
  {
  }

  lemma {:induction false} SubsPermute(e: Entry, at: Place)
    ensures multiset(SubsOf(e, at)) == multiset(PlacesOf(PreBelow(e, at)))
    decreases e
  {
    if e.children.Some? { DirFirstPermutes(e.children.value, at); }
  }

  lemma {:induction false} DirFirstPermutesUpTo(b: Block, n: nat, at: Place)
    requires n <= |b.entries|
    ensures multiset(Own(b, n, at)) + multiset(SubsUpTo(b, n, at)) == multiset(PlacesOf(PreUpTo(b, n, at)))
    decreases b, n
  {
    if n > 0 {
      DirFirstPermutesUpTo(b, n - 1, at);
      var e := b.entries[n-1];
      var here := Below(at, n - 1, e.name);
      SubsPermute(e, here);
      PlacesOfStep(b, n, at);
      MultisetStep(Own(b, n - 1, at), SubsUpTo(b, n - 1, at), PlacesOf(PreUpTo(b, n - 1, at)), here,
        SubsOf(e, here), PlacesOf(PreBelow(e, here)));
    }
  }

  /** Depth below `at` of the places in a directory's own listing and in its subdirectories. */
  lemma {:induction false} DirFirstUnder(b: Block, at: Place, k: nat)
    requires k < |DirFirst(b, at)|
    ensures var p := DirFirst(b, at)[k].addr;
      && |p| > |at.addr| && p[..|at.addr|] == at.addr
      && (k < |b.entries| ==> p == at.addr + [k])
      && (k >= |b.entries| ==> |p| > |at.addr| + 1)
    decreases b, |b.entries| + 1
  {
    if k < |b.entries| {
      OwnAt(b, |b.entries|, at, k);
    } else {
      SubsUnder(b, |b.entries|, at, k - |b.entries|);
    }
  }

  lemma {:induction false} OwnAt(b: Block, n: nat, at: Place, k: nat)
    requires k < n <= |b.entries|
    ensures Own(b, n, at)[k] == Below(at, k, b.entries[k].name)
  {
    if k < n - 1 { OwnAt(b, n - 1, at, k); }
  }

  lemma {:induction false} SubsUnder(b: Block, n: nat, at: Place, k: nat)
    requires n <= |b.entries| && k < |SubsUpTo(b, n, at)|
    ensures var p := SubsUpTo(b, n, at)[k].addr; var m := |at.addr|;
      |p| > m + 1 && p[..m] == at.addr && p[m] < n
    decreases b, n
  {
    var m := |at.addr|;
    var p := SubsUpTo(b, n, at)[k].addr;
    var e := b.entries[n-1];
    var here := Below(at, n - 1, e.name);
    if k < |SubsUpTo(b, n - 1, at)| {
      SubsUnder(b, n - 1, at, k);
    } else {
      DirFirstUnder(e.children.value, here, k - |SubsUpTo(b, n - 1, at)|);
      assert p[..m] == p[..m+1][..m];
      assert p[m] == p[..m+1][m];
    }
  }

  /** The place at `d` lies strictly below the directory that holds the place at `e`. */
  ghost predicate DeeperIn(d: seq<nat>, e: seq<nat>) {
    e != [] && |d| > |e| && d[..|e|-1] == e[..|e|-1]
  }

  /** All entries of a directory come before anything inside its subdirectories. */
  lemma {:induction false} WholeDirectoryFirst(b: Block, at: Place, j: nat, k: nat)
    requires j < |DirFirst(b, at)| && k < |DirFirst(b, at)|
    requires DeeperIn(DirFirst(b, at)[k].addr, DirFirst(b, at)[j].addr)
    ensures j < k
    decreases b, |b.entries| + 1
  {
    DirFirstUnder(b, at, j);
    DirFirstUnder(b, at, k);
    if j >= |b.entries| && k >= |b.entries| {
      SubsDirectoryFirst(b, |b.entries|, at, j - |b.entries|, k - |b.entries|);
    }
  }

  lemma {:induction false} SubsDirectoryFirst(b: Block, n: nat, at: Place, j: nat, k: nat)
    requires n <= |b.entries| && j < |SubsUpTo(b, n, at)| && k < |SubsUpTo(b, n, at)|
    requires DeeperIn(SubsUpTo(b, n, at)[k].addr, SubsUpTo(b, n, at)[j].addr)
    ensures j < k
    decreases b, n
  {
    var s := |SubsUpTo(b, n - 1, at)|;
    var p, q := SubsUpTo(b, n, at)[j].addr, SubsUpTo(b, n, at)[k].addr;
    var m := |at.addr|;
    SubsUnder(b, n, at, j);
    SubsUnder(b, n, at, k);
    assert q[m] == q[..|p|-1][m] == p[..|p|-1][m] == p[m];
    var here := Below(at, n - 1, b.entries[n-1].name);
    if j < s && k < s {
      SubsDirectoryFirst(b, n - 1, at, j, k);
    } else if j >= s && k >= s {
      WholeDirectoryFirst(b.entries[n-1].children.value, here, j - s, k - s);
    } else if k < s {
      SubsUnder(b, n - 1, at, k);
      DirFirstUnder(b.entries[n-1].children.value, here, j - s);
    }
  }

  // ------------------------------------------------------------ post-order of blocks

  /** Block ids, children before parents: what lies below the entries from `i` on. */
  ghost function PostFrom(b: Block, i: nat): seq<nat>
    decreases b, |b.entries| - i
  {
    if i >= |b.entries| then [] else PostBelow(b.entries[i]) + PostFrom(b, i + 1)
  }

  ghost function PostBelow(e: Entry): seq<nat>
    decreases e
  {
    if e.children.None? then [] else PostOrder(e.children.value)
  }

  ghost function PostOrder(b: Block): seq<nat>
    decreases b, |b.entries| + 1
  {
    PostFrom(b, 0) + [b.id]
  }

  // ------------------------------------------------------------ size of a walk

  /** Entries from index `i` on, with everything below them: bounds the steps of a walk. */
  ghost function WorkFrom(b: Block, i: nat): nat
    decreases b, |b.entries| - i
  {
    if i >= |b.entries| then 0 else 1 + WorkBelow(b.entries[i]) + WorkFrom(b, i + 1)
  }

  ghost function WorkBelow(e: Entry): nat
    decreases e
  {
    if e.children.None? then 0 else WorkFrom(e.children.value, 0)
  }
}
