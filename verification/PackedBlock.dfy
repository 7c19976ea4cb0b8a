/** A block of the file-name tree in memory: a header, the directory's path, and entries of
    variable size one after the other, each padded to a multiple of eight bytes. Addresses
    count from the start of the block. */
module PackedBlock {
  import opened Common

  /** Bytes of the block's header fields, and of an entry's fields before its name. */
  const HEADER := 16
  const FIELDS := 11
  const LINK := 8

  const NULL: Bytes := [0, 0, 0, 0, 0, 0, 0, 0]

  /** The next multiple of eight. */
  function Align8(n: nat): (r: nat)
    ensures n <= r < n + 8 && r % 8 == 0
  {
    (n + 7) / 8 * 8
  }

  /** An entry as its owner sees it: the pointer to its child block, its name, and the room
      kept for the owner's data. */
  datatype Item = Item(children: Bytes, name: Bytes, room: nat)

  function EntSize(name: nat, room: nat): (r: nat)
    ensures r >= FIELDS + name + room && r % 8 == 0
  {
    Align8(FIELDS + 1 + name + room)
  }

  /** Sizes in numbers: an entry's fields, its name with an end mark and its data; the header and
      the path with an end mark. */
  lemma SizesAre(name: nat, room: nat, path: nat)
    ensures 12 + name + room <= EntSize(name, room) < 20 + name + room && EntSize(name, room) % 8 == 0
    ensures 17 + path <= First(path) < 25 + path && First(path) % 8 == 0
  {
  }

  function First(path: nat): nat { HEADER + Align8(path + 1) }

  // ------------------------------------------------------------ reading an entry

  function NameLen(m: Bytes, o: nat): nat
    requires o + FIELDS <= |m|
  {
    m[o + 8] as int + 0x100 * m[o + 9] as int
  }

  function Room(m: Bytes, o: nat): nat
    requires o + FIELDS <= |m|
  {
    m[o + 10] as int
  }

  /** The bytes at `o` are those of this entry. The room for its owner's data may lie past the
      memory: it is written by the owner only. */
  ghost predicate IsItem(m: Bytes, o: nat, x: Item) {
    && |x.name| <= 0xFFFF && x.room <= 0xFF && |x.children| == LINK && o + FIELDS + |x.name| <= |m|
    && m[o..o + LINK] == x.children && NameLen(m, o) == |x.name| && Room(m, o) == x.room
    && m[o + FIELDS..o + FIELDS + |x.name|] == x.name
  }

  /** The address of the entry after the first `k`. */
  ghost function Address(o: nat, items: seq<Item>, k: nat): (r: nat)
    requires k <= |items|
    ensures r >= o
  {
    if k == 0 then o else Address(o, items, k - 1) + EntSize(|items[k-1].name|, items[k-1].room)
  }

  ghost predicate ItemHere(m: Bytes, o: nat, items: seq<Item>, k: nat)
    requires k < |items|
  {
    IsItem(m, Address(o, items, k), items[k])
  }

  /** The bytes from `o` to `end` are these entries. */
  ghost predicate AreItems(m: Bytes, o: nat, end: nat, items: seq<Item>) {
    Address(o, items, |items|) == end && forall k: nat :: k < |items| ==> ItemHere(m, o, items, k)
  }

  /** What is found at the address of entry `k`, and where the next one is. */
  lemma ItemAt(m: Bytes, o: nat, end: nat, items: seq<Item>, k: nat)
    requires AreItems(m, o, end, items) && k < |items|
    ensures var at, x := Address(o, items, k), items[k];
      && IsItem(m, at, x) && at < end
      && Address(o, items, k + 1) == at + Align8(FIELDS + 1 + NameLen(m, at) + Room(m, at)) <= end
  {
    assert ItemHere(m, o, items, k);
    AddressGrows(o, items, k, |items|);
  }

  lemma {:induction false} AddressGrows(o: nat, items: seq<Item>, j: nat, k: nat)
    requires j < k <= |items|
    ensures Address(o, items, j) + EntSize(|items[j].name|, items[j].room) <= Address(o, items, k)
  {
    if j + 1 < k { AddressGrows(o, items, j, k - 1); }
  }

  /** Addresses depend only on the sizes before them. */
  lemma {:induction false} AddressSame(o: nat, a: seq<Item>, b: seq<Item>, k: nat)
    requires k <= |a| && k <= |b| && forall j :: 0 <= j < k ==> |a[j].name| == |b[j].name| && a[j].room == b[j].room
    ensures Address(o, a, k) == Address(o, b, k)
  {
    if k > 0 { AddressSame(o, a, b, k - 1); }
  }

  /** An entry is read from its own bytes only. */
  lemma ItemKept(m: Bytes, n: Bytes, o: nat, x: Item)
    requires IsItem(m, o, x) && o + FIELDS + |x.name| <= |n|
    requires forall i :: o <= i < o + FIELDS + |x.name| ==> m[i] == n[i]
    ensures IsItem(n, o, x)
  {
    assert m[o..o + LINK] == n[o..o + LINK];
    assert m[o + FIELDS..o + FIELDS + |x.name|] == n[o + FIELDS..o + FIELDS + |x.name|];
  }

  /** Entries before `end` are not touched by what is written behind it. */
  lemma ItemsKept(m: Bytes, n: Bytes, o: nat, items: seq<Item>, k: nat)
    requires AreItems(m, o, Address(o, items, |items|), items) && k < |items|
    requires |m| <= |n| && forall i :: 0 <= i < Address(o, items, |items|) && i < |m| ==> m[i] == n[i]
    ensures IsItem(n, Address(o, items, k), items[k])
  {
    ItemAt(m, o, Address(o, items, |items|), items, k);
    AddressGrows(o, items, k, |items|);
    ItemKept(m, n, Address(o, items, k), items[k]);
  }

  lemma AddedOne(m: Bytes, n: Bytes, o: nat, items: seq<Item>, x: Item, k: nat)
    requires AreItems(m, o, Address(o, items, |items|), items) && k <= |items|
    requires IsItem(n, Address(o, items, |items|), x)
    requires |m| <= |n| && forall i :: 0 <= i < Address(o, items, |items|) && i < |m| ==> m[i] == n[i]
    ensures IsItem(n, Address(o, items + [x], k), (items + [x])[k])
  {
    AddressSame(o, items + [x], items, k);
    if k < |items| { ItemsKept(m, n, o, items, k); }
  }

  lemma AddressAdded(o: nat, items: seq<Item>, x: Item)
    ensures Address(o, items + [x], |items| + 1) == Address(o, items, |items|) + EntSize(|x.name|, x.room)
  {
    AddressSame(o, items + [x], items, |items|);
  }

  /** An entry added at the end. */
  lemma ItemsAdded(m: Bytes, n: Bytes, o: nat, end: nat, items: seq<Item>, x: Item)
    requires AreItems(m, o, end, items) && |m| <= |n| && IsItem(n, end, x)
    requires forall i :: 0 <= i < end && i < |m| ==> m[i] == n[i]
    ensures AreItems(n, o, end + EntSize(|x.name|, x.room), items + [x])
  {
    AddressAdded(o, items, x);
    var all := items + [x];
    forall k: nat | k < |all| ensures ItemHere(n, o, all, k) { AddedOne(m, n, o, items, x, k); }
  }

  /** The pointer of entry `k` replaced. */
  lemma ItemsAttached(m: Bytes, n: Bytes, o: nat, end: nat, items: seq<Item>, k: nat, p: Bytes)
    requires AreItems(m, o, end, items) && |m| == |n| && k < |items| && |p| == LINK
    requires PointerSet(m, n, Address(o, items, k), p)
    ensures AreItems(n, o, end, items[k := items[k].(children := p)])
  {
    var all := items[k := items[k].(children := p)];
    AddressSame(o, all, items, |items|);
    forall j: nat | j < |all| ensures ItemHere(n, o, all, j) {
      AddressSame(o, all, items, j);
      AttachedOne(m, n, o, end, items, k, p, j);
    }
  }

  lemma AttachedOne(m: Bytes, n: Bytes, o: nat, end: nat, items: seq<Item>, k: nat, p: Bytes, j: nat)
    requires AreItems(m, o, end, items) && |m| == |n| && k < |items| && j < |items| && |p| == LINK
    requires PointerSet(m, n, Address(o, items, k), p)
    ensures IsItem(n, Address(o, items, j), if j == k then items[j].(children := p) else items[j])
  {
    ItemAt(m, o, end, items, j);
    if j == k {
      ItemAttached(m, n, Address(o, items, k), items[k], p);
    } else {
      if j < k { AddressGrows(o, items, j, k); } else { AddressGrows(o, items, k, j); }
      ItemKept(m, n, Address(o, items, j), items[j]);
    }
  }

  ghost predicate PointerSet(m: Bytes, n: Bytes, at: nat, p: Bytes)
    requires |m| == |n| && |p| == LINK
  {
    && at + LINK <= |m| && n[at..at + LINK] == p
    && forall i :: 0 <= i < |m| && !(at <= i < at + LINK) ==> m[i] == n[i]
  }

  lemma ItemAttached(m: Bytes, n: Bytes, at: nat, x: Item, p: Bytes)
    requires IsItem(m, at, x) && |m| == |n| && |p| == LINK && PointerSet(m, n, at, p)
    ensures IsItem(n, at, x.(children := p))
  {
    assert n[at + FIELDS..at + FIELDS + |x.name|] == m[at + FIELDS..at + FIELDS + |x.name|];
  }

  /** Where entry `k` is, told from the one before it; the last is followed by the end. */
  lemma NextAt(m: Bytes, o: nat, end: nat, items: seq<Item>, k: nat)
    requires AreItems(m, o, end, items) && k <= |items|
    ensures Address(o, items, k) == end <==> k == |items|
    ensures k == 0 ==> Address(o, items, k) == o
    ensures k > 0 ==> var at := Address(o, items, k - 1);
      at + FIELDS <= |m| && Address(o, items, k) == at + Align8(FIELDS + 1 + NameLen(m, at) + Room(m, at))
  {
    if k < |items| { ItemAt(m, o, end, items, k); }
    if k > 0 { ItemAt(m, o, end, items, k - 1); }
  }

  // ------------------------------------------------------------ capacity

  /** Memory for a new block: the path and its end mark, in units of 512 bytes. */
  function FirstCapacity(path: nat): nat { (Max(path + 1, 512) + 511) / 512 * 512 }

  /** The header is not counted in: the path fits exactly if enough of its last unit is left. */
  lemma PathFitsIff(path: nat)
    ensures HEADER + path + 1 <= FirstCapacity(path) <==> 0 < (path + 1) % 512 <= 496
  {
    CapacityIs((path + 1) / 512, (path + 1) % 512);
  }

  lemma CapacityIs(units: nat, over: nat)
    requires over < 512 && 512 * units + over > 0
    ensures FirstCapacity(512 * units + over - 1) == 512 * (units + if over == 0 then 0 else 1)
  {
    assert (512 * units + over + 511) / 512 == units + (over + 511) / 512;
  }

  // ------------------------------------------------------------ the bytes of a new entry

  function NewBytes(name: Bytes, room: nat): (r: Bytes)
    requires |name| <= 0xFFFF && room <= 0xFF
    ensures |r| == FIELDS + |name| && r[..8] == [0, 0, 0, 0, 0, 0, 0, 0] && r[11..] == name
    ensures r[8] as int + 256 * r[9] as int == |name| && r[10] as int == room
  {
    NULL + [(|name| % 0x100) as Byte, (|name| / 0x100) as Byte, room as Byte] + name
  }

  lemma WroteItem(n: Bytes, at: nat, name: Bytes, room: nat)
    requires |name| <= 0xFFFF && room <= 0xFF && at + FIELDS + |name| <= |n|
    requires n[at..at + FIELDS + |name|] == NewBytes(name, room)
    ensures IsItem(n, at, Item(NULL, name, room))
  {
    var b := n[at..at + FIELDS + |name|];
    assert n[at..at + LINK] == b[..LINK] == NULL;
    assert n[at + FIELDS..at + FIELDS + |name|] == b[FIELDS..] == name;
    assert n[at + 8] == b[8] && n[at + 9] == b[9] && n[at + 10] == b[10];
  }

  /** Behind the entries, the bytes of a new one. */
  lemma Appended(m: Bytes, n: Bytes, o: nat, end: nat, items: seq<Item>, name: Bytes, room: nat)
    requires AreItems(m, o, end, items) && |name| <= 0xFFFF && room <= 0xFF
    requires |m| <= |n| && end + FIELDS + |name| <= |n|
    requires forall i :: 0 <= i < end && i < |m| ==> m[i] == n[i]
    requires n[end..end + FIELDS + |name|] == NewBytes(name, room)
    ensures AreItems(n, o, end + EntSize(|name|, room), items + [Item(NULL, name, room)])
  {
    WroteItem(n, end, name, room);
    ItemsAdded(m, n, o, end, items, Item(NULL, name, room));
  }

  /** The bytes of a block with this path and these entries. */
  ghost predicate IsBlock(m: Bytes, path: Bytes, size: nat, items: seq<Item>) {
    && First(|path|) <= size && HEADER + |path| < |m| && m[HEADER..HEADER + |path|] == path && m[HEADER + |path|] == 0
    && AreItems(m, First(|path|), size, items)
  }

  lemma BlockAdded(m: Bytes, n: Bytes, path: Bytes, size: nat, items: seq<Item>, name: Bytes, room: nat)
    requires IsBlock(m, path, size, items) && |name| <= 0xFFFF && room <= 0xFF
    requires |m| <= |n| && size + FIELDS + |name| <= |n|
    requires forall i :: 0 <= i < size && i < |m| ==> m[i] == n[i]
    requires n[size..size + FIELDS + |name|] == NewBytes(name, room)
    ensures IsBlock(n, path, size + EntSize(|name|, room), items + [Item(NULL, name, room)])
  {
    Appended(m, n, First(|path|), size, items, name, room);
    assert n[HEADER..HEADER + |path|] == m[HEADER..HEADER + |path|];
  }

  lemma BlockAttached(m: Bytes, n: Bytes, path: Bytes, size: nat, items: seq<Item>, k: nat, p: Bytes)
    requires IsBlock(m, path, size, items) && |m| == |n| && k < |items| && |p| == LINK
    requires PointerSet(m, n, Address(First(|path|), items, k), p)
    ensures IsBlock(n, path, size, items[k := items[k].(children := p)])
  {
    ItemsAttached(m, n, First(|path|), size, items, k, p);
    assert n[HEADER..HEADER + |path|] == m[HEADER..HEADER + |path|];
  }

  /** What became of a new entry: refused, written past the memory, or at an address. */
  datatype Added = Refused | Overrun | At(at: nat)

  /** A byte of memory once `s` was written at `at`. */
  function PutAt(m: Bytes, at: nat, s: Bytes, i: nat): Byte
    requires i < |m|
  {
    if at <= i < at + |s| then s[i - at] else m[i]
  }

  /** The memory of a block that is to have a given size. */
  function Grown(cap: nat, size: nat): nat { if size > cap then 2 * cap else cap }

  class Packed {
    var mem: array<Byte>
    var size: nat
    var pathLen: nat
    var count: nat
    ghost var path: Bytes
    ghost var items: seq<Item>

    ghost predicate Valid()
      reads this, mem
    {
      |path| == pathLen && count == |items| && IsBlock(mem[..], path, size, items)
    }

    /** Memory for a block, its bytes not written yet. */
    constructor Allocate(cap: nat)
      ensures fresh(mem) && mem.Length == cap && items == [] && count == 0
    {
      mem, pathLen, size, count := new Byte[cap], 0, 0, 0;
      path, items := [], [];
    }

    /** Writes bytes one after the other at an address. False if one of them falls behind the
        memory. */
    method Put(at: nat, s: Bytes) returns (inside: bool)
      modifies mem
      ensures inside <==> s == [] || at + |s| <= mem.Length
      ensures inside ==> forall i :: 0 <= i < mem.Length ==> mem[i] == PutAt(old(mem[..]), at, s, i)
    {
      for k := 0 to |s|
        invariant k == 0 || at + k <= mem.Length
        invariant forall i :: 0 <= i < mem.Length ==> mem[i] == PutAt(old(mem[..]), at, s[..k], i)
      {
        if at + k >= mem.Length { return false; }
        mem[at + k] := s[k];
      }
      assert s[..|s|] == s;
      inside := true;
    }

    /** Moves the block to twice the memory. */
    method Grow()
      modifies this`mem
      ensures fresh(mem) && mem.Length == 2 * old(mem.Length)
      ensures forall i :: 0 <= i < old(mem.Length) ==> mem[i] == old(mem[i])
    {
      var was := mem;
      var m := new Byte[2 * was.Length];
      for k := 0 to was.Length
        invariant mem == was && forall i :: 0 <= i < k ==> m[i] == was[i]
        invariant forall i :: 0 <= i < was.Length ==> was[i] == old(mem[i])
      {
        m[k] := was[k];
      }
      mem := m;
    }

    /** Adds an entry with no children. Refuses a name or data too long for their fields. The
        memory is doubled once if the new size passes it. The fields and the name are then written;
        if they do not fit the code has written past the memory and nothing is promised. If they do,
        the entry is there, even if the room for its owner's data lies past the memory. */
    method Add(name: Bytes, room: nat) returns (r: Added)
      requires Valid()
      modifies this, mem
      ensures r.Refused? <==> |name| > 0xFFFF || room > 0xFF
      ensures var cap := Grown(old(mem.Length), old(size) + EntSize(|name|, room));
        r.Overrun? <==> !r.Refused? && old(size) + FIELDS + |name| > cap
      ensures !r.Overrun? ==> Valid() && path == old(path) && (mem == old(mem) || fresh(mem))
      ensures r.At? ==> r.at == old(size) && items == old(items) + [Item(NULL, name, room)]
      ensures r.At? ==> size == old(size) + EntSize(|name|, room) && mem.Length == Grown(old(mem.Length), size)
      ensures r.Refused? ==> items == old(items) && size == old(size) && mem == old(mem)
    {
      if |name| > 0xFFFF || room > 0xFF { return Refused; }
      ghost var was := mem[..];
      var at := size;
      var inside := Write(name, room);
      if !inside { return Overrun; }
      BlockAdded(was, mem[..], path, size, items, name, room);
      items, count, size := items + [Item(NULL, name, room)], count + 1, size + EntSize(|name|, room);
      r := At(at);
    }

    /** Doubles the memory if the new size passes it and writes the bytes of a new entry. */
    method Write(name: Bytes, room: nat) returns (inside: bool)
      requires |name| <= 0xFFFF && room <= 0xFF
      modifies this`mem, mem
      ensures (mem == old(mem) || fresh(mem)) && mem.Length == Grown(old(mem.Length), size + EntSize(|name|, room))
      ensures inside <==> size + FIELDS + |name| <= mem.Length
      ensures inside ==> forall i :: 0 <= i < size && i < old(mem.Length) ==> mem[i] == old(mem[i])
      ensures inside ==> mem[..][size..size + FIELDS + |name|] == NewBytes(name, room)
    {
      var newsize := size + EntSize(|name|, room);
      if newsize > mem.Length { Grow(); }
      var bytes := NewBytes(name, room);
      inside := Put(size, bytes);
      assert inside ==> mem[..][size..size + |bytes|] == bytes;
    }

    /** Entry number `k`, after the one before it (none before the first). */
    method Next(cur: Option<nat>, ghost k: nat) returns (r: Option<nat>)
      requires Valid() && k <= |items|
      requires cur == if k == 0 then None else Some(Address(First(pathLen), items, k - 1))
      ensures r == if k < |items| then Some(Address(First(pathLen), items, k)) else None
    {
      NextAt(mem[..], First(pathLen), size, items, k);
      var e := First(pathLen);
      if cur.Some? {
        e := cur.value + Align8(FIELDS + 1 + NameLen(mem[..], cur.value) + Room(mem[..], cur.value));
      }
      r := if e == size then None else Some(e);
    }

    method Name(at: nat, ghost k: nat) returns (s: Bytes)
      requires Valid() && k < |items| && at == Address(First(pathLen), items, k)
      ensures s == items[k].name
    {
      ItemAt(mem[..], First(pathLen), size, items, k);
      s := mem[at + FIELDS..at + FIELDS + NameLen(mem[..], at)];
      assert s == mem[..][at + FIELDS..at + FIELDS + |items[k].name|];
    }

    /** Walking the block gives the names in the order they were added. */
    method Names() returns (names: seq<Bytes>)
      requires Valid()
      ensures |names| == |items| == count && forall k :: 0 <= k < |names| ==> names[k] == items[k].name
    {
      names := [];
      var cur := Next(None, 0);
      while cur.Some?
        invariant |names| <= |items| && forall k :: 0 <= k < |names| ==> names[k] == items[k].name
        invariant cur == if |names| < |items| then Some(Address(First(pathLen), items, |names|)) else None
        decreases |items| - |names|
      {
        var s := Name(cur.value, |names|);
        names := names + [s];
        cur := Next(cur, |names|);
      }
    }

    /** Gives an entry a child block, by its address; the old one is returned. */
    method Attach(at: nat, child: Bytes, ghost k: nat) returns (was: Bytes)
      requires Valid() && k < |items| && at == Address(First(pathLen), items, k) && |child| == LINK
      modifies mem, this`items
      ensures Valid() && was == old(items)[k].children && items == old(items)[k := old(items)[k].(children := child)]
    {
      ghost var m := mem[..];
      ItemAt(m, First(pathLen), size, items, k);
      was := mem[at..at + LINK];
      assert was == m[at..at + LINK];
      var inside := Put(at, child);
      assert mem[..][at..at + LINK] == child;
      BlockAttached(m, mem[..], path, size, items, k, child);
      items := items[k := items[k].(children := child)];
    }
  }

  /** A block without entries. None if the path was written past the memory, which is allocated
      without counting the header in. */
  method Create(path: Bytes) returns (b: Option<Packed>)
    ensures b.Some? <==> 0 < (|path| + 1) % 512 <= 496
    ensures b.Some? ==> fresh(b.value) && fresh(b.value.mem) && b.value.mem.Length == FirstCapacity(|path|)
    ensures b.Some? ==> b.value.Valid() && b.value.path == path && b.value.items == [] && b.value.size == First(|path|)
  {
    PathFitsIff(|path|);
    var p := new Packed.Allocate(FirstCapacity(|path|));
    var inside := p.Put(HEADER, path + [0]);
    if !inside { return None; }
    p.pathLen, p.size, p.path := |path|, First(|path|), path;
    forall i | 0 <= i < |path| ensures p.mem[HEADER + i] == path[i] { assert path[i] == (path + [0])[i]; }
    assert p.mem[HEADER..HEADER + |path|] == path;
    b := Some(p);
  }

  /** A name that ends with the last byte of the doubled memory is still written inside it,
      although the block's size then passes the memory; one byte more is not. */
  method NameToTheLastByte(name: Bytes) returns (r: Added, passes: bool)
    requires 989 <= |name| <= 990
    ensures r.At? && passes <==> |name| == 989
    ensures r.Overrun? <==> |name| == 990
  {
    var b := Create([]);
    r := b.value.Add(name, 0);
    passes := b.value.size > b.value.mem.Length;
  }
}
