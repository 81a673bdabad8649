/** mem.c: memory regions, the steering tags created on them, and the balanced tree that
    finds a tag's descriptor. */
module MemRegistry {
  import opened AvlTree
  import opened AvlHeap
  import opened AvlHeight
  import opened AvlTable
  import AvlDestroy
  import opened Stags
  import opened MpaLayout

  const EINVAL: int := 22
  const EBUSY: int := 16
  const GROW: nat := 10

  /** mem_desc_t: a pointer into one allocation of the region array. */
  datatype Handle = Handle(gen: nat, index: nat)

  /** stag_desc_t; descriptors are known by the address that Malloc gave them. */
  datatype Desc = Desc(mr: Handle, range: Stag, stag: nat)

  /** mem_region_t; `tags` is the singly linked list, newest first. */
  datatype Mr = Mr(addr: nat, len: nat, valid: bool, tags: seq<nat>)

  // ----- the comparison function -----

  const INT_MAX: int := 0x7FFF_FFFF

  /** Signed 32-bit subtraction, wrapping around. */
  function Minus32(a: int, b: int): int {
    var d := (a - b) % 0x1_0000_0000;
    if d > INT_MAX then d - 0x1_0000_0000 else d
  }

  /** mem_avl_stag_comp orders tags as numbers, unless their difference leaves 32 bits:
      never for tags that are not negative. */
  lemma CompareTags(a: int, b: int)
    requires -INT_MAX - 1 <= a <= INT_MAX && -INT_MAX - 1 <= b <= INT_MAX
    ensures (Minus32(a, b) < 0 <==> a < b) && (Minus32(a, b) == 0 <==> a == b) <==> -INT_MAX - 1 <= a - b <= INT_MAX
    ensures a >= 0 && b >= 0 ==> -INT_MAX - 1 <= a - b <= INT_MAX
  {
  }

  // ----- lists -----

  ghost predicate NoDup(s: seq<nat>) { forall i, j :: 0 <= i < j < |s| ==> s[i] != s[j] }

  /** Unlinks the entry that points to x. */
  function Unlinked(s: seq<nat>, x: nat): seq<nat> {
    if s == [] then [] else if s[0] == x then s[1..] else [s[0]] + Unlinked(s[1..], x)
  }

  lemma {:induction false} UnlinkedIs(s: seq<nat>, x: nat)
    requires NoDup(s)
    ensures NoDup(Unlinked(s, x)) && (forall y :: y in Unlinked(s, x) <==> y in s && y != x)
  {
    if s != [] {
      assert NoDup(s[1..]);
      UnlinkedIs(s[1..], x);
      assert s == [s[0]] + s[1..];
      if s[0] != x {
        var u := Unlinked(s[1..], x);
        assert s[0] !in s[1..];
        assert s[0] !in u;
      }
    }
  }

  lemma {:induction false} UnlinkedAt(pre: seq<nat>, x: nat, post: seq<nat>)
    requires x !in pre
    ensures Unlinked(pre + [x] + post, x) == pre + post
  {
    var s := pre + [x] + post;
    if pre == [] {
      assert s[1..] == post && pre + post == post;
    } else {
      assert s[1..] == pre[1..] + [x] + post;
      UnlinkedAt(pre[1..], x, post);
      assert [pre[0]] + (pre[1..] + post) == pre + post;
    }
  }

  lemma {:induction false} UnlinkedNone(s: seq<nat>, x: nat)
    requires x !in s
    ensures Unlinked(s, x) == s
  {
    if s != [] {
      UnlinkedNone(s[1..], x);
    }
  }

  /** The loop of mem_stag_destroy over the region's list. */
  method Unlink(s: seq<nat>, x: nat) returns (r: seq<nat>)
    ensures r == Unlinked(s, x)
  {
    var k := 0;
    while k < |s|
      invariant 0 <= k <= |s| && x !in s[..k]
    {
      if s[k] == x {
        assert s == s[..k] + [x] + s[k + 1..];
        UnlinkedAt(s[..k], x, s[k + 1..]);
        return s[..k] + s[k + 1..];
      }
      k := k + 1;
    }
    assert s[..k] == s;
    UnlinkedNone(s, x);
    return s;
  }

  // ----- the tree's items -----

  lemma {:induction false} InsertMembers(s: seq<Item>, it: Item)
    ensures forall x :: x in InsertSorted(s, it) <==> x in s || x == it
    ensures |InsertSorted(s, it)| == |s| + 1
  {
    if s != [] {
      InsertMembers(s[1..], it);
      assert s == [s[0]] + s[1..];
    }
  }

  lemma {:induction false} RemoveMembers(s: seq<Item>, key: int)
    requires Sorted(s)
    ensures forall x :: x in RemoveKey(s, key) <==> x in s && x.key != key
    ensures |RemoveKey(s, key)| == if HasKey(s, key) then |s| - 1 else |s|
  {
    if s != [] {
      assert Sorted(s[1..]) by {
        assert forall i :: 0 <= i < |s[1..]| ==> s[1..][i] == s[i + 1];
      }
      RemoveMembers(s[1..], key);
      assert s == [s[0]] + s[1..];
      HasKeyTail(s, key);
    }
  }

  lemma HasKeyTail(s: seq<Item>, key: int)
    requires s != [] && Sorted(s)
    ensures HasKey(s, key) <==> s[0].key == key || HasKey(s[1..], key)
    ensures s[0].key == key ==> forall x :: x in s[1..] ==> x.key != key
  {
    assert forall i :: 0 <= i < |s[1..]| ==> s[1..][i] == s[i + 1];
  }

  lemma KeyUnique(s: seq<Item>, x: Item, y: Item)
    requires Sorted(s) && x in s && y in s && x.key == y.key
    ensures x == y
  {
  }

  lemma HasKeyIn(s: seq<Item>, key: int)
    ensures HasKey(s, key) <==> exists x :: x in s && x.key == key
  {
    if HasKey(s, key) {
      var i :| 0 <= i < |s| && s[i].key == key;
      assert s[i] in s;
    }
  }

  // ----- agreement between the tree and the region lists -----

  /** A descriptor whose item is in the tree is on the list of its own, valid region. */
  ghost predicate Listed(it: Item, regions: seq<Mr>, gen: nat, descs: map<nat, Desc>) {
    && it.ref in descs && descs[it.ref].stag == it.key && descs[it.ref].mr.gen == gen
    && var i := descs[it.ref].mr.index;
    && i < |regions| && regions[i].valid && it.ref in regions[i].tags
  }

  /** A descriptor on the list of a valid region is in the tree, and its range lies inside
      the region. */
  ghost predicate Treed(ref: nat, i: nat, r: Mr, items: seq<Item>, gen: nat, descs: map<nat, Desc>) {
    && ref in descs && descs[ref].mr == Handle(gen, i) && Item(descs[ref].stag, ref) in items
    && r.addr <= descs[ref].range.start < descs[ref].range.end <= r.addr + r.len
  }

  ghost predicate Agrees(items: seq<Item>, regions: seq<Mr>, gen: nat, descs: map<nat, Desc>) {
    && (forall it :: it in items ==> Listed(it, regions, gen, descs))
    && (forall i :: 0 <= i < |regions| && regions[i].valid ==>
          NoDup(regions[i].tags)
          && forall ref :: ref in regions[i].tags ==> Treed(ref, i, regions[i], items, gen, descs))
    && (forall ref :: ref in descs ==> Item(descs[ref].stag, ref) in items)
  }

  /** The tree and the descriptors, whatever becomes of the regions. */
  ghost predicate Described(items: seq<Item>, descs: map<nat, Desc>) {
    && (forall it :: it in items ==> it.ref in descs && descs[it.ref].stag == it.key)
    && (forall ref :: ref in descs ==> Item(descs[ref].stag, ref) in items)
  }

  lemma AgreesDescribed(items: seq<Item>, regions: seq<Mr>, gen: nat, descs: map<nat, Desc>)
    requires Agrees(items, regions, gen, descs)
    ensures Described(items, descs)
  {
    forall it | it in items ensures it.ref in descs && descs[it.ref].stag == it.key {
      assert Listed(it, regions, gen, descs);
    }
  }

  /** Each live descriptor is on one list only. */
  lemma OneList(items: seq<Item>, regions: seq<Mr>, gen: nat, descs: map<nat, Desc>, i: nat, j: nat, ref: nat)
    requires Agrees(items, regions, gen, descs)
    requires i < |regions| && j < |regions| && regions[i].valid && regions[j].valid
    requires ref in regions[i].tags && ref in regions[j].tags
    ensures i == j
  {
    assert Treed(ref, i, regions[i], items, gen, descs) && Treed(ref, j, regions[j], items, gen, descs);
  }

  lemma AgreesCreate(items: seq<Item>, regions: seq<Mr>, gen: nat, descs: map<nat, Desc>, i: nat, ref: nat, d: Desc)
    requires Agrees(items, regions, gen, descs) && i < |regions| && regions[i].valid && ref !in descs
    requires d.mr == Handle(gen, i) && regions[i].addr <= d.range.start < d.range.end <= regions[i].addr + regions[i].len
    ensures Agrees(InsertSorted(items, Item(d.stag, ref)), regions[i := regions[i].(tags := [ref] + regions[i].tags)],
                   gen, descs[ref := d])
  {
    hide InsertSorted;
    var items2 := InsertSorted(items, Item(d.stag, ref));
    var regions2 := regions[i := regions[i].(tags := [ref] + regions[i].tags)];
    var descs2 := descs[ref := d];
    InsertMembers(items, Item(d.stag, ref));
    forall it | it in items2 ensures Listed(it, regions2, gen, descs2) {
      if it in items {
        assert Listed(it, regions, gen, descs);
      }
    }
    forall j | 0 <= j < |regions2| && regions2[j].valid
      ensures NoDup(regions2[j].tags)
      ensures forall r :: r in regions2[j].tags ==> Treed(r, j, regions2[j], items2, gen, descs2)
    {
      assert forall r :: r in regions[j].tags ==> Treed(r, j, regions[j], items, gen, descs);
      assert ref !in regions[j].tags;
    }
  }

  /** The missing check in mem_stag_create: the new tag leaves tree and lists in agreement
      exactly when its region is valid. */
  lemma CreateNeedsValid(items: seq<Item>, regions: seq<Mr>, gen: nat, descs: map<nat, Desc>, i: nat, ref: nat, d: Desc)
    requires Agrees(items, regions, gen, descs) && i < |regions| && ref !in descs
    requires d.mr == Handle(gen, i) && regions[i].addr <= d.range.start < d.range.end <= regions[i].addr + regions[i].len
    ensures Agrees(InsertSorted(items, Item(d.stag, ref)), regions[i := regions[i].(tags := [ref] + regions[i].tags)],
                   gen, descs[ref := d])
            <==> regions[i].valid
  {
    hide InsertSorted;
    if regions[i].valid {
      AgreesCreate(items, regions, gen, descs, i, ref, d);
    } else {
      var regions2 := regions[i := regions[i].(tags := [ref] + regions[i].tags)];
      InsertMembers(items, Item(d.stag, ref));
      assert !Listed(Item(d.stag, ref), regions2, gen, descs[ref := d]);
    }
  }

  lemma AgreesDestroy(items: seq<Item>, regions: seq<Mr>, gen: nat, descs: map<nat, Desc>, it: Item)
    requires Agrees(items, regions, gen, descs) && Sorted(items) && it in items
    ensures Listed(it, regions, gen, descs)
    ensures var i := descs[it.ref].mr.index;
            Agrees(RemoveKey(items, it.key), regions[i := regions[i].(tags := Unlinked(regions[i].tags, it.ref))],
                   gen, descs - {it.ref})
  {
    hide RemoveKey, Unlinked, Sorted;
    assert Listed(it, regions, gen, descs);
    var i := descs[it.ref].mr.index;
    var items2 := RemoveKey(items, it.key);
    var regions2 := regions[i := regions[i].(tags := Unlinked(regions[i].tags, it.ref))];
    var descs2 := descs - {it.ref};
    RemoveMembers(items, it.key);
    UnlinkedIs(regions[i].tags, it.ref);
    forall x | x in items2 ensures Listed(x, regions2, gen, descs2) {
      assert Listed(x, regions, gen, descs);
    }
    forall j | 0 <= j < |regions2| && regions2[j].valid
      ensures NoDup(regions2[j].tags)
      ensures forall r :: r in regions2[j].tags ==> Treed(r, j, regions2[j], items2, gen, descs2)
    {
      forall r | r in regions2[j].tags ensures Treed(r, j, regions2[j], items2, gen, descs2) {
        assert Treed(r, j, regions[j], items, gen, descs);
        NotThatOne(items, regions, gen, descs, it, j, r);
      }
    }
    forall r | r in descs2 ensures Item(descs2[r].stag, r) in items2 {
      if descs[r].stag == it.key {
        KeyUnique(items, Item(descs[r].stag, r), it);
      }
    }
  }

  /** A descriptor other than the one removed has another tag, and is not that one. */
  lemma NotThatOne(items: seq<Item>, regions: seq<Mr>, gen: nat, descs: map<nat, Desc>, it: Item, j: nat, r: nat)
    requires Agrees(items, regions, gen, descs) && Sorted(items) && it in items
    requires j < |regions| && regions[j].valid && r in regions[j].tags
    ensures Listed(it, regions, gen, descs) && Treed(r, j, regions[j], items, gen, descs)
    ensures r == it.ref ==> j == descs[it.ref].mr.index
    ensures r != it.ref ==> descs[r].stag != it.key
  {
    hide Sorted;
    assert Listed(it, regions, gen, descs) && Treed(r, j, regions[j], items, gen, descs);
    if descs[r].stag == it.key {
      KeyUnique(items, Item(descs[r].stag, r), it);
    }
  }

  lemma AgreesEmptyRegion(items: seq<Item>, regions: seq<Mr>, gen: nat, descs: map<nat, Desc>, i: nat, r: Mr)
    requires Agrees(items, regions, gen, descs) && i < |regions| && r.tags == []
    requires regions[i].valid ==> regions[i].tags == []
    ensures Agrees(items, regions[i := r], gen, descs)
  {
    forall it | it in items ensures Listed(it, regions[i := r], gen, descs) {
      assert Listed(it, regions, gen, descs);
    }
  }

  lemma NoLiveTags(items: seq<Item>, regions: seq<Mr>, gen: nat, descs: map<nat, Desc>)
    requires Agrees(items, regions, gen, descs) && items == []
    ensures descs == map[]
    ensures forall i :: 0 <= i < |regions| && regions[i].valid ==> regions[i].tags == []
  {
    forall i | 0 <= i < |regions| && regions[i].valid ensures regions[i].tags == [] {
      forall ref ensures ref !in regions[i].tags {
        NotTreed(ref, i, regions[i], gen, descs);
      }
      SomeIn(regions[i].tags);
    }
  }

  /** Growing the array moves it: tree and lists then agree exactly when no tag is live, and
      every live descriptor is left with a pointer into the old array. */
  lemma GrowNeedsNoTags(items: seq<Item>, regions: seq<Mr>, gen: nat, descs: map<nat, Desc>, more: seq<Mr>)
    requires Agrees(items, regions, gen, descs)
    requires forall i :: 0 <= i < |more| && more[i].valid ==>
               more[i].tags == [] || (i < |regions| && more[i] == regions[i])
    ensures Agrees(items, more, gen + 1, descs) <==> items == []
    ensures forall ref :: ref in descs ==> descs[ref].mr.gen == gen
  {
    if items == [] {
      NoLiveTags(items, regions, gen, descs);
    } else {
      assert items[0] in items;
      assert Listed(items[0], regions, gen, descs);
      assert !Listed(items[0], more, gen + 1, descs);
    }
    forall ref | ref in descs ensures descs[ref].mr.gen == gen {
      assert Listed(Item(descs[ref].stag, ref), regions, gen, descs);
    }
  }

  lemma NotTreed(ref: nat, i: nat, r: Mr, gen: nat, descs: map<nat, Desc>)
    ensures !Treed(ref, i, r, [], gen, descs)
  {
  }

  lemma SomeIn<T>(s: seq<T>)
    ensures s != [] ==> exists x :: x in s
  {
    if s != [] {
      assert s[0] in s;
    }
  }

  // ----- the registry -----

  class Registry {
    const table: Table
    var regions: seq<Mr>
    var gen: nat
    var descs: map<nat, Desc>
    /** Addresses from here on have not been handed out by Malloc. */
    var next: nat
    /** stag_next_counter. */
    var counter: nat

    ghost function Items1(): seq<Item>
      reads this, table
    {
      Items(table.tree)
    }

    /** What holds even when regions and descriptors have come apart. */
    ghost predicate Base()
      reads this, table, table.head, NodeSet(table.tree)
    {
      && table.Valid() && table.count < MAX_ITEMS
      && Described(Items1(), descs)
      && (forall ref :: ref in descs ==> ref < next)
    }

    ghost predicate Valid()
      reads this, table, table.head, NodeSet(table.tree)
    {
      Base() && Agrees(Items1(), regions, gen, descs)
    }

    /** mem_init. */
    constructor ()
      ensures Valid() && fresh(table) && fresh(table.head)
      ensures Items1() == [] && regions == [] && descs == map[] && counter == 1
    {
      table := new Table();
      regions, gen, descs, next, counter := [], 0, map[], 0, 1;
    }

    /** mr_from_md. */
    predicate Current(md: Handle)
      reads this
    {
      md.gen == gen && md.index < |regions|
    }

    predicate HasSlot()
      reads this
    {
      exists i :: 0 <= i < |regions| && !regions[i].valid
    }

    /** mem_register. The array grows only when no slot is free. Growing moves it and makes
        every handle given out before stale, those in the live descriptors included: tree
        and lists agree afterwards exactly when there was a slot, or no tag was live. */
    method Register(addr: nat, len: nat) returns (md: Handle)
      requires Valid()
      modifies `regions, `gen
      ensures Base() && Current(md) && regions[md.index] == Mr(addr, len, true, [])
      ensures Valid() <==> old(HasSlot()) || old(Items1()) == []
      ensures old(HasSlot()) ==>
                && gen == old(gen) && |regions| == |old(regions)| && !old(regions)[md.index].valid
                && regions == old(regions)[md.index := regions[md.index]]
      ensures forall j :: 0 <= j < md.index ==> j < |old(regions)| && old(regions)[j].valid
      ensures !old(HasSlot()) ==>
                && md.index == |old(regions)| && |regions| == |old(regions)| + 10 && regions[..md.index] == old(regions)
                && (forall j :: md.index < j < |regions| ==> !regions[j].valid)
                && HasSlot()
                && (forall h: Handle :: old(Current(h)) ==> !Current(h))
                && (forall ref :: ref in descs ==> !Current(descs[ref].mr))
    {
      hide Agrees, Described;
      var i := 0;
      while i < |regions| && regions[i].valid
        invariant 0 <= i <= |regions| && forall j :: 0 <= j < i ==> regions[j].valid
      {
        i := i + 1;
      }
      if i == |regions| {
        GrowNeedsNoTags(Items1(), regions, gen, descs, (regions + Invalid(GROW))[i := Mr(addr, len, true, [])]);
        regions := regions + Invalid(GROW);
        gen := gen + 1;
      } else {
        AgreesEmptyRegion(Items1(), regions, gen, descs, i, Mr(addr, len, true, []));
      }
      regions := regions[i := Mr(addr, len, true, [])];
      assert i == |old(regions)| ==> !regions[i + 1].valid;
      md := Handle(gen, i);
    }

    function Invalid(n: nat): (r: seq<Mr>)
      ensures |r| == n && forall i :: 0 <= i < n ==> !r[i].valid
    {
      seq(n, _ => Mr(0, 0, false, []))
    }

    /** mem_deregister: refused while any tag lives on the region. */
    method Deregister(md: Handle) returns (ret: int)
      requires Valid()
      modifies `regions
      ensures Valid()
      ensures ret == -EINVAL <==> !old(Current(md))
      ensures ret == -EBUSY <==> old(Current(md)) && old(regions)[md.index].tags != []
      ensures ret == 0 <==> old(Current(md)) && old(regions)[md.index].tags == []
      ensures regions == if ret == 0 then old(regions)[md.index := old(regions)[md.index].(valid := false)] else old(regions)
    {
      if !Current(md) {
        return -EINVAL;
      }
      if regions[md.index].tags != [] {
        return -EBUSY;
      }
      AgreesEmptyRegion(Items1(), regions, gen, descs, md.index, regions[md.index].(valid := false));
      regions := regions[md.index := regions[md.index].(valid := false)];
      return 0;
    }

    /** avl_insert: whether an item with this key was there already. */
    method Insert(it: Item) returns (collision: bool)
      requires table.Valid() && table.count < MAX_ITEMS && it !in Items1()
      modifies table`count, table`generation, table`tree, table.head`link0, table.head`link1
      modifies NodeSet(table.tree)`link0, NodeSet(table.tree)`link1, NodeSet(table.tree)`balance
      ensures table.Valid() && (forall n :: n in NodeSet(table.tree) ==> n in old(NodeSet(table.tree)) || fresh(n))
      ensures collision <==> HasKey(old(Items1()), it.key)
      ensures collision ==> table.tree == old(table.tree) && table.count == old(table.count)
      ensures !collision ==> Items1() == InsertSorted(old(Items1()), it) && table.count == old(table.count) + 1
    {
      hide NodeSet, Items, Avl, InsertSorted, Sorted;
      ghost var before := Items1();
      var p := table.Probe(it);
      InsertMembers(before, it);
      collision := p.data != it;
      if HasKey(before, it.key) {
        NodeItem(table.tree, table.head.link0, p);
      }
    }

    /** Tags of the tree from the counter on: what the collision loop may still run into. */
    static ghost function Ahead(items: seq<Item>, c: int): set<int> {
      set it | it in items && it.key >= c :: it.key
    }

    static lemma AheadStep(items: seq<Item>, c: int)
      requires HasKey(items, c)
      ensures Ahead(items, c + 1) < Ahead(items, c) && |Ahead(items, c + 1)| < |Ahead(items, c)|
    {
      HasKeyIn(items, c);
      var x :| x in items && x.key == c;
      assert c in Ahead(items, c) && c !in Ahead(items, c + 1);
      forall k | k in Ahead(items, c + 1) ensures k in Ahead(items, c) {
        var y :| y in items && y.key >= c + 1 && y.key == k;
      }
      Subset(Ahead(items, c + 1), Ahead(items, c));
    }

    static lemma Subset(a: set<int>, b: set<int>)
      requires a < b
      ensures |a| < |b|
    {
      assert b == a + (b - a) && b - a != {};
    }

    /** mem_stag_create. The source does not look at the region's valid flag; a tag on an
        invalid region is in the tree but on no list of a valid one. */
    method StagCreate(md: Handle, start: nat, end: nat, read: bool, write: bool) returns (ret: int)
      requires Valid() && table.count + 1 < MAX_ITEMS
      modifies this, table`count, table`generation, table`tree, table.head`link0, table.head`link1
      modifies NodeSet(table.tree)`link0, NodeSet(table.tree)`link1, NodeSet(table.tree)`balance
      ensures Base() && (forall n :: n in NodeSet(table.tree) ==> n in old(NodeSet(table.tree)) || fresh(n))
      ensures gen == old(gen) && |regions| == |old(regions)| && table.count <= old(table.count) + 1
      ensures ret == -EINVAL <==> !old(Current(md)) || start >= end || end > old(regions)[md.index].len
      ensures Valid() <==> ret == -EINVAL || old(regions)[md.index].valid
      ensures ret == -EINVAL ==>
                Items1() == old(Items1()) && regions == old(regions) && descs == old(descs) && counter == old(counter)
      ensures ret != -EINVAL ==>
                && old(counter) <= ret < counter && !HasKey(old(Items1()), ret)
                && (forall k :: old(counter) <= k < ret ==> HasKey(old(Items1()), k))
                && old(next) !in old(descs) && Items1() == InsertSorted(old(Items1()), Item(ret, old(next)))
                && (var r := old(regions)[md.index];
                    && regions == old(regions)[md.index := r.(tags := [old(next)] + r.tags)]
                    && descs == old(descs)[old(next) := Desc(md, Stag(r.addr + start, r.addr + end, read, write), ret)])
    {
      hide Agrees, Described, NodeSet, Items, Avl, Zip, Sorted, InsertSorted, HasKey, Ahead;
      NodesAllocated(table.tree);
      if !Current(md) || start >= end || end > regions[md.index].len {
        return -EINVAL;
      }
      ghost var items := Items1();
      var ref, r := next, regions[md.index];
      next := next + 1;
      var stag := counter;
      counter := counter + 1;
      FreshRef(items, regions, gen, descs, ref, stag);
      var collision := Insert(Item(stag, ref));
      while collision
        invariant collision ==> Items1() == items && table.count == old(table.count)
        invariant table.Valid() && (forall n :: n in NodeSet(table.tree) ==> n in old(NodeSet(table.tree)) || fresh(n))
        invariant regions == old(regions) && gen == old(gen) && descs == old(descs) && next == old(next) + 1
        invariant old(counter) <= stag && counter == stag + 1
        invariant forall k :: old(counter) <= k < stag ==> HasKey(items, k)
        invariant collision == HasKey(items, stag)
        invariant !collision ==> Items1() == InsertSorted(items, Item(stag, ref)) && table.count == old(table.count) + 1
        decreases |Ahead(items, stag)|, if collision then 1 else 0
      {
        AheadStep(items, stag);
        stag := counter;
        counter := counter + 1;
        FreshRef(items, regions, gen, descs, ref, stag);
        NodesAllocated(table.tree);
        collision := Insert(Item(stag, ref));
      }
      var d := Desc(md, Stag(r.addr + start, r.addr + end, read, write), stag);
      CreateNeedsValid(items, regions, gen, descs, md.index, ref, d);
      DescribedCreate(items, descs, ref, d);
      NodesAllocated(table.tree);
      regions := regions[md.index := r.(tags := [ref] + r.tags)];
      descs := descs[ref := d];
      return stag;
    }

    static lemma DescribedCreate(items: seq<Item>, descs: map<nat, Desc>, ref: nat, d: Desc)
      requires Described(items, descs) && ref !in descs
      ensures Described(InsertSorted(items, Item(d.stag, ref)), descs[ref := d])
    {
      hide InsertSorted;
      InsertMembers(items, Item(d.stag, ref));
    }

    static lemma FreshRef(items: seq<Item>, regions: seq<Mr>, gen: nat, descs: map<nat, Desc>, ref: nat, stag: int)
      requires Agrees(items, regions, gen, descs) && ref !in descs
      ensures Item(stag, ref) !in items
    {
      assert Item(stag, ref) in items ==> Listed(Item(stag, ref), regions, gen, descs);
    }

    /** mem_stag_destroy. `stale` says that the descriptor points into an array that has
        been given back; the source goes on to read there, the model stops. */
    method StagDestroy(stag: int) returns (ret: int, stale: bool)
      requires Base()
      modifies `regions, `descs, table`count, table`generation, table`tree
      modifies table.head`link0, table.head`link1, table.head`balance
      modifies NodeSet(table.tree)`link0, NodeSet(table.tree)`link1, NodeSet(table.tree)`balance
      ensures table.Valid() && NodeSet(table.tree) <= old(NodeSet(table.tree)) && table.count <= old(table.count)
      ensures |regions| == |old(regions)|
      ensures ret == -EINVAL <==> !HasKey(old(Items1()), stag)
      ensures ret == -EINVAL ==> Items1() == old(Items1()) && regions == old(regions) && descs == old(descs)
      ensures stale <==> exists ref :: ref in old(descs) && old(descs)[ref].stag == stag && !old(Current(descs[ref].mr))
      ensures old(Valid()) ==> Valid() && !stale
      ensures old(Valid()) && ret != -EINVAL ==>
                && ret == 0 && Items1() == RemoveKey(old(Items1()), stag) && !HasKey(Items1(), stag)
                && exists ref :: ref in old(descs) && Gone(stag, ref, old(regions), old(descs), regions, descs)
    {
      hide Agrees, Described, NodeSet, Items, Avl, Zip, Sorted, RemoveKey, HasKey, Unlinked;
      NodesAllocated(table.tree);
      ghost var items := Items1();
      stale := false;
      TreeSorted();
      WhichDesc(stag);
      var r, gone := table.Delete(stag);
      if r == NotFound {
        return -EINVAL, false;
      }
      var it := r.item;
      var sd := descs[it.ref];
      RemoveMembers(items, stag);
      if !Current(sd.mr) {
        StaleInvalid(items, regions, gen, descs, it);
        return 0, true;
      }
      HasKeyIn(Items1(), stag);
      if old(Valid()) {
        AgreesDestroy(items, regions, gen, descs, it);
        AgreesDescribed(RemoveKey(items, stag),
                        regions[sd.mr.index := regions[sd.mr.index].(tags := Unlinked(regions[sd.mr.index].tags, it.ref))],
                        gen, descs - {it.ref});
      }
      var tags := Unlink(regions[sd.mr.index].tags, it.ref);
      NodesAllocated(table.tree);
      regions := regions[sd.mr.index := regions[sd.mr.index].(tags := tags)];
      descs := descs - {it.ref};
      assert old(Valid()) ==> Gone(stag, it.ref, old(regions), old(descs), regions, descs);
      return 0, false;
    }

    /** The descriptor that the tree has for a tag. */
    lemma WhichDesc(stag: int)
      requires Base()
      ensures forall it :: it in Items1() && it.key == stag ==>
                && it.ref in descs && descs[it.ref].stag == stag
                && forall ref :: ref in descs && descs[ref].stag == stag ==> ref == it.ref
      ensures !HasKey(Items1(), stag) ==> forall ref :: ref in descs ==> descs[ref].stag != stag
    {
      hide NodeSet, Items, Avl, Zip, Sorted;
      TreeSorted();
      HasKeyIn(Items1(), stag);
      forall it, ref | it in Items1() && it.key == stag && ref in descs && descs[ref].stag == stag ensures ref == it.ref {
        KeyUnique(Items1(), it, Item(descs[ref].stag, ref));
      }
    }

    static lemma StaleInvalid(items: seq<Item>, regions: seq<Mr>, gen: nat, descs: map<nat, Desc>, it: Item)
      requires it in items && it.ref in descs && !(descs[it.ref].mr.gen == gen && descs[it.ref].mr.index < |regions|)
      ensures !Agrees(items, regions, gen, descs)
    {
      assert !Listed(it, regions, gen, descs);
    }

    lemma TreeSorted()
      requires Base()
      ensures Sorted(Items1())
    {
    }

    /** The descriptor of a tag is freed and unlinked from its region. */
    static ghost predicate Gone(stag: int, ref: nat, was: seq<Mr>, descs0: map<nat, Desc>, now: seq<Mr>, descs1: map<nat, Desc>)
      requires ref in descs0
    {
      && descs0[ref].stag == stag && descs0[ref].mr.index < |was| && descs1 == descs0 - {ref}
      && var i := descs0[ref].mr.index;
      && was[i].valid && ref in was[i].tags
      && now == was[i := was[i].(tags := Unlinked(was[i].tags, ref))]
    }

    /** Whether a live tag grants the access. */
    ghost predicate Granted(stag: int, off: nat, len: nat, read: bool, write: bool)
      reads this
    {
      exists ref :: ref in descs && descs[ref].stag == stag && Grants(descs[ref].range, off, len, read, write)
    }

    /** Whether the sum slips through the test of a live tag. */
    ghost predicate Slipped(stag: int, off: nat, len: nat, read: bool, write: bool)
      reads this
    {
      exists ref :: ref in descs && descs[ref].stag == stag && Slips(descs[ref].range, off, len, read, write)
    }

    /** Registered memory ends below 2^64. */
    ghost predicate Addressable()
      reads this
    {
      forall i :: 0 <= i < |regions| && regions[i].valid ==> regions[i].addr + regions[i].len < TWO64
    }

    /** The tag's range lies in its own region, which is valid. */
    ghost predicate InRegion(stag: int, off: nat, len: nat)
      reads this
    {
      exists ref, i :: ref in descs && 0 <= i < |regions| && regions[i].valid && ref in regions[i].tags
                       && descs[ref].stag == stag && regions[i].addr <= off && off + len <= regions[i].addr + regions[i].len
    }

    /** mem_stag_location, for a connection that exists. */
    method StagLocation(stag: int, off: nat, len: nat, read: bool, write: bool) returns (ok: bool)
      requires Valid() && Addressable() && off < TWO64 && len < TWO64
      ensures ok <==> Granted(stag, off, len, read, write) || Slipped(stag, off, len, read, write)
      ensures (ok <==> Granted(stag, off, len, read, write)) <==> !Slipped(stag, off, len, read, write)
      ensures Granted(stag, off, len, read, write) ==> InRegion(stag, off, len)
    {
      hide NodeSet, Items, Avl, Zip, Sorted, HasKey, Grants, Slips, Located;
      NodesAllocated(table.tree);
      var r := table.Find(stag);
      HasKeyIn(Items1(), stag);
      match r {
        case NotFound =>
          assert forall ref :: ref in descs ==> Item(descs[ref].stag, ref) in Items1();
          return false;
        case FoundItem(it) =>
          assert Listed(it, regions, gen, descs);
          var d := descs[it.ref];
          var i := d.mr.index;
          assert Treed(it.ref, i, regions[i], Items1(), gen, descs);
          TreeSorted();
          OnlyOne(it);
          LocatedExact(d.range, off, len, read, write);
          GrantEnds(d.range, off, len, read, write);
          return Located(d.range, off, len, read, write);
      }
    }

    static lemma GrantEnds(sd: Stag, off: nat, len: nat, read: bool, write: bool)
      ensures Grants(sd, off, len, read, write) ==> sd.start <= off && off + len <= sd.end
      ensures !(Grants(sd, off, len, read, write) && Slips(sd, off, len, read, write)) || sd.end >= TWO64
    {
    }

    lemma OnlyOne(it: Item)
      requires Valid() && it in Items1()
      ensures forall ref :: ref in descs && descs[ref].stag == it.key ==> ref == it.ref
    {
      hide NodeSet, Items, Avl, Zip, Sorted;
      TreeSorted();
      forall ref | ref in descs && descs[ref].stag == it.key ensures ref == it.ref {
        KeyUnique(Items1(), it, Item(descs[ref].stag, ref));
      }
    }

    /** mem_fini: destroys every tag of every valid region, then the empty tree. */
    method Fini() returns (ghost freed: set<Node>)
      requires Valid()
      modifies this, table, table.head, NodeSet(table.tree)
      ensures regions == [] && descs == map[] && freed == {} && old(gen) < gen
      ensures Items1() == []
    {
      hide Agrees, NodeSet, Items, Avl, Zip, Sorted, RemoveKey, HasKey, Unlinked;
      NodesAllocated(table.tree);
      var i := 0;
      while i < |regions|
        invariant 0 <= i <= |regions| && Valid() && gen == old(gen) && NodeSet(table.tree) <= old(NodeSet(table.tree))
        invariant forall j :: 0 <= j < i ==> !regions[j].valid
      {
        if regions[i].valid {
          FiniRegion(i);
          AgreesEmptyRegion(Items1(), regions, gen, descs, i, regions[i].(valid := false));
          NodesAllocated(table.tree);
          regions := regions[i := regions[i].(valid := false)];
        }
        i := i + 1;
      }
      NothingLeft(Items1(), regions, gen, descs);
      NodesAllocated(table.tree);
      EmptyTree(table.tree);
      var visited;
      visited, freed := AvlDestroy.Destroy(table);
      regions, gen := [], gen + 1;
    }

    lemma EmptyTree(t: Tree)
      ensures Items(t) == [] ==> t == Nil && NodeSet(t) == {}
    {
      assert t.Bin? ==> Items(t) == Items(t.left) + [t.item] + Items(t.right);
    }

    lemma NothingLeft(items: seq<Item>, regions: seq<Mr>, gen: nat, descs: map<nat, Desc>)
      requires Agrees(items, regions, gen, descs) && forall j :: 0 <= j < |regions| ==> !regions[j].valid
      ensures items == [] && descs == map[]
    {
      forall it ensures it !in items {
        assert it in items ==> Listed(it, regions, gen, descs);
      }
      SomeIn(items);
      NoLiveTags(items, regions, gen, descs);
    }

    /** The inner loop of mem_fini; each destroyed tag is the head of the list. */
    method FiniRegion(i: nat)
      requires Valid() && i < |regions| && regions[i].valid
      modifies `regions, `descs, table`count, table`generation, table`tree
      modifies table.head`link0, table.head`link1, table.head`balance
      modifies NodeSet(table.tree)`link0, NodeSet(table.tree)`link1, NodeSet(table.tree)`balance
      ensures Valid() && NodeSet(table.tree) <= old(NodeSet(table.tree)) && |regions| == |old(regions)|
      ensures regions[i].valid && regions[i].tags == []
      ensures forall j :: 0 <= j < |regions| ==> regions[j].valid == old(regions)[j].valid
    {
      hide NodeSet, Items, Avl, Zip, Sorted, RemoveKey, HasKey;
      while regions[i].tags != []
        invariant Valid() && NodeSet(table.tree) <= old(NodeSet(table.tree)) && |regions| == |old(regions)|
        invariant regions[i].valid && forall j :: 0 <= j < |regions| ==> regions[j].valid == old(regions)[j].valid
        decreases |regions[i].tags|
      {
        var ref := regions[i].tags[0];
        assert Treed(ref, i, regions[i], Items1(), gen, descs);
        HasKeyIn(Items1(), descs[ref].stag);
        NodesAllocated(table.tree);
        ghost var was, descs0 := regions, descs;
        OnlyOne(Item(descs[ref].stag, ref));
        var ret, stale := StagDestroy(descs[ref].stag);
        ghost var r :| r in descs0 && Gone(descs0[ref].stag, r, was, descs0, regions, descs);
        assert r == ref;
      }
    }
  }

  // ----- runs -----

  datatype Call =
    | RegisterCall(addr: nat, len: nat)
    | DeregisterCall(md: Handle)
    | CreateCall(md: Handle, start: nat, end: nat, read: bool, write: bool)
    | DestroyCall(stag: int)

  /** What the state shows after a call that broke the agreement: the array has moved under
      live tags, or a tag was created on an invalid region. */
  ghost predicate Broken(r: Registry, call: Call)
    reads r, r.table
  {
    match call
    case RegisterCall(_, _) => r.Items1() != [] && forall ref :: ref in r.descs ==> !r.Current(r.descs[ref].mr)
    case CreateCall(md, _, _, _, _) => r.Current(md) && !r.regions[md.index].valid
    case _ => false
  }

  /** Any run of calls that the tree's stacks have room for, up to the first one after which
      tree and lists no longer agree. */
  method RunCalls(r: Registry, calls: seq<Call>) returns (k: nat)
    requires r.Valid() && r.table.count + |calls| < MAX_ITEMS
    modifies r, r.table, r.table.head, NodeSet(r.table.tree)
    ensures r.Base() && k <= |calls|
    ensures r.Valid() <==> k == |calls|
    ensures k < |calls| ==> Broken(r, calls[k])
  {
    hide Agrees, Described, NodeSet, Items, Avl, Zip, Sorted, InsertSorted, RemoveKey, HasKey;
    k := 0;
    while k < |calls|
      invariant 0 <= k <= |calls| && r.Valid() && r.table.count + |calls| - k < MAX_ITEMS
      invariant forall n :: n in NodeSet(r.table.tree) ==> n in old(NodeSet(r.table.tree)) || fresh(n)
    {
      NodesAllocated(r.table.tree);
      match calls[k] {
        case RegisterCall(addr, len) =>
          CountZero(r);
          var safe := r.HasSlot() || r.table.count == 0;
          var md := r.Register(addr, len);
          if !safe {
            return;
          }
        case DeregisterCall(md) => var ret := r.Deregister(md);
        case CreateCall(md, start, end, read, write) =>
          var dangling := r.Current(md) && !r.regions[md.index].valid;
          var ret := r.StagCreate(md, start, end, read, write);
          if dangling && ret != -EINVAL {
            return;
          }
        case DestroyCall(stag) => var ret, stale := r.StagDestroy(stag);
      }
      k := k + 1;
    }
  }

  lemma CountZero(r: Registry)
    requires r.Valid()
    ensures r.table.count == 0 <==> r.Items1() == []
  {
  }

  /** After the array has moved, destroying any live tag goes through a stale pointer. */
  method GrowThenDestroy(r: Registry, addr: nat, len: nat, stag: int) returns (md: Handle, ret: int, stale: bool)
    requires r.Valid() && !r.HasSlot() && HasKey(r.Items1(), stag)
    modifies r, r.table, r.table.head, NodeSet(r.table.tree)
    ensures stale
  {
    hide Agrees, NodeSet, Items, Avl, Zip, Sorted;
    NodesAllocated(r.table.tree);
    HasKeyIn(r.Items1(), stag);
    md := r.Register(addr, len);
    NodesAllocated(r.table.tree);
    r.WhichDesc(stag);
    ret, stale := r.StagDestroy(stag);
  }

  /** A region on which a tag lives cannot be deregistered, and one without can. */
  method DeregisterNeedsNoTags(r: Registry, md: Handle) returns (ret: int)
    requires r.Valid() && r.Current(md) && r.regions[md.index].valid
    modifies r`regions
    ensures r.Valid()
    ensures ret == 0 <==> !exists it :: it in r.Items1() && it.ref in r.descs && r.descs[it.ref].mr == md
  {
    ghost var before := r.regions;
    TagsOf(r, md);
    ret := r.Deregister(md);
  }

  lemma TagsOf(r: Registry, md: Handle)
    requires r.Valid() && r.Current(md) && r.regions[md.index].valid
    ensures r.regions[md.index].tags == [] <==>
            !exists it :: it in r.Items1() && it.ref in r.descs && r.descs[it.ref].mr == md
  {
    hide NodeSet, Items, Avl, Zip, Sorted;
    var tags := r.regions[md.index].tags;
    if tags != [] {
      assert tags[0] in tags;
      assert Treed(tags[0], md.index, r.regions[md.index], r.Items1(), r.gen, r.descs);
      var it := Item(r.descs[tags[0]].stag, tags[0]);
      assert it in r.Items1() && it.ref in r.descs && r.descs[it.ref].mr == md;
    } else {
      forall it ensures !(it in r.Items1() && it.ref in r.descs && r.descs[it.ref].mr == md) {
        assert it in r.Items1() ==> Listed(it, r.regions, r.gen, r.descs);
      }
    }
  }
}
