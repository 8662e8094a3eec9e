/**
 * mm/page_alloc.c: the buddy allocator.  Free blocks of order o are on
 * free_area[o], block_order[p] is the order of the free block that starts at
 * page p (or -1), and _refcount counts the owners of an allocated block.
 */
module BuddyAllocator {
  import opened Basics
  import opened BuddyMath
  import opened BuddyBlocks

  const ORDERS := 16
  const MAX_PAGES := 32768

  /** 63 - clz(n): the largest order whose block is not longer than n pages. */
  function Log2(n: nat): (o: nat)
    requires n > 0
    ensures Pow2(o) <= n < 2 * Pow2(o)
  {
    if n == 1 then 0 else 1 + Log2(n / 2)
  }

  lemma LogBound(n: nat)
    requires 0 < n <= MAX_PAGES
    ensures Log2(n) < ORDERS
  {
    assert Pow2(4) == 16 && Pow2(8) == 256 && Pow2(12) == 4096 && Pow2(16) == 65536;
    if Log2(n) >= ORDERS { PowMono(ORDERS, Log2(n)); }
  }

  lemma {:induction false} PowMono(a: nat, b: nat)
    requires a <= b
    ensures Pow2(a) <= Pow2(b)
    decreases b
  {
    if a < b { PowMono(a, b - 1); }
  }

  /** The lists and block_order[] both spell out the set of free blocks. */
  ghost predicate Lists(area: seq<seq<nat>>, order: seq<int>, free: set<Block>) {
    && |area| == ORDERS
    && (forall o | 0 <= o < ORDERS :: NoRepeats(area[o]))
    && (forall o, p: nat | 0 <= o < ORDERS :: p in area[o] <==> Block(o, p) in free)
    && (forall b | b in free :: b.o < ORDERS && b.p < |order| && order[b.p] == b.o)
    && (forall p: nat | p < |order| && order[p] >= 0 :: Block(order[p], p) in free)
  }

  /** Free blocks, allocated blocks and the block being split or merged partition the pool. */
  ghost predicate Blocks(m: nat, free: set<Block>, live: set<Block>, hand: set<Block>) {
    && Partition(m, free + live + hand)
    && free !! live && free !! hand && live !! hand
    && Coalesced(m, free)
  }

  /** Some aligned run of 2^order pages is entirely free. */
  ghost predicate Room(m: nat, free: set<Block>, order: int) {
    0 <= order <= m && exists c: Block :: c.o == order && c.InPool(m) && AllHeld(m, free, c)
  }

  lemma HandFresh(m: nat, free: set<Block>, live: set<Block>, hand: set<Block>, b: Block)
    requires Blocks(m, free, live, hand) && b in hand
    ensures b.InPool(m) && forall f | f in free :: f.p != b.p
  {
    var all := free + live + hand;
    assert b in all;
    forall f | f in free ensures f.p != b.p {
      assert f in all && f.InPool(m) && f != b;
      FloorSelf(f.p, f.o);
      assert f.Holds(f.p);
    }
  }

  lemma SplitBlocks(m: nat, free: set<Block>, live: set<Block>, b: Block)
    requires b.o < m && Floor(b.p, b.o + 1) == b.p && Blocks(m, free, live, {b.Whole()})
    ensures b.InPool(m) && b.Twin().p == b.p + Pow2(b.o)
    ensures Blocks(m, free, live, {b, b.Twin()}) && b != b.Twin()
  {
    assert b.Whole() in free + live + {b.Whole()};
    HalfOf(b.p, b.o, b.p);
    TwinFacts(b, m);
    FloorSelf(b.p, b.o);
    var all := free + live + {b.Whole()};
    SplitPartition(m, all, b);
    assert all - {b.Whole()} + {b, b.Twin()} == free + live + {b, b.Twin()};
    var t := b.Twin();
    assert b.Holds(b.p) && b.Whole().Holds(b.p) && t.Holds(t.p) && b.Whole().Holds(t.p);
    forall c | c in free + live ensures c != b && c != t {
      assert c in all && c != b.Whole();
    }
  }

  /** One half goes to the free list while the other stays in hand. */
  lemma ReleaseHalf(m: nat, free: set<Block>, live: set<Block>, b: Block)
    requires b.InPool(m) && b.o < m && Blocks(m, free, live, {b, b.Twin()}) && b != b.Twin()
    ensures Blocks(m, free + {b.Twin()}, live, {b})
  {
    TwinFacts(b, m);
    assert free + {b.Twin()} + live + {b} == free + live + {b, b.Twin()};
    forall c | c in free + {b.Twin()} && c.o < m ensures c.Twin() !in free + {b.Twin()} {
      assert c in free + live + {b, b.Twin()};
      TwinFacts(c, m);
    }
  }

  lemma MergeBlocks(m: nat, free: set<Block>, live: set<Block>, b: Block)
    requires Blocks(m, free, live, {b}) && b.o < m && b.Twin() in free
    ensures b.InPool(m) && Blocks(m, free - {b.Twin()}, live, {b.Whole()})
    ensures b.Whole().p == if b.Twin().p < b.p then b.Twin().p else b.p
  {
    var all := free + live + {b};
    assert b in all;
    TwinFacts(b, m);
    MergePartition(m, all, b);
    assert all - {b, b.Twin()} + {b.Whole()} == free - {b.Twin()} + live + {b.Whole()};
  }

  /** The block in hand goes to the free list once its buddy is not there. */
  lemma ReleaseHand(m: nat, free: set<Block>, live: set<Block>, b: Block)
    requires Blocks(m, free, live, {b}) && (b.o < m ==> b.Twin() !in free)
    ensures Blocks(m, free + {b}, live, {})
  {
    assert free + {b} + live + {} == free + live + {b};
    assert b in free + live + {b};
    forall c | c in free + {b} && c.o < m ensures c.Twin() !in free + {b} {
      assert c in free + live + {b};
      TwinFacts(c, m);
    }
  }

  lemma TakeFree(m: nat, free: set<Block>, live: set<Block>, b: Block)
    requires Blocks(m, free, live, {}) && b in free
    ensures Blocks(m, free - {b}, live, {b})
  {
    assert free - {b} + live + {b} == free + live + {};
  }

  lemma TakeLive(m: nat, free: set<Block>, live: set<Block>, b: Block)
    requires Blocks(m, free, live, {}) && b in live
    ensures Blocks(m, free, live - {b}, {b})
  {
    assert free + (live - {b}) + {b} == free + live + {};
  }

  lemma GiveLive(m: nat, free: set<Block>, live: set<Block>, b: Block)
    requires Blocks(m, free, live, {b})
    ensures Blocks(m, free, live + {b}, {})
  {
    assert free + (live + {b}) + {} == free + live + {b};
  }

  /** A page is free exactly when no allocated block holds it. */
  lemma FreeIffNotLive(m: nat, free: set<Block>, live: set<Block>, q: nat)
    requires Blocks(m, free, live, {}) && q < Pow2(m)
    ensures Held(free, q) <==> !Held(live, q)
  {
    var all := free + live + {};
    assert Held(all, q);
    var b :| b in all && b.Holds(q);
    if Held(live, q) {
      var c :| c in live && c.Holds(q);
      assert c in all;
      assert forall f | f in free && f.Holds(q) :: f in all && f == c;
    }
  }

  /** There is a free block of order k or more exactly when some aligned run of 2^k pages is entirely free. */
  lemma RoomIff(m: nat, free: set<Block>, live: set<Block>, k: nat)
    requires Blocks(m, free, live, {}) && k <= m
    ensures (exists b | b in free :: b.o >= k) <==> Room(m, free, k)
  {
    assert forall f | f in free :: f in free + live + {} && f.InPool(m);
    if b :| b in free && b.o >= k {
      var c := Block(k, Floor(b.p, k));
      FloorSelf(b.p, k);
      FloorInPool(b.p, k, m);
      forall q: nat | q < Pow2(m) && c.Holds(q) ensures Held(free, q) {
        FloorNested(q, k, b.o);
        FloorNested(b.p, k, b.o);
        FloorSelf(b.p, b.o);
        assert b.Holds(q);
      }
      assert c.o == k && c.InPool(m) && AllHeld(m, free, c);
    }
    if c: Block :| c.o == k && c.InPool(m) && AllHeld(m, free, c) {
      var b := Swallowed(m, free, c);
    }
  }

  /** The allocated blocks decide the free lists, as sets: two states with the same ones have the same free blocks. */
  lemma LiveDecidesFree(m: nat, free: set<Block>, live: set<Block>, free': set<Block>)
    requires Blocks(m, free, live, {}) && Blocks(m, free', live, {})
    ensures free == free'
  {
    assert free + live + {} == free + live && free' + live + {} == free' + live;
    forall q: nat | q < Pow2(m) ensures Held(free, q) <==> Held(free', q) {
      FreeIffNotLive(m, free, live, q);
      FreeIffNotLive(m, free', live, q);
    }
    FreePagesDecide(m, free, live, free', live);
  }

  /** With nothing allocated, one block of the largest order is on the lists and nothing else. */
  lemma NothingLiveIsOneBlock(m: nat, free: set<Block>)
    requires Blocks(m, free, {}, {})
    ensures free == {Block(m, 0)}
  {
    assert free + {} + {} == free;
    AllFreeIsOne(m, free);
  }

  /** The alignment test of addr_in_pool on a block's own address asks only whether mem_start is aligned. */
  lemma AlignedAddress(memStart: nat, b: Block)
    requires Floor(b.p, b.o) == b.p
    ensures Floor(memStart + b.p * PAGE, b.o + 12) == memStart + b.p * PAGE <==> Floor(memStart, b.o + 12) == memStart
  {
    PageIsPow2();
    FloorScale(b.p, b.o, 12);
    FloorAdd(memStart, b.p * PAGE, b.o + 12);
  }

  lemma PageIsPow2()
    ensures Pow2(12) == PAGE
  {
    assert Pow2(4) == 16 && Pow2(8) == 256;
  }

  /** Page 1 is not the start of an aligned pair of pages. */
  lemma OddPage()
    ensures Floor(PAGE, 1 + 12) != PAGE
  {
    PageIsPow2();
    FloorScale(1, 1, 12);
  }

  /** A pool that is one free block has room for every order up to its own. */
  lemma RoomAtStart(m: nat, order: nat)
    requires order <= m
    ensures Room(m, {Block(m, 0)}, order)
  {
    var c := Block(order, 0);
    FloorZero(order);
    PowMono(order, m);
    forall q: nat | q < Pow2(m) ensures Held({Block(m, 0)}, q) {
      FloorPool(q, m);
      assert Block(m, 0).Holds(q);
    }
    assert c.InPool(m) && AllHeld(m, {Block(m, 0)}, c);
  }

  /** A list without repeats that holds at most page 0. */
  lemma OnlyZero(list: seq<nat>, there: bool)
    requires NoRepeats(list) && forall p: nat :: p in list <==> there && p == 0
    ensures list == if there then [0] else []
  {
    if |list| > 0 { FirstIn(list); }
    if |list| > 1 { FirstTwo(list); }
    if there { assert 0 in list; }
  }

  lemma FirstIn(list: seq<nat>)
    requires |list| > 0
    ensures list[0] in list
  {
  }

  lemma FirstTwo(list: seq<nat>)
    requires NoRepeats(list) && |list| > 1
    ensures list[0] != list[1] && list[0] in list && list[1] in list
  {
  }

  class PageAllocator {
    const memStart: nat
    const maxOrder: nat
    const freeArea: array<seq<nat>>
    const blockOrder: array<int>
    const refcount: array<nat>
    ghost var free: set<Block>
    ghost var live: set<Block>

    /** The data structures agree, with `hand` the block some operation is working on. */
    ghost predicate Consistent(hand: set<Block>)
      reads this, freeArea, blockOrder
    {
      && maxOrder < ORDERS
      && blockOrder as object != refcount as object
      && Pow2(maxOrder) <= blockOrder.Length && Pow2(maxOrder) <= refcount.Length
      && Lists(freeArea[..], blockOrder[..], free)
      && Blocks(maxOrder, free, live, hand)
    }

    /** A page has owners exactly when an allocated block starts there. */
    ghost predicate Owned()
      reads this, refcount
    {
      forall q: nat | q < refcount.Length :: refcount[q] > 0 <==> exists b | b in live :: b.p == q
    }

    ghost predicate Valid()
      reads this, freeArea, blockOrder, refcount
    {
      Consistent({}) && Owned()
    }

    method FreeListAdd(pfn: nat, order: nat, ghost hand: set<Block>)
      requires order <= maxOrder && Block(order, pfn) in hand && Consistent(hand)
      modifies this`free, freeArea, blockOrder
      ensures free == old(free) + {Block(order, pfn)}
      ensures Lists(freeArea[..], blockOrder[..], free)
    {
      HandFresh(maxOrder, free, live, hand, Block(order, pfn));
      freeArea[order] := [pfn] + freeArea[order];
      blockOrder[pfn] := order;
      free := free + {Block(order, pfn)};
    }

    method FreeListRemove(pfn: nat, order: nat, ghost hand: set<Block>)
      requires order <= maxOrder && Block(order, pfn) in free && Consistent(hand)
      modifies this`free, freeArea, blockOrder
      ensures free == old(free) - {Block(order, pfn)}
      ensures Lists(freeArea[..], blockOrder[..], free)
    {
      var list := freeArea[order];
      assert pfn in freeArea[..][order];
      var i := 0;
      while list[i] != pfn
        invariant i < |list| && pfn in list[i..]
        decreases |list| - i
      {
        i := i + 1;
      }
      freeArea[order] := list[..i] + list[i + 1..];
      blockOrder[pfn] := -1;
      free := free - {Block(order, pfn)};
    }

    /** free_list_pop on a list that is not empty. */
    method FreeListPop(order: nat) returns (pfn: nat)
      requires order <= maxOrder && Consistent({}) && freeArea[order] != []
      modifies this`free, freeArea, blockOrder
      ensures Block(order, pfn) in old(free) && free == old(free) - {Block(order, pfn)}
      ensures Consistent({Block(order, pfn)})
    {
      var list := freeArea[order];
      pfn := list[0];
      assert pfn in freeArea[..][order];
      ghost var b := Block(order, pfn);
      assert b in free && b in free + live + {};
      TakeFree(maxOrder, free, live, b);
      freeArea[order] := list[1..];
      blockOrder[pfn] := -1;
      free := free - {b};
    }

    method SplitBlock(pfn: nat, from: nat, to: nat)
      requires to <= from <= maxOrder && Consistent({Block(from, pfn)})
      modifies this`free, freeArea, blockOrder
      ensures Consistent({Block(to, pfn)})
    {
      var order := from;
      while order > to
        invariant to <= order <= from
        invariant Consistent({Block(order, pfn)})
      {
        order := order - 1;
        SplitOnce(pfn, order);
      }
    }

    /** The upper half of the block in hand goes to the free list. */
    method SplitOnce(pfn: nat, order: nat)
      requires order < maxOrder && Consistent({Block(order + 1, pfn)})
      modifies this`free, freeArea, blockOrder
      ensures Consistent({Block(order, pfn)})
    {
      ghost var b := Block(order, pfn);
      assert Block(order + 1, pfn) in free + live + {Block(order + 1, pfn)};
      assert b.Whole() == Block(order + 1, pfn);
      SplitBlocks(maxOrder, free, live, b);
      ReleaseHalf(maxOrder, free, live, b);
      FreeListAdd(Buddy(pfn, order), order, {b, b.Twin()});
    }

    /** buddy_free: merge with free buddies, then add what is left. */
    method BuddyFree(start: nat, order: nat)
      requires order <= maxOrder && Consistent({Block(order, start)})
      modifies this`free, freeArea, blockOrder
      ensures Consistent({})
    {
      var pfn: nat, o: nat := start, order;
      while o < maxOrder
        invariant o <= maxOrder && Consistent({Block(o, pfn)})
      {
        ghost var b := Block(o, pfn);
        assert b in free + live + {b};
        TwinFacts(b, maxOrder);
        var buddy := Buddy(pfn, o);
        if buddy >= Pow2(maxOrder) || blockOrder[buddy] != o {
          break;
        }
        MergeBlocks(maxOrder, free, live, b);
        FreeListRemove(buddy, o, {b});
        if buddy < pfn {
          pfn := buddy;
        }
        o := o + 1;
        assert Block(o, pfn) == b.Whole();
      }
      ghost var b := Block(o, pfn);
      assert b in free + live + {b};
      if o < maxOrder { TwinFacts(b, maxOrder); }
      ReleaseHand(maxOrder, free, live, b);
      FreeListAdd(pfn, o, {b});
    }

    /** page_alloc_init for a window of npages pages: the pool is the largest power of two that fits. */
    constructor (start: nat, npages: nat)
      requires 0 < npages <= MAX_PAGES
      ensures Valid() && memStart == start && Pow2(maxOrder) <= npages < 2 * Pow2(maxOrder)
      ensures live == {} && free == {Block(maxOrder, 0)}
      ensures fresh(freeArea) && fresh(blockOrder) && fresh(refcount)
    {
      var order := Log2(npages);
      LogBound(npages);
      memStart, maxOrder := start, order;
      free, live := {Block(order, 0)}, {};
      var area := new seq<nat>[ORDERS](i => if i == order then [0] else []);
      var orders := new int[npages](i => if i == 0 then order as int else -1);
      var counts := new nat[npages](i => 0);
      freeArea, blockOrder, refcount := area, orders, counts;
      new;
      FloorZero(order);
      forall q: nat | q < Pow2(order) ensures Held({Block(order, 0)}, q) {
        FloorPool(q, order);
        assert Block(order, 0).Holds(q);
      }
      assert {Block(order, 0)} + {} + {} == {Block(order, 0)};
    }

    /** alloc_pages: an address, or nothing exactly when no aligned run of 2^order pages is free. */
    method AllocPages(order: int) returns (r: Option<nat>)
      requires Valid()
      modifies this, freeArea, blockOrder, refcount
      ensures Valid()
      ensures r.None? <==> !Room(maxOrder, old(free), order)
      ensures r.None? ==> free == old(free) && live == old(live) && refcount[..] == old(refcount[..])
      ensures r.Some? ==> exists b | b !in old(live) ::
                            && b.o == order && r.value == memStart + b.p * PAGE && live == old(live) + {b}
                            && AllHeld(maxOrder, old(free), b) && b.p < refcount.Length
                            && refcount[..] == old(refcount[..])[b.p := 1]
    {
      if !(0 <= order <= maxOrder) {
        return None;
      }
      ghost var f, l := free, live;
      RoomIff(maxOrder, free, live, order);
      var o: nat := order;
      while o <= maxOrder && freeArea[o] == []
        invariant order <= o <= maxOrder + 1
        invariant forall j | order <= j < o :: freeArea[j] == []
      {
        o := o + 1;
      }
      if o > maxOrder {
        NoneLeft(order);
        return None;
      }
      var pfn := FreeListPop(o);
      HeldInside(maxOrder, f, l, Block(o, pfn), order);
      HandOut(pfn, o, order);
      return Some(memStart + pfn * PAGE);
    }

    /** The end of alloc_pages: what is too large is split, and the block gets its first owner. */
    method HandOut(pfn: nat, from: nat, order: nat)
      requires order <= from <= maxOrder && Consistent({Block(from, pfn)}) && Owned()
      modifies this, freeArea, blockOrder, refcount
      ensures Valid() && live == old(live) + {Block(order, pfn)} && Block(order, pfn) !in old(live)
      ensures pfn < refcount.Length && refcount[..] == old(refcount[..])[pfn := 1]
    {
      ghost var b := Block(order, pfn);
      SplitBlock(pfn, from, order);
      assert b in free + live + {b} && b.InPool(maxOrder);
      GiveLive(maxOrder, free, live, b);
      refcount[pfn] := 1;
      live := live + {b};
    }

    /** addr_in_pool */
    predicate InPoolAddr(addr: nat, order: nat) {
      && memStart <= addr && addr + PAGE * Pow2(order) <= memStart + PAGE * Pow2(maxOrder)
      && Floor(addr, order + 12) == addr
    }

    /** The calls free_pages acts on; it silently ignores all others. */
    predicate Accepts(addr: nat, order: int)
      reads blockOrder, refcount
      requires Pow2(maxOrder) <= blockOrder.Length && Pow2(maxOrder) <= refcount.Length
    {
      && addr != 0 && 0 <= order <= maxOrder && InPoolAddr(addr, order)
      && var pfn := (addr - memStart) / PAGE;
      pfn < Pow2(maxOrder) && blockOrder[pfn] < 0 && refcount[pfn] <= 1
    }

    /** free_pages: the caller passes the order the block was allocated with. */
    method FreePages(addr: nat, order: int)
      requires Valid()
      requires Accepts(addr, order) ==> Block(order, (addr - memStart) / PAGE) in live
      modifies this, freeArea, blockOrder, refcount
      ensures Valid()
      ensures old(Accepts(addr, order)) ==> live == old(live) - {Block(order, (addr - memStart) / PAGE)}
      ensures old(Accepts(addr, order)) ==>
                forall q | 0 <= q < refcount.Length && q != (addr - memStart) / PAGE :: refcount[q] == old(refcount[q])
      ensures !old(Accepts(addr, order)) ==> live == old(live) && free == old(free) && refcount[..] == old(refcount[..])
    {
      if addr == 0 || !(0 <= order <= maxOrder) || !InPoolAddr(addr, order) {
        return;
      }
      var pfn := (addr - memStart) / PAGE;
      if pfn >= Pow2(maxOrder) || blockOrder[pfn] >= 0 || refcount[pfn] > 1 {
        return;
      }
      Release(pfn, order);
    }

    /** The last owner of an allocated block lets go: _refcount becomes 0 and the block is merged back. */
    method Release(pfn: nat, order: nat)
      requires Valid() && Block(order, pfn) in live
      modifies this, freeArea, blockOrder, refcount
      ensures Valid() && live == old(live) - {Block(order, pfn)}
      ensures pfn < refcount.Length && refcount[pfn] == 0
      ensures forall q | 0 <= q < refcount.Length && q != pfn :: refcount[q] == old(refcount[q])
    {
      ghost var b := Block(order, pfn);
      assert b in free + live + {} && b.InPool(maxOrder);
      OneAtHead(b);
      refcount[pfn] := 0;
      TakeLive(maxOrder, free, live, b);
      live := live - {b};
      BuddyFree(pfn, order);
    }

    /** Only one allocated block starts at a page. */
    lemma OneAtHead(b: Block)
      requires Valid() && b in live
      ensures forall c | c in live && c.p == b.p :: c == b
    {
      var all := free + live + {};
      forall c | c in live && c.p == b.p ensures c == b {
        assert c in all && b in all && c.InPool(maxOrder) && b.InPool(maxOrder);
        assert c.Holds(b.p) && b.Holds(b.p);
      }
    }

    /** Allocated blocks are disjoint ranges of pages. */
    lemma LiveApart(b: Block, c: Block)
      requires Valid() && b in live && c in live && b != c
      ensures b.p + Pow2(b.o) <= c.p || c.p + Pow2(c.o) <= b.p
    {
      var all := free + live + {};
      assert b in all && c in all && b.InPool(maxOrder) && c.InPool(maxOrder);
      HoldsRange(b.p, c.p, b.o);
      HoldsRange(c.p, b.p, c.o);
      assert c.Holds(c.p) && b.Holds(b.p);
    }

    /** free_pages takes back a block its only owner returns exactly when mem_start is aligned to the block size. */
    lemma FreeHonoured(b: Block)
      requires Valid() && b in live && memStart > 0 && b.p < refcount.Length && refcount[b.p] == 1
      ensures Accepts(memStart + b.p * PAGE, b.o) <==> Floor(memStart, b.o + 12) == memStart
      ensures (memStart + b.p * PAGE - memStart) / PAGE == b.p
    {
      var all := free + live + {};
      assert b in all && b.InPool(maxOrder);
      AlignedAddress(memStart, b);
      forall f | f in free ensures f.p != b.p {
        assert f in all && f.InPool(maxOrder) && f != b;
        assert f.Holds(f.p) && b.Holds(b.p);
      }
    }

    method GetPage(pfn: nat)
      requires Valid() && Block(0, pfn) in live
      modifies refcount
      ensures Valid() && pfn < refcount.Length && refcount[pfn] == old(refcount[pfn]) + 1
      ensures forall q | 0 <= q < refcount.Length && q != pfn :: refcount[q] == old(refcount[q])
    {
      assert Block(0, pfn) in free + live + {} && Block(0, pfn).InPool(maxOrder);
      refcount[pfn] := refcount[pfn] + 1;
    }

    /** put_page: the last reference returns the page. */
    method PutPage(pfn: nat)
      requires Valid() && Block(0, pfn) in live
      modifies this, freeArea, blockOrder, refcount
      ensures Valid() && pfn < refcount.Length && old(refcount[pfn]) >= 1 && refcount[pfn] == old(refcount[pfn]) - 1
      ensures live == if old(refcount[pfn]) == 1 then old(live) - {Block(0, pfn)} else old(live)
      ensures forall q | 0 <= q < refcount.Length && q != pfn :: refcount[q] == old(refcount[q])
    {
      ghost var b := Block(0, pfn);
      assert b in free + live + {} && b.InPool(maxOrder);
      if refcount[pfn] != 1 {
        refcount[pfn] := refcount[pfn] - 1;
        return;
      }
      Release(pfn, 0);
    }

    /** Once everything is freed, in whatever order, the lists are those of page_alloc_init. */
    lemma AllReturned()
      requires Valid() && live == {}
      ensures free == {Block(maxOrder, 0)}
      ensures forall o | 0 <= o < ORDERS :: freeArea[o] == if o == maxOrder then [0] else []
    {
      NothingLiveIsOneBlock(maxOrder, free);
      forall o | 0 <= o < ORDERS ensures freeArea[o] == if o == maxOrder then [0] else [] {
        OnlyZero(freeArea[..][o], o == maxOrder);
      }
    }

    lemma NoneLeft(order: nat)
      requires Consistent({}) && order <= maxOrder && forall j | order <= j <= maxOrder :: freeArea[j] == []
      ensures !exists b | b in free :: b.o >= order
    {
      forall b | b in free ensures b.o < order {
        assert b in free + live + {} && b.InPool(maxOrder);
        assert b.p in freeArea[..][b.o];
      }
    }
  }

  /** A smaller block at the head of a free block is entirely free. */
  lemma HeldInside(m: nat, free: set<Block>, live: set<Block>, b: Block, k: nat)
    requires Blocks(m, free, live, {}) && b in free && k <= b.o
    ensures AllHeld(m, free, Block(k, b.p))
  {
    assert b in free + live + {} && b.InPool(m);
    forall q: nat | q < Pow2(m) && Block(k, b.p).Holds(q) ensures Held(free, q) {
      FloorNested(q, k, b.o);
      assert b.Holds(q);
    }
  }

  /** b, of the given order and at address addr, is all that is still allocated. */
  ghost predicate OneLeft(live: set<Block>, b: Block, start: nat, order: nat, addr: nat) {
    live == {b} && b.o == order && addr == start + b.p * PAGE
  }

  /** A block of a new pool, once freed, is back exactly when the pool starts at a multiple of its size. */
  method AllocThenFree(start: nat, npages: nat, order: nat) returns (pool: PageAllocator, r: Option<nat>)
    requires start > 0 && 0 < npages <= MAX_PAGES
    ensures fresh(pool) && pool.Valid() && pool.memStart == start
    ensures r.Some? <==> Pow2(order) <= npages
    ensures r.Some? ==> (pool.live == {} <==> Floor(start, order + 12) == start)
    ensures r.Some? && pool.live != {} ==> exists b | b in pool.live :: OneLeft(pool.live, b, start, order, r.value)
  {
    pool := new PageAllocator(start, npages);
    if order <= pool.maxOrder {
      PowMono(order, pool.maxOrder);
      RoomAtStart(pool.maxOrder, order);
    } else {
      PowMono(pool.maxOrder + 1, order);
    }
    r := pool.AllocPages(order);
    if r.Some? {
      ghost var b :| b in pool.live && OneLeft(pool.live, b, start, order, r.value)
                     && b.p < pool.refcount.Length && pool.refcount[b.p] == 1;
      GiveBack(pool, r.value, order, b);
    }
  }

  /** free_pages of the only allocated block by its only owner. */
  method GiveBack(pool: PageAllocator, addr: nat, order: nat, ghost b: Block)
    requires pool.Valid() && pool.memStart > 0 && OneLeft(pool.live, b, pool.memStart, order, addr)
    requires b.p < pool.refcount.Length && pool.refcount[b.p] == 1
    modifies pool, pool.freeArea, pool.blockOrder, pool.refcount
    ensures pool.Valid() && pool.live == if Floor(pool.memStart, order + 12) == pool.memStart then {} else {b}
  {
    pool.FreeHonoured(b);
    pool.FreePages(addr, order);
  }

  /** A pool of four pages that starts at page 1 never gets a block of two pages back. */
  method UnalignedPoolLeaks() returns (pool: PageAllocator, r: Option<nat>)
    ensures fresh(pool) && pool.Valid() && r.Some?
    ensures exists b | b in pool.live :: OneLeft(pool.live, b, PAGE, 1, r.value)
  {
    OddPage();
    pool, r := AllocThenFree(PAGE, 4, 1);
  }
}
