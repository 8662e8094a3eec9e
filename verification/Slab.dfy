/**
 * mm/slub.c on top of mm/page_alloc.c: kmalloc and kfree with the seven
 * kmalloc caches and blocks of their own for larger requests.
 */
module SlabAllocator {
  import opened Basics
  import opened BuddyMath
  import opened BuddyBlocks
  import B = BuddyAllocator
  import opened SlabPages

  const TWO64 := 0x1_0000_0000_0000_0000
  const MAX_LARGE := 15

  function PageNo(start: nat, a: nat): nat {
    if a < start then 0 else (a - start) / PAGE
  }

  function OrderOf(s: Slab): nat {
    if s.cache.Some? then 0 else s.objects
  }

  /** The pages behind a slab. */
  function BlockOf(start: nat, slabs: map<nat, Slab>, a: nat): Block
    requires a in slabs
  {
    Block(OrderOf(slabs[a]), PageNo(start, a))
  }

  /** The pages of some slab. */
  ghost predicate Used(start: nat, slabs: map<nat, Slab>, b: Block) {
    exists a :: a in slabs && BlockOf(start, slabs, a) == b
  }

  /** Every slab has its pages, and every allocated block is a slab's or somebody else's. */
  ghost predicate Backed(start: nat, slabs: map<nat, Slab>, blocks: set<Block>, others: set<Block>, counts: seq<nat>) {
    && (forall a {:trigger BlockOf(start, slabs, a)} :: a in slabs ==>
          var b := BlockOf(start, slabs, a);
          start <= a && a % PAGE == 0 && b in blocks && b !in others && b.p < |counts| && counts[b.p] == 1)
    && (forall b {:trigger Used(start, slabs, b)} :: b in blocks && b !in others ==> Used(start, slabs, b))
    && others <= blocks
  }

  /** Only one allocated block starts at a page. */
  ghost predicate OneEach(blocks: set<Block>) {
    forall b, c :: b in blocks && c in blocks && b.p == c.p ==> b == c
  }

  lemma SamePage(start: nat, a: nat, b: nat)
    requires start % PAGE == 0 && a % PAGE == 0 && b % PAGE == 0 && start <= a && start <= b
    requires PageNo(start, a) == PageNo(start, b)
    ensures a == b && a == start + PageNo(start, a) * PAGE
  {
  }

  lemma PageNoOf(start: nat, p: nat)
    requires start % PAGE == 0
    ensures PageNo(start, start + p * PAGE) == p && (start + p * PAGE) % PAGE == 0
  {
  }

  function AddressOf(start: nat, b: Block): nat {
    start + b.p * PAGE
  }

  lemma BackedMore(start: nat, slabs: map<nat, Slab>, blocks: set<Block>, others: set<Block>, counts: seq<nat>,
                   b: Block, s: Slab,
                   a: nat)
    requires Backed(start, slabs, blocks, others, counts) && start % PAGE == 0 && start > 0
    requires b !in blocks && OneEach(blocks + {b}) && b.p < |counts| && OrderOf(s) == b.o && a == AddressOf(start, b)
    ensures a != 0 && a !in slabs && a % PAGE == 0
    ensures Backed(start, slabs[a := s], blocks + {b}, others, counts[b.p := 1])
  {
    PageNoOf(start, b.p);
    forall c | c in slabs ensures c != a {
      assert BlockOf(start, slabs, c) in blocks && BlockOf(start, slabs, c).p != b.p;
    }
    var n := slabs[a := s];
    assert BlockOf(start, n, a) == b;
    forall c | c in n ensures var d := BlockOf(start, n, c);
      start <= c && c % PAGE == 0 && d in blocks + {b} && d !in others && d.p < |counts| && counts[b.p := 1][d.p] == 1
    {
      if c != a {
        assert BlockOf(start, n, c) == BlockOf(start, slabs, c);
      }
    }
    forall d | d in blocks + {b} && d !in others ensures Used(start, n, d) {
      if d != b {
        assert Used(start, slabs, d);
        var c :| c in slabs && BlockOf(start, slabs, c) == d;
        assert BlockOf(start, n, c) == d;
      }
    }
  }

  lemma BackedLess(start: nat, slabs: map<nat, Slab>, blocks: set<Block>, others: set<Block>, counts: seq<nat>, a: nat,
                   counts': seq<nat>)
    requires Backed(start, slabs, blocks, others, counts) && start % PAGE == 0 && OneEach(blocks) && a in slabs
    requires |counts'| == |counts| && forall q :: 0 <= q < |counts| && q != PageNo(start, a) ==> counts'[q] == counts[q]
    ensures Backed(start, slabs - {a}, blocks - {BlockOf(start, slabs, a)}, others, counts')
    ensures counts' == counts ==> Backed(start, slabs - {a}, blocks, others + {BlockOf(start, slabs, a)}, counts')
  {
    var n, b := slabs - {a}, BlockOf(start, slabs, a);
    forall c | c in n ensures BlockOf(start, n, c) == BlockOf(start, slabs, c) && BlockOf(start, n, c).p != b.p {
      assert BlockOf(start, slabs, c) in blocks && b in blocks;
      if PageNo(start, c) == PageNo(start, a) {
        SamePage(start, a, c);
      }
    }
    forall d | d in blocks && d != b && d !in others ensures Used(start, n, d) {
      assert Used(start, slabs, d);
      var c :| c in slabs && BlockOf(start, slabs, c) == d;
      assert BlockOf(start, n, c) == d;
    }
  }

  lemma BackedSame(start: nat, slabs: map<nat, Slab>, blocks: set<Block>, others: set<Block>, counts: seq<nat>, a: nat,
                   s: Slab)
    requires Backed(start, slabs, blocks, others, counts) && a in slabs && OrderOf(s) == OrderOf(slabs[a])
    ensures Backed(start, slabs[a := s], blocks, others, counts)
  {
    var n := slabs[a := s];
    forall c | c in n ensures BlockOf(start, n, c) == BlockOf(start, slabs, c) {
    }
    forall d | d in blocks && d !in others ensures Used(start, n, d) {
      assert Used(start, slabs, d);
      var c :| c in slabs && BlockOf(start, slabs, c) == d;
      assert BlockOf(start, n, c) == d;
    }
  }

  /** cache_for_size. */
  function CacheFor(size: nat): (c: Option<nat>)
    ensures c.Some? <==> size <= 2048
    ensures c.Some? ==> c.value < CACHES && size <= Size(c.value) && (c.value > 0 ==> Size(c.value - 1) < size)
  {
    if size <= 32 then Some(0)
    else if size <= 64 then Some(1)
    else if size <= 128 then Some(2)
    else if size <= 256 then Some(3)
    else if size <= 512 then Some(4)
    else if size <= 1024 then Some(5)
    else if size <= 2048 then Some(6)
    else None
  }

  /** The least order whose block holds need bytes, but no more than the largest. */
  function PickOrder(need: nat): (o: nat)
    ensures o <= MAX_LARGE && (need <= PAGE * Pow2(o) || o == MAX_LARGE)
    ensures o > 0 ==> PAGE * Pow2(o - 1) < need
  {
    PickFrom(need, 0)
  }

  function PickFrom(need: nat, o: nat): (r: nat)
    requires o <= MAX_LARGE && (o > 0 ==> PAGE * Pow2(o - 1) < need)
    ensures r <= MAX_LARGE && (need <= PAGE * Pow2(r) || r == MAX_LARGE)
    ensures r > 0 ==> PAGE * Pow2(r - 1) < need
    decreases MAX_LARGE - o
  {
    if o == MAX_LARGE || need <= PAGE * Pow2(o) then o else PickFrom(need, o + 1)
  }

  /** What alloc_large asks for: the size and the header, in 64 bits. */
  function LargeNeed(size: nat): nat {
    ((if size == 0 then 1 else size) + HEADER) % TWO64
  }

  /** The order loop of alloc_large. */
  method LargeOrder(need: nat) returns (order: nat)
    ensures order == PickOrder(need)
  {
    order := 0;
    var bytes := PAGE;
    while bytes < need && order < MAX_LARGE
      invariant order <= MAX_LARGE && bytes == PAGE * Pow2(order)
      invariant order > 0 ==> PAGE * Pow2(order - 1) < need
      invariant PickOrder(need) == PickFrom(need, order)
    {
      order := order + 1;
      bytes := 2 * bytes;
    }
  }

  lemma AlignedPool(start: nat)
    requires start % PAGE == 0
    ensures Floor(start, 12) == start
  {
    B.PageIsPow2();
    FloorScale(start / PAGE, 0, 12);
  }

  /** A request, or the return of the k-th object still held. */
  datatype Op = Malloc(size: nat) | Free(k: nat)

  class Kmalloc {
    const buddy: B.PageAllocator
    var slabs: map<nat, Slab>           // the struct slab at the head of each page it manages
    var partial: seq<seq<nat>>          // cache->partial of each cache
    ghost var live: set<nat>            // objects handed out
    ghost var others: set<Block>        // pages of other users of the page allocator

    ghost function Contents(): Heap
      reads this
    {
      Heap(slabs, partial, live)
    }

    ghost predicate Valid()
      reads this, buddy, buddy.freeArea, buddy.blockOrder, buddy.refcount
    {
      && buddy.Valid() && buddy.memStart > 0 && buddy.memStart % PAGE == 0
      && HeapOk(Contents(), {})
      && Backed(buddy.memStart, slabs, buddy.live, others, buddy.refcount[..])
    }

    /** slub_init over a page allocator other code may have used already. */
    constructor (buddy: B.PageAllocator)
      requires buddy.Valid() && buddy.memStart > 0 && buddy.memStart % PAGE == 0
      ensures Valid() && this.buddy == buddy && live == {} && others == buddy.live
    {
      this.buddy := buddy;
      slabs, partial, live, others := map[], seq(CACHES, _ => []), {}, buddy.live;
    }

    lemma Heads()
      requires buddy.Valid()
      ensures OneEach(buddy.live)
    {
      forall b, c | b in buddy.live && c in buddy.live && b.p == c.p ensures b == c {
        buddy.OneAtHead(b);
      }
    }

    /** The free list slab_create builds. */
    method Carve(a: nat, c: nat) returns (list: seq<nat>)
      requires c < CACHES
      ensures AllFree(a, c, list)
    {
      list := [];
      CacheFacts(c);
      for i := 0 to PerPage(c)
        invariant |list| == i && NoRepeats(list)
        invariant forall x {:trigger In(x, list)} :: In(x, list) ==> exists j: nat :: j < i && x == ObjectAt(a, c, j)
        invariant forall j: nat {:trigger ObjectAt(a, c, j)} :: j < i ==> In(ObjectAt(a, c, j), list)
      {
        var obj := ObjectAt(a, c, i);
        forall j: nat | j < i ensures ObjectAt(a, c, j) != obj {
          SlotsApart(j, i, Size(c));
        }
        PushFacts(list, obj);
        list := [obj] + list;
      }
      forall x | IsObject(a, c, x) ensures In(x, list) {
        var j: nat :| j < PerPage(c) && x == ObjectAt(a, c, j);
      }
    }

    /** partial_unlink. */
    method PartialUnlink(c: nat, a: nat)
      requires c < |partial|
      modifies this`partial
      ensures partial == old(partial)[c := Without(old(partial)[c], a)]
    {
      var list := partial[c];
      var i := 0;
      while i < |list| && list[i] != a
        invariant 0 <= i <= |list| && Without(list, a) == list[..i] + Without(list[i..], a)
      {
        assert list[i..][1..] == list[i + 1..];
        assert list[..i] + [list[i]] == list[..i + 1];
        i := i + 1;
      }
      if i < |list| {
        assert list[i..][1..] == list[i + 1..];
        partial := partial[c := list[..i] + list[i + 1..]];
      } else {
        assert list[..i] + list[i..] == list;
      }
    }

    /** alloc_pages; the block is new, and nothing else starts at its page. */
    method Grab(order: nat) returns (r: Option<nat>, ghost b: Block)
      requires buddy.Valid()
      modifies buddy, buddy.freeArea, buddy.blockOrder, buddy.refcount
      ensures buddy.Valid() && OneEach(buddy.live) && (r.None? <==> !B.Room(buddy.maxOrder, old(buddy.free), order))
      ensures r.None? ==> buddy.live == old(buddy.live) && buddy.refcount[..] == old(buddy.refcount[..])
      ensures r.Some? ==> r.value == AddressOf(buddy.memStart, b) && b.o == order && b !in old(buddy.live)
      ensures r.Some? ==> buddy.live == old(buddy.live) + {b} && b.p < buddy.refcount.Length
      ensures r.Some? ==> buddy.refcount[..] == old(buddy.refcount[..])[b.p := 1]
    {
      r := buddy.AllocPages(order);
      b := Block(0, 0);
      Heads();
      if r.Some? {
        b :| b !in old(buddy.live) && b.o == order && r.value == buddy.memStart + b.p * PAGE
             && buddy.live == old(buddy.live) + {b} && b.p < buddy.refcount.Length
             && buddy.refcount[..] == old(buddy.refcount[..])[b.p := 1];
      }
    }

    /** A block from alloc_pages and the slab header written to it; 0 when there is none. */
    method NewBlock(order: nat, s: Slab) returns (a: nat)
      requires buddy.Valid() && buddy.memStart > 0 && buddy.memStart % PAGE == 0 && OrderOf(s) == order
      requires Backed(buddy.memStart, slabs, buddy.live, others, buddy.refcount[..])
      modifies this`slabs, buddy, buddy.freeArea, buddy.blockOrder, buddy.refcount
      ensures buddy.Valid() && Backed(buddy.memStart, slabs, buddy.live, others, buddy.refcount[..])
      ensures a == 0 ==> slabs == old(slabs) && buddy.live == old(buddy.live)
      ensures a == 0 <==> !B.Room(buddy.maxOrder, old(buddy.free), order)
      ensures a != 0 ==> a !in old(slabs) && a % PAGE == 0 && slabs == old(slabs)[a := s]
    {
      ghost var blocks, counts := buddy.live, buddy.refcount[..];
      var r;
      ghost var b;
      r, b := Grab(order);
      if r.None? {
        return 0;
      }
      a := r.value;
      BackedMore(buddy.memStart, slabs, blocks, others, counts, b, s, a);
      slabs := slabs[a := s];
    }

    /** slab_create. */
    method SlabCreate(c: nat) returns (a: nat, ghost list: seq<nat>)
      requires buddy.Valid() && buddy.memStart > 0 && buddy.memStart % PAGE == 0 && c < CACHES
      requires Backed(buddy.memStart, slabs, buddy.live, others, buddy.refcount[..])
      modifies this`slabs, buddy, buddy.freeArea, buddy.blockOrder, buddy.refcount
      ensures buddy.Valid() && Backed(buddy.memStart, slabs, buddy.live, others, buddy.refcount[..])
      ensures a == 0 <==> !B.Room(buddy.maxOrder, old(buddy.free), 0)
      ensures a == 0 ==> slabs == old(slabs)
      ensures a != 0 ==> a !in old(slabs) && a % PAGE == 0 && AllFree(a, c, list)
      ensures a != 0 ==> slabs == old(slabs)[a := Slab(Some(c), list, 0, PerPage(c))]
    {
      list := [];
      a := NewBlock(0, Slab(Some(c), [], 0, PerPage(c)));
      if a == 0 {
        return;
      }
      var free := Carve(a, c);
      list := free;
      Rewrite(a, Slab(Some(c), free, 0, PerPage(c)));
      assert slabs == old(slabs)[a := Slab(Some(c), list, 0, PerPage(c))];
    }

    /** partial_link of a slab just created in the heap h. */
    method PartialLink(c: nat, a: nat, ghost h: Heap, ghost list: seq<nat>)
      requires HeapOk(h, {}) && a !in h.slabs && a % PAGE == 0 && AllFree(a, c, list)
      requires slabs == h.slabs[a := Slab(Some(c), list, 0, PerPage(c))] && partial == h.partial && live == h.live
      modifies this`partial
      ensures HeapOk(Contents(), {a}) && HasRoom(Contents(), a, c)
    {
      FreshOk(h, a, c, list);
      partial := partial[c := [a] + partial[c]];
      assert Contents() == Fresh(h, a, c, list);
    }

    /** The slab of an object, and how many bytes the object has. */
    function Capacity(x: nat): nat
      requires PageOf(x) in slabs && (slabs[PageOf(x)].cache.Some? ==> slabs[PageOf(x)].cache.value < CACHES)
      reads this
    {
      var s := slabs[PageOf(x)];
      if s.cache.Some? then Size(s.cache.value) else PAGE * Pow2(s.objects) - HEADER
    }

    /** kmem_cache_alloc; 0 exactly when no slab has room and no page is free. */
    method CacheAlloc(c: nat) returns (obj: nat)
      requires Valid() && c < CACHES
      modifies this, buddy, buddy.freeArea, buddy.blockOrder, buddy.refcount
      ensures Valid() && others == old(others)
      ensures obj == 0 <==> old(partial)[c] == [] && !B.Room(buddy.maxOrder, old(buddy.free), 0)
      ensures obj == 0 ==> Contents() == old(Contents())
      ensures obj != 0 ==> obj !in old(live) && live == old(live) + {obj}
      ensures obj != 0 ==> PageOf(obj) in slabs && slabs[PageOf(obj)].cache == Some(c) && IsObject(PageOf(obj), c, obj)
    {
      var a;
      ghost var h, list := Contents(), [];
      if partial[c] != [] {
        assert In(partial[c][0], partial[c]);
      }
      if partial[c] == [] || slabs[partial[c][0]].freelist == [] {
        a, list := SlabCreate(c);
        if a == 0 {
          return 0;
        }
        PartialLink(c, a, h, list);
      } else {
        a := partial[c][0];
      }
      obj := Pop(a, c);
    }

    /** The end of kmem_cache_alloc: the first free object of slab a. */
    method Pop(a: nat, c: nat) returns (obj: nat)
      requires buddy.Valid() && buddy.memStart > 0 && buddy.memStart % PAGE == 0
      requires Backed(buddy.memStart, slabs, buddy.live, others, buddy.refcount[..])
      requires HeapOk(Contents(), {a}) && c < CACHES && HasRoom(Contents(), a, c)
      modifies this
      ensures Valid() && others == old(others)
      ensures obj != 0 && obj !in old(live) && live == old(live) + {obj}
      ensures PageOf(obj) == a && a in slabs && slabs[a].cache == Some(c) && IsObject(a, c, obj)
    {
      ghost var h := Contents();
      TakenSlab(h, a, c);
      TakenOk(h, a, c);
      ObjectInPage(a, c, slabs[a].freelist[0]);
      var s := slabs[a];
      obj := s.freelist[0];
      Rewrite(a, s.(freelist := s.freelist[1..], inuse := s.inuse + 1));
      if slabs[a].freelist == [] {
        PartialUnlink(c, a);
      }
      live := live + {obj};
      assert Contents() == Taken(h, a);
    }

    /** A header changes and its pages do not. */
    method Rewrite(a: nat, s: Slab)
      requires a in slabs && OrderOf(s) == OrderOf(slabs[a])
      requires Backed(buddy.memStart, slabs, buddy.live, others, buddy.refcount[..])
      modifies this`slabs
      ensures slabs == old(slabs)[a := s] && Backed(buddy.memStart, slabs, buddy.live, others, buddy.refcount[..])
    {
      BackedSame(buddy.memStart, slabs, buddy.live, others, buddy.refcount[..], a, s);
      slabs := slabs[a := s];
    }

    method Surrender(a: nat, order: nat, ghost b: Block)
      requires buddy.Valid() && buddy.memStart > 0 && b in buddy.live && b.o == order
      requires a == AddressOf(buddy.memStart, b)
      requires b.p < buddy.refcount.Length && buddy.refcount[b.p] == 1
      modifies buddy, buddy.freeArea, buddy.blockOrder, buddy.refcount
      ensures buddy.Valid()
      ensures forall q :: 0 <= q < buddy.refcount.Length && q != b.p ==> buddy.refcount[q] == old(buddy.refcount[q])
      ensures Floor(buddy.memStart, order + 12) == buddy.memStart ==> buddy.live == old(buddy.live) - {b}
      ensures Floor(buddy.memStart, order + 12) != buddy.memStart ==>
                buddy.live == old(buddy.live) && buddy.refcount[..] == old(buddy.refcount[..])
    {
      ghost var counts := buddy.refcount[..];
      buddy.FreeHonoured(b);
      buddy.FreePages(a, order);
      if Floor(buddy.memStart, order + 12) != buddy.memStart {
        assert forall q :: 0 <= q < buddy.refcount.Length ==> buddy.refcount[q] == buddy.refcount[..][q] == counts[q];
      }
    }

    /** free_pages of the block under slab a, ignored if mem_start is not aligned to the block. */
    method ReturnBlock(a: nat)
      requires buddy.Valid() && buddy.memStart > 0 && buddy.memStart % PAGE == 0 && a in slabs
      requires Backed(buddy.memStart, slabs, buddy.live, others, buddy.refcount[..])
      modifies this`slabs, this`others, buddy, buddy.freeArea, buddy.blockOrder, buddy.refcount
      ensures buddy.Valid() && Backed(buddy.memStart, slabs, buddy.live, others, buddy.refcount[..])
      ensures slabs == old(slabs) - {a}
      ensures others == if Honoured(OrderOf(old(slabs[a]))) then old(others)
                        else old(others) + {BlockOf(buddy.memStart, old(slabs), a)}
    {
      var order := OrderOf(slabs[a]);
      ghost var was, b := slabs, BlockOf(buddy.memStart, slabs, a);
      ghost var blocks, mine, counts := buddy.live, others, buddy.refcount[..];
      SamePage(buddy.memStart, a, a);
      Heads();
      if !Honoured(order) {
        others := others + {b};
      }
      slabs := slabs - {a};
      Surrender(a, order, b);
      BackedLess(buddy.memStart, was, blocks, mine, counts, a, buddy.refcount[..]);
    }

    /** free_pages takes the pages of this slab back. */
    ghost predicate Honoured(order: nat) {
      Floor(buddy.memStart, order + 12) == buddy.memStart
    }

    /** alloc_large, with the addition of the header in 64 bits. */
    method AllocLarge(size: nat) returns (obj: nat)
      requires Valid() && size < TWO64
      modifies this, buddy, buddy.freeArea, buddy.blockOrder, buddy.refcount
      ensures Valid() && others == old(others)
      ensures obj == 0 <==> !B.Room(buddy.maxOrder, old(buddy.free), PickOrder(LargeNeed(size)))
      ensures obj == 0 ==> Contents() == old(Contents())
      ensures obj != 0 ==> obj !in old(live) && live == old(live) + {obj} && PageOf(obj) in slabs
      ensures obj != 0 ==> slabs[PageOf(obj)].cache.None? && slabs[PageOf(obj)].objects == PickOrder(LargeNeed(size))
    {
      var order := LargeOrder(LargeNeed(size));
      ghost var h := Contents();
      var a := NewBlock(order, Slab(None, [], 1, order));
      if a == 0 {
        return 0;
      }
      LargeTakenOk(h, a, order);
      obj := a + HEADER;
      live := live + {obj};
      assert Contents() == LargeTaken(h, a, order);
    }

    /** kmem_cache_free of a live object. */
    method CacheFree(obj: nat)
      requires Valid() && obj in live && slabs[PageOf(obj)].cache.Some? && slabs[PageOf(obj)].cache.value < CACHES
      modifies this, buddy, buddy.freeArea, buddy.blockOrder, buddy.refcount
      ensures Valid() && others == old(others) && Contents() == Given(old(Contents()), obj)
    {
      GivenSlab(Contents(), obj);
      GivenOk(Contents(), obj);
      GiveBack(obj);
    }

    /** The body of kmem_cache_free. */
    method GiveBack(obj: nat)
      requires buddy.Valid() && buddy.memStart > 0 && buddy.memStart % PAGE == 0
      requires Backed(buddy.memStart, slabs, buddy.live, others, buddy.refcount[..])
      requires PageOf(obj) in slabs && slabs[PageOf(obj)].cache.Some? && slabs[PageOf(obj)].cache.value < |partial|
      requires slabs[PageOf(obj)].inuse > 0
      modifies this, buddy, buddy.freeArea, buddy.blockOrder, buddy.refcount
      ensures buddy.Valid() && Backed(buddy.memStart, slabs, buddy.live, others, buddy.refcount[..])
      ensures others == old(others) && Contents() == Given(old(Contents()), obj)
    {
      var a := PageOf(obj);
      var s := slabs[a];
      var c := s.cache.value;
      live := live - {obj};
      Rewrite(a, s.(freelist := [obj] + s.freelist, inuse := s.inuse - 1));
      if slabs[a].inuse == 0 {
        SlabDestroy(c, a);
        assert slabs == old(slabs) - {a};
      } else if slabs[a].inuse == slabs[a].objects - 1 {
        partial := partial[c := [a] + partial[c]];
      }
    }

    /** slab_destroy. */
    method SlabDestroy(c: nat, a: nat)
      requires buddy.Valid() && buddy.memStart > 0 && buddy.memStart % PAGE == 0 && a in slabs && slabs[a].cache.Some?
      requires c < |partial|
      requires Backed(buddy.memStart, slabs, buddy.live, others, buddy.refcount[..])
      modifies this`slabs, this`partial, this`others, buddy, buddy.freeArea, buddy.blockOrder, buddy.refcount
      ensures buddy.Valid() && Backed(buddy.memStart, slabs, buddy.live, others, buddy.refcount[..])
      ensures slabs == old(slabs) - {a} && partial == old(partial)[c := Without(old(partial)[c], a)]
      ensures others == old(others)
    {
      PartialUnlink(c, a);
      AlignedPool(buddy.memStart);
      ReturnBlock(a);
    }

    /** free_large of a live object. */
    method FreeLarge(obj: nat)
      requires Valid() && obj in live && slabs[PageOf(obj)].cache.None?
      modifies this, buddy, buddy.freeArea, buddy.blockOrder, buddy.refcount
      ensures Valid() && Contents() == LargeGiven(old(Contents()), obj)
      ensures others == if Honoured(OrderOf(old(slabs)[PageOf(obj)])) then old(others)
                        else old(others) + {BlockOf(buddy.memStart, old(slabs), PageOf(obj))}
    {
      ghost var h := Contents();
      LargeGivenOk(h, obj);
      live := live - {obj};
      ReturnBlock(PageOf(obj));
      assert Contents() == LargeGiven(h, obj);
    }

    /** kfree; slabs holds the pages that carry the magic number, and a pointer into any other is ignored. */
    method Kfree(obj: nat)
      requires Valid() && (obj == 0 || obj in live || PageOf(obj) !in slabs)
      modifies this, buddy, buddy.freeArea, buddy.blockOrder, buddy.refcount
      ensures Valid() && live == old(live) - {obj}
      ensures obj !in old(live) ==>
                Contents() == old(Contents()) && others == old(others) && buddy.free == old(buddy.free)
      ensures obj in old(live) ==>
                others == old(others) + if Honoured(OrderOf(old(slabs)[PageOf(obj)])) then {}
                                        else {BlockOf(buddy.memStart, old(slabs), PageOf(obj))}
    {
      if obj == 0 || PageOf(obj) !in slabs {
        NullNotLive();
        return;
      }
      AlignedPool(buddy.memStart);
      assert SlabOk(PageOf(obj), slabs[PageOf(obj)], LiveIn(live, PageOf(obj)));
      if slabs[PageOf(obj)].cache.None? {
        FreeLarge(obj);
      } else {
        CacheFree(obj);
      }
    }

    lemma NullNotLive()
      requires Valid()
      ensures 0 !in live
    {
      forall x | x in live ensures x != 0 {
        assert buddy.memStart <= PageOf(x) by {
          assert BlockOf(buddy.memStart, slabs, PageOf(x)) in buddy.live;
        }
      }
    }

    /** kmalloc. */
    method Alloc(size: nat) returns (obj: nat)
      requires Valid() && size < TWO64
      modifies this, buddy, buddy.freeArea, buddy.blockOrder, buddy.refcount
      ensures Valid() && others == old(others)
      ensures obj == 0 <==> Refused(old(partial), buddy.maxOrder, old(buddy.free), size)
      ensures obj == 0 ==> Contents() == old(Contents())
      ensures obj != 0 ==> obj !in old(live) && live == old(live) + {obj}
      ensures obj != 0 ==> PageOf(obj) in slabs && Sized(slabs[PageOf(obj)])
      ensures obj != 0 ==> (size <= Capacity(obj) <==> size + HEADER < TWO64 && size + HEADER <= PAGE * Pow2(MAX_LARGE))
    {
      var want := if size == 0 then 1 else size;
      var c := CacheFor(want);
      LargestOrder();
      if c.Some? {
        obj := CacheAlloc(c.value);
      } else {
        obj := AllocLarge(want);
        if obj != 0 {
          LargeEnough(want);
        }
      }
    }

    static predicate Sized(s: Slab) {
      s.cache.Some? ==> s.cache.value < CACHES
    }

    /** A live object lies behind the header of its slab and within the pages of that slab. */
    lemma Inside(x: nat)
      requires Valid() && x in live
      ensures PageOf(x) in slabs && Sized(slabs[PageOf(x)])
      ensures PageOf(x) + HEADER <= x && x + Capacity(x) <= PageOf(x) + PAGE * Pow2(OrderOf(slabs[PageOf(x)]))
      ensures BlockOf(buddy.memStart, slabs, PageOf(x)) in buddy.live
      ensures PageOf(x) == AddressOf(buddy.memStart, BlockOf(buddy.memStart, slabs, PageOf(x)))
    {
      var a := PageOf(x);
      assert SlabOk(a, slabs[a], LiveIn(live, a)) && x in LiveIn(live, a);
      assert BlockOf(buddy.memStart, slabs, a) in buddy.live;
      SamePage(buddy.memStart, a, a);
      if slabs[a].cache.Some? {
        ObjectInPage(a, slabs[a].cache.value, x);
      }
    }

    /** Live objects never overlap. */
    lemma Disjoint(x: nat, y: nat)
      requires Valid() && x in live && y in live && x != y
      ensures PageOf(x) in slabs && Sized(slabs[PageOf(x)]) && PageOf(y) in slabs && Sized(slabs[PageOf(y)])
      ensures x + Capacity(x) <= y || y + Capacity(y) <= x
    {
      var a, b := PageOf(x), PageOf(y);
      Inside(x);
      Inside(y);
      if a == b {
        SamePageApart(x, y);
      } else {
        buddy.LiveApart(BlockOf(buddy.memStart, slabs, a), BlockOf(buddy.memStart, slabs, b));
      }
    }

    lemma SamePageApart(x: nat, y: nat)
      requires Valid() && x in live && y in live && x != y && PageOf(x) == PageOf(y)
      ensures PageOf(x) in slabs && Sized(slabs[PageOf(x)]) && (x + Capacity(x) <= y || y + Capacity(x) <= x)
    {
      var a := PageOf(x);
      assert SlabOk(a, slabs[a], LiveIn(live, a)) && x in LiveIn(live, a) && y in LiveIn(live, a);
      var c := slabs[a].cache.value;
      ObjectsApart(a, c, x, y);
      ObjectsApart(a, c, y, x);
    }

    /** Once every object is freed, all pages are back; only what other code holds is allocated. */
    lemma AllFreed()
      requires Valid() && live == {}
      ensures slabs == map[] && buddy.live == others
      ensures others == {} ==> buddy.free == {Block(buddy.maxOrder, 0)}
    {
      NothingLive(Contents());
      forall b | b in buddy.live ensures b in others {
        assert b in others || Used(buddy.memStart, slabs, b);
      }
      if others == {} {
        buddy.AllReturned();
      }
    }

    /** Every order the pool has is taken back. */
    ghost predicate AllHonoured() {
      forall o: nat :: o <= buddy.maxOrder ==> Honoured(o)
    }

    lemma OrderBound(a: nat)
      requires Valid() && a in slabs
      ensures OrderOf(slabs[a]) <= buddy.maxOrder
    {
      var b := BlockOf(buddy.memStart, slabs, a);
      assert b in buddy.live;
      assert b in buddy.free + buddy.live + {} && b.InPool(buddy.maxOrder);
    }

    ghost function Look(): Glance
      reads this, buddy
    {
      Glance(partial, buddy.free, live)
    }

    /**
     * Any run of kmalloc and kfree by one caller: each call does what Did says. What is live at the end
     * is what was live before and what the caller still holds, and in a pool aligned for all its orders
     * no page is lost.
     */
    method Run(ops: seq<Op>) returns (got: seq<nat>, ghost views: seq<Glance>)
      requires Valid()
      modifies this, buddy, buddy.freeArea, buddy.blockOrder, buddy.refcount
      ensures Valid() && IsRun(buddy.maxOrder, views, ops, got) && views[0] == old(Look()) && views[|ops|] == Look()
      ensures Apart(old(live), Holding(ops, got), live) && (AllHonoured() ==> others == old(others))
    {
      got, views := [], [Look()];
      var held: seq<nat> := [];
      for i := 0 to |ops|
        invariant Valid() && IsRun(buddy.maxOrder, views, ops[..i], got) && held == Holding(ops[..i], got)
        invariant views[0] == old(Look()) && views[i] == Look()
        invariant Apart(old(live), held, live) && (AllHonoured() ==> others == old(others))
      {
        var r := Perform(ops[i], held);
        ApartStep(old(live), held, views[i].live, ops[i], r, live);
        ExtendRun(buddy.maxOrder, views, ops[..i], got, ops[i], r, Look());
        assert ops[..i + 1] == ops[..i] + [ops[i]];
        got, views := got + [r], views + [Look()];
        held := HeldAfter(held, ops[i], r);
      }
      assert ops[..|ops|] == ops;
    }

    /** One call of a caller that holds these objects. */
    method Perform(op: Op, held: seq<nat>) returns (got: nat)
      requires Valid() && forall x :: x in held ==> x in live
      modifies this, buddy, buddy.freeArea, buddy.blockOrder, buddy.refcount
      ensures Valid() && Did(buddy.maxOrder, old(Look()), held, op, got, Look())
      ensures AllHonoured() ==> others == old(others)
    {
      match op {
        case Malloc(size) => got := Alloc(size % TWO64);
        case Free(k) =>
          got := 0;
          if k < |held| {
            ReturnOne(held[k]);
          }
      }
    }

    method ReturnOne(obj: nat)
      requires Valid() && obj in live
      modifies this, buddy, buddy.freeArea, buddy.blockOrder, buddy.refcount
      ensures Valid() && live == old(live) - {obj} && (AllHonoured() ==> others == old(others))
    {
      OrderBound(PageOf(obj));
      NullNotLive();
      Kfree(obj);
    }
  }

  // ---------- what a run does ----------

  /** What decides whether a request is met, and the objects handed out. */
  datatype Glance = Glance(partial: seq<seq<nat>>, free: set<Block>, live: set<nat>)

  /** A request is met exactly when there is room, by a new object; a return takes the k-th object held. */
  ghost predicate Did(maxOrder: nat, a: Glance, held: seq<nat>, op: Op, got: nat, b: Glance) {
    match op
    case Malloc(size) =>
      && (got == 0 <==> Refused(a.partial, maxOrder, a.free, size % TWO64))
      && if got == 0 then b.live == a.live else got !in a.live && b.live == a.live + {got}
    case Free(k) => got == 0 && b.live == if k < |held| then a.live - {held[k]} else a.live
  }

  function HeldAfter(held: seq<nat>, op: Op, got: nat): seq<nat> {
    match op
    case Malloc(_) => if got == 0 then held else held + [got]
    case Free(k) => if k < |held| then held[..k] + held[k + 1..] else held
  }

  /** The objects a caller still holds after these calls with these results. */
  function Holding(ops: seq<Op>, got: seq<nat>): seq<nat>
    requires |got| == |ops|
  {
    if ops == [] then []
    else HeldAfter(Holding(ops[..|ops| - 1], got[..|ops| - 1]), ops[|ops| - 1], got[|ops| - 1])
  }

  ghost predicate IsRun(maxOrder: nat, views: seq<Glance>, ops: seq<Op>, got: seq<nat>) {
    && |views| == |ops| + 1 && |got| == |ops|
    && forall i | 0 <= i < |ops| :: Did(maxOrder, views[i], Holding(ops[..i], got[..i]), ops[i], got[i], views[i + 1])
  }

  lemma ExtendRun(maxOrder: nat, views: seq<Glance>, ops: seq<Op>, got: seq<nat>, op: Op, r: nat, v: Glance)
    requires IsRun(maxOrder, views, ops, got) && Did(maxOrder, views[|ops|], Holding(ops, got), op, r, v)
    ensures IsRun(maxOrder, views + [v], ops + [op], got + [r])
    ensures Holding(ops + [op], got + [r]) == HeldAfter(Holding(ops, got), op, r)
  {
    var ops', got' := ops + [op], got + [r];
    assert ops'[..|ops|] == ops && got'[..|ops|] == got;
    forall i | 0 <= i < |ops'|
      ensures Did(maxOrder, (views + [v])[i], Holding(ops'[..i], got'[..i]), ops'[i], got'[i], (views + [v])[i + 1])
    {
      if i < |ops| {
        assert ops'[..i] == ops[..i] && got'[..i] == got[..i];
      }
    }
  }

  /** What is live is what was live before and, without repetition, what the caller holds. */
  ghost predicate Apart(before: set<nat>, held: seq<nat>, live: set<nat>) {
    && NoRepeats(held) && (forall x :: x in held ==> x !in before)
    && live == before + (set x | x in held)
  }

  lemma ApartStep(before: set<nat>, held: seq<nat>, live: set<nat>, op: Op, got: nat, live': set<nat>)
    requires Apart(before, held, live)
    requires op.Malloc? ==> if got == 0 then live' == live else got !in live && live' == live + {got}
    requires op.Free? ==> live' == if op.k < |held| then live - {held[op.k]} else live
    ensures Apart(before, HeldAfter(held, op, got), live')
  {
    if op.Free? && op.k < |held| {
      forall x { WithoutOne(held, op.k, x); }
    }
  }

  lemma WithoutOne(held: seq<nat>, k: nat, x: nat)
    requires k < |held|
    ensures x in held && x != held[k] ==> x in held[..k] + held[k + 1..]
  {
    if x in held && x != held[k] {
      var i :| 0 <= i < |held| && held[i] == x;
      assert (held[..k] + held[k + 1..])[if i < k then i else i - 1] == x;
    }
  }

  lemma LargestOrder()
    ensures Pow2(MAX_LARGE) == 32768
  {
    assert Pow2(5) == 32 && Pow2(10) == 1024;
  }

  lemma Wrapped(n: nat)
    requires n < 2 * TWO64
    ensures n % TWO64 == if n < TWO64 then n else n - TWO64
  {
  }

  /** When kmalloc returns NULL: the cache has no slab with room and no page is free, or no block of the order is. */
  ghost predicate Refused(partial: seq<seq<nat>>, maxOrder: nat, free: set<Block>, size: nat) {
    var c := CacheFor(size);
    if c.Some? then c.value < |partial| && partial[c.value] == [] && !B.Room(maxOrder, free, 0)
    else !B.Room(maxOrder, free, PickOrder(LargeNeed(size)))
  }

  /** The block alloc_large picks is large enough unless the size wraps around or exceeds the largest order. */
  lemma LargeEnough(size: nat)
    requires 0 < size < TWO64
    ensures size <= PAGE * Pow2(PickOrder(LargeNeed(size))) - HEADER <==>
            size + HEADER < TWO64 && size + HEADER <= PAGE * Pow2(MAX_LARGE)
  {
    var order := PickOrder(LargeNeed(size));
    B.PowMono(order, MAX_LARGE);
    LargestOrder();
    Wrapped(size + HEADER);
    if order > 0 {
      assert Pow2(order - 1) >= 1;
    }
  }

  /** A size within a header of 2^64, such as 2^64 - 1, wraps and gets one page. */
  lemma WrapsToOnePage(size: nat)
    requires TWO64 - HEADER <= size < TWO64
    ensures PickOrder(LargeNeed(size)) == 0 && PAGE * Pow2(0) - HEADER < size
  {
    Wrapped(size + HEADER);
  }
}
