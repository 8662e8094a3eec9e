/**
 * What the slabs of mm/slub.c look like between two calls: the header and the
 * objects of each page, the free lists, the partial lists and the live objects.
 * Addresses are byte addresses; a slab is named by the address of its page.
 */
module SlabPages {
  import opened Basics

  const HEADER := 40                  // sizeof(struct slab)
  const CACHES := 7

  /** Object size of the kmalloc caches. */
  function Size(c: nat): nat
    requires c < CACHES
  {
    match c
    case 0 => 32
    case 1 => 64
    case 2 => 128
    case 3 => 256
    case 4 => 512
    case 5 => 1024
    case _ => 2048
  }

  /** slab_object_offset: the header rounded up to a multiple of the (power of two) object size. */
  function Offset(c: nat): nat
    requires c < CACHES
  {
    (HEADER + Size(c) - 1) / Size(c) * Size(c)
  }

  /** slab_objects_per_page. */
  function PerPage(c: nat): nat
    requires c < CACHES
  {
    if Offset(c) >= PAGE then 0 else (PAGE - Offset(c)) / Size(c)
  }

  /** The page an address lies in: obj & PAGE_MASK. */
  function PageOf(x: nat): nat {
    x - x % PAGE
  }

  /** Slot i of the page at a, as the creation loop computes it. */
  function ObjectAt(a: nat, c: nat, i: nat): nat
    requires c < CACHES
  {
    a + Offset(c) + i * Size(c)
  }

  ghost predicate IsObject(a: nat, c: nat, x: nat)
    requires c < CACHES
  {
    exists i: nat :: i < PerPage(c) && x == ObjectAt(a, c, i)
  }

  lemma CacheFacts(c: nat)
    requires c < CACHES
    ensures HEADER <= Offset(c) && PerPage(c) >= 1 && PerPage(c) * Size(c) + Offset(c) == PAGE
  {
    assert c == 0 || c == 1 || c == 2 || c == 3 || c == 4 || c == 5 || c == 6;
  }

  lemma SlotsApart(i: nat, j: nat, s: nat)
    requires i < j
    ensures i * s + s <= j * s
  {
    var d := j - i - 1;
    assert j * s == (i + 1 + d) * s == (i + 1) * s + d * s && (i + 1) * s == i * s + s;
  }

  lemma InPage(a: nat, x: nat)
    requires a % PAGE == 0 && a <= x < a + PAGE
    ensures PageOf(x) == a
  {
  }

  lemma ObjectInPage(a: nat, c: nat, x: nat)
    requires c < CACHES && IsObject(a, c, x)
    ensures a + HEADER <= x && x + Size(c) <= a + PAGE
  {
    CacheFacts(c);
    var i: nat :| i < PerPage(c) && x == ObjectAt(a, c, i);
    SlotsApart(i, PerPage(c), Size(c));
  }

  /** Objects lie in their page behind its header, and those of one page do not overlap. */
  lemma ObjectsApart(a: nat, c: nat, x: nat, y: nat)
    requires c < CACHES && a % PAGE == 0 && IsObject(a, c, x) && IsObject(a, c, y)
    ensures a + HEADER <= x && x + Size(c) <= a + PAGE && PageOf(x) == a
    ensures x < y ==> x + Size(c) <= y
  {
    ObjectInPage(a, c, x);
    InPage(a, x);
    var i: nat :| i < PerPage(c) && x == ObjectAt(a, c, i);
    var j: nat :| j < PerPage(c) && y == ObjectAt(a, c, j);
    if i < j {
      SlotsApart(i, j, Size(c));
    } else if j < i {
      SlotsApart(j, i, Size(c));
    }
  }

  // ---------- the slabs ----------

  /** A header; cache is None for a block of its own, whose order is then in objects. */
  datatype Slab = Slab(cache: Option<nat>, freelist: seq<nat>, inuse: nat, objects: nat)

  datatype Heap = Heap(slabs: map<nat, Slab>, partial: seq<seq<nat>>, live: set<nat>)

  /** The live objects in the page at a. */
  ghost function LiveIn(live: set<nat>, a: nat): set<nat> {
    set x | x in live && PageOf(x) == a
  }

  /** The free list holds exactly the objects that are not live, each once, and inuse counts the live ones. */
  ghost predicate SlabOk(a: nat, s: Slab, on: set<nat>) {
    && a % PAGE == 0 && |on| == s.inuse
    && match s.cache {
      case Some(c) =>
        && c < CACHES && s.objects == PerPage(c) && s.inuse + |s.freelist| == s.objects
        && NoRepeats(s.freelist)
        && (forall x {:trigger In(x, s.freelist)} :: In(x, s.freelist) ==> IsObject(a, c, x) && x !in on)
        && (forall x {:trigger IsObject(a, c, x)} :: IsObject(a, c, x) ==> In(x, s.freelist) || x in on)
        && (forall x :: x in on ==> IsObject(a, c, x))
      case None => s.freelist == [] && on == {a + HEADER}
    }
  }

  /** Slab a belongs on the partial list of cache c. */
  predicate HasRoom(h: Heap, a: nat, c: nat) {
    a in h.slabs && h.slabs[a].cache == Some(c) && h.slabs[a].freelist != []
  }

  /** The invariant; the slab in hand, if any, may be empty. */
  ghost predicate HeapOk(h: Heap, hand: set<nat>) {
    && |h.partial| == CACHES
    && (forall a {:trigger LiveIn(h.live, a)} :: a in h.slabs ==> SlabOk(a, h.slabs[a], LiveIn(h.live, a)))
    && (forall a :: a in h.slabs && a !in hand ==> h.slabs[a].inuse > 0)
    && (forall c :: 0 <= c < CACHES ==> NoRepeats(h.partial[c]))
    && (forall a, c {:trigger In(a, h.partial[c])} :: 0 <= c < CACHES ==> (In(a, h.partial[c]) <==> HasRoom(h, a, c)))
    && (forall x :: x in h.live ==> PageOf(x) in h.slabs)
  }

  // ---------- the steps ----------

  /** The free list of a page none of whose objects is live. */
  ghost predicate AllFree(a: nat, c: nat, list: seq<nat>) {
    && c < CACHES && NoRepeats(list) && |list| == PerPage(c)
    && forall x {:trigger In(x, list)} {:trigger IsObject(a, c, x)} :: In(x, list) <==> IsObject(a, c, x)
  }

  function Fresh(h: Heap, a: nat, c: nat, list: seq<nat>): Heap
    requires c < CACHES && |h.partial| == CACHES
  {
    Heap(h.slabs[a := Slab(Some(c), list, 0, PerPage(c))], h.partial[c := [a] + h.partial[c]], h.live)
  }

  /** slab_create and partial_link. */
  lemma FreshOk(h: Heap, a: nat, c: nat, list: seq<nat>)
    requires HeapOk(h, {}) && a !in h.slabs && a % PAGE == 0 && AllFree(a, c, list)
    ensures HeapOk(Fresh(h, a, c, list), {a}) && HasRoom(Fresh(h, a, c, list), a, c)
  {
    var n := Fresh(h, a, c, list);
    CacheFacts(c);
    assert LiveIn(h.live, a) == {};
    assert !In(a, h.partial[c]);
    PushFacts(h.partial[c], a);
    forall b, d | 0 <= d < CACHES ensures In(b, n.partial[d]) <==> HasRoom(n, b, d) {
      assert In(b, h.partial[d]) <==> HasRoom(h, b, d);
    }
    assert SlabOk(a, n.slabs[a], LiveIn(n.live, a));
  }

  function Taken(h: Heap, a: nat): Heap
    requires a in h.slabs && h.slabs[a].cache.Some? && h.slabs[a].cache.value < |h.partial| && h.slabs[a].freelist != []
  {
    var s := h.slabs[a];
    var c, rest := s.cache.value, s.freelist[1..];
    Heap(h.slabs[a := s.(freelist := rest, inuse := s.inuse + 1)],
         if rest == [] then h.partial[c := Without(h.partial[c], a)] else h.partial,
         h.live + {s.freelist[0]})
  }

  lemma TakenSlab(h: Heap, a: nat, c: nat)
    requires HeapOk(h, {a}) && c < CACHES && HasRoom(h, a, c)
    ensures h.slabs[a].freelist[0] !in h.live && PageOf(h.slabs[a].freelist[0]) == a
    ensures IsObject(a, c, h.slabs[a].freelist[0])
    ensures SlabOk(a, Taken(h, a).slabs[a], LiveIn(Taken(h, a).live, a))
  {
    var s, on := h.slabs[a], LiveIn(h.live, a);
    var x := s.freelist[0];
    assert SlabOk(a, s, on);
    PopFacts(s.freelist);
    ObjectsApart(a, c, x, x);
    assert x !in on;
    assert LiveIn(Taken(h, a).live, a) == on + {x};
  }

  /** kmem_cache_alloc once a slab with room is at hand. */
  lemma TakenOk(h: Heap, a: nat, c: nat)
    requires HeapOk(h, {a}) && c < CACHES && HasRoom(h, a, c)
    ensures HeapOk(Taken(h, a), {})
  {
    var n := Taken(h, a);
    TakenSlab(h, a, c);
    WithoutFacts(h.partial[c], a);
    forall b | b in n.slabs && b != a ensures SlabOk(b, n.slabs[b], LiveIn(n.live, b)) {
      assert LiveIn(n.live, b) == LiveIn(h.live, b);
    }
    forall b, d | 0 <= d < CACHES ensures In(b, n.partial[d]) <==> HasRoom(n, b, d) {
      assert In(b, h.partial[d]) <==> HasRoom(h, b, d);
    }
  }

  function Given(h: Heap, x: nat): Heap
    requires PageOf(x) in h.slabs && h.slabs[PageOf(x)].cache.Some? && h.slabs[PageOf(x)].cache.value < |h.partial|
    requires h.slabs[PageOf(x)].inuse > 0
  {
    var a := PageOf(x);
    var s := h.slabs[a];
    var c, left := s.cache.value, s.inuse - 1;
    if left == 0 then
      Heap(h.slabs - {a}, h.partial[c := Without(h.partial[c], a)], h.live - {x})
    else
      Heap(h.slabs[a := s.(freelist := [x] + s.freelist, inuse := left)],
           if left == s.objects - 1 then h.partial[c := [a] + h.partial[c]] else h.partial,
           h.live - {x})
  }

  lemma GivenSlab(h: Heap, x: nat)
    requires HeapOk(h, {}) && x in h.live && h.slabs[PageOf(x)].cache.Some?
    ensures var a := PageOf(x); var s := h.slabs[a]; var c := s.cache.value;
      c < CACHES && s.inuse > 0 && (s.freelist == [] <==> s.inuse == s.objects)
      && LiveIn(h.live - {x}, a) == LiveIn(h.live, a) - {x} && |LiveIn(h.live - {x}, a)| == s.inuse - 1
      && SlabOk(a, s.(freelist := [x] + s.freelist, inuse := s.inuse - 1), LiveIn(h.live - {x}, a))
  {
    var a := PageOf(x);
    var s, on := h.slabs[a], LiveIn(h.live, a);
    assert SlabOk(a, s, on) && x in on && !In(x, s.freelist);
    assert LiveIn(h.live - {x}, a) == on - {x};
    PushFacts(s.freelist, x);
  }

  /** kmem_cache_free. */
  lemma GivenOk(h: Heap, x: nat)
    requires HeapOk(h, {}) && x in h.live && h.slabs[PageOf(x)].cache.Some? && h.slabs[PageOf(x)].cache.value < CACHES
    ensures HeapOk(Given(h, x), {})
  {
    var n, a := Given(h, x), PageOf(x);
    var c := h.slabs[a].cache.value;
    GivenSlab(h, x);
    WithoutFacts(h.partial[c], a);
    assert In(a, h.partial[c]) <==> HasRoom(h, a, c);
    if h.slabs[a].freelist == [] {
      PushFacts(h.partial[c], a);
    }
    forall b | b in n.slabs && b != a ensures SlabOk(b, n.slabs[b], LiveIn(n.live, b)) {
      assert LiveIn(n.live, b) == LiveIn(h.live, b);
    }
    forall b, d | 0 <= d < CACHES ensures In(b, n.partial[d]) <==> HasRoom(n, b, d) {
      assert In(b, h.partial[d]) <==> HasRoom(h, b, d);
    }
    if a !in n.slabs {
      forall y | y in n.live ensures PageOf(y) in n.slabs {
        assert y !in LiveIn(n.live, a);
      }
    }
  }

  /** alloc_large with its block at a. */
  function LargeTaken(h: Heap, a: nat, order: nat): Heap {
    Heap(h.slabs[a := Slab(None, [], 1, order)], h.partial, h.live + {a + HEADER})
  }

  lemma LargeSlab(h: Heap, a: nat, order: nat, b: nat)
    requires HeapOk(h, {}) && a !in h.slabs && a % PAGE == 0 && b in LargeTaken(h, a, order).slabs
    ensures SlabOk(b, LargeTaken(h, a, order).slabs[b], LiveIn(LargeTaken(h, a, order).live, b))
  {
    var n := LargeTaken(h, a, order);
    InPage(a, a + HEADER);
    if b == a {
      assert LiveIn(h.live, a) == {};
      assert LiveIn(n.live, a) == {a + HEADER};
    } else {
      assert LiveIn(n.live, b) == LiveIn(h.live, b);
    }
  }

  lemma LargeTakenOk(h: Heap, a: nat, order: nat)
    requires HeapOk(h, {}) && a !in h.slabs && a % PAGE == 0
    ensures a + HEADER !in h.live && PageOf(a + HEADER) == a && HeapOk(LargeTaken(h, a, order), {})
  {
    var n := LargeTaken(h, a, order);
    InPage(a, a + HEADER);
    forall b | b in n.slabs ensures SlabOk(b, n.slabs[b], LiveIn(n.live, b)) {
      LargeSlab(h, a, order, b);
    }
    forall b, d | 0 <= d < CACHES ensures In(b, n.partial[d]) <==> HasRoom(n, b, d) {
      assert In(b, h.partial[d]) <==> HasRoom(h, b, d);
    }
  }

  /** free_large. */
  function LargeGiven(h: Heap, x: nat): Heap {
    Heap(h.slabs - {PageOf(x)}, h.partial, h.live - {x})
  }

  lemma LargeGivenOk(h: Heap, x: nat)
    requires HeapOk(h, {}) && x in h.live && h.slabs[PageOf(x)].cache.None?
    ensures HeapOk(LargeGiven(h, x), {}) && x == PageOf(x) + HEADER
  {
    var n, a := LargeGiven(h, x), PageOf(x);
    assert SlabOk(a, h.slabs[a], LiveIn(h.live, a)) && x in LiveIn(h.live, a);
    forall b | b in n.slabs ensures SlabOk(b, n.slabs[b], LiveIn(n.live, b)) {
      assert LiveIn(n.live, b) == LiveIn(h.live, b);
    }
    forall b, d | 0 <= d < CACHES ensures In(b, n.partial[d]) <==> HasRoom(n, b, d) {
      assert In(b, h.partial[d]) <==> HasRoom(h, b, d);
    }
    forall y | y in n.live ensures PageOf(y) in n.slabs {
      assert y !in LiveIn(h.live, a);
    }
  }

  lemma SlabHasLive(h: Heap, a: nat)
    requires HeapOk(h, {}) && a in h.slabs
    ensures LiveIn(h.live, a) != {}
  {
    assert SlabOk(a, h.slabs[a], LiveIn(h.live, a));
  }

  /** With nothing live there is no slab left. */
  lemma NothingLive(h: Heap)
    requires HeapOk(h, {}) && h.live == {}
    ensures h.slabs == map[]
  {
    if h.slabs != map[] {
      var a :| a in h.slabs;
      SlabHasLive(h, a);
    }
  }
}
