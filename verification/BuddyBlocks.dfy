/**
 * The set of free blocks of a buddy allocator over 2^m pages: what splitting
 * and merging keep, and what the free pages alone decide.
 */
module BuddyBlocks {
  import opened BuddyMath

  /** The order-o block that starts at page p. */
  datatype Block = Block(o: nat, p: nat) {
    predicate InPool(m: nat) {
      o <= m && Floor(p, o) == p && p + Pow2(o) <= Pow2(m)
    }

    predicate Holds(q: nat) {
      Floor(q, o) == p
    }

    function Twin(): Block {
      Block(o, Buddy(p, o))
    }

    /** The block of the next order it is half of. */
    function Whole(): Block {
      Block(o + 1, Floor(p, o + 1))
    }
  }

  ghost predicate Held(bs: set<Block>, q: nat) {
    exists b | b in bs :: b.Holds(q)
  }

  /** The blocks of bs cover every page of the pool exactly once. */
  ghost predicate Partition(m: nat, bs: set<Block>) {
    && (forall b | b in bs :: b.InPool(m))
    && (forall q: nat | q < Pow2(m) :: Held(bs, q))
    && (forall b, c, q: nat | b in bs && c in bs && b.Holds(q) && c.Holds(q) :: b == c)
  }

  /** No two buddies of one order are both free. */
  ghost predicate Coalesced(m: nat, free: set<Block>) {
    forall b | b in free && b.o < m :: b.Twin() !in free
  }

  ghost predicate AllHeld(m: nat, free: set<Block>, b: Block) {
    forall q: nat | q < Pow2(m) && b.Holds(q) :: Held(free, q)
  }

  // ------------------------------------------------------------------
  // Splitting and merging

  lemma TwinFacts(b: Block, m: nat)
    requires b.InPool(m) && b.o < m
    ensures b.Twin().InPool(m) && b.Twin() != b && b.Twin().Twin() == b
    ensures b.Whole().InPool(m) && b.Twin().Whole() == b.Whole()
    ensures b.Whole().p == if b.Twin().p < b.p then b.Twin().p else b.p
    ensures forall q: nat :: b.Whole().Holds(q) <==> b.Holds(q) || b.Twin().Holds(q)
  {
    BuddyFacts(b.p, b.o);
    FloorSelf(b.p, b.o + 1);
    FloorInPool(b.p, b.o + 1, m);
    var w := Floor(b.p, b.o + 1);
    forall q: nat ensures b.Whole().Holds(q) <==> b.Holds(q) || b.Twin().Holds(q) {
      HalfOf(q, b.o, w);
    }
    assert Pow2(b.o + 1) == 2 * Pow2(b.o);
    HalfOf(b.p, b.o, w);
  }

  /** A block gives way to its two halves. */
  lemma SplitPartition(m: nat, bs: set<Block>, b: Block)
    requires Partition(m, bs) && b.InPool(m) && b.o < m && b.Whole() in bs
    ensures Partition(m, bs - {b.Whole()} + {b, b.Twin()})
  {
    TwinFacts(b, m);
    var cs := bs - {b.Whole()} + {b, b.Twin()};
    forall q: nat | q < Pow2(m) ensures Held(cs, q) {
      assert Held(bs, q);
      var c :| c in bs && c.Holds(q);
      if c == b.Whole() {
        assert b.Holds(q) || b.Twin().Holds(q);
      } else {
        assert c in cs;
      }
    }
    forall c, d, q: nat | c in cs && d in cs && c.Holds(q) && d.Holds(q) ensures c == d {
      if c in {b, b.Twin()} { assert b.Whole().Holds(q); }
      if d in {b, b.Twin()} { assert b.Whole().Holds(q); }
    }
  }

  /** Two buddies give way to the block they make up. */
  lemma MergePartition(m: nat, bs: set<Block>, b: Block)
    requires Partition(m, bs) && b in bs && b.o < m && b.Twin() in bs
    ensures b.Whole() !in bs && Partition(m, bs - {b, b.Twin()} + {b.Whole()})
  {
    TwinFacts(b, m);
    var cs := bs - {b, b.Twin()} + {b.Whole()};
    FloorSelf(b.p, b.o);
    assert b.Whole() in bs ==> b.Whole() == b by { assert b.Holds(b.p) && b.Whole().Holds(b.p); }
    forall q: nat | q < Pow2(m) ensures Held(cs, q) {
      assert Held(bs, q);
      var c :| c in bs && c.Holds(q);
      if c == b || c == b.Twin() {
        assert b.Whole().Holds(q);
      } else {
        assert c in cs;
      }
    }
    forall c, d, q: nat | c in cs && d in cs && c.Holds(q) && d.Holds(q) ensures c == d {
      if c == b.Whole() { assert b.Holds(q) || b.Twin().Holds(q); }
      if d == b.Whole() { assert b.Holds(q) || b.Twin().Holds(q); }
    }
  }

  // ------------------------------------------------------------------
  // The free pages decide the free blocks

  /** An entirely free block lies inside one free block: merging never stops short. */
  lemma {:induction false} Swallowed(m: nat, free: set<Block>, b: Block) returns (c: Block)
    requires (forall f | f in free :: f.InPool(m)) && Coalesced(m, free) && b.InPool(m) && AllHeld(m, free, b)
    ensures c in free && c.o >= b.o && c.Holds(b.p)
    decreases b.o
  {
    if b.o == 0 {
      assert b.Holds(b.p) && b.p < Pow2(m);
      assert Held(free, b.p);
      c :| c in free && c.Holds(b.p);
    } else {
      var l := Block(b.o - 1, b.p);
      HalfOf(b.p, b.o - 1, b.p);
      TwinFacts(l, m);
      assert l.Whole() == b;
      var r := l.Twin();
      c := Swallowed(m, free, l);
      if c.o < b.o {
        FloorSelf(b.p, c.o);
        assert c == l;
        var d := Swallowed(m, free, r);
        assert d != r;
        assert d.o == r.o ==> d == r;
        FloorNested(r.p, b.o, d.o);
        c := d;
      }
    }
  }

  /** A block is on a free list exactly when it is entirely free and the block it is half of is not. */
  lemma Canonical(m: nat, free: set<Block>, used: set<Block>, b: Block)
    requires Partition(m, free + used) && free !! used && Coalesced(m, free) && b.InPool(m)
    ensures b in free <==> AllHeld(m, free, b) && (b.o == m || !AllHeld(m, free, b.Whole()))
  {
    FloorSelf(b.p, b.o);
    if b in free {
      assert AllHeld(m, free, b);
      if b.o < m {
        TwinFacts(b, m);
        if AllHeld(m, free, b.Whole()) {
          var c := Swallowed(m, free, b.Whole());
          FloorNested(b.p, b.o + 1, c.o);
          assert b.Holds(b.p) && c.Holds(b.p);
        }
      }
    }
    if AllHeld(m, free, b) && b !in free {
      var c := Swallowed(m, free, b);
      assert c.o == b.o ==> c == b;
      TwinFacts(b, m);
      forall q: nat | q < Pow2(m) && b.Whole().Holds(q) ensures Held(free, q) {
        FloorNested(q, b.o + 1, c.o);
        FloorNested(b.p, b.o + 1, c.o);
        assert c.Holds(q);
      }
    }
  }

  /** Two coalesced states with the same free pages have the same free blocks. */
  lemma FreePagesDecide(m: nat, free: set<Block>, used: set<Block>, free': set<Block>, used': set<Block>)
    requires Partition(m, free + used) && free !! used && Coalesced(m, free)
    requires Partition(m, free' + used') && free' !! used' && Coalesced(m, free')
    requires forall q: nat | q < Pow2(m) :: Held(free, q) <==> Held(free', q)
    ensures free == free'
  {
    forall b: Block | b.InPool(m) ensures b in free <==> b in free' {
      Canonical(m, free, used, b);
      Canonical(m, free', used', b);
    }
    forall b ensures b in free <==> b in free' {
      assert b in free ==> b in free + used;
      assert b in free' ==> b in free' + used';
    }
  }

  /** When everything is free there is one block, the whole pool. */
  lemma AllFreeIsOne(m: nat, free: set<Block>)
    requires Partition(m, free) && Coalesced(m, free)
    ensures free == {Block(m, 0)}
  {
    var w := Block(m, 0);
    FloorZero(m);
    var c := Swallowed(m, free, w);
    assert c == w;
    forall b | b in free ensures b == w {
      assert b.p < Pow2(m);
      FloorPool(b.p, m);
      assert b.Holds(b.p) && w.Holds(b.p);
    }
  }
}
