/**
 * Bits of page numbers: the block of order o around page q starts at
 * Floor(q, o), which clears the low o bits, and Buddy(p, o) is p ^ (1 << o).
 */
module BuddyMath {

  function Pow2(o: nat): (r: nat)
    ensures r > 0
  {
    if o == 0 then 1 else 2 * Pow2(o - 1)
  }

  /** q with the low o bits cleared. */
  function Floor(q: nat, o: nat): nat {
    if o == 0 then q else 2 * Floor(q / 2, o - 1)
  }

  /** p with bit o flipped. */
  function Buddy(p: nat, o: nat): nat {
    if o > 0 then 2 * Buddy(p / 2, o - 1) + p % 2
    else if p % 2 == 0 then p + 1 else p - 1
  }

  lemma {:induction false} FloorSelf(q: nat, o: nat)
    ensures Floor(q, o) <= q < Floor(q, o) + Pow2(o)
    ensures Floor(Floor(q, o), o) == Floor(q, o)
  {
    if o > 0 { FloorSelf(q / 2, o - 1); }
  }

  /** Blocks are nested: the larger block of a page is the larger block of its smaller block. */
  lemma {:induction false} FloorNested(q: nat, o: nat, o': nat)
    requires o <= o'
    ensures Floor(Floor(q, o), o') == Floor(q, o')
    decreases o'
  {
    if o > 0 { FloorNested(q / 2, o - 1, o' - 1); }
  }

  /** Buddies are the two halves of one block of the next order. */
  lemma {:induction false} BuddyFacts(p: nat, o: nat)
    requires Floor(p, o) == p
    ensures Floor(Buddy(p, o), o) == Buddy(p, o) && Buddy(Buddy(p, o), o) == p
    ensures Buddy(p, o) == p + Pow2(o) || p == Buddy(p, o) + Pow2(o)
    ensures Floor(p, o + 1) == Floor(Buddy(p, o), o + 1) == if Buddy(p, o) < p then Buddy(p, o) else p
  {
    if o > 0 {
      var h := p / 2;
      assert p == 2 * h && Buddy(p, o) == 2 * Buddy(h, o - 1);
      BuddyFacts(h, o - 1);
    } else {
      assert Floor(p, 1) == 2 * (p / 2);
      assert Floor(Buddy(p, 0), 1) == 2 * (Buddy(p, 0) / 2);
    }
  }

  /** A page of a block of order o + 1 lies in exactly one of its halves. */
  lemma {:induction false} HalfOf(q: nat, o: nat, p: nat)
    requires Floor(p, o + 1) == p
    ensures Floor(p, o) == p && Buddy(p, o) == p + Pow2(o)
    ensures Floor(q, o + 1) == p <==> Floor(q, o) == p || Floor(q, o) == Buddy(p, o)
  {
    if o > 0 {
      HalfOf(q / 2, o - 1, p / 2);
    } else {
      assert Floor(p, 1) == 2 * (p / 2);
      assert Floor(q, 1) == 2 * (q / 2);
    }
  }

  /** Pages of a pool of 2^m pages. */
  lemma {:induction false} FloorInPool(q: nat, o: nat, m: nat)
    requires o <= m && q < Pow2(m)
    ensures Floor(q, o) + Pow2(o) <= Pow2(m)
    decreases o
  {
    if o > 0 { FloorInPool(q / 2, o - 1, m - 1); }
  }

  lemma {:induction false} FloorPool(q: nat, m: nat)
    requires q < Pow2(m)
    ensures Floor(q, m) == 0
  {
    if m > 0 { FloorPool(q / 2, m - 1); }
  }

  lemma {:induction false} FloorZero(o: nat)
    ensures Floor(0, o) == 0
  {
    if o > 0 { FloorZero(o - 1); }
  }

  /** Adding an aligned amount keeps alignment, and only then. */
  lemma {:induction false} FloorAdd(a: nat, b: nat, o: nat)
    requires Floor(b, o) == b
    ensures Floor(a + b, o) == a + b <==> Floor(a, o) == a
  {
    if o > 0 {
      assert b == 2 * (b / 2);
      assert (a + b) / 2 == a / 2 + b / 2;
      FloorAdd(a / 2, b / 2, o - 1);
    }
  }

  /** Scaling a page number by the page size moves its alignment up by twelve bits. */
  lemma {:induction false} FloorScale(p: nat, o: nat, k: nat)
    ensures Floor(p * Pow2(k), o + k) == Floor(p, o) * Pow2(k)
    decreases k
  {
    if k > 0 {
      var a := Pow2(k - 1);
      Twice(p, a);
      FloorScale(p, o, k - 1);
      Twice(Floor(p, o), a);
      assert 2 * (p * a) / 2 == p * a;
    }
  }

  lemma Twice(p: nat, a: nat)
    ensures p * (2 * a) == 2 * (p * a)
  {
  }

  /** The block that starts at p consists of the 2^o pages from p. */
  lemma {:induction false} HoldsRange(p: nat, q: nat, o: nat)
    requires Floor(p, o) == p
    ensures Floor(q, o) == p <==> p <= q < p + Pow2(o)
  {
    if o > 0 {
      HoldsRange(p / 2, q / 2, o - 1);
    }
  }
}
