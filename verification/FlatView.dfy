/**
 * The tables of all address spaces at once: when every table is well linked
 * the three-level walk of l3_slot (mm/mmap.c) reads the flat view, and one
 * map_page, unmap_page or pte_set changes one slot of it.
 */
module FlatView {
  import opened Basics
  import opened PageTable
  import opened Accounting
  import opened TreeWalk
  import opened ForkWalk

  /** Every table agrees with the ghost maps and hangs from a table. */
  ghost predicate WellLinked(s: Tables)
    requires Shape(s)
  {
    forall y {:trigger Node(s, y)} | y in s.at :: Node(s, y) && (!y.Root? ==> y.Parent() in s.at)
  }

  lemma LinkedSubtree(s: Tables, x: Pos)
    requires Shape(s) && WellLinked(s)
    ensures Subtree(s, x)
  {
    forall y | y in s.at && x.Under(y) ensures Node(s, y) && (y != x ==> y.Parent() in s.at) {
      assert Node(s, y);
    }
  }

  // ------------------------------------------------------------------
  // Addresses

  /** T0SZ = 25: user addresses have 39 bits. */
  const LIMIT := 0x80_0000_0000

  /** The leaf slot of a virtual address: 9 bits per level above the page offset. */
  function SlotOf(m: nat, va: nat): (y: Pos)
    ensures y.Slot? && y.InRange() && y.mm == m
  {
    Slot(m, va / 0x4000_0000 % 512, va / 0x20_0000 % 512, va / 0x1000 % 512)
  }

  function Va(y: Pos): nat
    requires y.Slot?
  {
    ((y.i * 512 + y.j) * 512 + y.k) * PAGE
  }

  lemma VaOfSlot(m: nat, va: nat)
    requires va < LIMIT
    ensures Va(SlotOf(m, va)) == va - va % PAGE
  {
    var p := va / 0x1000;
    assert va / 0x20_0000 == p / 512 && va / 0x4000_0000 == p / 512 / 512;
    assert va == p * 4096 + va % 4096;
  }

  lemma SlotOfVa(y: Pos)
    requires y.Slot? && y.InRange()
    ensures Va(y) < LIMIT && Va(y) % PAGE == 0 && SlotOf(y.mm, Va(y)) == y
  {
    var p := (y.i * 512 + y.j) * 512 + y.k;
    assert Va(y) / 0x1000 == p;
    assert p / 512 == y.i * 512 + y.j && p / 512 / 512 == y.i;
    assert Va(y) / 0x20_0000 == p / 512 && Va(y) / 0x4000_0000 == p / 512 / 512;
  }

  /** Two addresses share a slot exactly when their pages are congruent modulo 2^39: the walk aliases above it. */
  lemma SlotAliases(m: nat, a: nat, b: nat)
    ensures SlotOf(m, a) == SlotOf(m, b) <==> a / PAGE % 0x800_0000 == b / PAGE % 0x800_0000
  {
    var y, z := SlotOf(m, a), SlotOf(m, b);
    assert a / PAGE % 0x800_0000 == (y.i * 512 + y.j) * 512 + y.k by { SlotModulo(m, a); }
    assert b / PAGE % 0x800_0000 == (z.i * 512 + z.j) * 512 + z.k by { SlotModulo(m, b); }
    SameDigits(y.i * 512 + y.j, y.k, z.i * 512 + z.j, z.k);
    SameDigits(y.i, y.j, z.i, z.j);
  }

  lemma SameDigits(p: nat, i: nat, q: nat, j: nat)
    requires i < 512 && j < 512
    ensures p * 512 + i == q * 512 + j <==> p == q && i == j
  {
  }

  lemma SlotModulo(m: nat, a: nat)
    ensures var y := SlotOf(m, a); a / PAGE % 0x800_0000 == (y.i * 512 + y.j) * 512 + y.k
  {
    var p := a / 0x1000;
    assert a / 0x20_0000 == p / 512 && a / 0x4000_0000 == p / 512 / 512;
    var q := p / 512;
    assert p == q * 512 + p % 512;
    assert q == q / 512 * 512 + q % 512;
    var t := q / 512;
    assert t == t / 512 * 512 + t % 512;
    assert p == t / 512 * 0x800_0000 + (t % 512 * 512 + q % 512) * 512 + p % 512;
  }

  // ------------------------------------------------------------------
  // One slot changes

  /** s' is s with entry n of the lowest table z set to e, data pages and counts aside. */
  ghost predicate SlotSet(s: Tables, s': Tables, z: Pos, n: nat, e: Entry) {
    && WfAt(s, z) && z.Low? && n < ENTRIES
    && s'.at == s.at
    && s'.leaf == (if e.Present? then s.leaf[z.Child(n) := e] else s.leaf - {z.Child(n)})
    && (forall x {:trigger TableKept(s, s', z, n, e, x)} :: TableKept(s, s', z, n, e, x))
  }

  ghost predicate TableKept(s: Tables, s': Tables, z: Pos, n: nat, e: Entry, x: Pos) {
    WfAt(s, x) && n < ENTRIES ==>
      && s.at[x] in s'.frame && s'.frame[s.at[x]].Table?
      && s'.frame[s.at[x]].e == if x == z then Entries(s, x)[n := e] else Entries(s, x)
  }

  lemma SlotSetLinked(s: Tables, s': Tables, z: Pos, n: nat, e: Entry)
    requires Shape(s) && Shape(s') && WellLinked(s) && SlotSet(s, s', z, n, e)
    ensures WellLinked(s')
  {
    forall y | y in s'.at ensures Node(s', y) && (!y.Root? ==> y.Parent() in s'.at) {
      assert WfAt(s, y) && WfAt(s', y) && Node(s, y) && TableKept(s, s', z, n, e, y);
      forall k | 0 <= k < ENTRIES ensures EntryOk(s', y, k) {
        assert EntryOk(s, y, k);
      }
    }
  }

  /** get_or_create_table: a new table under entry n of x. */
  lemma TableAdded(s: Tables, x: Pos, n: nat, t: nat, e: Entry)
    requires Ok(s) && WellLinked(s) && x in s.at && WfAt(s, x) && !x.Low? && n < ENTRIES && t in s.free
    requires x.Child(n) !in s.at && e.Present? && e.pfn == t
    ensures x.Child(n).InRange() && Ok(AddTable(s, x.Child(n), t))
    ensures IsTable(AddTable(s, x.Child(n), t), s.at[x])
    ensures var s' := SetEntry(AddTable(s, x.Child(n), t), s.at[x], n, e); Ok(s') && WellLinked(s')
  {
    var c := x.Child(n);
    AddTableOk(s, c, t);
    var a := AddTable(s, c, t);
    assert WfAt(a, x);
    SetEntryOk(a, a.at[x], n, e);
    var s' := SetEntry(a, a.at[x], n, e);
    forall y | y in s'.at ensures Node(s', y) && (!y.Root? ==> y.Parent() in s'.at) {
      assert WfAt(s', y);
      if y == c {
        forall k | 0 <= k < ENTRIES ensures EntryOk(s', y, k) {
          NothingUnder(s, c, c.Child(k));
        }
      } else {
        assert WfAt(s, y) && Node(s, y);
        forall k | 0 <= k < ENTRIES ensures EntryOk(s', y, k) {
          assert EntryOk(s, y, k);
        }
      }
    }
  }

  /** Below a position without a table there is nothing. */
  lemma NothingUnder(s: Tables, c: Pos, y: Pos)
    requires Ok(s) && WellLinked(s) && c !in s.at && c.Under(y) && y != c && !c.Slot?
    ensures y !in s.at && y !in s.leaf
    decreases y.Level()
  {
    assert y in s.at ==> WfAt(s, y) && Node(s, y);
    assert y in s.leaf ==> LeafWf(s, y);
    if y.Parent() != c {
      NothingUnder(s, c, y.Parent());
    }
  }
}
