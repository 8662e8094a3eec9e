/**
 * fork (dup_mm) and mm_put on all address spaces: whatever the walk over the
 * page tables left behind, the invariant holds again and the memory is the
 * one the reference machine has.
 */
module ForkExit {
  import opened PageTable
  import opened Accounting
  import opened TreeWalk
  import opened ForkWalk
  import opened FlatView
  import opened Spaces
  import VmaList
  import Eager

  lemma NewSpaceVacant(g: Sys, c: nat)
    requires Good(g) && c !in g.pgd
    ensures Vacant(g.t, Root(c))
  {
    forall y | Root(c).Under(y) ensures y !in g.t.at && y !in g.t.leaf {
      assert y in g.t.leaf ==> LeafWf(g.t, y);
    }
  }

  // ------------------------------------------------------------------
  // A completed copy

  lemma CopiedLinked(s: Tables, r: Tables, m: nat, c: nat)
    requires Ok(s) && WellLinked(s) && Root(m) in s.at && m != c && Ok(r) && Copied(s, r, Root(m), ENTRIES, c)
    ensures WellLinked(r)
  {
    var x := Root(m);
    forall y | y in r.at ensures Node(r, y) && (!y.Root? ==> y.Parent() in r.at) {
      assert Placed(s, r, x, ENTRIES, c, y);
      assert WfAt(r, y);
      if y.mm != m && y.mm != c {
        assert WfAt(s, y) && Node(s, y);
        OtherSteady(s, r, m, c, y);
        forall k | 0 <= k < ENTRIES ensures EntryOk(r, y, k) {
          assert EntryOk(s, y, k);
          OtherSteady(s, r, m, c, y.Child(k));
        }
        if !y.Root? { OtherSteady(s, r, m, c, y.Parent()); }
      } else if y.mm == m {
        assert Root(m).Under(y) && Node(r, y);
      } else {
        assert x.In(c).Under(y) && Node(r, y);
      }
    }
  }

  lemma OtherSteady(s: Tables, r: Tables, m: nat, c: nat, y: Pos)
    requires Ok(s) && Copied(s, r, Root(m), ENTRIES, c) && y.mm != m && y.mm != c
    ensures Steady(s, r, y)
  {
    assert Placed(s, r, Root(m), ENTRIES, c, y) && KeptTable(s, r, Root(m), y);
    assert y in s.at ==> WfAt(s, y);
    OtherLeaf(s.leaf, m, c, y);
  }

  lemma OtherLeaf(leaf: map<Pos, Entry>, m: nat, c: nat, y: Pos)
    requires y.mm != m && y.mm != c
    ensures var after := Shared(leaf, Root(m), ENTRIES, c);
            (y in after <==> y in leaf) && (y in leaf ==> after[y] == leaf[y])
  {
  }

  lemma KeptPages(s: Tables, r: Tables, x: Pos)
    requires PagesOk(s) && Elsewhere(s, r, x)
    ensures PagesOk(r)
  {
    forall p ensures PageOk(r, p) { assert KeptData(s, r, p) && PageOk(s, p); }
  }

  lemma SharedMemKeys(leaf: map<Pos, Entry>, mem: map<Pos, Page>, m: nat, c: nat)
    requires mem.Keys == leaf.Keys && forall y | y in leaf :: y.Slot? && y.InRange()
    ensures Shared(leaf, Root(m), ENTRIES, c).Keys == Eager.Copy(mem, m, c).Keys
  {
  }

  lemma SharedMemAt(s: Tables, r: Tables, m: nat, w: Pos, z: Pos)
    requires Ok(s) && Ok(r) && Elsewhere(s, r, Root(m))
    requires w in s.leaf && z in r.leaf && r.leaf[z].Present? && s.leaf[w].Present? && r.leaf[z].pfn == s.leaf[w].pfn
    ensures z in Mem(r) && w in Mem(s) && Mem(r)[z] == Mem(s)[w]
  {
    assert LeafWf(s, w) && LeafWf(r, z);
    assert KeptData(s, r, s.leaf[w].pfn);
  }

  lemma SharedMem(s: Tables, r: Tables, m: nat, c: nat)
    requires Ok(s) && Ok(r) && m != c && r.leaf == Shared(s.leaf, Root(m), ENTRIES, c) && Elsewhere(s, r, Root(m))
    ensures Mem(r) == Eager.Copy(Mem(s), m, c)
  {
    MemKeys(s);
    MemKeys(r);
    SlotsInRange(s);
    LeavesPresent(s);
    SharedMemKeys(s.leaf, Mem(s), m, c);
    forall z | z in r.leaf ensures Mem(r)[z] == Eager.Copy(Mem(s), m, c)[z] {
      SharedMemAt(s, r, m, if z in s.leaf then z else z.In(m), z);
    }
  }

  lemma SharedFlags(g: Sys, g': Sys, m: nat, c: nat)
    requires Ok(g.t) && Flagged(g) && m != c && m in g.areas && c !in g.areas
    requires g'.t.leaf == Shared(g.t.leaf, Root(m), ENTRIES, c) && g'.areas == g.areas[c := g.areas[m]]
    ensures Flagged(g')
  {
    forall z | z in g'.t.leaf ensures FlagOk(g'.areas, z, g'.t.leaf[z]) {
      var w := if z in g.t.leaf then z else z.In(m);
      assert w in g.t.leaf;
      assert FlagOk(g.areas, w, g.t.leaf[w]) && LeafWf(g.t, w);
    }
  }

  lemma ForkRooted(g: Sys, g': Sys, m: nat, c: nat)
    requires Ok(g.t) && Rooted(g) && m in g.pgd && c !in g.pgd && m != c && AllPlaced(g.t, g'.t, Root(m), ENTRIES, c)
    requires Root(c) in g'.t.at && g'.pgd == g.pgd[c := g'.t.at[Root(c)]] && g'.areas == g.areas[c := g.areas[m]]
    ensures Rooted(g')
  {
    assert SpaceOk(g, m);
    forall k | k in g'.pgd ensures SpaceOk(g', k) {
      if k != c {
        assert SpaceOk(g, k) && Placed(g.t, g'.t, Root(m), ENTRIES, c, Root(k));
      }
    }
    forall x | x in g'.t.at ensures x.mm in g'.pgd {
      assert Placed(g.t, g'.t, Root(m), ENTRIES, c, x);
    }
  }

  /** A completed fork keeps the invariant and is, for the reference machine, a copy of every page. */
  lemma ForkGood(g: Sys, r: Tables, m: nat, c: nat)
    requires Good(g) && m in g.pgd && c !in g.pgd && Ok(r) && r.held == {}
    requires Copied(g.t, r, Root(m), ENTRIES, c) && Root(c) in r.at
    ensures var g' := Sys(r, g.pgd[c := r.at[Root(c)]], g.areas[c := g.areas[m]]);
            Good(g') && Eager.Next(Abs(g), Eager.Fork(m, c), Eager.Done, Abs(g'))
  {
    var g' := Sys(r, g.pgd[c := r.at[Root(c)]], g.areas[c := g.areas[m]]);
    assert SpaceOk(g, m);
    CopiedLinked(g.t, r, m, c);
    KeptPages(g.t, r, Root(m));
    LeavesPresent(g.t);
    SharedExclusive(g.t.leaf, Root(m), ENTRIES, c);
    SharedMem(g.t, r, m, c);
    SharedFlags(g, g', m, c);
    ForkRooted(g, g', m, c);
  }

  lemma LeavesPresent(t: Tables)
    requires Ok(t)
    ensures forall y | y in t.leaf :: t.leaf[y].Present?
  {
    forall y | y in t.leaf ensures t.leaf[y].Present? { assert LeafWf(t, y); }
  }

  // ------------------------------------------------------------------
  // A copy given up

  lemma AbandonedLinked(s: Tables, r: Tables, m: nat)
    requires Ok(s) && WellLinked(s) && Ok(r) && Abandoned(s, r, Root(m))
    ensures WellLinked(r)
  {
    var x := Root(m);
    forall y | y in r.at ensures Node(r, y) && (!y.Root? ==> y.Parent() in r.at) {
      assert WfAt(r, y) && WfAt(s, y) && Node(s, y);
      if y.mm == m {
        assert x.Under(y) && Node(r, y);
      } else {
        assert KeptTable(s, r, x, y);
        forall k | 0 <= k < ENTRIES ensures EntryOk(r, y, k) {
          assert EntryOk(s, y, k) && Weakened(s, r, x, y.Child(k));
        }
      }
    }
  }

  lemma AbandonedMem(s: Tables, r: Tables, m: nat)
    requires Ok(s) && Ok(r) && Abandoned(s, r, Root(m))
    ensures Mem(r) == Mem(s)
  {
    MemKeys(s);
    MemKeys(r);
    LeavesPresent(s);
    forall y ensures y in r.leaf <==> y in s.leaf { assert Weakened(s, r, Root(m), y); }
    forall y | y in s.leaf ensures Mem(r)[y] == Mem(s)[y] {
      assert Weakened(s, r, Root(m), y);
      SharedMemAt(s, r, m, y, y);
    }
  }

  /** A fork that ran out of memory leaves every address space as the reference machine has it: unchanged. */
  lemma AbandonGood(g: Sys, r: Tables, m: nat)
    requires Good(g) && m in g.pgd && Ok(r) && r.held == {} && Abandoned(g.t, r, Root(m))
    ensures Good(g.(t := r)) && Abs(g.(t := r)) == Abs(g)
  {
    var g' := g.(t := r);
    AbandonedLinked(g.t, r, m);
    AbandonedExclusive(g.t, r, Root(m));
    KeptPages(g.t, r, Root(m));
    AbandonedMem(g.t, r, m);
    forall k | k in g'.pgd ensures SpaceOk(g', k) { assert SpaceOk(g, k); }
    forall y | y in r.leaf ensures FlagOk(g'.areas, y, r.leaf[y]) {
      assert Weakened(g.t, r, Root(m), y);
      assert FlagOk(g.areas, y, g.t.leaf[y]);
    }
  }

  // ------------------------------------------------------------------
  // The last mm_put

  lemma FreedLinked(s: Tables, r: Tables, m: nat)
    requires Ok(s) && WellLinked(s) && Ok(r) && FreedWhole(s, r, Root(m))
    ensures WellLinked(r)
  {
    var x := Root(m);
    forall y | y in r.at ensures Node(r, y) && (!y.Root? ==> y.Parent() in r.at) {
      assert WfAt(r, y) && WfAt(s, y) && Node(s, y);
      OutsideFreed(s, x, y);
      FreedSteady(s, r, x, y);
      forall k | 0 <= k < ENTRIES ensures EntryOk(r, y, k) {
        assert EntryOk(s, y, k);
        FreedSteady(s, r, x, y.Child(k));
      }
      if !y.Root? { FreedSteady(s, r, x, y.Parent()); }
    }
  }

  lemma OutsideFreed(s: Tables, x: Pos, y: Pos)
    requires x.Root? && y.InRange() && y in Without(s.at, x, ENTRIES) - {x}
    ensures !x.Under(y) && y.mm != x.mm
  {
  }

  lemma ExitGood(g: Sys, r: Tables, m: nat)
    requires Good(g) && m in g.pgd && Ok(r) && r.held == {} && FreedWhole(g.t, r, Root(m))
    ensures var g' := Sys(r, g.pgd - {m}, g.areas - {m});
            Good(g') && Eager.Next(Abs(g), Eager.Exit(m), Eager.Done, Abs(g'))
  {
    var g' := Sys(r, g.pgd - {m}, g.areas - {m});
    var x := Root(m);
    FreedLinked(g.t, r, m);
    SlotsInRange(g.t);
    forall y | y in g.t.leaf ensures y in r.leaf <==> y.mm != m { }
    forall p ensures PageOk(r, p) { assert PageOk(g.t, p); }
    forall y, z | y in r.leaf && z in r.leaf && y != z && r.leaf[y].Present? && r.leaf[z].Present?
                  && r.leaf[y].pfn == r.leaf[z].pfn
      ensures r.leaf[y].ro
    {
      assert y in g.t.leaf && z in g.t.leaf;
    }
    ExitRooted(g, g', m);
    forall y | y in r.leaf ensures FlagOk(g'.areas, y, r.leaf[y]) { assert FlagOk(g.areas, y, g.t.leaf[y]); }
    ExitMem(g.t, r, m);
  }

  lemma ExitRooted(g: Sys, g': Sys, m: nat)
    requires Ok(g.t) && Rooted(g) && m in g.pgd && FreedWhole(g.t, g'.t, Root(m))
    requires g'.pgd == g.pgd - {m} && g'.areas == g.areas - {m}
    ensures Rooted(g')
  {
    forall k | k in g'.pgd ensures SpaceOk(g', k) { assert SpaceOk(g, k); }
    forall y | y in g'.t.at ensures y.mm in g'.pgd {
      assert WfAt(g.t, y);
      OutsideFreed(g.t, Root(m), y);
    }
  }

  lemma ExitMem(s: Tables, r: Tables, m: nat)
    requires Ok(s) && Ok(r) && FreedWhole(s, r, Root(m))
    requires forall y | y in s.leaf :: y in r.leaf <==> y.mm != m
    ensures Mem(r) == map y | y in Mem(s) && y.mm != m :: Mem(s)[y]
  {
    MemKeys(s);
    MemKeys(r);
    forall y | y in r.leaf ensures y in s.leaf && Mem(r)[y] == Mem(s)[y] {
      assert LeafWf(r, y) && LeafWf(s, y);
    }
  }

  // ------------------------------------------------------------------
  // A new, empty address space

  lemma SpaceAdded(g: Sys, c: nat, t: nat)
    requires Good(g) && c !in g.pgd && t in g.t.free && Root(c) !in g.t.at && Vacant(g.t, Root(c))
    ensures var g' := Sys(AddTable(g.t, Root(c), t), g.pgd[c := t], g.areas[c := []]);
            Good(g') && Eager.Next(Abs(g), Eager.New(c), Eager.Done, Abs(g')) && Pool(g'.t) == Pool(g.t)
  {
    AddedTables(g.t, c, t);
    AddedRooted(g, c, t);
    AddedMem(g.t, c, t);
  }

  lemma AddedTables(s: Tables, c: nat, t: nat)
    requires TablesGood(s) && t in s.free && Vacant(s, Root(c))
    ensures TablesGood(AddTable(s, Root(c), t)) && Pool(AddTable(s, Root(c), t)) == Pool(s)
  {
    RootAdded(s, c, t);
    forall p ensures PageOk(AddTable(s, Root(c), t), p) { assert PageOk(s, p); }
  }

  lemma AddedRooted(g: Sys, c: nat, t: nat)
    requires Rooted(g) && Flagged(g) && c !in g.pgd && t in g.t.free && Root(c) !in g.t.at
    ensures var g' := Sys(AddTable(g.t, Root(c), t), g.pgd[c := t], g.areas[c := []]); Rooted(g') && Flagged(g')
  {
    var g' := Sys(AddTable(g.t, Root(c), t), g.pgd[c := t], g.areas[c := []]);
    forall k | k in g'.pgd ensures SpaceOk(g', k) {
      if k != c { assert SpaceOk(g, k); }
    }
    forall y | y in g'.t.leaf ensures FlagOk(g'.areas, y, g'.t.leaf[y]) { assert FlagOk(g.areas, y, g.t.leaf[y]); }
  }

  lemma RootAdded(s: Tables, c: nat, t: nat)
    requires Ok(s) && WellLinked(s) && t in s.free && Vacant(s, Root(c))
    ensures Ok(AddTable(s, Root(c), t)) && WellLinked(AddTable(s, Root(c), t))
  {
    var r := AddTable(s, Root(c), t);
    assert Root(c).Under(Root(c));
    AddTableOk(s, Root(c), t);
    forall y | y in r.at ensures Node(r, y) && (!y.Root? ==> y.Parent() in r.at) {
      assert WfAt(r, y);
      if y == Root(c) {
        forall k | 0 <= k < ENTRIES ensures EntryOk(r, y, k) { assert Root(c).Under(y.Child(k)); }
      } else {
        assert WfAt(s, y) && Node(s, y);
        forall k | 0 <= k < ENTRIES ensures EntryOk(r, y, k) { assert EntryOk(s, y, k); }
      }
    }
  }

  lemma AddedMem(s: Tables, c: nat, t: nat)
    requires Ok(s) && t in s.free && Ok(AddTable(s, Root(c), t))
    ensures Mem(AddTable(s, Root(c), t)) == Mem(s)
  {
    var r := AddTable(s, Root(c), t);
    MemKeys(s);
    MemKeys(r);
    forall y | y in s.leaf ensures Mem(r)[y] == Mem(s)[y] {
      MemAt(s, y);
      MemAt(r, y);
    }
  }
}
