/**
 * Facts about the recursive walks free_pgtable_level and dup_pgtable_level
 * (mm/mmap.c), stated on the states before, inside and after their loops.
 */
module TreeWalk {
  import opened PageTable
  import opened Accounting

  /** What stays of a position-indexed map when entries [0, n) of the table at x are torn down. */
  ghost function Without<T>(m: map<Pos, T>, x: Pos, n: nat): map<Pos, T> {
    map y | y in m && !x.Before(n, y) :: m[y]
  }

  /** r is s after the subtrees below entries [0, n) of x were freed. */
  ghost predicate Freed(s: Tables, r: Tables, x: Pos, n: nat) {
    && r.at == Without(s.at, x, n)
    && r.leaf == Without(s.leaf, x, n)
    && (forall p {:trigger p in r.frame} | p in r.frame :: p in s.frame && r.frame[p] == s.frame[p])
    && Pool(r) == Pool(s)
  }

  /** r is s after the whole subtree at x, x included, was freed. */
  ghost predicate FreedWhole(s: Tables, r: Tables, x: Pos) {
    && r.at == Without(s.at, x, ENTRIES) - {x}
    && r.leaf == Without(s.leaf, x, ENTRIES)
    && (forall p {:trigger p in r.frame} | p in r.frame :: p in s.frame && r.frame[p] == s.frame[p])
    && Pool(r) == Pool(s)
  }

  /** Whatever lies below entry n of a table is reached through a present entry. */
  lemma PresentAbove(s: Tables, x: Pos, n: nat, y: Pos)
    requires Ok(s) && x in s.at && Subtree(s, x) && n < ENTRIES
    requires !x.Slot? && x.Child(n).Under(y) && (y in s.at || y in s.leaf)
    ensures WfAt(s, x) && Entries(s, x)[n].Present?
    decreases y.Level()
  {
    assert WfAt(s, x) && Node(s, x) && EntryOk(s, x, n);
    if y in s.leaf {
      assert LeafWf(s, y);
    } else {
      assert WfAt(s, y) && Node(s, y);
    }
    if y != x.Child(n) {
      PresentAbove(s, x, n, y.Parent());
    }
  }

  lemma FreedSkip(s: Tables, r: Tables, x: Pos, n: nat)
    requires Ok(s) && x in s.at && Subtree(s, x) && n < ENTRIES
    requires WfAt(s, x) && !Entries(s, x)[n].Present?
    requires Freed(s, r, x, n)
    ensures Freed(s, r, x, n + 1)
  {
    forall y | x.Before(n + 1, y) && !x.Before(n, y)
      ensures y !in s.at && y !in s.leaf
    {
      UnderChild(x, n, y);
      if y in s.at || y in s.leaf {
        PresentAbove(s, x, n, y);
      }
    }
  }

  /** The subtrees not freed yet are as well linked as before. */
  lemma FreedSubtree(s: Tables, r: Tables, x: Pos, n: nat)
    requires Ok(s) && Ok(r) && x in s.at && Subtree(s, x) && n < ENTRIES
    requires !x.Slot? && !x.Low? && x.Child(n) in s.at
    requires Freed(s, r, x, n)
    ensures x.Child(n) in r.at && Subtree(r, x.Child(n))
  {
    var c := x.Child(n);
    forall y | y in r.at && c.Under(y)
      ensures Node(r, y) && (y != c ==> y.Parent() in r.at)
    {
      UnderChild(x, n, y);
      assert WfAt(s, y) && WfAt(r, y) && Node(s, y);
      assert Entries(r, y) == Entries(s, y);
      forall k | 0 <= k < ENTRIES ensures EntryOk(r, y, k) {
        assert EntryOk(s, y, k);
        UnderChild(x, n, y.Child(k));
      }
    }
  }

  lemma FreedChild(s: Tables, r: Tables, r': Tables, x: Pos, n: nat)
    requires Ok(s) && !x.Low? && !x.Slot? && n < ENTRIES
    requires Freed(s, r, x, n)
    requires FreedWhole(r, r', x.Child(n))
    ensures Freed(s, r', x, n + 1)
  {
    forall y ensures x.Before(n + 1, y) <==> x.Before(n, y) || x.Child(n).Under(y) {
      UnderChild(x, n, y);
    }
    forall y | y in s.at ensures y.InRange() { assert WfAt(s, y); }
    forall y | y in s.leaf ensures y.InRange() && y != x.Child(n) { assert LeafWf(s, y); }
    assert r'.at == Without(s.at, x, n + 1);
    assert r'.leaf == Without(s.leaf, x, n + 1);
  }

  /** r is s after slot y gave up its page. */
  ghost predicate Dropped(s: Tables, y: Pos, r: Tables) {
    && y in s.leaf && s.leaf[y].Present?
    && var p := s.leaf[y].pfn;
    && p in s.frame && p in s.count && s.count[p] >= 1
    && r == Put(Unhook(s, y), p)
  }

  lemma FreedLeaf(s: Tables, r: Tables, r': Tables, x: Pos, n: nat)
    requires Ok(s) && Ok(r) && x.Low? && n < ENTRIES && Freed(s, r, x, n)
    requires Dropped(r, x.Child(n), r')
    ensures Freed(s, r', x, n + 1)
  {
    forall y | y in s.at ensures x.Before(n + 1, y) <==> x.Before(n, y) {
      assert WfAt(s, y);
    }
    forall y | y in s.leaf ensures x.Before(n + 1, y) <==> x.Before(n, y) || y == x.Child(n) {
      assert LeafWf(s, y);
    }
    assert r'.at == Without(s.at, x, n + 1);
    assert r'.leaf == Without(s.leaf, x, n + 1);
  }

  /** When the loop ends no leaf below x is left, and the table itself can go. */
  lemma FreedAll(s: Tables, r: Tables, x: Pos)
    requires Ok(s) && Ok(r) && x in s.at && Freed(s, r, x, ENTRIES)
    ensures x in r.at && r.at[x] == s.at[x]
    ensures forall y | y in r.leaf && y.Slot? :: y.Parent() != x
    ensures FreedWhole(s, DropTable(r, x, r.at[x]), x)
  {
    forall y | y in r.leaf && y.Slot? ensures y.Parent() != x {
      assert LeafWf(s, y);
    }
    assert WfAt(r, x);
    var d := DropTable(r, x, r.at[x]);
    assert Pool(d) == Pool(r);
  }
}
