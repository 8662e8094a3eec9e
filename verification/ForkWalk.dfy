/**
 * dup_pgtable_level (mm/mmap.c): the state while a table is being duplicated
 * for a new address space, and after the copy was given up half way.
 */
module ForkWalk {
  import opened PageTable
  import opened Accounting
  import opened TreeWalk

  /** No table and no leaf lies at or below x. */
  ghost predicate Vacant(s: Tables, x: Pos) {
    forall y {:trigger x.Under(y)} | x.Under(y) :: y !in s.at && y !in s.leaf
  }

  /** The table at y is the same frame with the same entries, unless it is a lowest one below x. */
  ghost predicate KeptTable(s: Tables, r: Tables, x: Pos, y: Pos) {
    y in s.at && !(x.Under(y) && y.Low?) ==>
      && y in r.at && r.at[y] == s.at[y]
      && s.at[y] in s.frame && s.at[y] in r.frame && r.frame[s.at[y]] == s.frame[s.at[y]]
  }

  ghost predicate KeptData(s: Tables, r: Tables, p: nat) {
    && (IsData(s, p) <==> IsData(r, p))
    && (IsData(s, p) ==> r.frame[p] == s.frame[p])
  }

  ghost predicate Elsewhere(s: Tables, r: Tables, x: Pos) {
    && (forall y {:trigger KeptTable(s, r, x, y)} :: KeptTable(s, r, x, y))
    && (forall p {:trigger KeptData(s, r, p)} :: KeptData(s, r, p))
    && Pool(r) == Pool(s)
  }

  /** The flat view once the leaves below entries [0, n) of x are shared with address space m. */
  ghost function Shared(leaf: map<Pos, Entry>, x: Pos, n: nat, m: nat): map<Pos, Entry> {
    map z | z in leaf.Keys + (set y | y in leaf && x.Before(n, y) :: y.In(m)) ::
      if z in leaf then
        if x.Before(n, z) then WrProtect(leaf[z]) else leaf[z]
      else
        WrProtect(leaf[z.In(x.mm)])
  }

  /** Which tables exist while the copy of x for address space m has reached entry n. */
  ghost predicate Placed(s: Tables, r: Tables, x: Pos, n: nat, m: nat, z: Pos) {
    && (z in r.at <==> z in s.at || z == x.In(m) || (x.In(m).Before(n, z) && z.In(x.mm) in s.at))
    && (z in s.at ==> r.at[z] == s.at[z])
  }

  ghost predicate AllPlaced(s: Tables, r: Tables, x: Pos, n: nat, m: nat) {
    forall z {:trigger Placed(s, r, x, n, m, z)} :: Placed(s, r, x, n, m, z)
  }

  /** r is s after entries [0, n) of the table at x were duplicated into the table at x.In(m). */
  ghost predicate Copied(s: Tables, r: Tables, x: Pos, n: nat, m: nat) {
    && Shape(r)
    && AllPlaced(s, r, x, n, m)
    && r.leaf == Shared(s.leaf, x, n, m)
    && Subtree(r, x) && Subtree(r, x.In(m))
    && Elsewhere(s, r, x)
  }

  /** The leaf at y is what it was, or (below x) has lost write permission. */
  ghost predicate Weakened(s: Tables, r: Tables, x: Pos, y: Pos) {
    && (y in r.leaf <==> y in s.leaf)
    && (y in s.leaf ==> r.leaf[y] == s.leaf[y] || (x.Under(y) && r.leaf[y] == WrProtect(s.leaf[y])))
  }

  /** r is s after a duplication below x was given up. */
  ghost predicate Abandoned(s: Tables, r: Tables, x: Pos) {
    && Shape(r)
    && r.at == s.at
    && (forall y {:trigger Weakened(s, r, x, y)} :: Weakened(s, r, x, y))
    && Subtree(r, x)
    && Elsewhere(s, r, x)
  }

  /** The children of y have the same places in r as in s. */
  ghost predicate SameBelow(s: Tables, r: Tables, y: Pos)
    requires !y.Slot?
  {
    forall n {:trigger y.Child(n)} | 0 <= n < ENTRIES ::
      && (y.Child(n) in r.at <==> y.Child(n) in s.at)
      && (y.Child(n) in s.at ==> r.at[y.Child(n)] == s.at[y.Child(n)])
      && (y.Child(n) in r.leaf <==> y.Child(n) in s.leaf)
      && (y.Child(n) in s.leaf ==> r.leaf[y.Child(n)] == s.leaf[y.Child(n)])
  }

  lemma SameNode(s: Tables, r: Tables, y: Pos)
    requires WfAt(s, y) && WfAt(r, y) && Node(s, y)
    requires Entries(r, y) == Entries(s, y) && SameBelow(s, r, y)
    ensures Node(r, y)
  {
    forall n | 0 <= n < ENTRIES ensures EntryOk(r, y, n) {
      assert EntryOk(s, y, n);
    }
  }

  // ------------------------------------------------------------------
  // The copy begins with an empty table

  lemma CopyBeginsSource(s: Tables, x: Pos, z: Pos, t: nat)
    requires Ok(s) && Ok(AddTable(s, z, t)) && x in s.at && !x.Under(z) && !z.Slot? && x.mm != z.mm && Subtree(s, x)
    requires t in s.free
    ensures Subtree(AddTable(s, z, t), x)
  {
    var r := AddTable(s, z, t);
    forall y | y in r.at && x.Under(y) ensures Node(r, y) && (y != x ==> y.Parent() in r.at) {
      assert WfAt(s, y) && WfAt(r, y) && Node(s, y);
      SameNode(s, r, y);
    }
  }

  lemma CopyBeginsTarget(s: Tables, z: Pos, t: nat)
    requires Ok(s) && Ok(AddTable(s, z, t)) && Vacant(s, z) && !z.Slot?
    ensures Subtree(AddTable(s, z, t), z)
  {
    var r := AddTable(s, z, t);
    assert WfAt(r, z) && Node(r, z) by {
      forall n | 0 <= n < ENTRIES ensures EntryOk(r, z, n) {
        assert z.Under(z.Child(n));
      }
    }
    assert forall y | y in r.at && z.Under(y) :: y == z;
  }

  lemma CopyBeginsElsewhere(s: Tables, x: Pos, z: Pos, t: nat)
    requires Ok(s) && t in s.free && z !in s.at
    ensures Elsewhere(s, AddTable(s, z, t), x)
  {
    var r := AddTable(s, z, t);
    forall y ensures KeptTable(s, r, x, y) {
      if y in s.at { assert WfAt(s, y); }
    }
    forall p ensures KeptData(s, r, p) { }
    assert Pool(r) == Pool(s);
  }

  lemma CopyBeginsPlaced(s: Tables, x: Pos, m: nat, t: nat)
    requires x.In(m) !in s.at
    ensures AllPlaced(s, AddTable(s, x.In(m), t), x, 0, m)
  {
  }

  lemma SharedNone(leaf: map<Pos, Entry>, x: Pos, m: nat)
    ensures Shared(leaf, x, 0, m) == leaf
  {
  }

  lemma CopyBegins(s: Tables, x: Pos, m: nat, t: nat)
    requires Ok(s) && x in s.at && x.mm != m && Subtree(s, x) && Vacant(s, x.In(m)) && t in s.free
    ensures Ok(AddTable(s, x.In(m), t)) && Copied(s, AddTable(s, x.In(m), t), x, 0, m)
  {
    assert WfAt(s, x);
    var z := x.In(m);
    assert z.Under(z);
    AddTableOk(s, z, t);
    CopyBeginsSource(s, x, z, t);
    CopyBeginsTarget(s, z, t);
    CopyBeginsElsewhere(s, x, z, t);
    CopyBeginsPlaced(s, x, m, t);
    SharedNone(s.leaf, x, m);
  }

  // ------------------------------------------------------------------
  // An absent entry is skipped

  lemma CopySkips(s: Tables, r: Tables, x: Pos, n: nat, m: nat)
    requires Ok(s) && x in s.at && Subtree(s, x) && n < ENTRIES && x.mm != m && Vacant(s, x.In(m))
    requires WfAt(s, x) && !Entries(s, x)[n].Present?
    requires Copied(s, r, x, n, m)
    ensures Copied(s, r, x, n + 1, m)
  {
    forall y | x.Child(n).Under(y) ensures y !in s.at && y !in s.leaf {
      if y in s.at || y in s.leaf {
        PresentAbove(s, x, n, y);
      }
    }
    SkipPlaced(s, r, x, n, m);
    SkipShared(s.leaf, x, n, m);
  }

  lemma SkipPlaced(s: Tables, r: Tables, x: Pos, n: nat, m: nat)
    requires !x.Slot? && AllPlaced(s, r, x, n, m)
    requires forall y {:trigger x.Child(n).Under(y)} | x.Child(n).Under(y) :: y !in s.at
    ensures AllPlaced(s, r, x, n + 1, m)
  {
    var k := n + 1;
    forall z ensures Placed(s, r, x, k, m, z) {
      assert Placed(s, r, x, n, m, z);
      UnderChild(x, n, z.In(x.mm));
    }
  }

  lemma SkipShared(leaf: map<Pos, Entry>, x: Pos, n: nat, m: nat)
    requires !x.Slot?
    requires forall y {:trigger x.Child(n).Under(y)} | x.Child(n).Under(y) :: y !in leaf
    ensures Shared(leaf, x, n + 1, m) == Shared(leaf, x, n, m)
  {
    forall y | y in leaf ensures x.Before(n, y) <==> x.Before(n + 1, y) {
      UnderChild(x, n, y);
    }
  }

  // ------------------------------------------------------------------
  // A leaf entry is shared: get_page, then both slots get the read-only entry

  ghost function ShareLeaf(r: Tables, x: Pos, z: Pos, n: nat, e: Entry): Tables
    requires WfAt(r, x) && WfAt(r, z) && x.Low? && z.Low? && n < ENTRIES && e.Present? && e.pfn in r.count
  {
    var a := Get(r, e.pfn);
    var b := SetEntry(a, a.at[x], n, e);
    var c := Reprotect(b, x.Child(n), e);
    var d := SetEntry(c, c.at[z], n, e);
    Hook(d, z.Child(n), e)
  }

  lemma ShareLeafOk(r: Tables, x: Pos, z: Pos, n: nat)
    requires Ok(r) && r.held == {} && x in r.at && z in r.at && x.Low? && z.Low? && n < ENTRIES
    requires x.Child(n) in r.leaf && z.Child(n) !in r.leaf
    ensures WfAt(r, x) && WfAt(r, z) && LeafWf(r, x.Child(n)) && r.leaf[x.Child(n)].pfn in r.count
    ensures Ok(ShareLeaf(r, x, z, n, WrProtect(r.leaf[x.Child(n)])))
  {
    assert WfAt(r, x) && WfAt(r, z) && LeafWf(r, x.Child(n));
    var e := WrProtect(r.leaf[x.Child(n)]);
    GetOk(r, e.pfn);
    var a := Get(r, e.pfn);
    SetEntryOk(a, a.at[x], n, e);
    var b := SetEntry(a, a.at[x], n, e);
    ReprotectOk(b, x.Child(n), e);
    var c := Reprotect(b, x.Child(n), e);
    SetEntryOk(c, c.at[z], n, e);
    var d := SetEntry(c, c.at[z], n, e);
    HookOk(d, z.Child(n), e);
  }

  lemma SharedLeafStep(leaf: map<Pos, Entry>, x: Pos, n: nat, m: nat)
    requires x.Low? && x.mm != m && x.Child(n) in leaf && x.In(m).Child(n) !in leaf
    ensures var e := WrProtect(leaf[x.Child(n)]);
            Shared(leaf, x, n + 1, m) == Shared(leaf, x, n, m)[x.Child(n) := e][x.In(m).Child(n) := e]
  {
    var y, z := x.Child(n), x.In(m).Child(n);
    assert z.In(x.mm) == y && y.In(m) == z;
    forall w ensures x.Before(n + 1, w) <==> x.Before(n, w) || w == y { }
    var a, b := Shared(leaf, x, n + 1, m), Shared(leaf, x, n, m);
    assert a.Keys == b.Keys + {z};
  }

  /** Writing the shared entry into both slots keeps each of the two lowest tables well linked. */
  lemma SharedNode(r: Tables, x: Pos, z: Pos, n: nat, y: Pos)
    requires Ok(r) && WfAt(r, x) && WfAt(r, z) && x != z && x.Low? && z.Low? && n < ENTRIES
    requires x.Child(n) in r.leaf && r.leaf[x.Child(n)].Present? && r.leaf[x.Child(n)].pfn in r.count
    requires y == x || y == z
    requires Node(r, y) && WfAt(ShareLeaf(r, x, z, n, WrProtect(r.leaf[x.Child(n)])), y)
    ensures Node(ShareLeaf(r, x, z, n, WrProtect(r.leaf[x.Child(n)])), y)
  {
    var r' := ShareLeaf(r, x, z, n, WrProtect(r.leaf[x.Child(n)]));
    forall k | 0 <= k < ENTRIES ensures EntryOk(r', y, k) {
      assert EntryOk(r, y, k);
    }
  }

  lemma ShareElsewhere(s: Tables, r: Tables, x: Pos, z: Pos, n: nat)
    requires Ok(s) && Ok(r) && WfAt(r, x) && WfAt(r, z) && x.Low? && z.Low? && n < ENTRIES && z !in s.at
    requires x.Child(n) in r.leaf && r.leaf[x.Child(n)].Present? && r.leaf[x.Child(n)].pfn in r.count
    requires Elsewhere(s, r, x)
    ensures Elsewhere(s, ShareLeaf(r, x, z, n, WrProtect(r.leaf[x.Child(n)])), x)
  {
    var r' := ShareLeaf(r, x, z, n, WrProtect(r.leaf[x.Child(n)]));
    forall y ensures KeptTable(s, r', x, y) {
      assert KeptTable(s, r, x, y);
      assert y in r.at ==> WfAt(r, y);
    }
    forall p ensures KeptData(s, r', p) { assert KeptData(s, r, p); }
    assert r'.frame.Keys == r.frame.Keys;
  }

  lemma CopyShares(s: Tables, r: Tables, x: Pos, n: nat, m: nat)
    requires Ok(s) && Ok(r) && r.held == {} && x in s.at && x.Low? && n < ENTRIES && x.mm != m && Vacant(s, x.In(m))
    requires Copied(s, r, x, n, m)
    requires x.Child(n) in r.leaf
    ensures x.Child(n) in s.leaf && s.leaf[x.Child(n)] == r.leaf[x.Child(n)]
    ensures x in r.at && x.In(m) in r.at && WfAt(r, x) && WfAt(r, x.In(m)) && x.In(m).Child(n) !in r.leaf
    ensures LeafWf(r, x.Child(n)) && r.leaf[x.Child(n)].pfn in r.count
    ensures var r' := ShareLeaf(r, x, x.In(m), n, WrProtect(r.leaf[x.Child(n)]));
            Ok(r') && Copied(s, r', x, n + 1, m)
  {
    var y, z := x.Child(n), x.In(m);
    assert z.Under(z) && z.Under(z.Child(n));
    assert Placed(s, r, x, n, m, x) && Placed(s, r, x, n, m, z);
    ShareLeafOk(r, x, z, n);
    var r' := ShareLeaf(r, x, z, n, WrProtect(r.leaf[y]));
    SharedLeafStep(s.leaf, x, n, m);
    ShareElsewhere(s, r, x, z, n);
    assert WfAt(r', x) && WfAt(r', z) && Node(r, x) && Node(r, z);
    SharedNode(r, x, z, n, x);
    SharedNode(r, x, z, n, z);
    assert Subtree(r', x) by { LowSubtree(r', x); }
    assert Subtree(r', z) by { LowSubtree(r', z); }
    SharePlaced(s, r, r', x, n, m);
  }

  lemma LowSubtree(r: Tables, x: Pos)
    requires Shape(r) && x in r.at && x.Low? && WfAt(r, x) && Node(r, x)
    ensures Subtree(r, x)
  {
    forall y | y in r.at && x.Under(y) ensures y == x { assert WfAt(r, y); }
  }

  lemma SharePlaced(s: Tables, r: Tables, r': Tables, x: Pos, n: nat, m: nat)
    requires Shape(s) && x.Low? && AllPlaced(s, r, x, n, m) && r'.at == r.at
    ensures AllPlaced(s, r', x, n + 1, m)
  {
    var k := n + 1;
    forall z ensures Placed(s, r', x, k, m, z) {
      assert Placed(s, r, x, n, m, z);
      assert z.In(x.mm) in s.at ==> WfAt(s, z.In(x.mm));
    }
  }

  // ------------------------------------------------------------------
  // Subtrees that a step does not touch

  /** Position y holds the same table and the same leaf in both states. */
  ghost predicate Steady(s: Tables, r: Tables, y: Pos) {
    && (y in r.at <==> y in s.at)
    && (y in s.at ==> r.at[y] == s.at[y] && s.at[y] in s.frame && s.at[y] in r.frame)
    && (y in s.at ==> r.frame[s.at[y]] == s.frame[s.at[y]])
    && (y in r.leaf <==> y in s.leaf)
    && (y in s.leaf ==> r.leaf[y] == s.leaf[y])
  }

  lemma SteadySubtree(s: Tables, r: Tables, x: Pos)
    requires Shape(s) && Shape(r) && Subtree(s, x)
    requires forall y {:trigger Steady(s, r, y)} | x.Under(y) :: Steady(s, r, y)
    ensures Subtree(r, x)
  {
    forall y | y in r.at && x.Under(y) ensures Node(r, y) && (y != x ==> y.Parent() in r.at) {
      assert Steady(s, r, y);
      assert WfAt(s, y) && WfAt(r, y) && Node(s, y);
      forall n | 0 <= n < ENTRIES ensures EntryOk(r, y, n) {
        assert EntryOk(s, y, n) && Steady(s, r, y.Child(n));
      }
      if y != x { assert Steady(s, r, y.Parent()); }
    }
  }

  // ------------------------------------------------------------------
  // A child table was duplicated and is linked into entry n of the copy

  ghost predicate Linked(r1: Tables, z: Pos, n: nat, e: Entry, r': Tables) {
    && WfAt(r1, z) && n < ENTRIES && !z.Low? && e.Present?
    && z.Child(n) in r1.at && r1.at[z.Child(n)] == e.pfn
    && r' == SetEntry(r1, r1.at[z], n, e)
  }

  /** Below x, entry n + 1 is passed when entry n was passed or the child at n is done. */
  lemma BeforeNext(x: Pos, n: nat, y: Pos)
    requires !x.Low? && !x.Slot? && y.InRange() && y != x.Child(n)
    ensures x.Before(n + 1, y) <==> x.Before(n, y) || x.Child(n).Before(ENTRIES, y)
  {
    UnderChild(x, n, y);
  }

  lemma SharedTwice(leaf: map<Pos, Entry>, x: Pos, n: nat, m: nat)
    requires !x.Low? && !x.Slot? && x.mm != m
    requires forall y | y in leaf :: y.Slot? && y.InRange()
    requires forall y {:trigger x.In(m).Under(y)} | x.In(m).Under(y) :: y !in leaf
    ensures Shared(Shared(leaf, x, n, m), x.Child(n), ENTRIES, m) == Shared(leaf, x, n + 1, m)
  {
    var c := x.Child(n);
    var a, b := Shared(leaf, x, n, m), Shared(leaf, x, n + 1, m);
    var d := Shared(a, c, ENTRIES, m);
    forall y | y in leaf ensures x.Before(n + 1, y) <==> x.Before(n, y) || c.Before(ENTRIES, y) {
      BeforeNext(x, n, y);
    }
    forall y | y in leaf && x.Before(n + 1, y) ensures y.In(m) !in leaf && y.In(m).In(x.mm) == y {
      assert x.In(m).Under(y.In(m));
    }
    forall z ensures z in d <==> z in b {
      if z in d && z !in a {
        var y :| y in a && c.Before(ENTRIES, y) && y.In(m) == z;
        assert y in leaf;
      }
      if z in b && z !in leaf {
        var y :| y in leaf && x.Before(n + 1, y) && y.In(m) == z;
        assert y in a;
      }
    }
    assert d.Keys == b.Keys;
    forall z | z in b ensures d[z] == b[z] {
      if z in leaf {
        assert z in a && a[z] == if x.Before(n, z) then WrProtect(leaf[z]) else leaf[z];
        assert d[z] == if c.Before(ENTRIES, z) then WrProtect(a[z]) else a[z];
      } else {
        var w := z.In(x.mm);
        assert w in leaf && x.Before(n + 1, w);
        assert b[z] == WrProtect(leaf[w]);
        assert z in a ==> a[z] == WrProtect(leaf[w]);
        assert z !in a ==> d[z] == WrProtect(a[w]);
      }
    }
  }

  lemma ChildPlaced(s: Tables, r: Tables, r1: Tables, x: Pos, n: nat, m: nat)
    requires Shape(s) && !x.Low? && !x.Slot? && x.mm != m && x.Child(n) in s.at
    requires AllPlaced(s, r, x, n, m) && AllPlaced(r, r1, x.Child(n), ENTRIES, m)
    ensures AllPlaced(s, r1, x, n + 1, m)
  {
    var c := x.Child(n);
    var k := n + 1;
    forall z ensures Placed(s, r1, x, k, m, z) {
      assert Placed(s, r, x, n, m, z) && Placed(r, r1, c, ENTRIES, m, z);
      var w := z.In(x.mm);
      assert Placed(s, r, x, n, m, w);
      assert w in s.at ==> WfAt(s, w);
      UnderChild(x, n, w);
      UnderChild(x.In(m), n, z);
    }
  }

  /** Positions of the source outside the duplicated child, and of the copy outside it, stay as they were. */
  lemma ChildSteady(r: Tables, r1: Tables, c: Pos, m: nat, y: Pos)
    requires Shape(r) && c.mm != m && Copied(r, r1, c, ENTRIES, m)
    requires !c.Under(y) && !c.In(m).Under(y)
    ensures Steady(r, r1, y)
  {
    assert Placed(r, r1, c, ENTRIES, m, y) && KeptTable(r, r1, c, y);
    assert y in r.at ==> WfAt(r, y);
  }

  /** Setting entry n of the copied table z leaves every other position alone. */
  lemma LinkSteady(r1: Tables, z: Pos, n: nat, e: Entry, r': Tables, y: Pos)
    requires Shape(r1) && Linked(r1, z, n, e, r') && y != z
    ensures Steady(r1, r', y)
  {
    assert y in r1.at ==> WfAt(r1, y);
  }

  lemma ChildSourceNode(r: Tables, r1: Tables, r': Tables, x: Pos, n: nat, m: nat, e: Entry, y: Pos)
    requires Ok(r) && Shape(r1) && !x.Low? && !x.Slot? && n < ENTRIES && x.mm != m && x.Child(n) in r.at
    requires Copied(r, r1, x.Child(n), ENTRIES, m) && Linked(r1, x.In(m), n, e, r')
    requires x.Under(y) && WfAt(r, y) && WfAt(r', y) && Node(r, y)
    ensures Node(r', y)
  {
    var c := x.Child(n);
    assert Placed(r, r1, c, ENTRIES, m, c) && Placed(r, r1, c, ENTRIES, m, y);
    LinkSteady(r1, x.In(m), n, e, r', y);
    if c.Under(y) {
      assert WfAt(r1, y) && Node(r1, y);
      forall k | 0 <= k < ENTRIES ensures EntryOk(r', y, k) {
        assert EntryOk(r1, y, k);
      }
    } else {
      ChildSteady(r, r1, c, m, y);
      forall k | 0 <= k < ENTRIES ensures EntryOk(r', y, k) {
        assert EntryOk(r, y, k);
        if y.Child(k) != c {
          ChildSteady(r, r1, c, m, y.Child(k));
        }
      }
    }
  }

  lemma ChildSource(r: Tables, r1: Tables, r': Tables, x: Pos, n: nat, m: nat, e: Entry)
    requires Ok(r) && Shape(r1) && Shape(r') && !x.Low? && !x.Slot? && n < ENTRIES && x.mm != m && x.Child(n) in r.at
    requires Subtree(r, x) && Copied(r, r1, x.Child(n), ENTRIES, m) && Linked(r1, x.In(m), n, e, r')
    ensures Subtree(r', x)
  {
    var c := x.Child(n);
    forall y | y in r'.at && x.Under(y) ensures Node(r', y) && (y != x ==> y.Parent() in r'.at) {
      assert Placed(r, r1, c, ENTRIES, m, y);
      assert WfAt(r', y) && WfAt(r, y) && Node(r, y);
      ChildSourceNode(r, r1, r', x, n, m, e, y);
      if y != x { assert Placed(r, r1, c, ENTRIES, m, y.Parent()); }
    }
  }

  lemma ChildTarget(r: Tables, r1: Tables, r': Tables, x: Pos, n: nat, m: nat, e: Entry)
    requires Ok(r) && Shape(r1) && Shape(r') && !x.Low? && !x.Slot? && n < ENTRIES && x.mm != m && x.Child(n) in r.at
    requires Subtree(r, x.In(m)) && Copied(r, r1, x.Child(n), ENTRIES, m) && Linked(r1, x.In(m), n, e, r')
    requires x.In(m) in r.at && x.In(m).Child(n) !in r.at
    ensures Subtree(r', x.In(m))
  {
    var c, z := x.Child(n), x.In(m);
    assert z.Child(n) == c.In(m);
    assert Placed(r, r1, c, ENTRIES, m, z);
    forall y | y in r'.at && z.Under(y) ensures Node(r', y) && (y != z ==> y.Parent() in r'.at) {
      assert Placed(r, r1, c, ENTRIES, m, y);
      assert WfAt(r1, y) && WfAt(r', y);
      if c.In(m).Under(y) {
        LinkSteady(r1, z, n, e, r', y);
        assert Node(r1, y);
        forall k | 0 <= k < ENTRIES ensures EntryOk(r', y, k) {
          assert EntryOk(r1, y, k);
        }
      } else {
        ChildSteady(r, r1, c, m, y);
        assert WfAt(r, y) && Node(r, y);
        if y != z {
          LinkSteady(r1, z, n, e, r', y);
          assert Placed(r, r1, c, ENTRIES, m, y.Parent());
        }
        forall k | 0 <= k < ENTRIES ensures EntryOk(r', y, k) {
          assert EntryOk(r, y, k);
          if y.Child(k) != c.In(m) {
            ChildSteady(r, r1, c, m, y.Child(k));
          }
        }
      }
    }
  }

  lemma ChildElsewhere(s: Tables, r: Tables, r1: Tables, r': Tables, x: Pos, n: nat, m: nat, e: Entry)
    requires Ok(s) && Shape(r) && Shape(r1) && !x.Low? && !x.Slot? && x.In(m) !in s.at && x.mm != m
    requires Elsewhere(s, r, x) && Elsewhere(r, r1, x.Child(n)) && Linked(r1, x.In(m), n, e, r')
    ensures Elsewhere(s, r', x)
  {
    var c := x.Child(n);
    forall y ensures KeptTable(s, r', x, y) {
      assert KeptTable(s, r, x, y) && KeptTable(r, r1, c, y);
      UnderChild(x, n, y);
      if y in r1.at && y != x.In(m) { LinkSteady(r1, x.In(m), n, e, r', y); }
    }
    forall p ensures KeptData(s, r', p) { assert KeptData(s, r, p) && KeptData(r, r1, p); }
    assert r'.frame.Keys == r1.frame.Keys;
  }

  /** While entry n is next, the source child is there and the copy's child is not. */
  lemma NextChild(s: Tables, r: Tables, x: Pos, n: nat, m: nat)
    requires !x.Low? && !x.Slot? && x.mm != m && Vacant(s, x.In(m)) && AllPlaced(s, r, x, n, m) && x.Child(n) in s.at
    ensures x.Child(n) in r.at && x.In(m) in r.at && x.In(m).Child(n) !in r.at
  {
    var c, z := x.Child(n), x.In(m);
    assert z.Under(z.Child(n));
    assert Placed(s, r, x, n, m, c) && Placed(s, r, x, n, m, z) && Placed(s, r, x, n, m, z.Child(n));
  }

  lemma LinkedTrees(r: Tables, r1: Tables, r': Tables, x: Pos, n: nat, m: nat, e: Entry)
    requires Ok(r) && Ok(r1) && !x.Low? && !x.Slot? && n < ENTRIES && x.mm != m
    requires x.Child(n) in r.at && x.In(m) in r.at && x.In(m).Child(n) !in r.at
    requires Subtree(r, x) && Subtree(r, x.In(m))
    requires Copied(r, r1, x.Child(n), ENTRIES, m) && Linked(r1, x.In(m), n, e, r')
    ensures Ok(r') && Subtree(r', x) && Subtree(r', x.In(m))
  {
    SetEntryOk(r1, r1.at[x.In(m)], n, e);
    ChildSource(r, r1, r', x, n, m, e);
    ChildTarget(r, r1, r', x, n, m, e);
  }

  lemma CopyLinks(s: Tables, r: Tables, r1: Tables, r': Tables, x: Pos, n: nat, m: nat, e: Entry)
    requires Ok(s) && Ok(r) && Ok(r1) && WfAt(s, x) && !x.Low? && n < ENTRIES && x.mm != m && Vacant(s, x.In(m))
    requires x.Child(n) in s.at
    requires Copied(s, r, x, n, m) && Copied(r, r1, x.Child(n), ENTRIES, m) && Linked(r1, x.In(m), n, e, r')
    ensures Ok(r') && Copied(s, r', x, n + 1, m)
  {
    assert x.In(m).Under(x.In(m));
    NextChild(s, r, x, n, m);
    LinkedTrees(r, r1, r', x, n, m, e);
    ChildElsewhere(s, r, r1, r', x, n, m, e);
    ChildPlaced(s, r, r1, x, n, m);
    SamePlaced(s, r1, r', x, n + 1, m);
    SlotsInRange(s);
    SharedTwice(s.leaf, x, n, m);
  }

  lemma SlotsInRange(s: Tables)
    requires Ok(s)
    ensures forall y | y in s.leaf :: y.Slot? && y.InRange()
  {
    forall y | y in s.leaf ensures y.Slot? && y.InRange() { assert LeafWf(s, y); }
  }

  lemma SamePlaced(s: Tables, r1: Tables, r': Tables, x: Pos, n: nat, m: nat)
    requires AllPlaced(s, r1, x, n, m) && r'.at == r1.at
    ensures AllPlaced(s, r', x, n, m)
  {
    forall z ensures Placed(s, r', x, n, m, z) { assert Placed(s, r1, x, n, m, z); }
  }

  // ------------------------------------------------------------------
  // Out of memory: the copy made so far is freed again

  lemma AbandonNothing(s: Tables, x: Pos)
    requires Ok(s) && Subtree(s, x)
    ensures Abandoned(s, s, x)
  {
    forall y ensures KeptTable(s, s, x, y) { assert y in s.at ==> WfAt(s, y); }
    forall p ensures KeptData(s, s, p) { }
    forall y ensures Weakened(s, s, x, y) { }
  }

  /** The half-built copy of x is still well linked when the duplication of child n is given up. */
  lemma AbandonTarget(r: Tables, r1: Tables, x: Pos, c: Pos, m: nat)
    requires Shape(r) && c.mm != m && Subtree(r, x.In(m)) && Abandoned(r, r1, c)
    ensures Subtree(r1, x.In(m))
  {
    forall y | x.In(m).Under(y) ensures Steady(r, r1, y) {
      assert KeptTable(r, r1, c, y) && Weakened(r, r1, c, y);
    }
    SteadySubtree(r, r1, x.In(m));
  }

  lemma AbandonAt(s: Tables, r: Tables, x: Pos, n: nat, m: nat)
    requires Ok(s) && Vacant(s, x.In(m)) && AllPlaced(s, r, x, n, m) && n <= ENTRIES
    ensures Without(r.at, x.In(m), ENTRIES) - {x.In(m)} == s.at
  {
    var z := x.In(m);
    var a := Without(r.at, z, ENTRIES) - {z};
    forall y ensures y in a <==> y in s.at {
      assert Placed(s, r, x, n, m, y);
      assert y in s.at ==> WfAt(s, y);
      assert z.Under(y) ==> y !in s.at;
    }
    forall y | y in s.at ensures a[y] == s.at[y] { assert Placed(s, r, x, n, m, y); }
  }

  lemma AbandonLeaf(s: Tables, r: Tables, r1: Tables, r2: Tables, x: Pos, n: nat, m: nat, y: Pos)
    requires Ok(s) && Vacant(s, x.In(m)) && x.mm != m && n < ENTRIES && !x.Slot?
    requires r.leaf == Shared(s.leaf, x, n, m) && Weakened(r, r1, x.Child(n), y)
    requires r2.leaf == Without(r1.leaf, x.In(m), ENTRIES)
    ensures Weakened(s, r2, x, y)
  {
    assert y in s.leaf ==> LeafWf(s, y);
    assert x.In(m).Under(y) ==> y !in s.leaf;
    UnderChild(x, n, y);
    if y in r.leaf && y !in s.leaf {
      var w :| w in s.leaf && x.Before(n, w) && w.In(m) == y;
      assert x.In(m).Before(ENTRIES, y);
    }
  }

  /** No page of s was lost: each is still named by a leaf that is still there. */
  lemma AbandonData(s: Tables, r1: Tables, r2: Tables, x: Pos, p: nat)
    requires Ok(s) && Ok(r2) && s.held == {} && KeptData(s, r1, p)
    requires p in r2.frame ==> p in r1.frame && r2.frame[p] == r1.frame[p]
    requires p in r1.frame && p in r2.frame ==> r1.frame[p] == r2.frame[p]
    requires forall y {:trigger Weakened(s, r2, x, y)} :: Weakened(s, r2, x, y)
    ensures KeptData(s, r2, p)
  {
    if IsData(s, p) {
      assert Counted(s, p);
      assert |Refs(s.leaf, p)| >= 1;
      var y :| y in Refs(s.leaf, p);
      assert Weakened(s, r2, x, y) && LeafWf(s, y);
      assert LeafWf(r2, y);
    }
  }

  lemma AbandonChild(r: Tables, r1: Tables, x: Pos, n: nat)
    requires Shape(r) && !x.Slot? && !x.Low? && Subtree(r, x) && Abandoned(r, r1, x.Child(n))
    ensures Subtree(r1, x)
  {
    var c := x.Child(n);
    forall y | y in r1.at && x.Under(y) ensures Node(r1, y) && (y != x ==> y.Parent() in r1.at) {
      assert WfAt(r, y) && WfAt(r1, y) && Node(r, y);
      if !c.Under(y) {
        assert KeptTable(r, r1, c, y);
        forall k | 0 <= k < ENTRIES ensures EntryOk(r1, y, k) {
          assert EntryOk(r, y, k) && Weakened(r, r1, c, y.Child(k));
        }
      }
    }
  }

  /** Freeing the subtree at z leaves every position outside it alone. */
  lemma FreedSteady(r1: Tables, r2: Tables, z: Pos, y: Pos)
    requires Shape(r1) && Shape(r2) && FreedWhole(r1, r2, z) && !z.Under(y)
    ensures Steady(r1, r2, y)
  {
    assert y in r1.at ==> WfAt(r1, y);
    assert y in r2.at ==> WfAt(r2, y);
  }

  lemma AbandonElsewhere(s: Tables, r: Tables, r1: Tables, r2: Tables, x: Pos, n: nat, m: nat)
    requires Ok(s) && Shape(r1) && Ok(r2) && s.held == {} && !x.Slot? && !x.Low? && Vacant(s, x.In(m))
    requires Elsewhere(s, r, x) && Elsewhere(r, r1, x.Child(n)) && FreedWhole(r1, r2, x.In(m))
    requires forall y {:trigger Weakened(s, r2, x, y)} :: Weakened(s, r2, x, y)
    ensures Elsewhere(s, r2, x)
  {
    var c, z := x.Child(n), x.In(m);
    forall y ensures KeptTable(s, r2, x, y) {
      if y in s.at && !(x.Under(y) && y.Low?) {
        assert KeptTable(s, r, x, y) && KeptTable(r, r1, c, y);
        UnderChild(x, n, y);
        assert z.Under(y) ==> y !in s.at;
        FreedSteady(r1, r2, z, y);
      }
    }
    forall p ensures KeptData(s, r2, p) {
      assert KeptData(s, r, p) && KeptData(r, r1, p);
      AbandonData(s, r1, r2, x, p);
    }
  }

  lemma CopyGivesUp(s: Tables, r: Tables, r1: Tables, r2: Tables, x: Pos, n: nat, m: nat)
    requires Ok(s) && Ok(r) && Ok(r1) && Ok(r2) && s.held == {}
    requires x in s.at && WfAt(s, x) && !x.Low? && n < ENTRIES && x.mm != m && Vacant(s, x.In(m))
    requires Copied(s, r, x, n, m) && Abandoned(r, r1, x.Child(n)) && FreedWhole(r1, r2, x.In(m))
    ensures Abandoned(s, r2, x)
  {
    AbandonAt(s, r, x, n, m);
    AbandonChild(r, r1, x, n);
    forall y | x.Under(y) ensures Steady(r1, r2, y) { FreedSteady(r1, r2, x.In(m), y); }
    SteadySubtree(r1, r2, x);
    forall y ensures Weakened(s, r2, x, y) {
      assert Weakened(r, r1, x.Child(n), y);
      AbandonLeaf(s, r, r1, r2, x, n, m, y);
    }
    AbandonElsewhere(s, r, r1, r2, x, n, m);
  }

  // ------------------------------------------------------------------
  // Sharing keeps writable pages private

  lemma SharedExclusive(leaf: map<Pos, Entry>, x: Pos, n: nat, m: nat)
    requires Exclusive(leaf) && (forall y | y in leaf :: leaf[y].Present?)
    ensures Exclusive(Shared(leaf, x, n, m))
  {
    var a := Shared(leaf, x, n, m);
    forall y, z | y in a && z in a && y != z && a[y].Present? && a[z].Present? && a[y].pfn == a[z].pfn
      ensures a[y].ro
    {
      if y in leaf {
        var w := if z in leaf then z else z.In(x.mm);
        assert w in leaf && leaf[w].pfn == leaf[y].pfn;
        if z !in leaf { assert x.Before(n, w); }
      }
    }
  }

  lemma AbandonedExclusive(s: Tables, r: Tables, x: Pos)
    requires Exclusive(s.leaf) && Abandoned(s, r, x)
    ensures Exclusive(r.leaf)
  {
    forall y, z | y in r.leaf && z in r.leaf && y != z && r.leaf[y].Present? && r.leaf[z].Present?
                  && r.leaf[y].pfn == r.leaf[z].pfn
      ensures r.leaf[y].ro
    {
      assert Weakened(s, r, x, y) && Weakened(s, r, x, z);
    }
  }

  // ------------------------------------------------------------------
  // What the loop finds in entry n

  lemma NextEntry(s: Tables, r: Tables, x: Pos, n: nat, m: nat)
    requires Ok(s) && Ok(r) && x in s.at && Subtree(s, x) && n < ENTRIES && Copied(s, r, x, n, m)
    ensures WfAt(s, x) && WfAt(r, x) && r.at[x] == s.at[x]
    ensures Entries(r, x)[n].Present? <==> Entries(s, x)[n].Present?
    ensures x.Low? && Entries(r, x)[n].Present? ==> x.Child(n) in r.leaf && r.leaf[x.Child(n)] == Entries(r, x)[n]
    ensures !x.Low? && Entries(r, x)[n].Present? ==>
              x.Child(n) in s.at && x.Child(n) in r.at && r.at[x.Child(n)] == Entries(r, x)[n].pfn
    ensures !x.Low? && !Entries(r, x)[n].Present? ==> x.Child(n) !in s.at
  {
    assert Placed(s, r, x, n, m, x);
    assert WfAt(s, x) && WfAt(r, x) && Node(s, x) && Node(r, x);
    assert EntryOk(s, x, n) && EntryOk(r, x, n) && KeptTable(s, r, x, x);
  }

  lemma SubSubtree(r: Tables, x: Pos, n: nat)
    requires Shape(r) && !x.Slot? && Subtree(r, x)
    ensures Subtree(r, x.Child(n))
  {
    var c := x.Child(n);
    forall y | y in r.at && c.Under(y) ensures Node(r, y) && (y != c ==> y.Parent() in r.at) {
      UnderChild(x, n, y);
      assert Node(r, y);
    }
  }

  lemma NextVacant(s: Tables, r: Tables, x: Pos, n: nat, m: nat)
    requires Ok(s) && !x.Slot? && x.mm != m && Vacant(s, x.In(m))
    requires AllPlaced(s, r, x, n, m) && r.leaf == Shared(s.leaf, x, n, m)
    ensures Vacant(r, x.Child(n).In(m))
  {
    var c, z := x.Child(n).In(m), x.In(m);
    forall y | c.Under(y) ensures y !in r.at && y !in r.leaf {
      UnderChild(z, n, y);
      assert z.Under(y);
      assert Placed(s, r, x, n, m, y);
    }
  }
}
