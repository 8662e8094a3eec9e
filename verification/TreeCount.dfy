/**
 * How many tables a subtree has: what dup_pgtable_level needs to copy it.
 */
module TreeCount {
  import opened PageTable
  import opened Accounting
  import opened ForkWalk

  ghost function TablesUnder(s: Tables, x: Pos): set<Pos> {
    set y | y in s.at && x.Under(y)
  }

  ghost function Cost(s: Tables, x: Pos): nat {
    |TablesUnder(s, x)|
  }

  /** The tables reached through the first n entries of the table at x. */
  ghost function TablesBefore(s: Tables, x: Pos, n: nat): set<Pos> {
    set y | y in s.at && x.Before(n, y)
  }

  ghost function CostBefore(s: Tables, x: Pos, n: nat): nat {
    |TablesBefore(s, x, n)|
  }

  lemma CostNone(s: Tables, x: Pos)
    ensures CostBefore(s, x, 0) == 0
  {
    assert TablesBefore(s, x, 0) == {};
  }

  lemma CostNext(s: Tables, x: Pos, n: nat)
    requires !x.Slot?
    ensures CostBefore(s, x, n + 1) == CostBefore(s, x, n) + Cost(s, x.Child(n))
  {
    forall y | y in s.at ensures x.Before(n + 1, y) <==> x.Before(n, y) || x.Child(n).Under(y) { UnderChild(x, n, y); }
    forall y | y in s.at ensures !(x.Before(n, y) && x.Child(n).Under(y)) { UnderChild(x, n, y); }
    var a, b := TablesBefore(s, x, n), TablesUnder(s, x.Child(n));
    assert a !! b && TablesBefore(s, x, n + 1) == a + b;
  }

  lemma CostGrows(s: Tables, x: Pos, n: nat, k: nat)
    requires n <= k
    ensures CostBefore(s, x, n) <= CostBefore(s, x, k)
  {
    Smaller(TablesBefore(s, x, n), TablesBefore(s, x, k));
  }

  /** One entry more, and what is left still to come. */
  lemma CostTurn(s: Tables, x: Pos, n: nat)
    requires x.Level() <= 3 && n < ENTRIES
    ensures CostBefore(s, x, n + 1) == CostBefore(s, x, n) + Cost(s, x.Child(n)) <= CostBefore(s, x, ENTRIES)
  {
    CostNext(s, x, n);
    CostGrows(s, x, n + 1, ENTRIES);
  }

  lemma Smaller(a: set<Pos>, b: set<Pos>)
    requires a <= b
    ensures |a| <= |b|
  {
    assert b == a + (b - a);
  }

  /** The table itself and what its entries reach. */
  lemma CostAll(s: Tables, x: Pos)
    requires Shape(s) && x in s.at
    ensures Cost(s, x) == 1 + CostBefore(s, x, ENTRIES)
  {
    assert x.Under(x);
    forall y | y in s.at && x.Under(y) && y != x ensures x.Before(ENTRIES, y) { assert WfAt(s, y) && WfAt(s, x); }
    assert TablesUnder(s, x) == TablesBefore(s, x, ENTRIES) + {x};
  }

  /** r has the pages left that s has after a new table for x and copies of what its first n entries reach. */
  ghost predicate Spent(s: Tables, r: Tables, x: Pos, n: nat) {
    |r.free| == |s.free| - 1 - CostBefore(s, x, n)
  }

  lemma SpentAll(s: Tables, r: Tables, x: Pos)
    requires Shape(s) && x in s.at && Spent(s, r, x, ENTRIES)
    ensures |r.free| == |s.free| - Cost(s, x)
  {
    CostAll(s, x);
  }

  /** No tables below an entry that is absent or a leaf. */
  lemma CostAbsent(s: Tables, x: Pos, n: nat)
    requires Shape(s) && Subtree(s, x) && x in s.at && !x.Slot? && (x.Low? || x.Child(n) !in s.at)
    ensures Cost(s, x.Child(n)) == 0
  {
    forall y | y in s.at ensures !x.Child(n).Under(y) {
      NotBelow(s, x, n, y);
    }
    assert TablesUnder(s, x.Child(n)) == {};
  }

  lemma NotBelow(s: Tables, x: Pos, n: nat, y: Pos)
    requires Shape(s) && Subtree(s, x) && x in s.at && !x.Slot? && (x.Low? || x.Child(n) !in s.at) && y in s.at
    ensures !x.Child(n).Under(y)
    decreases y.Level()
  {
    UnderChild(x, n, y);
    assert WfAt(s, y) && WfAt(s, x);
    if x.Under(y) && y != x && y != x.Child(n) {
      assert Node(s, y);
      if y.Parent() != x {
        NotBelow(s, x, n, y.Parent());
      }
    }
  }

  /** Copying leaves the tables of the source where they are. */
  lemma CostSame(s: Tables, r: Tables, x: Pos, n: nat, m: nat, c: Pos)
    requires Copied(s, r, x, n, m) && c.mm == x.mm != m
    ensures Cost(r, c) == Cost(s, c)
  {
    forall y | c.Under(y) ensures y in r.at <==> y in s.at { assert Placed(s, r, x, n, m, y); }
    assert TablesUnder(r, c) == TablesUnder(s, c);
  }
}
