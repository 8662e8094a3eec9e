/**
 * The user page tables of mm/mmap.c as values.
 *
 * A table is named by its position in the three-level tree of one address
 * space.  The ghost map `at` says which frame holds the table of a position
 * and the ghost map `leaf` is the flat view: position of a leaf slot to the
 * entry stored there.  The predicates below tie both to the frames.
 */
module PageTable {

  const ENTRIES := 512

  type Page = seq<bv8>

  /** A page-table descriptor: PTE_RDONLY, PTE_USER and PTE_UXN are the bits that vary. */
  datatype Entry = Absent | Present(pfn: nat, ro: bool, user: bool, uxn: bool)

  datatype Frame = Table(e: seq<Entry>) | Data(bytes: Page)

  function WrProtect(e: Entry): Entry {
    if e.Present? then e.(ro := true) else e
  }

  /** Where a table (Root, Mid, Low) or a leaf slot (Slot) sits in the tree of `mm`. */
  datatype Pos =
    | Root(mm: nat)
    | Mid(mm: nat, i: nat)
    | Low(mm: nat, i: nat, j: nat)
    | Slot(mm: nat, i: nat, j: nat, k: nat)
  {
    predicate InRange() {
      match this
      case Root(_) => true
      case Mid(_, a) => a < ENTRIES
      case Low(_, a, b) => a < ENTRIES && b < ENTRIES
      case Slot(_, a, b, c) => a < ENTRIES && b < ENTRIES && c < ENTRIES
    }

    function Level(): nat {
      match this
      case Root(_) => 1
      case Mid(_, _) => 2
      case Low(_, _, _) => 3
      case Slot(_, _, _, _) => 4
    }

    function Child(n: nat): Pos
      requires !Slot?
    {
      match this
      case Root(m) => Mid(m, n)
      case Mid(m, a) => Low(m, a, n)
      case Low(m, a, b) => Slot(m, a, b, n)
    }

    function Parent(): Pos
      requires !Root?
    {
      match this
      case Mid(m, _) => Root(m)
      case Low(m, a, _) => Mid(m, a)
      case Slot(m, a, b, _) => Low(m, a, b)
    }

    /** y is this position or lies below it. */
    predicate Under(y: Pos) {
      match this
      case Root(m) => y.mm == m
      case Mid(m, a) => y.mm == m && !y.Root? && y.i == a
      case Low(m, a, b) => y.mm == m && (y.Low? || y.Slot?) && y.i == a && y.j == b
      case Slot(_, _, _, _) => y == this
    }

    /** The index of the entry of this table through which y is reached. */
    function Via(y: Pos): nat
      requires Under(y) && y != this
    {
      match this
      case Root(_) => y.i
      case Mid(_, _) => y.j
      case Low(_, _, _) => y.k
    }

    /** y lies strictly below, through an entry of index smaller than n. */
    predicate Before(n: nat, y: Pos) {
      Under(y) && y != this && Via(y) < n
    }

    /** The same place in the tree of address space m. */
    function In(m: nat): Pos {
      this.(mm := m)
    }
  }

  lemma UnderChild(x: Pos, n: nat, y: Pos)
    requires !x.Slot?
    ensures x.Child(n).Under(y) <==> x.Under(y) && y != x && x.Via(y) == n
  {
  }

  // ------------------------------------------------------------------
  // State of the page tables

  /**
   * frame: order-0 pages in use by address spaces; count: their _refcount;
   * free: pages the allocator can hand out; held: data pages on which the
   * running kernel code owns one reference that no leaf entry carries yet;
   * at/pos: which frame holds the table of a position, and back.
   */
  datatype Tables = Tables(
    frame: map<nat, Frame>,
    count: map<nat, nat>,
    free: set<nat>,
    held: set<nat>,
    at: map<Pos, nat>,
    pos: map<nat, Pos>,
    leaf: map<Pos, Entry>)

  ghost predicate IsTable(s: Tables, t: nat) {
    t in s.frame && s.frame[t].Table? && |s.frame[t].e| == ENTRIES
  }

  ghost predicate IsData(s: Tables, p: nat) {
    p in s.frame && s.frame[p].Data?
  }

  ghost predicate WfAt(s: Tables, x: Pos) {
    && x in s.at && !x.Slot? && x.InRange() && IsTable(s, s.at[x])
    && s.at[x] in s.pos && s.pos[s.at[x]] == x
  }

  ghost function Entries(s: Tables, x: Pos): seq<Entry>
    requires WfAt(s, x)
  {
    s.frame[s.at[x]].e
  }

  /** Every position holds a table of its own (`pos` inverts `at`): tables never alias. */
  ghost predicate Shape(s: Tables) {
    forall x {:trigger WfAt(s, x)} | x in s.at :: WfAt(s, x)
  }

  /** Entry n of the table at x says what the ghost maps say about the child. */
  ghost predicate EntryOk(s: Tables, x: Pos, n: nat)
    requires WfAt(s, x) && n < ENTRIES
  {
    var e := Entries(s, x)[n];
    var c := x.Child(n);
    if x.Low? then
      (c in s.leaf <==> e.Present?) && (e.Present? ==> s.leaf[c] == e)
    else
      (c in s.at <==> e.Present?) && (e.Present? ==> s.at[c] == e.pfn)
  }

  ghost predicate Node(s: Tables, x: Pos)
    requires WfAt(s, x)
  {
    forall n {:trigger EntryOk(s, x, n)} | 0 <= n < ENTRIES :: EntryOk(s, x, n)
  }

  /** The subtree at x is well linked; how x itself hangs from its parent is left open. */
  ghost predicate Subtree(s: Tables, x: Pos)
    requires Shape(s)
  {
    forall y {:trigger Node(s, y)} | y in s.at && x.Under(y) :: Node(s, y) && (y != x ==> y.Parent() in s.at)
  }

  ghost function Refs(leaf: map<Pos, Entry>, p: nat): set<Pos> {
    set y | y in leaf && leaf[y].Present? && leaf[y].pfn == p
  }

  ghost function Held(s: Tables, p: nat): nat {
    if p in s.held then 1 else 0
  }

  /** Every page the tables and the allocator own between them. */
  ghost function Pool(s: Tables): set<nat> {
    s.frame.Keys + s.free
  }

  ghost predicate LeafWf(s: Tables, y: Pos)
    requires y in s.leaf
  {
    y.Slot? && y.InRange() && y.Parent() in s.at && s.leaf[y].Present? && IsData(s, s.leaf[y].pfn)
  }

  ghost predicate Counted(s: Tables, p: nat)
    requires p in s.frame
  {
    p in s.count &&
    match s.frame[p]
    case Data(_) => s.count[p] == |Refs(s.leaf, p)| + Held(s, p) && s.count[p] >= 1
    case Table(_) => s.count[p] == 1 && p in s.pos && s.pos[p] in s.at && s.at[s.pos[p]] == p
  }

  /** Every page's _refcount is the number of leaf entries naming it (plus the reference in hand). */
  ghost predicate Accounts(s: Tables) {
    && (forall p {:trigger Counted(s, p)} | p in s.frame :: Counted(s, p))
    && (forall y {:trigger LeafWf(s, y)} | y in s.leaf :: LeafWf(s, y))
    && (forall p {:trigger IsData(s, p)} | p in s.held :: IsData(s, p))
    && s.frame.Keys !! s.free
  }

  /** A page named by two leaf entries is read-only in both. */
  ghost predicate Exclusive(leaf: map<Pos, Entry>) {
    forall y, z | y in leaf && z in leaf && y != z && leaf[y].Present? && leaf[z].Present?
                  && leaf[y].pfn == leaf[z].pfn :: leaf[y].ro
  }

  // ------------------------------------------------------------------
  // Counting references

  lemma RefsSet(leaf: map<Pos, Entry>, y: Pos, e: Entry, p: nat)
    requires e.Present?
    requires y in leaf ==> leaf[y].Present?
    ensures |Refs(leaf[y := e], p)| ==
            |Refs(leaf, p)| + (if e.pfn == p then 1 else 0) - (if y in leaf && leaf[y].pfn == p then 1 else 0)
  {
    RefsElsewhere(leaf, y, e, p);
    WithoutMember(Refs(leaf, p), y);
    WithoutMember(Refs(leaf[y := e], p), y);
  }

  lemma RefsElsewhere(leaf: map<Pos, Entry>, y: Pos, e: Entry, p: nat)
    requires e.Present?
    requires y in leaf ==> leaf[y].Present?
    ensures Refs(leaf[y := e], p) - {y} == Refs(leaf, p) - {y}
    ensures y in Refs(leaf[y := e], p) <==> e.pfn == p
    ensures y in Refs(leaf, p) <==> y in leaf && leaf[y].pfn == p
  {
    forall z | z != y ensures z in Refs(leaf[y := e], p) <==> z in Refs(leaf, p) {
    }
  }

  lemma WithoutMember(a: set<Pos>, y: Pos)
    ensures |a - {y}| == |a| - if y in a then 1 else 0
  {
    if y !in a {
      assert a - {y} == a;
    }
  }

  lemma RefsDrop(leaf: map<Pos, Entry>, y: Pos, p: nat)
    requires y in leaf && leaf[y].Present?
    ensures |Refs(leaf - {y}, p)| == |Refs(leaf, p)| - (if leaf[y].pfn == p then 1 else 0)
  {
    var a, b := Refs(leaf, p), Refs(leaf - {y}, p);
    assert a - {y} == b;
  }

  lemma RefsPositive(leaf: map<Pos, Entry>, y: Pos)
    requires y in leaf && leaf[y].Present?
    ensures |Refs(leaf, leaf[y].pfn)| >= 1
  {
    assert y in Refs(leaf, leaf[y].pfn);
  }

  /** Exactly one reference means exactly this one. */
  lemma SoleRef(leaf: map<Pos, Entry>, y: Pos)
    requires y in leaf && leaf[y].Present?
    ensures |Refs(leaf, leaf[y].pfn)| == 1 <==> Refs(leaf, leaf[y].pfn) == {y}
  {
    var a := Refs(leaf, leaf[y].pfn);
    assert |a - {y}| == |a| - 1;
    if |a| == 1 {
      assert a - {y} == {};
      assert a == {y};
    }
  }
}
