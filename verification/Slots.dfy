/**
 * What a change of one leaf slot does to the invariant of all address spaces
 * and to the memory they describe.
 */
module Slots {
  import opened Basics
  import opened PageTable
  import opened Accounting
  import opened ForkWalk
  import opened FlatView
  import opened Spaces
  import VmaList
  import Eager

  /** New tables may have been added to address space m; nothing else moved. */
  ghost predicate Grown(s: Tables, r: Tables, m: nat) {
    && (forall x | x in s.at :: x in r.at && r.at[x] == s.at[x])
    && (forall x | x in r.at :: x in s.at || (x.mm == m && !x.Root?))
    && Pool(r) == Pool(s)
  }

  /** Data pages that are there before and after hold the same bytes. */
  ghost predicate SameBytes(s: Tables, r: Tables) {
    forall p {:trigger IsData(r, p)} | IsData(r, p) && p in s.frame :: r.frame[p] == s.frame[p]
  }

  lemma GrownRooted(g: Sys, r: Tables, m: nat)
    requires Rooted(g) && m in g.pgd && Grown(g.t, r, m)
    ensures Rooted(g.(t := r))
  {
    var g' := g.(t := r);
    forall k | k in g'.pgd ensures SpaceOk(g', k) { assert SpaceOk(g, k); }
  }

  /** Slot y of r holds e, every other slot what it held in s. */
  ghost predicate OneSlot(s: Tables, r: Tables, y: Pos, e: Entry) {
    && e.Present? && r.leaf == s.leaf[y := e]
    && SameBytes(s, r)
    && IsData(r, e.pfn) && PageOk(r, e.pfn)
    && (forall p {:trigger IsData(r, p)} | IsData(r, p) && p != e.pfn :: IsData(s, p))
    && (forall z | z in s.leaf && z != y && s.leaf[z].Present? && s.leaf[z].pfn == e.pfn :: s.leaf[z].ro && e.ro)
  }

  lemma OneSlotTables(s: Tables, r: Tables, y: Pos, e: Entry)
    requires TablesGood(s) && Ok(r) && r.held == {} && WellLinked(r) && OneSlot(s, r, y, e)
    ensures TablesGood(r)
  {
    forall p ensures PageOk(r, p) {
      if p != e.pfn { assert PageOk(s, p); }
    }
    forall a, b | a in r.leaf && b in r.leaf && a != b && r.leaf[a].Present? && r.leaf[b].Present?
                  && r.leaf[a].pfn == r.leaf[b].pfn
      ensures r.leaf[a].ro
    {
      if a == y {
        assert b in s.leaf;
      } else if b == y {
        assert a in s.leaf;
      }
    }
  }

  lemma OneSlotMem(s: Tables, r: Tables, y: Pos, e: Entry)
    requires Ok(s) && Ok(r) && OneSlot(s, r, y, e)
    ensures Mem(r) == Mem(s)[y := r.frame[e.pfn].bytes]
  {
    MemKeys(s);
    MemKeys(r);
    MemAt(r, y);
    forall z | z in r.leaf && z != y ensures Mem(r)[z] == Mem(s)[z] {
      MemAt(s, z);
      MemAt(r, z);
    }
  }

  lemma OneSlotGood(g: Sys, r: Tables, y: Pos, e: Entry)
    requires Good(g) && Ok(r) && r.held == {} && WellLinked(r) && OneSlot(g.t, r, y, e)
    requires y.mm in g.pgd && Grown(g.t, r, y.mm) && FlagOk(g.areas, y, e)
    ensures Good(g.(t := r)) && Abs(g.(t := r)) == Abs(g).(mem := Abs(g).mem[y := r.frame[e.pfn].bytes])
  {
    OneSlotTables(g.t, r, y, e);
    OneSlotMem(g.t, r, y, e);
    GrownRooted(g, r, y.mm);
    forall z | z in r.leaf ensures FlagOk(g.areas, z, r.leaf[z]) {
      if z != y { assert FlagOk(g.areas, z, g.t.leaf[z]); }
    }
  }

  /** Tables added but no slot changed: nothing a process can see. */
  lemma GrownGood(g: Sys, r: Tables, m: nat)
    requires Good(g) && Ok(r) && r.held == {} && WellLinked(r) && m in g.pgd && Grown(g.t, r, m)
    requires r.leaf == g.t.leaf && SameBytes(g.t, r)
    requires forall p {:trigger IsData(r, p)} | IsData(r, p) :: IsData(g.t, p)
    ensures Good(g.(t := r)) && Abs(g.(t := r)) == Abs(g)
  {
    GrownRooted(g, r, m);
    forall p ensures PageOk(r, p) { assert PageOk(g.t, p); }
    forall z | z in r.leaf ensures FlagOk(g.areas, z, r.leaf[z]) { assert FlagOk(g.areas, z, g.t.leaf[z]); }
    MemKeys(g.t);
    MemKeys(r);
    forall z | z in r.leaf ensures Mem(r)[z] == Mem(g.t)[z] {
      MemAt(g.t, z);
      MemAt(r, z);
    }
  }

  // ------------------------------------------------------------------
  // A store through a writable leaf

  ghost function Written(s: Tables, p: nat, bytes: Page): Tables {
    s.(frame := s.frame[p := Data(bytes)])
  }

  lemma WrittenOk(s: Tables, p: nat, bytes: Page)
    requires Ok(s) && WellLinked(s) && IsData(s, p)
    ensures Ok(Written(s, p, bytes)) && WellLinked(Written(s, p, bytes))
  {
    var r := Written(s, p, bytes);
    forall x | x in r.at ensures WfAt(r, x) { assert WfAt(s, x); }
    forall q | q in r.frame ensures Counted(r, q) { assert Counted(s, q); }
    forall z | z in r.leaf ensures LeafWf(r, z) { assert LeafWf(s, z); }
    forall q | q in r.held ensures IsData(r, q) { assert IsData(s, q); }
    forall y | y in r.at ensures Node(r, y) && (!y.Root? ==> y.Parent() in r.at) {
      assert WfAt(s, y) && Node(s, y);
      forall n | 0 <= n < ENTRIES ensures EntryOk(r, y, n) { assert EntryOk(s, y, n); }
    }
  }

  /** A store through a writable leaf is seen through that leaf only. */
  lemma WrittenGood(g: Sys, y: Pos, bytes: Page)
    requires Good(g) && y in g.t.leaf && g.t.leaf[y].Present? && !g.t.leaf[y].ro && |bytes| == PAGE
    ensures var g' := g.(t := Written(g.t, g.t.leaf[y].pfn, bytes));
            Good(g') && Abs(g') == Abs(g).(mem := Abs(g).mem[y := bytes])
  {
    assert LeafWf(g.t, y);
    var p := g.t.leaf[y].pfn;
    var r := Written(g.t, p, bytes);
    var g' := g.(t := r);
    WrittenOk(g.t, p, bytes);
    forall q ensures PageOk(r, q) { assert PageOk(g.t, q); }
    forall k | k in g'.pgd ensures SpaceOk(g', k) { assert SpaceOk(g, k); }
    forall z | z in r.leaf ensures FlagOk(g.areas, z, r.leaf[z]) { assert FlagOk(g.areas, z, g.t.leaf[z]); }
    WrittenMem(g.t, y, bytes);
  }

  lemma WrittenMem(s: Tables, y: Pos, bytes: Page)
    requires Ok(s) && Exclusive(s.leaf) && y in s.leaf && s.leaf[y].Present? && !s.leaf[y].ro
    requires Ok(Written(s, s.leaf[y].pfn, bytes))
    ensures Mem(Written(s, s.leaf[y].pfn, bytes)) == Mem(s)[y := bytes]
  {
    var r := Written(s, s.leaf[y].pfn, bytes);
    MemKeys(s);
    MemKeys(r);
    MemAt(r, y);
    forall z | z in r.leaf && z != y ensures Mem(r)[z] == Mem(s)[z] {
      MemAt(s, z);
      MemAt(r, z);
      assert LeafWf(s, z);
    }
  }

  // ------------------------------------------------------------------
  // Adding tables

  /** Only tables were added, all of them to address space m. */
  ghost predicate OnlyTables(s: Tables, r: Tables, m: nat) {
    && Grown(s, r, m) && r.leaf == s.leaf && r.held == s.held
    && (forall p {:trigger KeptData(s, r, p)} :: KeptData(s, r, p))
  }

  lemma TableAddedOnly(s: Tables, x: Pos, n: nat, t: nat, e: Entry)
    requires Ok(s) && WfAt(s, x) && !x.Low? && n < ENTRIES && t in s.free && x.Child(n) !in s.at
    requires IsTable(AddTable(s, x.Child(n), t), s.at[x])
    ensures OnlyTables(s, SetEntry(AddTable(s, x.Child(n), t), s.at[x], n, e), x.mm)
  {
    var r := SetEntry(AddTable(s, x.Child(n), t), s.at[x], n, e);
    assert Pool(r) == Pool(s);
    forall p ensures KeptData(s, r, p) { }
  }

  lemma OnlyTablesTwice(s: Tables, r: Tables, r1: Tables, m: nat)
    requires OnlyTables(s, r, m) && OnlyTables(r, r1, m)
    ensures OnlyTables(s, r1, m)
  {
    forall p ensures KeptData(s, r1, p) { assert KeptData(s, r, p) && KeptData(r, r1, p); }
  }

  lemma FilledOnly(s: Tables, r: Tables, y: Pos, e: Entry)
    requires Ok(r) && OnlyTables(s, r, y.mm) && y.Slot? && y.InRange() && e.Present? && WfAt(r, y.Parent())
    ensures var r' := Filled(r, y.Parent(), y.k, e); OnlyTables(s.(leaf := r'.leaf, held := r'.held), r', y.mm)
  {
    var r' := Filled(r, y.Parent(), y.k, e);
    var s' := s.(leaf := r'.leaf, held := r'.held);
    forall p ensures KeptData(s', r', p) { assert KeptData(s, r, p); }
    assert r'.frame.Keys == r.frame.Keys;
  }

  // ------------------------------------------------------------------
  // unmap_page

  /** pte_set(0) and put_page on slot y, as one step. */
  lemma UnmapStep(g: Sys, y: Pos)
    requires TablesGood(g.t) && Rooted(g) && y in g.t.leaf && y.mm in g.pgd
    ensures LeafWf(g.t, y) && WfAt(g.t, y.Parent())
    ensures var r := Cleared(g.t, y.Parent(), y.k); var p := g.t.leaf[y].pfn;
            && Ok(r) && p in r.held && p in r.count && r.count[p] >= 1
            && var r' := Put(r, p);
            && TablesGood(r') && Rooted(g.(t := r')) && Grown(g.t, r', y.mm)
            && r'.leaf == g.t.leaf - {y} && Mem(r') == Mem(g.t) - {y}
  {
    assert LeafWf(g.t, y);
    var r, p := Cleared(g.t, y.Parent(), y.k), g.t.leaf[y].pfn;
    ClearedOk(g.t, y.Parent(), y.k);
    PutLinked(r, p);
    assert Put(r, p).held == {};
    UnmappedGood(g, r, y, Put(r, p));
  }

  lemma UnmappedGood(g: Sys, r: Tables, y: Pos, r': Tables)
    requires TablesGood(g.t) && Rooted(g) && y in g.t.leaf && y.mm in g.pgd
    requires Ok(r') && WellLinked(r') && r'.held == {} && r'.leaf == g.t.leaf - {y} && r'.at == g.t.at
    requires r.frame.Keys == g.t.frame.Keys && r.free == g.t.free && Pool(r') == Pool(r)
    requires forall p | p in r.frame && r.frame[p].Data? :: p in g.t.frame && r.frame[p] == g.t.frame[p]
    requires forall p | p in r'.frame :: p in r.frame && r'.frame[p] == r.frame[p]
    ensures TablesGood(r') && Rooted(g.(t := r')) && Grown(g.t, r', y.mm) && Mem(r') == Mem(g.t) - {y}
  {
    GrownRooted(g, r', y.mm);
    forall p ensures PageOk(r', p) { assert PageOk(g.t, p); }
    MemKeys(g.t);
    MemKeys(r');
    forall z | z in r'.leaf ensures Mem(r')[z] == Mem(g.t)[z] {
      MemAt(g.t, z);
      MemAt(r', z);
    }
  }

  // ------------------------------------------------------------------
  // Demand faults

  lemma AddPageLinked(s: Tables, p: nat, bytes: Page)
    requires Ok(s) && WellLinked(s) && p in s.free
    ensures Ok(AddPage(s, p, bytes)) && WellLinked(AddPage(s, p, bytes))
  {
    AddPageOk(s, p, bytes);
    var r := AddPage(s, p, bytes);
    forall y | y in r.at ensures Node(r, y) && (!y.Root? ==> y.Parent() in r.at) {
      assert WfAt(s, y) && WfAt(r, y) && Node(s, y);
      forall n | 0 <= n < ENTRIES ensures EntryOk(r, y, n) { assert EntryOk(s, y, n); }
    }
  }

  lemma FreshUnnamed(s: Tables, p: nat)
    requires Ok(s) && p in s.free
    ensures Refs(s.leaf, p) == {} && forall z | z in s.leaf && s.leaf[z].Present? :: s.leaf[z].pfn != p
  {
    forall z | z in s.leaf && s.leaf[z].Present? ensures s.leaf[z].pfn != p { assert LeafWf(s, z); }
  }

  lemma SameRooted(g: Sys, r: Tables)
    requires Rooted(g) && r.at == g.t.at
    ensures Rooted(g.(t := r))
  {
    var g' := g.(t := r);
    forall k | k in g'.pgd ensures SpaceOk(g', k) { assert SpaceOk(g, k); }
  }

  /** The page was allocated but no table for it: everything visible is as before. */
  lemma DemandFailed(g: Sys, p: nat, r: Tables, r': Tables, m: nat)
    requires Good(g) && p in g.t.free && m in g.pgd
    requires var a := AddPage(g.t, p, Eager.ZeroPage()); OnlyTables(a, r, m)
    requires Ok(r') && WellLinked(r') && r'.at == r.at && r'.leaf == r.leaf && r'.held == {}
    requires Pool(r') == Pool(r)
    requires forall q | q in r'.frame :: q in r.frame && r'.frame[q] == r.frame[q]
    requires p !in r'.frame
    ensures Good(g.(t := r')) && Abs(g.(t := r')) == Abs(g) && Pool(r') == Pool(g.t)
  {
    var a := AddPage(g.t, p, Eager.ZeroPage());
    assert Pool(a) == Pool(g.t);
    forall q | IsData(r', q) ensures IsData(g.t, q) && r'.frame[q] == g.t.frame[q] {
      assert KeptData(a, r, q);
    }
    GrownGood(g, r', m);
  }

  lemma DemandServed(g: Sys, p: nat, e: Entry, r: Tables, m: nat, va: nat)
    requires Good(g) && p in g.t.free && m in g.pgd && Ok(r) && WellLinked(r)
    requires var a := AddPage(g.t, p, Eager.ZeroPage()); OnlyTables(a.(leaf := r.leaf, held := r.held), r, m)
    requires SlotOf(m, va) !in g.t.leaf && r.leaf == g.t.leaf[SlotOf(m, va) := e] && r.held == {}
    requires m in g.areas && VmaList.At(g.areas[m], va).Some? && e == EntryFor(p, VmaList.At(g.areas[m], va).value.prot)
    ensures Good(g.(t := r)) && Abs(g.(t := r)) == Abs(g).(mem := Abs(g).mem[SlotOf(m, va) := Eager.ZeroPage()])
    ensures Pool(r) == Pool(g.t)
  {
    var y := SlotOf(m, va);
    var a := AddPage(g.t, p, Eager.ZeroPage());
    var a' := a.(leaf := r.leaf, held := r.held);
    assert Pool(a) == Pool(g.t);
    forall q ensures IsData(r, q) <==> IsData(a, q) { assert KeptData(a', r, q); }
    forall q | IsData(r, q) ensures r.frame[q] == a.frame[q] { assert KeptData(a', r, q); }
    FreshUnnamed(g.t, p);
    assert SpaceOk(g, m);
    VmaList.AtPage(g.areas[m], LIMIT, va);
    VaOfSlot(m, va);
    OneSlotGood(g, r, y, e);
  }

  // ------------------------------------------------------------------
  // Breaking copy-on-write

  lemma CowFlags(g: Sys, m: nat, va: nat, e: Entry)
    requires Good(g) && m in g.pgd && SlotOf(m, va) in g.t.leaf && m in g.areas
    requires Eager.MayWrite(VmaList.At(g.areas[m], va))
    requires e.Present? && g.t.leaf[SlotOf(m, va)].Present?
    requires e.user == g.t.leaf[SlotOf(m, va)].user && e.uxn == g.t.leaf[SlotOf(m, va)].uxn
    ensures FlagOk(g.areas, SlotOf(m, va), e)
  {
    var y := SlotOf(m, va);
    assert SpaceOk(g, m);
    VmaList.AtPage(g.areas[m], LIMIT, va);
    VaOfSlot(m, va);
    assert FlagOk(g.areas, y, g.t.leaf[y]);
  }

  /** The only owner may write again. */
  lemma CowReuse(g: Sys, m: nat, va: nat)
    requires Good(g) && m in g.pgd && SlotOf(m, va) in g.t.leaf && m in g.areas
    requires Eager.MayWrite(VmaList.At(g.areas[m], va))
    requires g.t.leaf[SlotOf(m, va)].Present?
    requires var p := g.t.leaf[SlotOf(m, va)].pfn; p in g.t.frame && Counted(g.t, p) && g.t.count[p] == 1
    ensures var y := SlotOf(m, va); var e := g.t.leaf[y].(ro := false);
            && WfAt(g.t, y.Parent())
            && var r := Relabelled(g.t, y.Parent(), y.k, e);
            Ok(r) && Good(g.(t := r)) && Abs(g.(t := r)) == Abs(g) && Pool(r) == Pool(g.t)
  {
    var y := SlotOf(m, va);
    var e := g.t.leaf[y].(ro := false);
    assert LeafWf(g.t, y);
    RelabelledOk(g.t, y.Parent(), y.k, e);
    var r := Relabelled(g.t, y.Parent(), y.k, e);
    SoleRef(g.t.leaf, y);
    forall z | z in g.t.leaf && z != y && g.t.leaf[z].Present? ensures g.t.leaf[z].pfn != e.pfn {
      assert z !in Refs(g.t.leaf, e.pfn);
    }
    RelabelledGood(g, m, va, e);
  }

  /** New permission bits for slot y: the invariant survives, the memory is the same. */
  lemma RelabelledGood(g: Sys, m: nat, va: nat, e: Entry)
    requires Good(g) && m in g.pgd && SlotOf(m, va) in g.t.leaf && m in g.areas
    requires Eager.MayWrite(VmaList.At(g.areas[m], va))
    requires e.Present? && g.t.leaf[SlotOf(m, va)].Present? && e == g.t.leaf[SlotOf(m, va)].(ro := e.ro)
    requires forall z | z in g.t.leaf && z != SlotOf(m, va) && g.t.leaf[z].Present? && g.t.leaf[z].pfn == e.pfn ::
               g.t.leaf[z].ro && e.ro
    requires WfAt(g.t, SlotOf(m, va).Parent())
    ensures var y := SlotOf(m, va); var r := Relabelled(g.t, y.Parent(), y.k, e);
            Good(g.(t := r)) && Abs(g.(t := r)) == Abs(g) && Pool(r) == Pool(g.t)
  {
    var y := SlotOf(m, va);
    RelabelledOk(g.t, y.Parent(), y.k, e);
    var r := Relabelled(g.t, y.Parent(), y.k, e);
    MemAt(g.t, y);
    assert PageOk(g.t, e.pfn);
    assert r.frame.Keys == g.t.frame.Keys;
    CowFlags(g, m, va, e);
    OneSlotGood(g, r, y, e);
  }

  /** A sharer moves to its own copy. */
  lemma CowCopy(g: Sys, q: nat, m: nat, va: nat)
    requires Good(g) && m in g.pgd && SlotOf(m, va) in g.t.leaf && m in g.areas
    requires Eager.MayWrite(VmaList.At(g.areas[m], va))
    requires LeafWf(g.t, SlotOf(m, va)) && q in g.t.free
    ensures var y := SlotOf(m, va); var p := g.t.leaf[y].pfn;
            var e := Present(q, false, g.t.leaf[y].user, g.t.leaf[y].uxn);
            var a := AddPage(g.t, q, g.t.frame[p].bytes);
            && WfAt(a, y.Parent())
            && var b := Switched(a, y.Parent(), y.k, e);
            && Ok(b) && p in b.held && p in b.count && b.count[p] >= 1
            && var r := Put(b, p);
            Good(g.(t := r)) && Abs(g.(t := r)) == Abs(g) && r.leaf == g.t.leaf[y := e] && Pool(r) == Pool(g.t)
  {
    var y := SlotOf(m, va);
    var p := g.t.leaf[y].pfn;
    var e := Present(q, false, g.t.leaf[y].user, g.t.leaf[y].uxn);
    var a := AddPage(g.t, q, g.t.frame[p].bytes);
    AddPageLinked(g.t, q, g.t.frame[p].bytes);
    assert a.held == {q};
    SwitchedOk(a, y.Parent(), y.k, e);
    var b := Switched(a, y.Parent(), y.k, e);
    PutLinked(b, p);
    var r := Put(b, p);
    FreshUnnamed(g.t, q);
    CowCopied(g, a, b, r, y, q);
    CowFlags(g, m, va, e);
    OneSlotGood(g, r, y, e);
    MemAt(g.t, y);
  }

  lemma CowCopied(g: Sys, a: Tables, b: Tables, r: Tables, y: Pos, q: nat)
    requires TablesGood(g.t) && y in g.t.leaf && LeafWf(g.t, y) && q in g.t.free
    requires a == AddPage(g.t, q, g.t.frame[g.t.leaf[y].pfn].bytes)
    requires WfAt(a, y.Parent()) && y.k < ENTRIES
    requires b == Switched(a, y.Parent(), y.k, Present(q, false, g.t.leaf[y].user, g.t.leaf[y].uxn))
    requires g.t.leaf[y].pfn in b.count && b.count[g.t.leaf[y].pfn] >= 1 && r == Put(b, g.t.leaf[y].pfn)
    requires forall z | z in g.t.leaf && g.t.leaf[z].Present? :: g.t.leaf[z].pfn != q
    ensures OneSlot(g.t, r, y, Present(q, false, g.t.leaf[y].user, g.t.leaf[y].uxn))
    ensures Grown(g.t, r, y.mm) && r.frame[q].bytes == g.t.frame[g.t.leaf[y].pfn].bytes && r.held == {}
  {
    var p := g.t.leaf[y].pfn;
    assert PageOk(g.t, p);
    assert r.leaf == g.t.leaf[y := Present(q, false, g.t.leaf[y].user, g.t.leaf[y].uxn)];
    CowPool(g.t, a, b, r, y, q);
  }

  lemma CowPool(s: Tables, a: Tables, b: Tables, r: Tables, y: Pos, q: nat)
    requires y in s.leaf && y.Slot? && s.leaf[y].Present? && IsData(s, s.leaf[y].pfn) && s.leaf[y].pfn != q
    requires q in s.free && s.held == {}
    requires a == AddPage(s, q, s.frame[s.leaf[y].pfn].bytes) && WfAt(a, y.Parent()) && y.k < ENTRIES
    requires b == Switched(a, y.Parent(), y.k, Present(q, false, s.leaf[y].user, s.leaf[y].uxn))
    requires s.leaf[y].pfn in b.count && b.count[s.leaf[y].pfn] >= 1 && r == Put(b, s.leaf[y].pfn)
    ensures Pool(r) == Pool(s) && r.held == {}
  {
    assert b.frame.Keys == a.frame.Keys && Pool(a) == Pool(s);
    assert Pool(r) == Pool(b);
  }

  /** The bits of a present leaf say exactly what its VMA allows; write permission may be held back. */
  lemma LeafFlags(g: Sys, m: nat, va: nat)
    requires Good(g) && m in g.pgd && va < LIMIT
    ensures SpaceOk(g, m)
    ensures SlotOf(m, va) in g.t.leaf ==> Permits(VmaList.At(g.areas[m], va), g.t.leaf[SlotOf(m, va)])
  {
    var y := SlotOf(m, va);
    assert SpaceOk(g, m);
    if y in g.t.leaf {
      assert FlagOk(g.areas, y, g.t.leaf[y]);
      VmaList.AtPage(g.areas[m], LIMIT, va);
      VaOfSlot(m, va);
    }
  }

  /** What the reference machine knows about the address. */
  lemma AbsFacts(g: Sys, m: nat, va: nat)
    requires Good(g) && m in g.pgd
    ensures SpaceOk(g, m) && (VmaList.At(g.areas[m], va).Some? ==> va < LIMIT)
    ensures SlotOf(m, va) in Mem(g.t) <==> SlotOf(m, va) in g.t.leaf
    ensures SlotOf(m, va) in g.t.leaf ==>
              && LeafWf(g.t, SlotOf(m, va)) && Mem(g.t)[SlotOf(m, va)] == g.t.frame[g.t.leaf[SlotOf(m, va)].pfn].bytes
              && |Mem(g.t)[SlotOf(m, va)]| == PAGE
  {
    assert SpaceOk(g, m);
    VmaList.AtPage(g.areas[m], LIMIT, va);
    MemKeys(g.t);
    if SlotOf(m, va) in g.t.leaf {
      MemAt(g.t, SlotOf(m, va));
      assert PageOk(g.t, g.t.leaf[SlotOf(m, va)].pfn);
    }
  }

  /** The page of slot y is there, with what the reference machine would read from it. */
  ghost function Touched(s: Eager.State, y: Pos): Eager.State {
    s.(mem := s.mem[y := Eager.PageAt(s.mem, y)])
  }

  lemma TouchedSame(g: Sys, m: nat, va: nat)
    requires Good(g) && m in g.pgd
    ensures SlotOf(m, va) in g.t.leaf ==> Touched(Abs(g), SlotOf(m, va)) == Abs(g)
  {
    AbsFacts(g, m, va);
  }

  /** What a load may come to, and the state it leaves. */
  ghost predicate Loaded(s: Eager.State, m: nat, va: nat, kind: Eager.Access, out: Eager.Outcome, s1: Eager.State)
    requires m in s.areas
  {
    var y, may := SlotOf(m, va), Eager.MayRead(VmaList.At(s.areas[m], va), kind);
    match out
    case Fault => !may && s1 == s
    case NoMemory => may && y !in s.mem && s1 == s
    case Byte(b) => may && s1 == Touched(s, y) && |s1.mem[y]| == PAGE && b == s1.mem[y][va % PAGE]
    case _ => false
  }

  lemma LoadNext(s: Eager.State, m: nat, va: nat, kind: Eager.Access, out: Eager.Outcome, s1: Eager.State)
    requires m in s.areas && Loaded(s, m, va, kind, out, s1)
    ensures Eager.Next(s, Eager.Load(m, va, kind), out, s1)
  {
  }

  lemma StoreNext(s: Eager.State, s1: Eager.State, s2: Eager.State, m: nat, va: nat, b: bv8)
    requires m in s.areas && Eager.MayWrite(VmaList.At(s.areas[m], va)) && s1 == Touched(s, SlotOf(m, va))
    requires |s1.mem[SlotOf(m, va)]| == PAGE
    requires s2 == s1.(mem := s1.mem[SlotOf(m, va) := s1.mem[SlotOf(m, va)][va % PAGE := b]])
    ensures Eager.Next(s, Eager.Store(m, va, b), Eager.Done, s2)
  {
  }

  // ------------------------------------------------------------------
  // Ranges of pages

  /** What vma_erase_range and unmap_page on every page of [lo, hi) leave. */
  ghost function Vacated(s: Eager.State, m: nat, lo: nat, hi: nat): Eager.State
    requires m in s.areas
  {
    Eager.State(s.areas[m := VmaList.Erase(s.areas[m], lo, hi)], Eager.Sweep(s.mem, m, lo, hi))
  }

  ghost predicate LessAt(s: Tables, r: Tables, m: nat, s0: nat, a: nat, y: Pos) {
    && (y in r.leaf <==> y in s.leaf && !Eager.Hit(y, m, s0, a))
    && (y in r.leaf ==> r.leaf[y] == s.leaf[y])
  }

  /** r has the leaves of s that no page of [s0, a) walks to, and their memory. */
  ghost predicate LeafLess(s: Tables, r: Tables, m: nat, s0: nat, a: nat) {
    && (forall y {:trigger LessAt(s, r, m, s0, a, y)} :: LessAt(s, r, m, s0, a, y))
    && Mem(r) == Eager.Sweep(Mem(s), m, s0, a) && Pool(r) == Pool(s)
  }

  lemma NextPage(y: Pos, m: nat, s: nat, a: nat)
    requires y.Slot? && y.InRange() && a % PAGE == 0 && s <= a < LIMIT
    ensures Eager.InRangeOf(y, m, s, a + PAGE) <==> Eager.InRangeOf(y, m, s, a) || y == SlotOf(m, a)
  {
    SlotOfVa(y);
    VaOfSlot(m, a);
    PageStep(Va(y), s, a);
    assert y.mm == m && Va(y) == a ==> y == SlotOf(m, a);
  }

  lemma PageStep(v: nat, s: nat, a: nat)
    requires v % PAGE == 0 && a % PAGE == 0 && s <= a
    ensures s <= v < a + PAGE <==> s <= v < a || v == a
  {
  }

  lemma NextAligned(a: nat, e: nat)
    requires a % PAGE == 0 && e % PAGE == 0 && a < e
    ensures a + PAGE <= e && (a + PAGE) % PAGE == 0
  {
  }

  lemma DropNone(s: Tables, m: nat, a: nat, b: nat)
    requires b <= a
    ensures LeafLess(s, s, m, a, b)
  {
  }

  lemma HitNext(y: Pos, m: nat, s: nat, a: nat)
    requires a % PAGE == 0 && s <= a
    ensures Eager.Hit(y, m, s, a + PAGE) <==> Eager.Hit(y, m, s, a) || y == SlotOf(m, a)
  {
    if Eager.Hit(y, m, s, a + PAGE) {
      var x: nat :| s <= x < a + PAGE && x % PAGE == 0 && SlotOf(m, x) == y;
      PageStep(x, s, a);
    }
    if Eager.Hit(y, m, s, a) {
      var x: nat :| s <= x < a && x % PAGE == 0 && SlotOf(m, x) == y;
    }
  }

  lemma DropNext(s: Tables, r: Tables, r': Tables, m: nat, s0: nat, a: nat)
    requires LeafLess(s, r, m, s0, a) && a % PAGE == 0 && s0 <= a
    requires r'.leaf == r.leaf - {SlotOf(m, a)} && Mem(r') == Mem(r) - {SlotOf(m, a)} && Pool(r') == Pool(r)
    ensures LeafLess(s, r', m, s0, a + PAGE)
  {
    var b := a + PAGE;
    forall y ensures LessAt(s, r', m, s0, b, y) {
      assert LessAt(s, r, m, s0, a, y);
      LessNext(s, r, r', m, s0, a, y);
    }
    DropMore(Mem(s), m, s0, a);
  }

  lemma LessNext(s: Tables, r: Tables, r': Tables, m: nat, s0: nat, a: nat, y: Pos)
    requires LessAt(s, r, m, s0, a, y) && a % PAGE == 0 && s0 <= a && r'.leaf == r.leaf - {SlotOf(m, a)}
    ensures LessAt(s, r', m, s0, a + PAGE, y)
  {
    HitNext(y, m, s0, a);
  }

  lemma DropMore(mem: map<Pos, Page>, m: nat, s0: nat, a: nat)
    requires a % PAGE == 0 && s0 <= a
    ensures Eager.Sweep(mem, m, s0, a + PAGE) == Eager.Sweep(mem, m, s0, a) - {SlotOf(m, a)}
  {
    forall y | y in mem
      ensures Eager.Hit(y, m, s0, a + PAGE) <==> Eager.Hit(y, m, s0, a) || y == SlotOf(m, a)
    {
      HitNext(y, m, s0, a);
    }
  }

  /** Once the pages of an erased range are gone every leaf has a VMA again. */
  lemma UnmapDone(g: Sys, g': Sys, m: nat, s: nat, e: nat)
    requires Good(g) && m in g.pgd && TablesGood(g'.t) && Rooted(g') && LeafLess(g.t, g'.t, m, s, e)
    requires m in g.areas && g'.areas == g.areas[m := VmaList.Erase(g.areas[m], s, e)]
    requires !VmaList.Torn(g.areas[m], s, e)
    ensures Good(g') && Abs(g') == Vacated(Abs(g), m, s, e)
  {
    assert SpaceOk(g, m);
    VmaList.TornUnsorted(g.areas[m], s, e);
    forall y | y in g'.t.leaf ensures FlagOk(g'.areas, y, g'.t.leaf[y]) {
      assert LessAt(g.t, g'.t, m, s, e, y);
      assert FlagOk(g.areas, y, g.t.leaf[y]);
      if s <= e {
        StaysMapped(g, y, m, s, e);
      }
    }
  }

  lemma StaysMapped(g: Sys, y: Pos, m: nat, s: nat, e: nat)
    requires Ok(g.t) && m in g.areas && y in g.t.leaf && !Eager.Hit(y, m, s, e) && s <= e
    ensures y.Slot?
    ensures y.mm == m ==> VmaList.At(VmaList.Erase(g.areas[m], s, e), Va(y)) == VmaList.At(g.areas[m], Va(y))
  {
    assert LeafWf(g.t, y);
    SlotOfVa(y);
    VmaList.EraseAt(g.areas[m], s, e, Va(y));
    if y.mm == m && s <= Va(y) < e {
      assert SlotOf(m, Va(y)) == y;
    }
  }

  lemma MemSlots(g: Sys)
    requires Ok(g.t)
    ensures Eager.SlotsOnly(Mem(g.t))
  {
    MemKeys(g.t);
    forall y | y in Mem(g.t) ensures y.Slot? && y.InRange() { assert LeafWf(g.t, y); }
  }

  /** What munmap of a range should leave: the range is gone from the VMAs and from memory. */
  ghost function Meant(s: Eager.State, m: nat, lo: nat, hi: nat): Eager.State
    requires m in s.areas
  {
    Eager.State(s.areas[m := VmaList.Erase(s.areas[m], lo, hi)], Eager.Drop(s.mem, m, lo, hi))
  }

  lemma VacatedAsMeant(g: Sys, m: nat, s: nat, e: nat)
    requires Ok(g.t) && m in g.areas
    ensures Vacated(Abs(g), m, s, e) == Meant(Abs(g), m, s, e) <==> Eager.NoAlias(Abs(g).mem, m, s, e)
  {
    MemSlots(g);
    Eager.SweepIsDrop(Mem(g.t), m, s, e);
  }

  /** Duplicating and putting the copy again gives the memory back. */
  lemma ForkUndone(g: Sys, g1: Sys, g2: Sys, m: nat, c: nat)
    requires Good(g) && m in g.pgd && c !in g.pgd
    requires Eager.Next(Abs(g), Eager.Fork(m, c), Eager.Done, Abs(g1))
    requires Eager.Next(Abs(g1), Eager.Exit(c), Eager.Done, Abs(g2))
    ensures Abs(g2) == Abs(g)
  {
    forall y | y in Mem(g.t) ensures y.mm != c {
      assert LeafWf(g.t, y);
    }
    ForkThenExit(Abs(g), Abs(g1), Abs(g2), m, c);
  }

  lemma ForkThenExit(s: Eager.State, s1: Eager.State, s2: Eager.State, m: nat, c: nat)
    requires m in s.areas && c !in s.areas && (forall y | y in s.mem :: y.mm != c)
    requires s1 == Eager.State(s.areas[c := s.areas[m]], Eager.Copy(s.mem, m, c))
    requires s2 == Eager.State(s1.areas - {c}, map y | y in s1.mem && y.mm != c :: s1.mem[y])
    ensures s2 == s
  {
    assert s2.areas == s.areas;
    CopyBack(s.mem, m, c);
  }

  // ------------------------------------------------------------------
  // VMA lists change

  ghost function Erased(areas: map<nat, Eager.Areas>, m: nat, s: nat, e: nat): map<nat, Eager.Areas>
    requires m in areas
  {
    areas[m := VmaList.Erase(areas[m], s, e)]
  }

  lemma AreasRooted(g: Sys, m: nat, a: Eager.Areas)
    requires Rooted(g) && m in g.pgd && VmaList.Sorted(a) && VmaList.Aligned(a, LIMIT)
    ensures Rooted(g.(areas := g.areas[m := a]))
  {
    var g' := g.(areas := g.areas[m := a]);
    assert SpaceOk(g, m);
    forall k | k in g'.pgd ensures SpaceOk(g', k) { assert SpaceOk(g, k); }
  }

  lemma VmaAdded(g: Sys, m: nat, v: VmaList.Vma)
    requires Good(g) && m in g.pgd && m in g.areas && v.start < v.end <= LIMIT && v.start % PAGE == 0
    requires v.end % PAGE == 0
    requires VmaList.Sorted(g.areas[m]) && VmaList.Clear(g.areas[m], v.start, v.end)
    ensures Good(g.(areas := g.areas[m := VmaList.Insert(g.areas[m], v)]))
  {
    var b := VmaList.Insert(g.areas[m], v);
    var g' := g.(areas := g.areas[m := b]);
    assert SpaceOk(g, m);
    VmaList.InsertGood(g.areas[m], v);
    AreasRooted(g, m, b);
    forall y | y in g'.t.leaf ensures FlagOk(g'.areas, y, g'.t.leaf[y]) {
      assert FlagOk(g.areas, y, g.t.leaf[y]);
      ClearNone(g.areas[m], v, Va(y));
    }
  }

  lemma ClearNone(a: Eager.Areas, v: VmaList.Vma, x: nat)
    requires VmaList.Clear(a, v.start, v.end)
    ensures v.start <= x < v.end ==> VmaList.At(a, x).None?
  {
    VmaList.AtNone(a, x);
    forall i | 0 <= i < |a| && v.start <= x < v.end ensures !(a[i].start <= x < a[i].end) {
      assert !VmaList.Overlaps(a[i], v.start, v.end);
    }
  }

  /** Room made for v: with MAP_FIXED its range was unmapped. */
  ghost function Roomy(s: Eager.State, m: nat, v: VmaList.Vma, fixed: bool): (r: Eager.State)
    requires m in s.areas
    ensures m in r.areas
  {
    if fixed then Vacated(s, m, v.start, v.end) else s
  }

  lemma MapNext(s: Eager.State, m: nat, va: nat, size: nat, prot: VmaList.Prot, fixed: bool)
    requires Eager.SlotsOnly(s.mem) && Eager.Applicable(s.areas, Eager.Map(m, va, size, prot, fixed))
    ensures Eager.Next(s, Eager.Map(m, va, size, prot, fixed), Eager.NoMemory, s)
    ensures var v := VmaList.Vma(va, va + size, VmaList.Flags(prot, false)); var s1 := Roomy(s, m, v, fixed);
            && Eager.Next(s, Eager.Map(m, va, size, prot, fixed), Eager.NoMemory, s1)
            && Eager.Next(s, Eager.Map(m, va, size, prot, fixed), Eager.Done,
                          s1.(areas := s1.areas[m := VmaList.Insert(s1.areas[m], v)]))
  {
    assert s.areas[m := s.areas[m]] == s.areas;
    Eager.SweepLow(s.mem, m, va, va + size);
  }

  // ------------------------------------------------------------------
  // mprotect

  /** Slot y, if present, has the bits of p (write permission only when nobody shares the page). */
  ghost predicate Relit(s: Tables, r: Tables, y: Pos, p: VmaList.Prot) {
    && r.at == s.at && r.leaf.Keys == s.leaf.Keys && Mem(r) == Mem(s) && Pool(r) == Pool(s)
    && (forall z | z in s.leaf && z != y :: r.leaf[z] == s.leaf[z])
    && (y in s.leaf ==> Permits(Some(VmaList.Flags(p, false)), r.leaf[y]))
  }

  lemma RelitStep(g: Sys, y: Pos, p: VmaList.Prot, e: Entry)
    requires TablesGood(g.t) && Rooted(g) && y in g.t.leaf && LeafWf(g.t, y) && y.mm in g.pgd
    requires g.t.leaf[y].pfn in g.t.frame && Counted(g.t, g.t.leaf[y].pfn)
    requires var q := g.t.leaf[y].pfn;
             e == if p.w && g.t.count[q] > 1 then WrProtect(EntryFor(q, p)) else EntryFor(q, p)
    ensures WfAt(g.t, y.Parent())
    ensures var r := Relabelled(g.t, y.Parent(), y.k, e);
            Ok(r) && TablesGood(r) && Rooted(g.(t := r)) && Relit(g.t, r, y, p)
  {
    RelabelledOk(g.t, y.Parent(), y.k, e);
    var r := Relabelled(g.t, y.Parent(), y.k, e);
    forall z | z in g.t.leaf && z != y && g.t.leaf[z].Present? && g.t.leaf[z].pfn == e.pfn
      ensures g.t.leaf[z].ro && e.ro
    {
      SoleRef(g.t.leaf, y);
      assert z in Refs(g.t.leaf, e.pfn);
    }
    MemAt(g.t, y);
    assert PageOk(g.t, e.pfn);
    OneSlotTables(g.t, r, y, e);
    OneSlotMem(g.t, r, y, e);
    SameRooted(g, r);
  }

  ghost predicate MixedAt(g: Sys, g': Sys, m: nat, a: nat, e: nat, y: Pos) {
    y in g'.t.leaf ==> FlagOk(if Eager.InRangeOf(y, m, a, e) then g.areas else g'.areas, y, g'.t.leaf[y])
  }

  /** Pages of [a, e) still have the bits of the old VMAs, all others those of the new ones. */
  ghost predicate MixedFlags(g: Sys, g': Sys, m: nat, a: nat, e: nat) {
    forall y {:trigger MixedAt(g, g', m, a, e, y)} :: MixedAt(g, g', m, a, e, y)
  }

  lemma ProtectBegins(g: Sys, m: nat, s: nat, e: nat, p: VmaList.Prot)
    requires Good(g) && m in g.pgd && m in g.areas && s < e && s % PAGE == 0 && e % PAGE == 0
    requires VmaList.Mapped(g.areas[m], s, e)
    ensures var g' := g.(areas := g.areas[m := VmaList.Protect(g.areas[m], s, e, p)]);
            e <= LIMIT && Rooted(g') && MixedFlags(g, g', m, s, e)
  {
    var b := VmaList.Protect(g.areas[m], s, e, p);
    var g' := g.(areas := g.areas[m := b]);
    assert SpaceOk(g, m);
    VmaList.ProtectSorted(g.areas[m], s, e, p);
    VmaList.ProtectAligned(g.areas[m], s, e, p, LIMIT);
    AreasRooted(g, m, b);
    VmaList.AtPage(g.areas[m], LIMIT, e - 1);
    forall y ensures MixedAt(g, g', m, s, e, y) {
      if y in g'.t.leaf {
        assert FlagOk(g.areas, y, g.t.leaf[y]);
        VmaList.ProtectAt(g.areas[m], s, e, p, Va(y));
      }
    }
  }

  lemma ProtectNext(g: Sys, g1: Sys, g2: Sys, m: nat, s: nat, e: nat, p: VmaList.Prot, a: nat)
    requires Good(g) && m in g.areas && s <= a < e <= LIMIT && a % PAGE == 0 && e % PAGE == 0
    requires VmaList.Mapped(g.areas[m], s, e)
    requires g1.areas == g2.areas == g.areas[m := VmaList.Protect(g.areas[m], s, e, p)]
    requires Ok(g1.t) && MixedFlags(g, g1, m, a, e) && Relit(g1.t, g2.t, SlotOf(m, a), p)
    ensures MixedFlags(g, g2, m, a + PAGE, e)
  {
    var b := a + PAGE;
    forall y ensures MixedAt(g, g2, m, b, e, y) {
      if y in g2.t.leaf {
        assert LeafWf(g1.t, y) && MixedAt(g, g1, m, a, e, y);
        if y == SlotOf(m, a) {
          NewFlags(g.areas, g2.areas, m, s, e, p, a, g2.t.leaf[y]);
        } else {
          StillMixed(y, m, a, e);
        }
      }
    }
  }

  lemma StillMixed(y: Pos, m: nat, a: nat, e: nat)
    requires y.Slot? && y.InRange() && a % PAGE == 0 && a < e <= LIMIT && e % PAGE == 0 && y != SlotOf(m, a)
    ensures Eager.InRangeOf(y, m, a + PAGE, e) <==> Eager.InRangeOf(y, m, a, e)
  {
    NextPage(y, m, a, a);
  }

  /** The page just relabelled agrees with the new VMAs. */
  lemma NewFlags(was: map<nat, Eager.Areas>, now: map<nat, Eager.Areas>, m: nat, s: nat, e: nat, p: VmaList.Prot,
                 a: nat, ent: Entry)
    requires m in was && s <= a < e <= LIMIT && a % PAGE == 0 && VmaList.Mapped(was[m], s, e)
    requires now == was[m := VmaList.Protect(was[m], s, e, p)] && Permits(Some(VmaList.Flags(p, false)), ent)
    ensures var y := SlotOf(m, a); !Eager.InRangeOf(y, m, a + PAGE, e) && FlagOk(now, y, ent)
  {
    VaOfSlot(m, a);
    VmaList.ProtectAt(was[m], s, e, p, a);
  }

  lemma MixedDone(g: Sys, g': Sys, m: nat, e: nat)
    requires TablesGood(g'.t) && Rooted(g') && MixedFlags(g, g', m, e, e)
    ensures Good(g')
  {
    forall y | y in g'.t.leaf ensures FlagOk(g'.areas, y, g'.t.leaf[y]) { assert MixedAt(g, g', m, e, e, y); }
  }

  lemma ProtectFailed(g: Sys, m: nat, s: nat, b: Eager.Areas)
    requires Good(g) && m in g.pgd && m in g.areas && s % PAGE == 0
    requires VmaList.Sorted(b) && VmaList.SameMap(g.areas[m], b)
    requires b == g.areas[m] || b == VmaList.Split(g.areas[m], s)
    ensures Good(g.(areas := g.areas[m := b]))
  {
    var g' := g.(areas := g.areas[m := b]);
    assert SpaceOk(g, m);
    VmaList.SplitAligned(g.areas[m], s, LIMIT);
    AreasRooted(g, m, b);
    forall y | y in g'.t.leaf ensures FlagOk(g'.areas, y, g'.t.leaf[y]) { assert FlagOk(g.areas, y, g.t.leaf[y]); }
  }

  lemma CopyBack(mem: map<Pos, Page>, m: nat, c: nat)
    requires forall y | y in mem :: y.mm != c
    ensures (map y | y in Eager.Copy(mem, m, c) && y.mm != c :: Eager.Copy(mem, m, c)[y]) == mem
  {
    var a := Eager.Copy(mem, m, c);
    forall y ensures y in a && y.mm != c <==> y in mem { }
  }
}
