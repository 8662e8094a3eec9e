/**
 * All address spaces together: the invariant that fork, faults, mprotect,
 * mmap, munmap and mm_put keep, and what a change of one leaf slot does to it.
 */
module Spaces {
  import opened Basics
  import opened PageTable
  import opened Accounting
  import opened FlatView
  import VmaList
  import Eager

  /** pgd: address space to its top table; areas: to its VMA list. */
  datatype Sys = Sys(t: Tables, pgd: map<nat, nat>, areas: map<nat, Eager.Areas>)

  /** prot_to_pte */
  function EntryFor(pfn: nat, p: VmaList.Prot): Entry {
    Present(pfn, !p.w, p.r || p.w || p.x, !p.x)
  }

  /** The bits of a leaf agree with its VMA; a writable VMA may still have a read-only (shared) leaf. */
  predicate Permits(f: Option<VmaList.Flags>, e: Entry) {
    && f.Some? && e.Present?
    && e.user == EntryFor(e.pfn, f.value.prot).user
    && e.uxn == EntryFor(e.pfn, f.value.prot).uxn
    && (!f.value.prot.w ==> e.ro)
  }

  ghost predicate SpaceOk(g: Sys, m: nat) {
    && m in g.pgd && Root(m) in g.t.at && g.t.at[Root(m)] == g.pgd[m]
    && m in g.areas && VmaList.Sorted(g.areas[m]) && VmaList.Aligned(g.areas[m], LIMIT)
  }

  ghost predicate FlagOk(areas: map<nat, Eager.Areas>, y: Pos, e: Entry) {
    y.Slot? && y.mm in areas && Permits(VmaList.At(areas[y.mm], Va(y)), e)
  }

  ghost predicate PageOk(t: Tables, p: nat) {
    IsData(t, p) ==> |t.frame[p].bytes| == PAGE
  }

  ghost predicate Flagged(g: Sys) {
    forall y {:trigger FlagOk(g.areas, y, g.t.leaf[y])} | y in g.t.leaf :: FlagOk(g.areas, y, g.t.leaf[y])
  }

  ghost predicate Rooted(g: Sys) {
    && g.areas.Keys == g.pgd.Keys
    && (forall m {:trigger SpaceOk(g, m)} | m in g.pgd :: SpaceOk(g, m))
    && (forall x | x in g.t.at :: x.mm in g.pgd)
  }

  ghost predicate PagesOk(t: Tables) {
    forall p {:trigger PageOk(t, p)} :: PageOk(t, p)
  }

  /** The tables part of the invariant. */
  ghost predicate TablesGood(t: Tables) {
    Ok(t) && t.held == {} && WellLinked(t) && Exclusive(t.leaf) && PagesOk(t)
  }

  ghost predicate Good(g: Sys) {
    TablesGood(g.t) && Rooted(g) && Flagged(g)
  }

  /** The memory the tables describe. */
  ghost function Mem(t: Tables): map<Pos, Page> {
    map y | y in t.leaf && t.leaf[y].Present? && IsData(t, t.leaf[y].pfn) :: t.frame[t.leaf[y].pfn].bytes
  }

  ghost function Abs(g: Sys): Eager.State {
    Eager.State(g.areas, Mem(g.t))
  }

  lemma MemKeys(t: Tables)
    requires Ok(t)
    ensures Mem(t).Keys == t.leaf.Keys
  {
    forall y | y in t.leaf ensures y in Mem(t) { assert LeafWf(t, y); }
  }

  lemma MemAt(t: Tables, y: Pos)
    requires Ok(t) && y in t.leaf
    ensures LeafWf(t, y) && y in Mem(t) && Mem(t)[y] == t.frame[t.leaf[y].pfn].bytes
  {
    assert LeafWf(t, y);
  }

  // ------------------------------------------------------------------
  // put_page

  /** put_page touches no table and no leaf, and at most takes the page away. */
  lemma PutLinked(s: Tables, p: nat)
    requires Ok(s) && WellLinked(s) && p in s.held
    ensures IsData(s, p) && p in s.count && s.count[p] >= 1
    ensures var r := Put(s, p);
            && Ok(r) && WellLinked(r) && r.at == s.at && r.leaf == s.leaf && r.held == s.held - {p}
            && Pool(r) == Pool(s)
            && (forall q | q in r.frame :: q in s.frame && r.frame[q] == s.frame[q])
  {
    PutOk(s, p);
    var r := Put(s, p);
    forall y | y in r.at ensures Node(r, y) && (!y.Root? ==> y.Parent() in r.at) {
      assert WfAt(s, y) && WfAt(r, y) && Node(s, y);
      forall n | 0 <= n < ENTRIES ensures EntryOk(r, y, n) { assert EntryOk(s, y, n); }
    }
    assert Pool(r) == Pool(s);
  }

  // ------------------------------------------------------------------
  // A slot is emptied: pte_set(0); put_page follows

  ghost function Cleared(s: Tables, z: Pos, n: nat): Tables
    requires WfAt(s, z) && n < ENTRIES && z.Low? && z.Child(n) in s.leaf && s.leaf[z.Child(n)].Present?
  {
    Unhook(SetEntry(s, s.at[z], n, Absent), z.Child(n))
  }

  lemma ClearedOk(s: Tables, z: Pos, n: nat)
    requires Ok(s) && s.held == {} && WellLinked(s) && z in s.at && z.Low? && n < ENTRIES && z.Child(n) in s.leaf
    ensures WfAt(s, z) && LeafWf(s, z.Child(n))
    ensures Ok(Cleared(s, z, n)) && WellLinked(Cleared(s, z, n))
  {
    var y := z.Child(n);
    assert WfAt(s, z) && LeafWf(s, y);
    var a := SetEntry(s, s.at[z], n, Absent);
    SetEntryOk(s, s.at[z], n, Absent);
    UnhookOk(a, y);
    var r := Unhook(a, y);
    forall x ensures TableKept(s, r, z, n, Absent, x) {
      assert x in s.at ==> WfAt(s, x);
    }
    SlotSetLinked(s, r, z, n, Absent);
  }

  // ------------------------------------------------------------------
  // An empty slot takes a page in hand: pte_set

  ghost function Filled(s: Tables, z: Pos, n: nat, e: Entry): Tables
    requires WfAt(s, z) && n < ENTRIES && z.Low? && e.Present?
  {
    Hook(SetEntry(s, s.at[z], n, e), z.Child(n), e)
  }

  lemma FilledOk(s: Tables, z: Pos, n: nat, e: Entry)
    requires Ok(s) && WellLinked(s) && z in s.at && z.Low? && n < ENTRIES && z.Child(n) !in s.leaf
    requires e.Present? && e.pfn in s.held
    ensures WfAt(s, z) && Ok(Filled(s, z, n, e)) && WellLinked(Filled(s, z, n, e))
  {
    assert WfAt(s, z);
    SetEntryOk(s, s.at[z], n, e);
    var a := SetEntry(s, s.at[z], n, e);
    HookOk(a, z.Child(n), e);
    var r := Hook(a, z.Child(n), e);
    forall x ensures TableKept(s, r, z, n, e, x) {
      assert x in s.at ==> WfAt(s, x);
    }
    SlotSetLinked(s, r, z, n, e);
  }

  /** Filling a slot that names a page already: that page keeps a count that no leaf accounts for. */
  lemma FilledOver(s: Tables, z: Pos, n: nat, e: Entry)
    requires Ok(s) && WellLinked(s) && z in s.at && z.Low? && n < ENTRIES && z.Child(n) in s.leaf
    requires e.Present? && s.held == {e.pfn}
    ensures WfAt(s, z) && !Ok(Filled(s, z, n, e))
  {
    assert WfAt(s, z) && LeafWf(s, z.Child(n));
    var q, r := s.leaf[z.Child(n)].pfn, Filled(s, z, n, e);
    assert IsData(s, q) && Counted(s, q);
    RefsSet(s.leaf, z.Child(n), e, q);
    assert r.leaf == s.leaf[z.Child(n) := e] && r.held == {} && r.count == s.count && q in r.frame;
    assert !Counted(r, q);
  }

  // ------------------------------------------------------------------
  // A slot keeps its page and changes permissions

  ghost function Relabelled(s: Tables, z: Pos, n: nat, e: Entry): Tables
    requires WfAt(s, z) && n < ENTRIES && z.Low?
  {
    Reprotect(SetEntry(s, s.at[z], n, e), z.Child(n), e)
  }

  lemma RelabelledOk(s: Tables, z: Pos, n: nat, e: Entry)
    requires Ok(s) && WellLinked(s) && z in s.at && z.Low? && n < ENTRIES && z.Child(n) in s.leaf
    requires e.Present? && s.leaf[z.Child(n)].Present? && e.pfn == s.leaf[z.Child(n)].pfn
    ensures WfAt(s, z) && Ok(Relabelled(s, z, n, e)) && WellLinked(Relabelled(s, z, n, e))
  {
    assert WfAt(s, z);
    SetEntryOk(s, s.at[z], n, e);
    var a := SetEntry(s, s.at[z], n, e);
    ReprotectOk(a, z.Child(n), e);
    var r := Reprotect(a, z.Child(n), e);
    forall x ensures TableKept(s, r, z, n, e, x) {
      assert x in s.at ==> WfAt(s, x);
    }
    SlotSetLinked(s, r, z, n, e);
  }

  // ------------------------------------------------------------------
  // A slot is moved from a shared page to a private copy in hand: pte_set, put_page

  ghost function Switched(s: Tables, z: Pos, n: nat, e: Entry): Tables
    requires WfAt(s, z) && n < ENTRIES && z.Low? && e.Present? && z.Child(n) in s.leaf && s.leaf[z.Child(n)].Present?
  {
    Hook(Unhook(SetEntry(s, s.at[z], n, e), z.Child(n)), z.Child(n), e)
  }

  lemma SwitchedOk(s: Tables, z: Pos, n: nat, e: Entry)
    requires Ok(s) && WellLinked(s) && z in s.at && z.Low? && n < ENTRIES && z.Child(n) in s.leaf
    requires s.leaf[z.Child(n)].Present?
    requires e.Present? && s.held == {e.pfn} && e.pfn != s.leaf[z.Child(n)].pfn
    ensures WfAt(s, z)
    ensures var r := Switched(s, z, n, e);
            && Ok(r) && WellLinked(r) && r.at == s.at
            && r.leaf == s.leaf[z.Child(n) := e] && r.held == {s.leaf[z.Child(n)].pfn}
  {
    var y := z.Child(n);
    assert WfAt(s, z) && LeafWf(s, y);
    SetEntryOk(s, s.at[z], n, e);
    var a := SetEntry(s, s.at[z], n, e);
    UnhookOk(a, y);
    var b := Unhook(a, y);
    HookOk(b, y, e);
    var r := Hook(b, y, e);
    assert r.held == {s.leaf[y].pfn};
    assert r.leaf == s.leaf[y := e];
    forall x ensures TableKept(s, r, z, n, e, x) {
      assert x in s.at ==> WfAt(s, x);
    }
    SlotSetLinked(s, r, z, n, e);
  }
}
