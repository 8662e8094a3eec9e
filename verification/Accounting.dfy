/**
 * The single steps page-table code is made of, as state functions, and the
 * proof that each of them keeps Shape and Accounts.
 */
module Accounting {
  import opened PageTable

  ghost predicate Ok(s: Tables) {
    Shape(s) && Accounts(s)
  }

  // An empty table for position z in the free page t.
  ghost function AddTable(s: Tables, z: Pos, t: nat): Tables {
    s.(frame := s.frame[t := Table(seq(ENTRIES, _ => Absent))], count := s.count[t := 1],
       free := s.free - {t}, at := s.at[z := t], pos := s.pos[t := z])
  }

  lemma AddTableOk(s: Tables, z: Pos, t: nat)
    requires Ok(s) && t in s.free && z !in s.at && !z.Slot? && z.InRange()
    ensures Ok(AddTable(s, z, t))
  {
    var r := AddTable(s, z, t);
    forall x | x in r.at ensures WfAt(r, x) {
      if x != z { assert WfAt(s, x); }
    }
    forall p | p in r.frame ensures Counted(r, p) {
      if p != t { assert Counted(s, p); }
    }
    forall y | y in r.leaf ensures LeafWf(r, y) { assert LeafWf(s, y); }
    forall p | p in r.held ensures IsData(r, p) { assert IsData(s, p); }
  }

  // The table at z goes back to the allocator.
  ghost function DropTable(s: Tables, z: Pos, t: nat): Tables {
    s.(frame := s.frame - {t}, count := s.count[t := 0], free := s.free + {t}, at := s.at - {z}, pos := s.pos - {t})
  }

  lemma DropTableOk(s: Tables, z: Pos)
    requires Ok(s) && z in s.at
    requires forall y | y in s.leaf && y.Slot? :: y.Parent() != z
    ensures Ok(DropTable(s, z, s.at[z]))
  {
    var t := s.at[z];
    var r := DropTable(s, z, t);
    assert WfAt(s, z);
    forall x | x in r.at ensures WfAt(r, x) { assert WfAt(s, x); }
    forall p | p in r.frame ensures Counted(r, p) { assert Counted(s, p); }
    forall y | y in r.leaf ensures LeafWf(r, y) { assert LeafWf(s, y); }
    forall p | p in r.held ensures IsData(r, p) { assert IsData(s, p); }
  }

  // A data page: allocated, with the one reference in hand.
  ghost function AddPage(s: Tables, p: nat, bytes: Page): Tables {
    s.(frame := s.frame[p := Data(bytes)], count := s.count[p := 1], free := s.free - {p}, held := s.held + {p})
  }

  lemma AddPageOk(s: Tables, p: nat, bytes: Page)
    requires Ok(s) && p in s.free
    ensures Ok(AddPage(s, p, bytes))
  {
    var r := AddPage(s, p, bytes);
    forall y | y in s.leaf ensures s.leaf[y].Present? && s.leaf[y].pfn != p { assert LeafWf(s, y); }
    assert Refs(s.leaf, p) == {};
    forall x | x in r.at ensures WfAt(r, x) { assert WfAt(s, x); }
    forall q | q in r.frame ensures Counted(r, q) {
      if q != p { assert Counted(s, q); }
    }
    forall y | y in r.leaf ensures LeafWf(r, y) { assert LeafWf(s, y); }
    forall q | q in r.held ensures IsData(r, q) {
      if q != p { assert IsData(s, q); }
    }
  }

  // get_page
  ghost function Get(s: Tables, p: nat): Tables
    requires p in s.count
  {
    s.(count := s.count[p := s.count[p] + 1], held := s.held + {p})
  }

  lemma GetOk(s: Tables, p: nat)
    requires Ok(s) && IsData(s, p) && p !in s.held
    ensures p in s.count && Ok(Get(s, p))
  {
    assert Counted(s, p);
    var r := Get(s, p);
    forall x | x in r.at ensures WfAt(r, x) { assert WfAt(s, x); }
    forall q | q in r.frame ensures Counted(r, q) { assert Counted(s, q); }
    forall y | y in r.leaf ensures LeafWf(r, y) { assert LeafWf(s, y); }
    forall q | q in r.held ensures IsData(r, q) {
      if q != p { assert IsData(s, q); }
    }
  }

  // put_page: the last reference returns the page.
  ghost function Put(s: Tables, p: nat): Tables
    requires p in s.count && s.count[p] >= 1
  {
    var r := s.(count := s.count[p := s.count[p] - 1], held := s.held - {p});
    if r.count[p] == 0 then r.(frame := r.frame - {p}, free := r.free + {p}) else r
  }

  lemma PutOk(s: Tables, p: nat)
    requires Ok(s) && p in s.held
    ensures IsData(s, p) && Counted(s, p) && Ok(Put(s, p))
    ensures p !in Put(s, p).frame <==> Refs(s.leaf, p) == {}
  {
    assert IsData(s, p) && Counted(s, p);
    var r := Put(s, p);
    forall x | x in r.at ensures WfAt(r, x) { assert WfAt(s, x); }
    forall q | q in r.frame ensures Counted(r, q) { assert Counted(s, q); }
    forall y | y in r.leaf ensures LeafWf(r, y) {
      assert LeafWf(s, y);
      RefsPositive(s.leaf, y);
    }
    forall q | q in r.held ensures IsData(r, q) { assert IsData(s, q); }
  }

  // A leaf slot stops naming its page; the reference is then in hand.
  ghost function Unhook(s: Tables, y: Pos): Tables
    requires y in s.leaf && s.leaf[y].Present?
  {
    s.(leaf := s.leaf - {y}, held := s.held + {s.leaf[y].pfn})
  }

  lemma UnhookOk(s: Tables, y: Pos)
    requires Ok(s) && y in s.leaf
    ensures LeafWf(s, y)
    ensures s.leaf[y].pfn !in s.held ==> Ok(Unhook(s, y))
  {
    assert LeafWf(s, y);
    if s.leaf[y].pfn !in s.held {
      var r := Unhook(s, y);
      forall x | x in r.at ensures WfAt(r, x) { assert WfAt(s, x); }
      forall q | q in r.frame ensures Counted(r, q) {
        assert Counted(s, q);
        RefsDrop(s.leaf, y, q);
      }
      forall z | z in r.leaf ensures LeafWf(r, z) { assert LeafWf(s, z); }
      forall q | q in r.held ensures IsData(r, q) {
        if q in s.held { assert IsData(s, q); }
      }
    }
  }

  // An empty leaf slot takes over the reference in hand.
  ghost function Hook(s: Tables, y: Pos, e: Entry): Tables
    requires e.Present?
  {
    s.(leaf := s.leaf[y := e], held := s.held - {e.pfn})
  }

  lemma HookOk(s: Tables, y: Pos, e: Entry)
    requires Ok(s) && e.Present? && e.pfn in s.held
    requires y !in s.leaf && y.Slot? && y.InRange() && y.Parent() in s.at
    ensures Ok(Hook(s, y, e))
  {
    var r := Hook(s, y, e);
    forall x | x in r.at ensures WfAt(r, x) { assert WfAt(s, x); }
    forall q | q in r.frame ensures Counted(r, q) {
      assert Counted(s, q);
      RefsSet(s.leaf, y, e, q);
    }
    assert IsData(s, e.pfn);
    forall z | z in r.leaf ensures LeafWf(r, z) {
      if z != y { assert LeafWf(s, z); }
    }
    forall q | q in r.held ensures IsData(r, q) { assert IsData(s, q); }
  }

  // A leaf slot keeps its page and changes permission bits.
  ghost function Reprotect(s: Tables, y: Pos, e: Entry): Tables {
    s.(leaf := s.leaf[y := e])
  }

  lemma ReprotectOk(s: Tables, y: Pos, e: Entry)
    requires Ok(s) && y in s.leaf && e.Present?
    requires s.leaf[y].Present? ==> e.pfn == s.leaf[y].pfn
    ensures Ok(Reprotect(s, y, e))
  {
    var r := Reprotect(s, y, e);
    assert LeafWf(s, y);
    forall x | x in r.at ensures WfAt(r, x) { assert WfAt(s, x); }
    forall q | q in r.frame ensures Counted(r, q) {
      assert Counted(s, q);
      RefsSet(s.leaf, y, e, q);
    }
    forall z | z in r.leaf ensures LeafWf(r, z) {
      if z != y { assert LeafWf(s, z); }
    }
    forall q | q in r.held ensures IsData(r, q) { assert IsData(s, q); }
  }

  // pte_set: one entry of the table in frame t is overwritten.
  ghost function SetEntry(s: Tables, t: nat, n: nat, e: Entry): Tables
    requires IsTable(s, t) && n < ENTRIES
  {
    s.(frame := s.frame[t := Table(s.frame[t].e[n := e])])
  }

  lemma SetEntryOk(s: Tables, t: nat, n: nat, e: Entry)
    requires Ok(s) && IsTable(s, t) && n < ENTRIES
    ensures Ok(SetEntry(s, t, n, e))
  {
    var r := SetEntry(s, t, n, e);
    forall x | x in r.at ensures WfAt(r, x) { assert WfAt(s, x); }
    forall q | q in r.frame ensures Counted(r, q) { assert Counted(s, q); }
    forall z | z in r.leaf ensures LeafWf(r, z) { assert LeafWf(s, z); }
    forall q | q in r.held ensures IsData(r, q) { assert IsData(s, q); }
  }
}
