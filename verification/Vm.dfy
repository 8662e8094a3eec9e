/**
 * The page-table half of mm/mmap.c and dup_mm of kernel/fork.c.
 *
 * One Vm holds every address space.  Its public operations keep Good, the
 * accounting and exclusiveness invariant, and each of them is a step of the
 * eager reference machine on the memory the tables describe.
 */
module VirtualMemory {
  import opened Basics
  import opened PageTable
  import opened Accounting
  import opened TreeWalk
  import opened ForkWalk
  import opened FlatView
  import opened Spaces
  import opened Slots
  import opened ForkExit
  import opened TreeCount
  import VmaList
  import Eager

  /** What do_page_fault reports. */
  datatype FaultResult = Served | EFAULT | ENOMEM

  /** The only visible effect was a fresh page of zeros at va. */
  ghost predicate ServedZero(g: Sys, g': Sys, m: nat, va: nat) {
    && m in g.areas && VmaList.At(g.areas[m], va).Some? && g'.areas == g.areas
    && SlotOf(m, va) !in g.t.leaf && SlotOf(m, va) in g'.t.leaf && g'.t.leaf[SlotOf(m, va)].Present?
    && Abs(g') == Abs(g).(mem := Abs(g).mem[SlotOf(m, va) := Eager.ZeroPage()])
  }

  ghost predicate CowCandidate(leaf: map<Pos, Entry>, y: Pos) {
    y in leaf && leaf[y].Present? && leaf[y].ro
  }

  /** MAP_FIXED counts only with an address. */
  predicate Fixed(addr: nat, fixed: bool) {
    fixed && addr != 0
  }

  /** Where do_mmap goes for address space m. */
  function PlanOf(a: Eager.Areas, addr: nat, len: nat, fixed: bool, base: nat, limit: nat): VmaList.Plan {
    if len == 0 then VmaList.Refused
    else if Fixed(addr, fixed) then VmaList.PlanFixed(addr, len, limit)
    else VmaList.PlanAnywhere(a, base, len, limit)
  }

  class Vm {
    var frame: map<nat, Frame>            // order-0 pages in use
    var count: map<nat, nat>              // mem_map[]._refcount
    var free: set<nat>                    // pages the buddy allocator can hand out
    var pgd: map<nat, nat>                // address space to its top table
    var areas: map<nat, Eager.Areas>      // address space to its VMA list
    ghost var held: set<nat>
    ghost var at: map<Pos, nat>
    ghost var pos: map<nat, Pos>
    ghost var leaf: map<Pos, Entry>

    ghost function St(): Tables
      reads this
    {
      Tables(frame, count, free, held, at, pos, leaf)
    }

    ghost function All(): Sys
      reads this
    {
      Sys(St(), pgd, areas)
    }

    /** No address space yet; pool is what the buddy allocator has. */
    constructor (pool: set<nat>)
      ensures Good(All()) && Abs(All()) == Eager.State(map[], map[]) && free == pool
    {
      frame, count, free, pgd, areas := map[], map[], pool, map[], map[];
      held, at, pos, leaf := {}, map[], map[], map[];
    }

    // ----------------------------------------------------------------
    // mm/page_alloc.c, as the page-table code sees it

    /** alloc_pages(0) followed by page_zero: an empty table for position z. */
    method AllocTable(ghost z: Pos) returns (r: Option<nat>)
      requires Ok(St()) && z !in at && !z.Slot? && z.InRange()
      modifies this`frame, this`count, this`free, this`at, this`pos
      ensures Ok(St())
      ensures r.None? <==> old(free) == {}
      ensures r.None? ==> St() == old(St())
      ensures r.Some? ==> r.value in old(free) && St() == AddTable(old(St()), z, r.value)
    {
      if free == {} {
        return None;
      }
      var t :| t in free;
      AddTableOk(St(), z, t);
      free := free - {t};
      count := count[t := 1];
      frame := frame[t := Table(seq(ENTRIES, _ => Absent))];
      at := at[z := t];
      pos := pos[t := z];
      return Some(t);
    }

    /** free_pages(table, 0), once no leaf below the table is left. */
    method FreeTable(t: nat, ghost z: Pos)
      requires Ok(St()) && z in at && at[z] == t
      requires forall y | y in leaf && y.Slot? :: y.Parent() != z
      modifies this`frame, this`count, this`free, this`at, this`pos
      ensures Ok(St()) && St() == DropTable(old(St()), z, t)
    {
      DropTableOk(St(), z);
      count := count[t := 0];
      frame := frame - {t};
      free := free + {t};
      at := at - {z};
      pos := pos - {t};
    }

    /** alloc_pages(0) for a data page, filled with bytes; the caller owns the one reference. */
    method AllocPage(bytes: Page) returns (r: Option<nat>)
      requires Ok(St())
      modifies this`frame, this`count, this`free, this`held
      ensures Ok(St())
      ensures r.None? <==> old(free) == {}
      ensures r.None? ==> St() == old(St())
      ensures r.Some? ==> r.value in old(free) && St() == AddPage(old(St()), r.value, bytes)
    {
      if free == {} {
        return None;
      }
      var p :| p in free;
      AddPageOk(St(), p, bytes);
      free := free - {p};
      count := count[p := 1];
      frame := frame[p := Data(bytes)];
      held := held + {p};
      return Some(p);
    }

    method GetPage(p: nat)
      requires Ok(St()) && IsData(St(), p) && p !in held
      modifies this`count, this`held
      ensures Ok(St()) && p in old(count) && St() == Get(old(St()), p)
    {
      GetOk(St(), p);
      count := count[p := count[p] + 1];
      held := held + {p};
    }

    method PutPage(p: nat)
      requires Ok(St()) && p in held
      modifies this`frame, this`count, this`free, this`held
      ensures Ok(St()) && p in old(count) && old(count)[p] >= 1 && St() == Put(old(St()), p)
      ensures p !in frame <==> Refs(leaf, p) == {}
    {
      PutOk(St(), p);
      count := count[p := count[p] - 1];
      held := held - {p};
      if count[p] == 0 {
        frame := frame - {p};
        free := free + {p};
      }
    }

    /** free_pages(page, 0) on a page no leaf names. */
    method FreePage(p: nat)
      requires Ok(St()) && WellLinked(St()) && p in held && Refs(leaf, p) == {}
      modifies this`frame, this`count, this`free, this`held
      ensures Ok(St()) && WellLinked(St()) && p !in frame && at == old(at) && held == old(held) - {p}
      ensures frame.Keys + free == old(frame.Keys + free)
      ensures forall q | q in frame :: q in old(frame) && frame[q] == old(frame)[q]
    {
      PutLinked(St(), p);
      PutOk(St(), p);
      assert Counted(St(), p);
      if count[p] > 1 {
        return;
      }
      count := count[p := 0];
      frame := frame - {p};
      free := free + {p};
      held := held - {p};
      assert St() == Put(old(St()), p);
    }

    method PteSet(t: nat, n: nat, e: Entry)
      requires Ok(St()) && IsTable(St(), t) && n < ENTRIES
      modifies this`frame
      ensures Ok(St()) && St() == SetEntry(old(St()), t, n, e)
    {
      SetEntryOk(St(), t, n, e);
      frame := frame[t := Table(frame[t].e[n := e])];
    }

    /** The leaf slot y gives up its page: put_page on what it named. */
    method DropLeaf(p: nat, ghost y: Pos)
      requires Ok(St()) && held == {} && y in leaf && leaf[y].Present? && leaf[y].pfn == p
      modifies this`frame, this`count, this`free, this`held, this`at, this`pos, this`leaf
      ensures Ok(St()) && held == {} && Dropped(old(St()), y, St())
    {
      UnhookOk(St(), y);
      leaf := leaf - {y};
      held := held + {p};
      assert St() == Unhook(old(St()), y);
      PutPage(p);
    }

    // ----------------------------------------------------------------
    // free_pgtable_level

    method FreeLevel(t: nat, level: nat, ghost x: Pos)
      requires Ok(St()) && held == {}
      requires x in at && at[x] == t && level == x.Level() <= 3
      requires Subtree(St(), x)
      modifies this`frame, this`count, this`free, this`held, this`at, this`pos, this`leaf
      ensures Ok(St()) && held == {} && FreedWhole(old(St()), St(), x)
      decreases 3 - level, 1
    {
      ghost var s := St();
      var i := 0;
      while i < ENTRIES
        invariant 0 <= i <= ENTRIES
        invariant Ok(St()) && held == {} && Freed(s, St(), x, i)
      {
        FreeEntry(t, level, i, x, s);
        i := i + 1;
      }
      FreedAll(s, St(), x);
      FreeTable(t, x);
    }

    /** One turn of the loop of free_pgtable_level. */
    method FreeEntry(t: nat, level: nat, i: nat, ghost x: Pos, ghost s: Tables)
      requires Ok(St()) && held == {} && Ok(s)
      requires x in s.at && s.at[x] == t && level == x.Level() <= 3 && i < ENTRIES
      requires Subtree(s, x) && Freed(s, St(), x, i)
      modifies this`frame, this`count, this`free, this`held, this`at, this`pos, this`leaf
      ensures Ok(St()) && held == {} && Freed(s, St(), x, i + 1)
      decreases 3 - level, 0
    {
      ghost var r := St();
      assert WfAt(r, x) && WfAt(s, x) && Node(s, x) && EntryOk(s, x, i);
      var ent := frame[t].e[i];
      if !ent.Present? {
        FreedSkip(s, r, x, i);
      } else if level < 3 {
        FreedSubtree(s, r, x, i);
        FreeLevel(ent.pfn, level + 1, x.Child(i));
        FreedChild(s, r, St(), x, i);
      } else {
        DropLeaf(ent.pfn, x.Child(i));
        FreedLeaf(s, r, St(), x, i);
      }
    }

    // ----------------------------------------------------------------
    // dup_pgtable_level

    method DupLevel(src: nat, level: nat, ghost x: Pos, ghost m: nat) returns (dst: Option<nat>)
      requires Ok(St()) && held == {}
      requires x in at && at[x] == src && level == x.Level() <= 3 && x.mm != m
      requires Subtree(St(), x) && Vacant(St(), x.In(m))
      modifies this`frame, this`count, this`free, this`held, this`at, this`pos, this`leaf
      ensures Ok(St()) && held == {}
      ensures dst.None? ==> Abandoned(old(St()), St(), x)
      ensures dst.Some? ==> Copied(old(St()), St(), x, ENTRIES, m) && x.In(m) in at && at[x.In(m)] == dst.value
      ensures dst.None? <==> |old(free)| < Cost(old(St()), x)
      ensures dst.Some? ==> |free| == |old(free)| - Cost(old(St()), x)
      decreases 3 - level, 4
    {
      ghost var s := St();
      dst := DupStart(x, m);
      if dst.None? {
        return;
      }
      var ok := DupEntries(src, dst.value, level, x, m, s);
      if !ok {
        return None;
      }
      SpentAll(s, St(), x);
    }

    /** The loop of dup_pgtable_level. */
    method DupEntries(src: nat, dst: nat, level: nat, ghost x: Pos, ghost m: nat, ghost s: Tables) returns (ok: bool)
      requires Ok(s) && s.held == {} && x in s.at && s.at[x] == src && level == x.Level() <= 3 && x.mm != m
      requires Subtree(s, x) && Vacant(s, x.In(m))
      requires Ok(St()) && held == {} && Copied(s, St(), x, 0, m) && x.In(m) in at && at[x.In(m)] == dst
      requires Spent(s, St(), x, 0)
      modifies this`frame, this`count, this`free, this`held, this`at, this`pos, this`leaf
      ensures Ok(St()) && held == {}
      ensures ok ==> Copied(s, St(), x, ENTRIES, m) && x.In(m) in at && at[x.In(m)] == dst && Spent(s, St(), x, ENTRIES)
      ensures !ok ==> Abandoned(s, St(), x) && |s.free| < Cost(s, x)
      decreases 3 - level, 3
    {
      for i := 0 to ENTRIES
        invariant Ok(St()) && held == {} && Copied(s, St(), x, i, m) && Spent(s, St(), x, i)
        invariant x.In(m) in at && at[x.In(m)] == dst
      {
        ok := DupTurn(src, dst, level, i, x, m, s);
        if !ok {
          return;
        }
      }
      return true;
    }

    /** One turn of the loop of dup_pgtable_level, with the pages it takes. */
    method DupTurn(src: nat, dst: nat, level: nat, i: nat, ghost x: Pos, ghost m: nat, ghost s: Tables)
      returns (ok: bool)
      requires Ok(s) && s.held == {} && x in s.at && s.at[x] == src && level == x.Level() <= 3 && x.mm != m
      requires Subtree(s, x) && Vacant(s, x.In(m)) && i < ENTRIES
      requires Ok(St()) && held == {} && Copied(s, St(), x, i, m) && x.In(m) in at && at[x.In(m)] == dst
      requires Spent(s, St(), x, i)
      modifies this`frame, this`count, this`free, this`held, this`at, this`pos, this`leaf
      ensures Ok(St()) && held == {}
      ensures ok ==> Copied(s, St(), x, i + 1, m) && x.In(m) in at && at[x.In(m)] == dst && Spent(s, St(), x, i + 1)
      ensures !ok ==> Abandoned(s, St(), x) && |s.free| < Cost(s, x)
      decreases 3 - level, 2
    {
      CostTurn(s, x, i);
      CostAll(s, x);
      ok := DupEntry(src, dst, level, i, x, m, s);
    }

    /** The new, empty table for the copy of x. */
    method DupStart(ghost x: Pos, ghost m: nat) returns (dst: Option<nat>)
      requires Ok(St()) && held == {} && x in at && x.mm != m
      requires Subtree(St(), x) && Vacant(St(), x.In(m))
      modifies this`frame, this`count, this`free, this`held, this`at, this`pos, this`leaf
      ensures Ok(St()) && held == {}
      ensures dst.None? ==> Abandoned(old(St()), St(), x)
      ensures dst.Some? ==> Copied(old(St()), St(), x, 0, m) && x.In(m) in at && at[x.In(m)] == dst.value
      ensures dst.None? ==> |old(free)| < Cost(old(St()), x)
      ensures dst.Some? ==> Spent(old(St()), St(), x, 0)
    {
      ghost var s := St();
      assert WfAt(s, x) && x.In(m).Under(x.In(m));
      CostAll(s, x);
      CostNone(s, x);
      dst := AllocTable(x.In(m));
      if dst.None? {
        AbandonNothing(s, x);
      } else {
        CopyBegins(s, x, m, dst.value);
      }
    }

    /** One turn of the loop of dup_pgtable_level; false when the copy was given up and freed. */
    method DupEntry(src: nat, dst: nat, level: nat, i: nat, ghost x: Pos, ghost m: nat, ghost s: Tables)
      returns (ok: bool)
      requires Ok(s) && s.held == {} && x in s.at && s.at[x] == src && level == x.Level() <= 3 && x.mm != m
      requires i < ENTRIES
      requires Subtree(s, x) && Vacant(s, x.In(m))
      requires Ok(St()) && held == {} && Copied(s, St(), x, i, m) && x.In(m) in at && at[x.In(m)] == dst
      modifies this`frame, this`count, this`free, this`held, this`at, this`pos, this`leaf
      ensures Ok(St()) && held == {}
      ensures ok ==> Copied(s, St(), x, i + 1, m) && x.In(m) in at && at[x.In(m)] == dst
      ensures !ok ==> Abandoned(s, St(), x)
      ensures ok <==> |old(free)| >= Cost(s, x.Child(i))
      ensures ok ==> |free| == |old(free)| - Cost(s, x.Child(i))
      decreases 3 - level, 1
    {
      ghost var r := St();
      NextEntry(s, r, x, i, m);
      var ent := frame[src].e[i];
      if !ent.Present? {
        CopySkips(s, r, x, i, m);
        CostAbsent(s, x, i);
        return true;
      }
      if level < 3 {
        ok := DupTable(ent, dst, level, i, x, m, s);
      } else {
        CostAbsent(s, x, i);
        CopyShares(s, r, x, i, m);
        ShareEntry(src, dst, i, ent, x, x.In(m));
        ok := true;
      }
    }

    /** The branch of dup_pgtable_level for an entry that points to another table. */
    method DupTable(ent: Entry, dst: nat, level: nat, i: nat, ghost x: Pos, ghost m: nat, ghost s: Tables)
      returns (ok: bool)
      requires Ok(s) && s.held == {} && x in s.at && level == x.Level() < 3 && x.mm != m && i < ENTRIES
      requires Subtree(s, x) && Vacant(s, x.In(m))
      requires Ok(St()) && held == {} && Copied(s, St(), x, i, m) && x.In(m) in at && at[x.In(m)] == dst
      requires ent.Present? && x.Child(i) in s.at && x.Child(i) in at && at[x.Child(i)] == ent.pfn
      modifies this`frame, this`count, this`free, this`held, this`at, this`pos, this`leaf
      ensures Ok(St()) && held == {}
      ensures ok ==> Copied(s, St(), x, i + 1, m) && x.In(m) in at && at[x.In(m)] == dst
      ensures !ok ==> Abandoned(s, St(), x)
      ensures ok <==> |old(free)| >= Cost(s, x.Child(i))
      ensures ok ==> |free| == |old(free)| - Cost(s, x.Child(i))
      decreases 3 - level, 0
    {
      ghost var r := St();
      SubSubtree(r, x, i);
      NextVacant(s, r, x, i, m);
      CostSame(s, r, x, i, m, x.Child(i));
      var child := DupLevel(ent.pfn, level + 1, x.Child(i), m);
      ghost var r1 := St();
      assert WfAt(s, x);
      if child.None? {
        AbandonTarget(r, r1, x, x.Child(i), m);
        FreeLevel(dst, level, x.In(m));
        CopyGivesUp(s, r, r1, St(), x, i, m);
        return false;
      }
      assert Placed(r, r1, x.Child(i), ENTRIES, m, x.In(m));
      var e := Present(child.value, ent.ro, ent.user, ent.uxn);
      assert WfAt(r1, x.In(m));
      PteSet(dst, i, e);
      CopyLinks(s, r, r1, St(), x, i, m, e);
      return true;
    }

    /** The branch for a leaf: get_page, then the read-only entry goes into both tables. */
    method ShareEntry(src: nat, dst: nat, i: nat, ent: Entry, ghost x: Pos, ghost z: Pos)
      requires Ok(St()) && held == {} && x in at && z in at && x.Low? && z.Low? && i < ENTRIES
      requires at[x] == src && at[z] == dst && WfAt(St(), x) && WfAt(St(), z)
      requires x.Child(i) in leaf && leaf[x.Child(i)] == ent && z.Child(i) !in leaf
      requires LeafWf(St(), x.Child(i)) && ent.pfn in count
      modifies this`frame, this`count, this`free, this`held, this`at, this`pos, this`leaf
      ensures Ok(St()) && held == {} && St() == ShareLeaf(old(St()), x, z, i, WrProtect(ent))
    {
      ghost var r := St();
      ShareLeafOk(r, x, z, i);
      var shared := ent;
      if !ent.ro {
        shared := ent.(ro := true);
      }
      GetPage(ent.pfn);
      PteSet(src, i, shared);
      ReprotectOk(St(), x.Child(i), shared);
      leaf := leaf[x.Child(i) := shared];
      PteSet(dst, i, shared);
      leaf := leaf[z.Child(i) := shared];
      held := held - {shared.pfn};
      assert held == {};
    }

    // ----------------------------------------------------------------
    // l3_slot, map_page, unmap_page: the walk reads the flat view

    /** The lowest table on the way to va, if the walk of l3_slot gets there. */
    method L3Table(m: nat, va: nat) returns (t: Option<nat>)
      requires Ok(St()) && WellLinked(St()) && Rooted(All()) && m in pgd
      ensures t.Some? <==> SlotOf(m, va).Parent() in at
      ensures t.Some? ==> t.value == at[SlotOf(m, va).Parent()]
    {
      ghost var s := St();
      var i, j := va / 0x4000_0000 % 512, va / 0x20_0000 % 512;
      assert SpaceOk(All(), m);
      assert WfAt(s, Root(m)) && Node(s, Root(m)) && EntryOk(s, Root(m), i);
      var e := frame[pgd[m]].e[i];
      if !e.Present? {
        NothingUnder(s, Mid(m, i), Low(m, i, j));
        return None;
      }
      assert WfAt(s, Mid(m, i)) && Node(s, Mid(m, i)) && EntryOk(s, Mid(m, i), j);
      var f := frame[e.pfn].e[j];
      if !f.Present? {
        return None;
      }
      return Some(f.pfn);
    }

    /** The leaf entry of va as the hardware walk sees it. */
    method PteAt(m: nat, va: nat) returns (e: Entry)
      requires Ok(St()) && WellLinked(St()) && Rooted(All()) && m in pgd
      ensures e.Present? <==> SlotOf(m, va) in leaf
      ensures e.Present? ==> e == leaf[SlotOf(m, va)]
    {
      ghost var y := SlotOf(m, va);
      ghost var s := St();
      var t := L3Table(m, va);
      assert y in leaf ==> LeafWf(s, y);
      if t.None? {
        return Absent;
      }
      assert WfAt(s, y.Parent()) && Node(s, y.Parent()) && EntryOk(s, y.Parent(), y.k);
      return frame[t.value].e[va / 0x1000 % 512];
    }

    /** get_or_create_table */
    method GetOrCreate(parent: nat, n: nat, ghost x: Pos) returns (t: Option<nat>)
      requires Ok(St()) && WellLinked(St()) && x in at && at[x] == parent && !x.Low? && !x.Slot? && n < ENTRIES
      modifies this`frame, this`count, this`free, this`at, this`pos
      ensures Ok(St()) && WellLinked(St()) && OnlyTables(old(St()), St(), x.mm)
      ensures t.Some? ==> x.Child(n) in at && at[x.Child(n)] == t.value
      ensures |free| + 1 >= |old(free)| && (t.None? ==> old(free) == {})
    {
      ghost var s := St();
      assert WfAt(s, x) && Node(s, x) && EntryOk(s, x, n);
      var ent := frame[parent].e[n];
      if ent.Present? {
        return Some(ent.pfn);
      }
      t := AllocTable(x.Child(n));
      if t.None? {
        return;
      }
      var e := Present(t.value, false, false, false);
      TableAdded(s, x, n, t.value, e);
      PteSet(parent, n, e);
      TableAddedOnly(s, x, n, t.value, e);
    }

    /**
     * map_page: the page in hand goes into the slot, or nothing visible happens. The counts stay exact if and
     * only if the slot was empty: a page it named before is not put.
     */
    method MapPage(m: nat, va: nat, pfn: nat, e: Entry) returns (ok: bool)
      requires Ok(St()) && WellLinked(St()) && Rooted(All()) && m in pgd
      requires e.Present? && e.pfn == pfn && held == {pfn}
      modifies this`frame, this`count, this`free, this`held, this`at, this`pos, this`leaf
      ensures OnlyTables(old(St()).(leaf := leaf, held := held), St(), m)
      ensures Ok(St()) <==> !ok || SlotOf(m, va) !in old(leaf)
      ensures Ok(St()) ==> WellLinked(St())
      ensures ok ==> leaf == old(leaf)[SlotOf(m, va) := e] && held == {}
      ensures !ok ==> leaf == old(leaf) && held == {pfn} && |old(free)| <= 1
    {
      ghost var s, y := St(), SlotOf(m, va);
      assert SpaceOk(All(), m);
      assert WfAt(s, Root(m));
      var l2 := GetOrCreate(pgd[m], va / 0x4000_0000 % 512, Root(m));
      ghost var r := St();
      if l2.None? {
        return false;
      }
      var l3 := GetOrCreate(l2.value, va / 0x20_0000 % 512, Mid(m, va / 0x4000_0000 % 512));
      ghost var r1 := St();
      OnlyTablesTwice(s, r, r1, m);
      if l3.None? {
        return false;
      }
      FillSlot(l3.value, va / 0x1000 % 512, e, y);
      FilledOnly(s, r1, y, e);
      return true;
    }

    /** pte_set: the page in hand now belongs to leaf y. */
    method FillSlot(t: nat, k: nat, e: Entry, ghost y: Pos)
      requires Ok(St()) && WellLinked(St()) && y.Slot? && y.k == k && k < ENTRIES && y.Parent() in at
      requires at[y.Parent()] == t
      requires y.Parent().Low? && y.Parent().Child(k) == y && e.Present? && held == {e.pfn}
      modifies this`frame, this`held, this`leaf
      ensures WfAt(old(St()), y.Parent()) && St() == Filled(old(St()), y.Parent(), k, e)
      ensures (Ok(St()) <==> y !in old(leaf)) && (Ok(St()) ==> WellLinked(St()))
      ensures leaf == old(leaf)[y := e] && held == {}
    {
      ghost var r := St();
      assert WfAt(r, y.Parent());
      if y !in leaf {
        FilledOk(r, y.Parent(), k, e);
      } else {
        FilledOver(r, y.Parent(), k, e);
      }
      PteSet(t, k, e);
      leaf := leaf[y := e];
      held := held - {e.pfn};
      assert St() == Filled(r, y.Parent(), k, e);
    }

    /** unmap_page: empties the slot of va and puts its page. */
    method UnmapPage(m: nat, va: nat)
      requires TablesGood(St()) && Rooted(All()) && m in pgd
      modifies this`frame, this`count, this`free, this`held, this`leaf
      ensures TablesGood(St()) && Rooted(All()) && Grown(old(St()), St(), m)
      ensures leaf == old(leaf) - {SlotOf(m, va)} && Mem(St()) == Mem(old(St())) - {SlotOf(m, va)}
    {
      ghost var g, y := All(), SlotOf(m, va);
      MemKeys(g.t);
      var ent := PteAt(m, va);
      if !ent.Present? {
        return;
      }
      ClearSlot(m, va, ent);
    }

    method ClearSlot(m: nat, va: nat, ent: Entry)
      requires TablesGood(St()) && Rooted(All()) && m in pgd
      requires SlotOf(m, va) in leaf && leaf[SlotOf(m, va)] == ent && ent.Present?
      modifies this`frame, this`count, this`free, this`held, this`leaf
      ensures TablesGood(St()) && Rooted(All()) && Grown(old(St()), St(), m)
      ensures leaf == old(leaf) - {SlotOf(m, va)} && Mem(St()) == Mem(old(St())) - {SlotOf(m, va)}
    {
      ghost var g, y := All(), SlotOf(m, va);
      assert LeafWf(g.t, y);
      var t := L3Table(m, va);
      var k := va / 0x1000 % 512;
      UnmapStep(g, y);
      EmptySlot(t.value, k, ent.pfn, y);
    }

    /** pte_set(0), then put_page. */
    method EmptySlot(t: nat, k: nat, p: nat, ghost y: Pos)
      requires Ok(St()) && y in leaf && LeafWf(St(), y) && WfAt(St(), y.Parent()) && at[y.Parent()] == t && y.k == k
      requires leaf[y].pfn == p && Ok(Cleared(St(), y.Parent(), k))
      modifies this`frame, this`count, this`free, this`held, this`leaf
      ensures Ok(St()) && p in old(count) && old(count)[p] >= 1 && St() == Put(Cleared(old(St()), y.Parent(), k), p)
    {
      PteSet(t, k, Absent);
      leaf := leaf - {y};
      held := held + {p};
      assert St() == Cleared(old(St()), y.Parent(), k);
      PutPage(p);
    }

    // ----------------------------------------------------------------
    // do_page_fault and do_cow_fault

    /** A page of zeros for an address nobody touched yet. */
    method DemandFault(m: nat, va: nat) returns (err: VmaList.Errno)
      requires Good(All()) && m in pgd && SlotOf(m, va) !in leaf && VmaList.At(areas[m], va).Some?
      modifies this`frame, this`count, this`free, this`held, this`at, this`pos, this`leaf
      ensures Good(All()) && (err == VmaList.Ok || err == VmaList.ENOMEM)
      ensures err == VmaList.Ok ==> SlotOf(m, va) in leaf && leaf[SlotOf(m, va)].Present?
      ensures err == VmaList.Ok ==>
                leaf[SlotOf(m, va)] == EntryFor(leaf[SlotOf(m, va)].pfn, VmaList.At(areas[m], va).value.prot)
      ensures err == VmaList.Ok ==>
                Abs(All()) == Abs(old(All())).(mem := Abs(old(All())).mem[SlotOf(m, va) := Eager.ZeroPage()])
      ensures err != VmaList.Ok ==> Abs(All()) == Abs(old(All())) && |old(free)| <= 2
      ensures Pool(St()) == old(Pool(St()))
    {
      ghost var g, y := All(), SlotOf(m, va);
      var p := AllocPage(Eager.ZeroPage());
      if p.None? {
        return VmaList.ENOMEM;
      }
      err := DemandMap(m, va, p.value, g);
    }

    /** map_page of the page of zeros p; g is the state before it was allocated. */
    method DemandMap(m: nat, va: nat, p: nat, ghost g: Sys) returns (err: VmaList.Errno)
      requires Good(g) && p in g.t.free && m in g.pgd && m in g.areas && pgd == g.pgd && areas == g.areas
      requires SlotOf(m, va) !in g.t.leaf && VmaList.At(g.areas[m], va).Some?
      requires St() == AddPage(g.t, p, Eager.ZeroPage())
      modifies this`frame, this`count, this`free, this`held, this`at, this`pos, this`leaf
      ensures Good(All()) && Pool(St()) == Pool(g.t) && (err == VmaList.Ok || err == VmaList.ENOMEM)
      ensures err == VmaList.Ok ==> SlotOf(m, va) in leaf && leaf[SlotOf(m, va)].Present?
      ensures err == VmaList.Ok ==>
                leaf[SlotOf(m, va)] == EntryFor(leaf[SlotOf(m, va)].pfn, VmaList.At(areas[m], va).value.prot)
      ensures err == VmaList.Ok ==> Abs(All()) == Abs(g).(mem := Abs(g).mem[SlotOf(m, va) := Eager.ZeroPage()])
      ensures err != VmaList.Ok ==> Abs(All()) == Abs(g) && |g.t.free| <= 2
    {
      ghost var a := St();
      AddPageLinked(g.t, p, Eager.ZeroPage());
      assert a.held == {p} && |a.free| == |g.t.free| - 1;
      var e := EntryFor(p, VmaList.At(areas[m], va).value.prot);
      assert Rooted(All()) by { SameRooted(g, a); }
      var ok := MapPage(m, va, p, e);
      ghost var r := St();
      if !ok {
        assert OnlyTables(a, r, m) && r.held == {p} by { assert a.(leaf := r.leaf, held := r.held) == a; }
        DemandUndo(p, m, g);
        return VmaList.ENOMEM;
      }
      DemandServed(g, p, e, r, m, va);
      assert All() == g.(t := r);
      return VmaList.Ok;
    }

    /** The page map_page had no table for goes back; g is the state before it was allocated. */
    method DemandUndo(p: nat, m: nat, ghost g: Sys)
      requires Good(g) && p in g.t.free && m in g.pgd && pgd == g.pgd && areas == g.areas && held == {p}
      requires Ok(St()) && WellLinked(St()) && OnlyTables(AddPage(g.t, p, Eager.ZeroPage()), St(), m)
      modifies this`frame, this`count, this`free, this`held
      ensures Good(All()) && Abs(All()) == Abs(g)
      ensures Pool(St()) == Pool(g.t)
    {
      ghost var r := St();
      FreshUnnamed(g.t, p);
      FreePage(p);
      DemandFailed(g, p, r, St(), m);
    }

    /** do_cow_fault: the sole owner gets write permission back, a sharer gets a private copy. */
    method CowFault(m: nat, va: nat) returns (res: FaultResult)
      requires Good(All()) && m in pgd
      modifies this`frame, this`count, this`free, this`held, this`at, this`pos, this`leaf
      ensures Good(All()) && Abs(All()) == Abs(old(All())) && (res == ENOMEM ==> old(free) == {})
      ensures res == EFAULT <==> !(CowCandidate(old(leaf), SlotOf(m, va)) && Eager.MayWrite(VmaList.At(areas[m], va)))
      ensures res == Served ==> SlotOf(m, va) in leaf && leaf[SlotOf(m, va)].Present? && !leaf[SlotOf(m, va)].ro
      ensures Pool(St()) == old(Pool(St()))
    {
      ghost var g, y := All(), SlotOf(m, va);
      var ent := PteAt(m, va);
      assert SpaceOk(g, m);
      if !ent.Present? || !ent.ro || !Eager.MayWrite(VmaList.At(areas[m], va)) {
        return EFAULT;
      }
      assert LeafWf(g.t, y) && Counted(g.t, ent.pfn);
      if count[ent.pfn] == 1 {
        var t := L3Table(m, va);
        CowReuse(g, m, va);
        Relabel(t.value, va / 0x1000 % 512, ent.(ro := false), y);
        return Served;
      }
      res := CowBreak(m, va, ent);
    }

    /** The copying half of do_cow_fault. */
    method CowBreak(m: nat, va: nat, ent: Entry) returns (res: FaultResult)
      requires Good(All()) && m in pgd && SlotOf(m, va) in leaf && leaf[SlotOf(m, va)] == ent
      requires LeafWf(St(), SlotOf(m, va))
      requires m in areas && Eager.MayWrite(VmaList.At(areas[m], va))
      modifies this`frame, this`count, this`free, this`held, this`leaf
      ensures Good(All()) && Abs(All()) == Abs(old(All())) && res != EFAULT && (res == ENOMEM ==> old(free) == {})
      ensures res == Served ==> SlotOf(m, va) in leaf && leaf[SlotOf(m, va)].Present? && !leaf[SlotOf(m, va)].ro
      ensures Pool(St()) == old(Pool(St()))
    {
      ghost var g, y := All(), SlotOf(m, va);
      var t := L3Table(m, va);
      var q := AllocPage(frame[ent.pfn].bytes);
      if q.None? {
        return ENOMEM;
      }
      CowInstall(m, va, ent, t.value, q.value, g);
      return Served;
    }

    /** The private copy q goes in, the shared page is put; g is the state before the copy was allocated. */
    method CowInstall(m: nat, va: nat, ent: Entry, t: nat, q: nat, ghost g: Sys)
      requires Good(g) && m in g.pgd && m in g.areas && Eager.MayWrite(VmaList.At(g.areas[m], va)) && q in g.t.free
      requires SlotOf(m, va) in g.t.leaf && g.t.leaf[SlotOf(m, va)] == ent && LeafWf(g.t, SlotOf(m, va))
      requires St() == AddPage(g.t, q, g.t.frame[ent.pfn].bytes) && Ok(St()) && pgd == g.pgd && areas == g.areas
      requires SlotOf(m, va).Parent() in at && at[SlotOf(m, va).Parent()] == t
      modifies this`frame, this`count, this`free, this`held, this`leaf
      ensures Good(All()) && Abs(All()) == Abs(g)
      ensures leaf == g.t.leaf[SlotOf(m, va) := Present(q, false, ent.user, ent.uxn)]
      ensures Pool(St()) == Pool(g.t)
    {
      CowCopy(g, q, m, va);
      var e := Present(q, false, ent.user, ent.uxn);
      ghost var y := SlotOf(m, va);
      ghost var done := g.(t := Put(Switched(St(), y.Parent(), y.k, e), ent.pfn));
      assert Good(done) && Abs(done) == Abs(g);
      SwitchPage(t, va / 0x1000 % 512, ent.pfn, e, y);
      assert All() == done;
    }

    /** pte_set with new permission bits for the same page. */
    method Relabel(t: nat, k: nat, e: Entry, ghost y: Pos)
      requires Ok(St()) && y.Slot? && WfAt(St(), y.Parent()) && at[y.Parent()] == t && y.k == k && k < ENTRIES
      requires Ok(Relabelled(St(), y.Parent(), k, e))
      modifies this`frame, this`leaf
      ensures St() == Relabelled(old(St()), y.Parent(), k, e)
    {
      PteSet(t, k, e);
      leaf := leaf[y := e];
    }

    /** pte_set of the private copy, then put_page of the shared page. */
    method SwitchPage(t: nat, k: nat, p: nat, e: Entry, ghost y: Pos)
      requires Ok(St()) && y in leaf && y.Slot? && WfAt(St(), y.Parent()) && at[y.Parent()] == t && y.k == k
      requires k < ENTRIES
      requires e.Present? && leaf[y].Present? && leaf[y].pfn == p
      requires Ok(Switched(St(), y.Parent(), k, e)) && p in Switched(St(), y.Parent(), k, e).held
      modifies this`frame, this`count, this`free, this`held, this`leaf
      ensures Ok(St()) && p in old(count) && old(count)[p] >= 1 && St() == Put(Switched(old(St()), y.Parent(), k, e), p)
    {
      PteSet(t, k, e);
      leaf := leaf - {y};
      leaf := leaf[y := e];
      held := held + {p} - {e.pfn};
      assert St() == Switched(old(St()), y.Parent(), k, e);
      PutPage(p);
    }

    /** do_page_fault for a data read or an instruction fetch. */
    method ReadFault(m: nat, va: nat, kind: Eager.Access) returns (res: FaultResult)
      requires Good(All()) && m in pgd
      modifies this`frame, this`count, this`free, this`held, this`at, this`pos, this`leaf
      ensures Good(All())
      ensures res == EFAULT <==> !Eager.MayRead(VmaList.At(areas[m], va), kind) || SlotOf(m, va) in old(leaf)
      ensures res == ENOMEM ==> |old(free)| <= 2
      ensures res != Served ==> Abs(All()) == Abs(old(All()))
      ensures res == Served ==> ServedZero(old(All()), All(), m, va)
      ensures Pool(St()) == old(Pool(St()))
    {
      assert SpaceOk(All(), m);
      if !Eager.MayRead(VmaList.At(areas[m], va), kind) {
        return EFAULT;
      }
      var ent := PteAt(m, va);
      if ent.Present? {
        return EFAULT;
      }
      var err := DemandFault(m, va);
      return if err == VmaList.Ok then Served else ENOMEM;
    }

    /** do_page_fault for a write. */
    method WriteFault(m: nat, va: nat) returns (res: FaultResult)
      requires Good(All()) && m in pgd
      modifies this`frame, this`count, this`free, this`held, this`at, this`pos, this`leaf
      ensures Good(All())
      ensures !Eager.MayWrite(VmaList.At(areas[m], va)) ==> res == EFAULT
      ensures res == ENOMEM ==> |old(free)| <= 2
      ensures Eager.MayWrite(VmaList.At(areas[m], va)) && res == EFAULT ==>
                SlotOf(m, va) in old(leaf) && !CowCandidate(old(leaf), SlotOf(m, va))
      ensures SlotOf(m, va) in old(leaf) || res != Served ==> Abs(All()) == Abs(old(All()))
      ensures SlotOf(m, va) !in old(leaf) && res == Served ==> ServedZero(old(All()), All(), m, va)
      ensures res == Served ==> SlotOf(m, va) in leaf && leaf[SlotOf(m, va)].Present? && !leaf[SlotOf(m, va)].ro
      ensures Pool(St()) == old(Pool(St()))
    {
      assert SpaceOk(All(), m);
      if !Eager.MayWrite(VmaList.At(areas[m], va)) {
        return EFAULT;
      }
      var ent := PteAt(m, va);
      if ent.Present? {
        res := CowFault(m, va);
        return;
      }
      var err := DemandFault(m, va);
      return if err == VmaList.Ok then Served else ENOMEM;
    }

    // ----------------------------------------------------------------
    // What a process does: each access is one step of the reference machine

    /** The hardware walk: addresses of 40 bits or more are not translated. */
    method Translate(m: nat, va: nat) returns (e: Entry)
      requires Good(All()) && m in pgd
      ensures e.Present? ==>
                va < LIMIT && SlotOf(m, va) in leaf && e == leaf[SlotOf(m, va)] && LeafWf(St(), SlotOf(m, va))
      ensures e.Present? ==> SpaceOk(All(), m) && Permits(VmaList.At(areas[m], va), e)
      ensures !e.Present? ==> LIMIT <= va || SlotOf(m, va) !in leaf
    {
      if va >= LIMIT {
        return Absent;
      }
      e := PteAt(m, va);
      LeafFlags(All(), m, va);
      assert e.Present? ==> LeafWf(St(), SlotOf(m, va));
    }

    /** A load or fetch. */
    method Load(m: nat, va: nat, kind: Eager.Access) returns (out: Eager.Outcome)
      requires Good(All()) && m in pgd
      modifies this`frame, this`count, this`free, this`held, this`at, this`pos, this`leaf
      ensures Good(All()) && Eager.Next(Abs(old(All())), Eager.Load(m, va, kind), out, Abs(All()))
      ensures Pool(St()) == old(Pool(St())) && (out == Eager.NoMemory ==> |old(free)| <= 2)
    {
      ghost var s := Abs(All());
      out := Fetch(m, va, kind);
      LoadNext(s, m, va, kind, out, Abs(All()));
    }

    /** The walk, and on a fault do_page_fault and a second try. */
    method Fetch(m: nat, va: nat, kind: Eager.Access) returns (out: Eager.Outcome)
      requires Good(All()) && m in pgd
      modifies this`frame, this`count, this`free, this`held, this`at, this`pos, this`leaf
      ensures Good(All()) && Pool(St()) == old(Pool(St())) && (out == Eager.NoMemory ==> |old(free)| <= 2)
      ensures m in areas && Loaded(Abs(old(All())), m, va, kind, out, Abs(All()))
    {
      ghost var g, y := All(), SlotOf(m, va);
      AbsFacts(g, m, va);
      var e := Translate(m, va);
      if e.Present? && e.user && (kind == Eager.Exec ==> !e.uxn) {
        TouchedSame(g, m, va);
        var b := ReadByte(m, va);
        return Eager.Byte(b);
      }
      var res := ReadFault(m, va, kind);
      if res == EFAULT {
        return Eager.Fault;
      }
      if res == ENOMEM {
        return Eager.NoMemory;
      }
      assert Abs(All()) == Touched(Abs(g), y);
      var b := ReadByte(m, va);
      return Eager.Byte(b);
    }

    /** The byte behind a mapped address. */
    method ReadByte(m: nat, va: nat) returns (b: bv8)
      requires Good(All()) && m in pgd && va < LIMIT && SlotOf(m, va) in leaf
      ensures SlotOf(m, va) in Abs(All()).mem && |Abs(All()).mem[SlotOf(m, va)]| == PAGE
      ensures b == Abs(All()).mem[SlotOf(m, va)][va % PAGE]
    {
      AbsFacts(All(), m, va);
      var e := Translate(m, va);
      return frame[e.pfn].bytes[va % PAGE];
    }

    /** A store: the walk, and on a fault do_page_fault before the second try. */
    method Store(m: nat, va: nat, b: bv8) returns (out: Eager.Outcome)
      requires Good(All()) && m in pgd
      modifies this`frame, this`count, this`free, this`held, this`at, this`pos, this`leaf
      ensures Good(All()) && Eager.Next(Abs(old(All())), Eager.Store(m, va, b), out, Abs(All()))
      ensures out == Eager.NoMemory ==> |old(free)| <= 2
      ensures Pool(St()) == old(Pool(St()))
    {
      ghost var s := Abs(All());
      AbsFacts(All(), m, va);
      var res, e := MakeWritable(m, va);
      if res == EFAULT {
        return Eager.Fault;
      }
      if res == ENOMEM {
        return Eager.NoMemory;
      }
      ghost var s1 := Abs(All());
      WriteByte(e.pfn, va % PAGE, b, SlotOf(m, va));
      StoreNext(s, s1, Abs(All()), m, va, b);
      return Eager.Done;
    }

    /** The leaf through which a store to va goes, after at most one fault. */
    method MakeWritable(m: nat, va: nat) returns (res: FaultResult, e: Entry)
      requires Good(All()) && m in pgd
      modifies this`frame, this`count, this`free, this`held, this`at, this`pos, this`leaf
      ensures Good(All()) && m in areas
      ensures res == EFAULT <==> !Eager.MayWrite(VmaList.At(areas[m], va))
      ensures res == ENOMEM ==> |old(free)| <= 2
      ensures res != Served ==> Abs(All()) == Abs(old(All()))
      ensures res == Served ==>
                SlotOf(m, va) in leaf && LeafWf(St(), SlotOf(m, va)) && leaf[SlotOf(m, va)] == e && !e.ro
      ensures res == Served ==> Abs(All()) == Touched(Abs(old(All())), SlotOf(m, va))
      ensures Pool(St()) == old(Pool(St()))
    {
      ghost var g := All();
      AbsFacts(g, m, va);
      e := Translate(m, va);
      if e.Present? && e.user && !e.ro {
        TouchedSame(g, m, va);
        return Served, e;
      }
      res := WriteFault(m, va);
      if res == Served {
        TouchedSame(g, m, va);
        e := Translate(m, va);
      }
    }

    /** A byte written through the writable leaf y. */
    method WriteByte(p: nat, off: nat, b: bv8, ghost y: Pos)
      requires Good(All()) && y in leaf && LeafWf(St(), y) && !leaf[y].ro && leaf[y].pfn == p && off < PAGE
      modifies this`frame
      ensures y in Abs(old(All())).mem && |Abs(old(All())).mem[y]| == PAGE
      ensures Good(All())
      ensures Abs(All()) == Abs(old(All())).(mem := Abs(old(All())).mem[y := Abs(old(All())).mem[y][off := b]])
      ensures Pool(St()) == old(Pool(St()))
    {
      ghost var g := All();
      MemAt(g.t, y);
      assert PageOk(g.t, p);
      WrittenGood(g, y, frame[p].bytes[off := b]);
      frame := frame[p := Data(frame[p].bytes[off := b])];
    }

    // ----------------------------------------------------------------
    // dup_mm and mm_put

    /**
     * dup_mm for a new mm structure c; structs and vmas say whether kmalloc gives the structure and all the
     * VMAs. It then fails exactly when there are fewer free pages than tables to copy.
     */
    method Fork(m: nat, c: nat, structs: bool, vmas: bool) returns (out: Eager.Outcome)
      requires Good(All()) && m in pgd && m in areas && c !in pgd
      modifies this
      ensures Good(All()) && Eager.Next(Abs(old(All())), Eager.Fork(m, c), out, Abs(All()))
      ensures Pool(St()) == old(Pool(St()))
      ensures out == Eager.Done <==>
                structs && |old(free)| >= Cost(old(St()), Root(m)) && (vmas || old(areas)[m] == [])
    {
      ghost var g := All();
      assert SpaceOk(g, m);
      if !structs {
        return Eager.NoMemory;
      }
      NewSpaceVacant(g, c);
      LinkedSubtree(g.t, Root(m));
      var dst := DupLevel(pgd[m], 1, Root(m), c);
      if dst.None? {
        AbandonGood(g, St(), m);
        return Eager.NoMemory;
      }
      Adopt(m, c, dst.value, g);
      if !vmas && areas[m] != [] {
        DropCopy(m, c, g);
        return Eager.NoMemory;
      }
      return Eager.Done;
    }

    /** mm_put of a copy whose VMAs found no memory. */
    method DropCopy(m: nat, c: nat, ghost g: Sys)
      requires Good(g) && m in g.pgd && c !in g.pgd && Good(All()) && c in pgd
      requires Eager.Next(Abs(g), Eager.Fork(m, c), Eager.Done, Abs(All()))
      modifies this
      ensures Good(All()) && Abs(All()) == Abs(g) && Pool(St()) == old(Pool(St()))
    {
      ghost var g1 := All();
      var _ := MmPut(c, 1);
      ForkUndone(g, g1, All(), m, c);
    }

    /** The copied tables become those of c, with a copy of the VMA list. */
    method Adopt(m: nat, c: nat, dst: nat, ghost g: Sys)
      requires Good(g) && m in g.pgd && c !in g.pgd && Root(m) in g.t.at
      requires pgd == g.pgd && areas == g.areas && m in areas
      requires Ok(St()) && held == {} && Copied(g.t, St(), Root(m), ENTRIES, c) && Root(c) in at && at[Root(c)] == dst
      modifies this`pgd, this`areas
      ensures Good(All()) && Eager.Next(Abs(g), Eager.Fork(m, c), Eager.Done, Abs(All()))
      ensures pgd == g.pgd[c := dst] && areas == g.areas[c := g.areas[m]]
    {
      ForkGood(g, St(), m, c);
      AddSpace(c, dst, areas[m]);
    }

    /** An address space c with the root table t joins the others. */
    method AddSpace(c: nat, t: nat, vmas: seq<VmaList.Vma>)
      modifies this`pgd, this`areas
      ensures All() == Sys(old(St()), old(pgd)[c := t], old(areas)[c := vmas])
    {
      pgd := pgd[c := t];
      areas := areas[c := vmas];
    }

    /** mm_alloc: an empty address space c. */
    method MmAlloc(c: nat) returns (out: Eager.Outcome)
      requires Good(All()) && c !in pgd
      modifies this
      ensures Good(All()) && Eager.Next(Abs(old(All())), Eager.New(c), out, Abs(All()))
      ensures Pool(St()) == old(Pool(St()))
    {
      ghost var g := All();
      NewSpaceVacant(g, c);
      assert Root(c).Under(Root(c));
      var t := AllocTable(Root(c));
      if t.None? {
        return Eager.NoMemory;
      }
      SpaceAdded(g, c, t.value);
      AddSpace(c, t.value, []);
      return Eager.Done;
    }

    /** mm_put; the caller keeps the users counter. The last user takes the address space with it. */
    method MmPut(m: nat, users: nat) returns (left: nat)
      requires Good(All()) && m in pgd && users > 0
      modifies this
      ensures Good(All()) && left == users - 1 && Pool(St()) == old(Pool(St()))
      ensures left > 0 ==> All() == old(All())
      ensures left == 0 ==> Eager.Next(Abs(old(All())), Eager.Exit(m), Eager.Done, Abs(All()))
      ensures left == 0 ==> pgd == old(pgd) - {m} && areas == old(areas) - {m}
    {
      left := users - 1;
      if left > 0 {
        return;
      }
      FreeSpace(m);
    }

    /** free_user_page_tables and free_all_vmas. */
    method FreeSpace(m: nat)
      requires Good(All()) && m in pgd
      modifies this
      ensures Good(All()) && Eager.Next(Abs(old(All())), Eager.Exit(m), Eager.Done, Abs(All()))
      ensures pgd == old(pgd) - {m} && areas == old(areas) - {m}
      ensures Pool(St()) == old(Pool(St()))
    {
      ghost var g := All();
      assert SpaceOk(g, m);
      LinkedSubtree(g.t, Root(m));
      FreeLevel(pgd[m], 1, Root(m));
      ExitGood(g, St(), m);
      pgd := pgd - {m};
      areas := areas - {m};
    }

    // ----------------------------------------------------------------
    // do_munmap, do_mmap, mm_mprotect

    /** unmap_page on every page of [s, e); pages from 2^39 on walk to the slots of lower ones. */
    method UnmapPages(m: nat, s: nat, e: nat)
      requires TablesGood(St()) && Rooted(All()) && m in pgd
      requires s % PAGE == 0 && e % PAGE == 0 && s <= e
      modifies this`frame, this`count, this`free, this`held, this`leaf
      ensures TablesGood(St()) && Rooted(All()) && LeafLess(old(St()), St(), m, s, e)
    {
      ghost var t := St();
      var a := s;
      DropNone(t, m, s, s);
      while a < e
        invariant s <= a <= e && a % PAGE == 0
        invariant TablesGood(St()) && Rooted(All()) && LeafLess(t, St(), m, s, a)
      {
        NextAligned(a, e);
        UnmapNext(m, s, a, t);
        a := a + PAGE;
      }
    }

    /** One turn of the loop over the pages of a range. */
    method UnmapNext(m: nat, s: nat, a: nat, ghost t: Tables)
      requires TablesGood(St()) && Rooted(All()) && m in pgd && LeafLess(t, St(), m, s, a)
      requires a % PAGE == 0 && s <= a
      modifies this`frame, this`count, this`free, this`held, this`leaf
      ensures TablesGood(St()) && Rooted(All()) && LeafLess(t, St(), m, s, a + PAGE)
    {
      ghost var r := St();
      UnmapPage(m, a);
      DropNext(t, r, St(), m, s, a);
    }

    /** vma_erase_range, then unmap_page on every page of the range. */
    method Vacate(m: nat, s: nat, e: nat) returns (err: VmaList.Errno)
      requires Good(All()) && m in pgd && s % PAGE == 0 && e % PAGE == 0
      modifies this
      ensures (err == VmaList.Ok || err == VmaList.ENOMEM) && pgd == old(pgd) && Pool(St()) == old(Pool(St()))
      ensures err != VmaList.Ok ==> Good(All()) && Abs(All()) == Abs(old(All()))
      ensures m in old(areas) && (err == VmaList.Ok ==> areas == old(areas)[m := VmaList.Erase(old(areas)[m], s, e)])
      ensures err == VmaList.Ok ==> (Good(All()) <==> !VmaList.Torn(old(areas)[m], s, e))
      ensures err == VmaList.Ok && Good(All()) ==> Abs(All()) == Vacated(Abs(old(All())), m, s, e)
    {
      ghost var g := All();
      assert SpaceOk(g, m);
      err := EraseVmas(m, s, e);
      if err != VmaList.Ok {
        return;
      }
      if s <= e {
        UnmapPages(m, s, e);
      } else {
        DropNone(St(), m, s, e);
      }
      if !VmaList.Torn(g.areas[m], s, e) {
        UnmapDone(g, All(), m, s, e);
      }
    }

    /** vma_erase_range on the list of m. */
    method EraseVmas(m: nat, s: nat, e: nat) returns (err: VmaList.Errno)
      requires Rooted(All()) && m in pgd && s % PAGE == 0 && e % PAGE == 0
      modifies this`areas
      ensures err == VmaList.Ok || err == VmaList.ENOMEM
      ensures m in old(areas) && (err == VmaList.Ok ==> areas == old(areas)[m := VmaList.Erase(old(areas)[m], s, e)])
      ensures err == VmaList.Ok ==> (Rooted(All()) <==> !VmaList.Torn(old(areas)[m], s, e))
      ensures err == VmaList.ENOMEM ==> areas == old(areas)
    {
      ghost var g := All();
      assert SpaceOk(g, m);
      var list := new VmaList.Mm(areas[m], 0);
      err := list.EraseRange(s, e);
      VmaList.EraseAligned(g.areas[m], s, e, LIMIT);
      if VmaList.Sorted(list.mmap) {
        AreasRooted(g, m, list.mmap);
      }
      areas := areas[m := list.mmap];
      assert Rooted(All()) ==> SpaceOk(All(), m);
      assert err == VmaList.ENOMEM ==> areas == g.areas;
    }

    /**
     * do_munmap, for any address and length.  The list survives unless the end of the range wraps round
     * and a VMA reaches across; then exactly the pages of the range go unless one of them aliases.
     */
    method Munmap(m: nat, va: nat, len: nat) returns (out: Eager.Outcome)
      requires Good(All()) && m in pgd && m in areas
      modifies this
      ensures Pool(St()) == old(Pool(St()))
      ensures Good(All()) <==> out != Eager.Done || Eager.Applicable(old(areas), Eager.Unmap(m, va, len))
      ensures Eager.Applicable(old(areas), Eager.Unmap(m, va, len)) ==>
                Eager.Next(Abs(old(All())), Eager.Unmap(m, va, len), out, Abs(All()))
      ensures out == Eager.Done && len > 0 && Good(All()) ==>
                var e := VmaList.RangeEnd(va, len);
                Abs(All()) == Meant(Abs(old(All())), m, va, e) <==> Eager.NoAlias(Abs(old(All())).mem, m, va, e)
    {
      ghost var g := All();
      if len == 0 {
        return Eager.Done;
      }
      if va % PAGE != 0 {
        return Eager.Invalid;
      }
      VmaList.RangeEndFits(va, len);
      var e := VmaList.RangeEnd(va, len);
      VacatedAsMeant(g, m, va, e);
      var err := Vacate(m, va, e);
      return if err == VmaList.Ok then Eager.Done else Eager.NoMemory;
    }

    /** do_mmap at a page-aligned place: with MAP_FIXED the range is unmapped first, else it is clear. */
    method Mmap(m: nat, va: nat, size: nat, prot: VmaList.Prot, fixed: bool) returns (out: Eager.Outcome)
      requires Good(All()) && m in pgd && size > 0 && va % PAGE == 0 && size % PAGE == 0 && va + size <= LIMIT
      requires m in areas && (!fixed ==> VmaList.Clear(areas[m], va, va + size))
      modifies this
      ensures Good(All()) && Eager.Next(Abs(old(All())), Eager.Map(m, va, size, prot, fixed), out, Abs(All()))
      ensures Pool(St()) == old(Pool(St()))
    {
      ghost var s := Abs(All());
      MemSlots(All());
      MapNext(s, m, va, size, prot, fixed);
      out := ClearAndAdd(m, VmaList.Vma(va, va + size, VmaList.Flags(prot, false)), fixed);
    }

    /**
     * do_mmap itself: the checks, the choice of the address, and mmap_base, which the caller keeps. An empty
     * range, one whose end wraps, is refused only at the end; with MAP_FIXED it may have torn the list by then.
     */
    method DoMmap(m: nat, addr: nat, len: nat, prot: VmaList.Prot, fixed: bool, base: nat, limit: nat)
      returns (out: Eager.Outcome, va: nat, base': nat)
      requires Good(All()) && m in pgd && m in areas && limit <= LIMIT
      modifies this
      ensures Pool(St()) == old(Pool(St())) && (out != Eager.Done ==> base' == base)
      ensures match PlanOf(old(areas)[m], addr, len, fixed, base, limit)
              case Refused => out == Eager.Invalid && Good(All()) && Abs(All()) == Abs(old(All()))
              case NoRoom => out == Eager.NoMemory && Good(All()) && Abs(All()) == Abs(old(All()))
              case Empty(a, e) =>
                && (out == Eager.Invalid || out == Eager.NoMemory) && St() == old(St()) && pgd == old(pgd)
                && (areas == old(areas) || (Fixed(addr, fixed) && areas == Erased(old(areas), m, a, e)))
                && (Good(All()) <==> areas == old(areas) || !VmaList.Torn(old(areas)[m], a, e))
              case Place(a, size) =>
                && Good(All()) && va == a
                && Eager.Next(Abs(old(All())), Eager.Map(m, a, size, prot, Fixed(addr, fixed)), out, Abs(All()))
                && (out == Eager.Done ==> base' == if a + size > base then a + size else base)
    {
      assert SpaceOk(All(), m);
      VmaList.AnywhereFacts(areas[m], base, len, limit);
      VmaList.FixedFacts(addr, len, limit);
      var plan := ChoosePlace(m, addr, len, fixed, base, limit);
      va, base' := 0, base;
      match plan {
        case Refused => out := Eager.Invalid;
        case NoRoom => out := Eager.NoMemory;
        case Empty(a, e) =>
          va := a;
          out := EmptyMap(m, a, e, Fixed(addr, fixed));
        case Place(a, size) =>
          va := a;
          out := Mmap(m, a, size, prot, Fixed(addr, fixed));
          if out == Eager.Done && a + size > base {
            base' := a + size;
          }
      }
    }

    /** The checks of do_mmap and the choice of the place. */
    method ChoosePlace(m: nat, addr: nat, len: nat, fixed: bool, base: nat, limit: nat) returns (p: VmaList.Plan)
      requires m in areas && VmaList.Sorted(areas[m])
      ensures p == PlanOf(areas[m], addr, len, fixed, base, limit)
    {
      if len == 0 {
        return VmaList.Refused;
      }
      var size := VmaList.RangeEnd(0, len);
      var va;
      if Fixed(addr, fixed) {
        va := addr / PAGE * PAGE;
        if va == 0 || VmaList.End64(va, size) > limit {
          return VmaList.Refused;
        }
      } else {
        var list := new VmaList.Mm(areas[m], base);
        va := list.FindUnmappedArea(size, limit);
        if va == 0 {
          return VmaList.NoRoom;
        }
      }
      return VmaList.At64(va, size);
    }

    /** What is left of do_mmap for a range with va >= e: erasing it, no page to unmap, and insert_vma refuses. */
    method EmptyMap(m: nat, va: nat, e: nat, fixed: bool) returns (out: Eager.Outcome)
      requires Good(All()) && m in pgd && m in areas && e <= va && va % PAGE == 0 && e % PAGE == 0
      modifies this`areas
      ensures out == Eager.Invalid || out == Eager.NoMemory
      ensures areas == old(areas) || (fixed && areas == Erased(old(areas), m, va, e))
      ensures Good(All()) <==> areas == old(areas) || !VmaList.Torn(old(areas)[m], va, e)
    {
      ghost var g := All();
      assert SpaceOk(g, m);
      if fixed {
        var err := EraseVmas(m, va, e);
        if err != VmaList.Ok {
          return Eager.NoMemory;
        }
        if !VmaList.Torn(g.areas[m], va, e) {
          DropNone(St(), m, va, e);
          UnmapDone(g, All(), m, va, e);
        } else {
          VmaList.TornUnsorted(g.areas[m], va, e);
        }
      }
      var noMemory: bool := *;
      return if noMemory then Eager.NoMemory else Eager.Invalid;
    }

    /** The list surgery of do_mmap: make room, then vma_alloc and insert_vma. */
    method ClearAndAdd(m: nat, v: VmaList.Vma, fixed: bool) returns (out: Eager.Outcome)
      requires Good(All()) && m in pgd && m in areas && v.start < v.end <= LIMIT
      requires v.start % PAGE == 0 && v.end % PAGE == 0 && (!fixed ==> VmaList.Clear(areas[m], v.start, v.end))
      modifies this
      ensures Good(All()) && Pool(St()) == old(Pool(St())) && (out == Eager.Done || out == Eager.NoMemory)
      ensures var s := Abs(old(All())); var s1 := Roomy(s, m, v, fixed);
              if out == Eager.Done then Abs(All()) == s1.(areas := s1.areas[m := VmaList.Insert(s1.areas[m], v)])
              else Abs(All()) == s || Abs(All()) == s1
    {
      var err := ClearRange(m, v.start, v.end, fixed);
      if err != VmaList.Ok {
        return Eager.NoMemory;
      }
      ghost var s1 := Abs(All());
      err := AddVma(m, v);
      assert err == VmaList.ENOMEM ==> Abs(All()) == s1;
      return if err == VmaList.Ok then Eager.Done else Eager.NoMemory;
    }

    /** The MAP_FIXED branch of do_mmap. */
    method ClearRange(m: nat, s: nat, e: nat, fixed: bool) returns (err: VmaList.Errno)
      requires Good(All()) && m in pgd && m in areas && s % PAGE == 0 && e % PAGE == 0 && s < e
      requires !fixed ==> VmaList.Clear(areas[m], s, e)
      modifies this
      ensures Good(All()) && pgd == old(pgd) && Pool(St()) == old(Pool(St()))
      ensures err != VmaList.Ok ==> Abs(All()) == Abs(old(All()))
      ensures err == VmaList.Ok ==> m in areas && VmaList.Clear(areas[m], s, e)
      ensures err == VmaList.Ok ==> Abs(All()) == if fixed then Vacated(Abs(old(All())), m, s, e) else Abs(old(All()))
    {
      assert SpaceOk(All(), m);
      err := VmaList.Ok;
      if fixed {
        VmaList.EraseClears(areas[m], s, e);
        err := Vacate(m, s, e);
      }
    }

    /** vma_alloc and insert_vma for a clear range. */
    method AddVma(m: nat, v: VmaList.Vma) returns (err: VmaList.Errno)
      requires Good(All()) && m in pgd && m in areas && v.start < v.end <= LIMIT && v.start % PAGE == 0
      requires v.end % PAGE == 0
      requires VmaList.Clear(areas[m], v.start, v.end)
      modifies this`areas
      ensures Good(All()) && (err == VmaList.Ok || err == VmaList.ENOMEM)
      ensures areas == if err == VmaList.Ok then old(areas)[m := VmaList.Insert(old(areas)[m], v)] else old(areas)
      ensures Abs(All()) == Abs(old(All())).(areas := areas) && Pool(St()) == old(Pool(St()))
    {
      ghost var g := All();
      assert SpaceOk(g, m);
      var noMemory: bool := *;
      if noMemory {
        return VmaList.ENOMEM;
      }
      var list := new VmaList.Mm(areas[m], 0);
      err := list.InsertVma(v);
      VmaAdded(g, m, v);
      areas := areas[m := list.mmap];
    }

    /** change_pte_prot */
    method ChangePteProt(m: nat, va: nat, p: VmaList.Prot)
      requires TablesGood(St()) && Rooted(All()) && m in pgd
      modifies this`frame, this`leaf
      ensures TablesGood(St()) && Rooted(All()) && Relit(old(St()), St(), SlotOf(m, va), p)
    {
      ghost var g, y := All(), SlotOf(m, va);
      var ent := PteAt(m, va);
      if !ent.Present? {
        return;
      }
      assert LeafWf(g.t, y) && Counted(g.t, ent.pfn);
      var e := EntryFor(ent.pfn, p);
      if p.w && count[ent.pfn] > 1 {
        e := WrProtect(e);
      }
      var t := L3Table(m, va);
      RelitStep(g, y, p, e);
      Relabel(t.value, va / 0x1000 % 512, e, y);
    }

    /** mm_mprotect on a page-aligned range. */
    method Mprotect(m: nat, s: nat, e: nat, p: VmaList.Prot) returns (out: Eager.Outcome)
      requires Good(All()) && m in pgd && s % PAGE == 0 && e % PAGE == 0
      modifies this
      ensures Good(All()) && Eager.Next(Abs(old(All())), Eager.Protect(m, s, e, p), out, Abs(All()))
      ensures Pool(St()) == old(Pool(St()))
    {
      ghost var g := All();
      assert SpaceOk(g, m);
      var list := new VmaList.Mm(areas[m], 0);
      var err := list.Mprotect(s, e, p);
      if err == VmaList.EINVAL {
        return Eager.Invalid;
      }
      areas := areas[m := list.mmap];
      if err == VmaList.ENOMEM {
        ProtectFailed(g, m, s, list.mmap);
        return Eager.NoMemory;
      }
      ProtectBegins(g, m, s, e, p);
      ProtectPages(m, s, e, p, g);
      return Eager.Done;
    }

    /** change_prot_range over the VMAs that now carry the new protection. */
    method ProtectPages(m: nat, s: nat, e: nat, p: VmaList.Prot, ghost g: Sys)
      requires Good(g) && m in pgd && s % PAGE == 0 && e % PAGE == 0 && s < e <= LIMIT
      requires St() == g.t && pgd == g.pgd && m in g.areas
      requires areas == g.areas[m := VmaList.Protect(g.areas[m], s, e, p)]
      requires VmaList.Mapped(g.areas[m], s, e)
      requires Rooted(All()) && MixedFlags(g, All(), m, s, e)
      modifies this`frame, this`leaf
      ensures Good(All()) && Mem(St()) == Mem(g.t) && Pool(St()) == Pool(g.t)
    {
      var a := s;
      while a < e
        invariant s <= a <= e && a % PAGE == 0
        invariant TablesGood(St()) && Rooted(All()) && MixedFlags(g, All(), m, a, e)
        invariant Mem(St()) == Mem(g.t) && Pool(St()) == Pool(g.t)
      {
        ProtectPage(m, s, e, p, a, g);
        a := a + PAGE;
      }
      MixedDone(g, All(), m, e);
    }

    /** One turn of the loop of change_prot_range. */
    method ProtectPage(m: nat, s: nat, e: nat, p: VmaList.Prot, a: nat, ghost g: Sys)
      requires Good(g) && m in pgd && s % PAGE == 0 && e % PAGE == 0 && s <= a < e <= LIMIT && a % PAGE == 0
      requires pgd == g.pgd && m in g.areas && areas == g.areas[m := VmaList.Protect(g.areas[m], s, e, p)]
      requires VmaList.Mapped(g.areas[m], s, e)
      requires TablesGood(St()) && Rooted(All()) && MixedFlags(g, All(), m, a, e)
      requires Mem(St()) == Mem(g.t) && Pool(St()) == Pool(g.t)
      modifies this`frame, this`leaf
      ensures TablesGood(St()) && Rooted(All()) && MixedFlags(g, All(), m, a + PAGE, e)
      ensures Mem(St()) == Mem(g.t) && Pool(St()) == Pool(g.t)
    {
      ghost var g1 := All();
      ChangePteProt(m, a, p);
      ProtectNext(g, g1, All(), m, s, e, p, a);
    }

    // ----------------------------------------------------------------
    // Whole runs

    /** One operation; a call no caller makes is passed over. */
    method Perform(ev: Eager.Event) returns (out: Eager.Outcome)
      requires Good(All())
      modifies this
      ensures Good(All()) && Eager.Next(Abs(old(All())), ev, out, Abs(All())) && Pool(St()) == old(Pool(St()))
    {
      if !Eager.Applicable(areas, ev) {
        return Eager.Skipped;
      }
      match ev
      case New(m) => out := MmAlloc(m);
      case Load(m, va, kind) => out := Load(m, va, kind);
      case Store(m, va, b) => out := Store(m, va, b);
      case Fork(m, child) =>
        var structs: bool := *;
        var vmas: bool := *;
        out := Fork(m, child, structs, vmas);
      case Map(m, va, size, prot, fixed) => out := Mmap(m, va, size, prot, fixed);
      case Unmap(m, va, len) => out := Munmap(m, va, len);
      case Protect(m, start, end, prot) => out := Mprotect(m, start, end, prot);
      case Exit(m) =>
        var _ := MmPut(m, 1);
        out := Eager.Done;
    }

    /**
     * Any run of operations by any number of address spaces: the outcomes are those of a run of the
     * eager machine from the same memory through the same events, and the run ends with that
     * machine's memory.  When no address space is left, every page is free again.
     */
    method Run(events: seq<Eager.Event>) returns (outs: seq<Eager.Outcome>, ghost states: seq<Eager.State>)
      requires Good(All())
      modifies this
      ensures Good(All()) && Eager.IsRun(states, events, outs)
      ensures states[0] == Abs(old(All())) && states[|events|] == Abs(All())
      ensures Pool(St()) == old(Pool(St())) && (areas == map[] ==> free == old(Pool(St())))
    {
      outs, states := [], [Abs(All())];
      for i := 0 to |events|
        invariant Good(All()) && Eager.IsRun(states, events[..i], outs)
        invariant states[0] == Abs(old(All())) && states[i] == Abs(All()) && Pool(St()) == old(Pool(St()))
      {
        var out := Perform(events[i]);
        Eager.Extend(states, events[..i], outs, events[i], out, Abs(All()));
        assert events[..i + 1] == events[..i] + [events[i]];
        outs, states := outs + [out], states + [Abs(All())];
      }
      assert events[..|events|] == events;
      if areas == map[] {
        NothingLeaks(All());
      }
    }
  }

  /**
   * What Good says about page counts: a data page is counted once per leaf entry naming it, a page
   * that some leaf may write is named by that leaf alone, and a table is counted once.
   */
  lemma PageAccounting(g: Sys)
    requires Good(g)
    ensures forall p | IsData(g.t, p) :: p in g.t.count && g.t.count[p] == |Refs(g.t.leaf, p)| >= 1
    ensures forall y | y in g.t.leaf && g.t.leaf[y].Present? && !g.t.leaf[y].ro ::
              g.t.leaf[y].pfn in g.t.count && g.t.count[g.t.leaf[y].pfn] == 1
    ensures forall p | p in g.t.frame && g.t.frame[p].Table? :: p in g.t.count && g.t.count[p] == 1
  {
    forall p | p in g.t.frame ensures Counted(g.t, p) { assert Counted(g.t, p); }
    forall y | y in g.t.leaf && g.t.leaf[y].Present? && !g.t.leaf[y].ro
      ensures g.t.leaf[y].pfn in g.t.count && g.t.count[g.t.leaf[y].pfn] == 1
    {
      assert LeafWf(g.t, y);
      assert Counted(g.t, g.t.leaf[y].pfn);
      assert Refs(g.t.leaf, g.t.leaf[y].pfn) == {y};
    }
  }

  /** Every page in use belongs to a live address space: one of its tables, or named by one of its leaves. */
  lemma PageOwner(g: Sys, p: nat) returns (m: nat)
    requires Good(g) && p in g.t.frame
    ensures m in g.pgd
    ensures if IsData(g.t, p) then exists y | y in Refs(g.t.leaf, p) :: y.mm == m
            else exists x | x in g.t.at :: x.mm == m && g.t.at[x] == p
  {
    assert Counted(g.t, p);
    if g.t.frame[p].Data? {
      var y :| y in Refs(g.t.leaf, p);
      assert LeafWf(g.t, y);
      m := y.mm;
    } else {
      m := g.t.pos[p].mm;
    }
  }

  /** So when the last address space is gone the allocator has every page again. */
  lemma NothingLeaks(g: Sys)
    requires Good(g) && g.areas == map[]
    ensures g.t.frame == map[] && g.t.free == Pool(g.t)
  {
    if p :| p in g.t.frame {
      var m := PageOwner(g, p);
    }
  }
}
