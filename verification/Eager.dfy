/**
 * The reference machine: address spaces that own their pages.  fork copies
 * every page at once; there are no page tables, no sharing and no counts.
 */
module Eager {
  import opened Basics
  import opened PageTable
  import opened FlatView
  import VmaList

  type Areas = seq<VmaList.Vma>

  /** mem holds the pages of all address spaces, by leaf slot. */
  datatype State = State(areas: map<nat, Areas>, mem: map<Pos, Page>)

  datatype Access = Read | Exec

  datatype Event =
    | New(m: nat)
    | Load(m: nat, va: nat, kind: Access)
    | Store(m: nat, va: nat, b: bv8)
    | Fork(m: nat, child: nat)
    | Map(m: nat, va: nat, size: nat, prot: VmaList.Prot, fixed: bool)
    | Unmap(m: nat, va: nat, len: nat)
    | Protect(m: nat, start: nat, end: nat, prot: VmaList.Prot)
    | Exit(m: nat)

  /** Skipped: no caller makes this call in this state. */
  datatype Outcome = Byte(b: bv8) | Done | Fault | NoMemory | Invalid | Skipped

  function ZeroPage(): (p: Page)
    ensures |p| == PAGE
  {
    seq(PAGE, _ => 0)
  }

  /** The checks of do_page_fault against the VMA. */
  predicate MayRead(f: Option<VmaList.Flags>, kind: Access) {
    f.Some? && match kind
      case Read => f.value.prot.r || f.value.prot.w || f.value.prot.x
      case Exec => f.value.prot.x
  }

  predicate MayWrite(f: Option<VmaList.Flags>) {
    f.Some? && f.value.prot.w
  }

  ghost predicate InRangeOf(y: Pos, m: nat, s: nat, e: nat) {
    y.Slot? && y.mm == m && s <= Va(y) < e
  }

  ghost function Drop(mem: map<Pos, Page>, m: nat, s: nat, e: nat): map<Pos, Page> {
    map y | y in mem && !InRangeOf(y, m, s, e) :: mem[y]
  }

  /** The walk of some page of [s, e) ends in slot y; it looks at the low 39 bits of an address only. */
  ghost predicate Hit(y: Pos, m: nat, s: nat, e: nat) {
    exists a: nat {:trigger SlotOf(m, a)} | s <= a < e && a % PAGE == 0 :: SlotOf(m, a) == y
  }

  /** What unmap_page on every page of [s, e) leaves. */
  ghost function Sweep(mem: map<Pos, Page>, m: nat, s: nat, e: nat): map<Pos, Page> {
    map y | y in mem && !Hit(y, m, s, e) :: mem[y]
  }

  /** The page behind an address; a page never touched reads as zeros. */
  ghost function PageAt(mem: map<Pos, Page>, y: Pos): Page {
    if y in mem then mem[y] else ZeroPage()
  }

  ghost function Copy(mem: map<Pos, Page>, m: nat, child: nat): map<Pos, Page> {
    map z | z in mem.Keys + (set y | y in mem && y.mm == m :: y.In(child)) :: if z in mem then mem[z] else mem[z.In(m)]
  }

  /** What the callers of each operation guarantee. */
  predicate Applicable(areas: map<nat, Areas>, ev: Event) {
    && (ev.New? || ev.m in areas)
    && match ev
       case New(m) => m !in areas
       case Load(_, _, _) => true
       case Store(_, _, _) => true
       case Fork(_, child) => child !in areas
       case Map(m, va, size, _, fixed) =>
         && size > 0 && va % PAGE == 0 && size % PAGE == 0 && va + size <= LIMIT
         && (fixed || VmaList.Clear(areas[m], va, va + size))
       case Unmap(m, va, len) =>
         len > 0 && va % PAGE == 0 ==> !VmaList.Torn(areas[m], va, VmaList.RangeEnd(va, len))
       case Protect(_, start, end, _) => start % PAGE == 0 && end % PAGE == 0
       case Exit(_) => true
  }

  /** One operation of the reference machine with a given outcome. */
  ghost predicate Next(s: State, ev: Event, out: Outcome, s': State) {
    if !Applicable(s.areas, ev) then out == Skipped && s' == s
    else
      match ev
      case New(m) =>
        if out == Done then s' == s.(areas := s.areas[m := []]) else out == NoMemory && s' == s
      case Load(m, va, kind) => NextLoad(s, m, va, kind, out, s')
      case Store(m, va, b) => NextStore(s, m, va, b, out, s')
      case Fork(m, child) =>
        if out == Done then s' == State(s.areas[child := s.areas[m]], Copy(s.mem, m, child))
        else out == NoMemory && s' == s
      case Map(m, va, size, prot, fixed) => NextMap(s, m, va, size, prot, fixed, out, s')
      case Unmap(m, va, len) => NextUnmap(s, m, va, len, out, s')
      case Protect(m, start, end, prot) => NextProtect(s, m, start, end, prot, out, s')
      case Exit(m) => out == Done && s' == State(s.areas - {m}, map y | y in s.mem && y.mm != m :: s.mem[y])
  }

  ghost predicate NextLoad(s: State, m: nat, va: nat, kind: Access, out: Outcome, s': State)
    requires m in s.areas
  {
    var y := SlotOf(m, va);
    if !MayRead(VmaList.At(s.areas[m], va), kind) then out == Fault && s' == s
    else if out == NoMemory then y !in s.mem && s' == s
    else
      && |PageAt(s.mem, y)| == PAGE && out == Byte(PageAt(s.mem, y)[va % PAGE])
      && s' == s.(mem := s.mem[y := PageAt(s.mem, y)])
  }

  ghost predicate NextStore(s: State, m: nat, va: nat, b: bv8, out: Outcome, s': State)
    requires m in s.areas
  {
    var y := SlotOf(m, va);
    if !MayWrite(VmaList.At(s.areas[m], va)) then out == Fault && s' == s
    else if out == NoMemory then s' == s
    else
      && out == Done && |PageAt(s.mem, y)| == PAGE
      && s' == s.(mem := s.mem[y := PageAt(s.mem, y)[va % PAGE := b]])
  }

  ghost predicate NextMap(s: State, m: nat, va: nat, size: nat, prot: VmaList.Prot, fixed: bool, out: Outcome,
                          s': State)
    requires m in s.areas
  {
    var e := va + size;
    var a := if fixed then VmaList.Erase(s.areas[m], va, e) else s.areas[m];
    var erased := s.(areas := s.areas[m := a], mem := if fixed then Drop(s.mem, m, va, e) else s.mem);
    if out == NoMemory then s' == s || s' == erased
    else
      var v := VmaList.Vma(va, e, VmaList.Flags(prot, false));
      out == Done && s' == erased.(areas := s.areas[m := VmaList.Insert(a, v)])
  }

  ghost predicate NextUnmap(s: State, m: nat, va: nat, len: nat, out: Outcome, s': State)
    requires m in s.areas
  {
    if len == 0 then out == Done && s' == s
    else if va % PAGE != 0 then out == Invalid && s' == s
    else if out == NoMemory then s' == s
    else
      var e := VmaList.RangeEnd(va, len);
      out == Done && s' == State(s.areas[m := VmaList.Erase(s.areas[m], va, e)], Sweep(s.mem, m, va, e))
  }

  ghost predicate NextProtect(s: State, m: nat, start: nat, end: nat, prot: VmaList.Prot, out: Outcome, s': State)
    requires m in s.areas
  {
    if start >= end then out == Invalid && s' == s
    else if out == NoMemory then
      s'.mem == s.mem && s'.areas.Keys == s.areas.Keys && s'.areas == s.areas[m := s'.areas[m]]
      && VmaList.SameMap(s.areas[m], s'.areas[m])
    else
      && out == Done && VmaList.Mapped(s.areas[m], start, end)
      && s' == s.(areas := s.areas[m := VmaList.Protect(s.areas[m], start, end, prot)])
  }

  /** states is a run of the reference machine through events with the outcomes outs. */
  ghost predicate IsRun(states: seq<State>, events: seq<Event>, outs: seq<Outcome>) {
    && |states| == |events| + 1 && |outs| == |events|
    && forall i | 0 <= i < |events| :: Next(states[i], events[i], outs[i], states[i + 1])
  }

  lemma Extend(states: seq<State>, events: seq<Event>, outs: seq<Outcome>, ev: Event, out: Outcome, s: State)
    requires IsRun(states, events, outs) && Next(states[|events|], ev, out, s)
    ensures IsRun(states + [s], events + [ev], outs + [out])
  {
  }

  // ------------------------------------------------------------------
  // What munmap is meant to do

  /** mem holds leaf slots only. */
  ghost predicate SlotsOnly(mem: map<Pos, Page>) {
    forall y | y in mem :: y.Slot? && y.InRange()
  }

  /** No page of [s, e) at or above 2^39 shares its slot with a page in memory outside the range. */
  ghost predicate NoAlias(mem: map<Pos, Page>, m: nat, s: nat, e: nat) {
    forall a: nat {:trigger SlotOf(m, a)} | s <= a < e && a % PAGE == 0 && LIMIT <= a ::
      SlotOf(m, a) !in mem || InRangeOf(SlotOf(m, a), m, s, e)
  }

  /** unmap_page on every page of a range takes exactly the pages of the range iff no address of it aliases. */
  lemma SweepIsDrop(mem: map<Pos, Page>, m: nat, s: nat, e: nat)
    requires SlotsOnly(mem)
    ensures Sweep(mem, m, s, e) == Drop(mem, m, s, e) <==> NoAlias(mem, m, s, e)
  {
    forall y | y in mem && InRangeOf(y, m, s, e) ensures Hit(y, m, s, e) {
      SlotOfVa(y);
      assert SlotOf(m, Va(y)) == y;
    }
    if NoAlias(mem, m, s, e) {
      forall y | y in mem && Hit(y, m, s, e) ensures InRangeOf(y, m, s, e) {
        HitInRange(mem, y, m, s, e);
      }
    } else {
      var a: nat :| s <= a < e && a % PAGE == 0 && SlotOf(m, a) in mem && !InRangeOf(SlotOf(m, a), m, s, e);
      assert Hit(SlotOf(m, a), m, s, e);
      assert SlotOf(m, a) in Drop(mem, m, s, e) && SlotOf(m, a) !in Sweep(mem, m, s, e);
    }
  }

  lemma HitInRange(mem: map<Pos, Page>, y: Pos, m: nat, s: nat, e: nat)
    requires y in mem && Hit(y, m, s, e) && NoAlias(mem, m, s, e)
    ensures InRangeOf(y, m, s, e)
  {
    var a: nat :| s <= a < e && a % PAGE == 0 && SlotOf(m, a) == y;
    if a < LIMIT {
      VaOfSlot(m, a);
    }
  }

  /** Below 2^39 nothing aliases. */
  lemma SweepLow(mem: map<Pos, Page>, m: nat, s: nat, e: nat)
    requires SlotsOnly(mem) && e <= LIMIT
    ensures Sweep(mem, m, s, e) == Drop(mem, m, s, e)
  {
    SweepIsDrop(mem, m, s, e);
  }

  /** At 2^39 + a the walk comes out at the page of a: it is taken although the VMA of a stays. */
  lemma SweptAway(s: State, m: nat, a: nat)
    requires m in s.areas && a % PAGE == 0 && a < LIMIT && SlotOf(m, a) in s.mem
    requires VmaList.Sorted(s.areas[m]) && VmaList.Aligned(s.areas[m], LIMIT)
    ensures Applicable(s.areas, Unmap(m, LIMIT + a, PAGE))
    ensures forall s' | Next(s, Unmap(m, LIMIT + a, PAGE), Done, s') ::
              s'.areas == s.areas && SlotOf(m, a) !in s'.mem
  {
    var va, e := LIMIT + a, LIMIT + a + PAGE;
    OnePageEnd(va);
    AliasHit(m, a);
    VmaList.EraseAbove(s.areas[m], va, e, LIMIT);
  }

  lemma OnePageEnd(va: nat)
    requires va % PAGE == 0 && va <= 2 * LIMIT
    ensures VmaList.RangeEnd(va, PAGE) == va + PAGE
  {
    VmaList.RangeEndFits(va, PAGE);
    VmaList.RoundUpLeast(va + PAGE);
  }

  lemma AliasHit(m: nat, a: nat)
    requires a % PAGE == 0
    ensures Hit(SlotOf(m, a), m, LIMIT + a, LIMIT + a + PAGE)
  {
    assert SlotOf(m, LIMIT + a) == SlotOf(m, a) by {
      OneTurn(a);
      SlotAliases(m, LIMIT + a, a);
    }
  }

  lemma OneTurn(a: nat)
    ensures (LIMIT + a) / PAGE % 0x800_0000 == a / PAGE % 0x800_0000
  {
    assert (LIMIT + a) / PAGE == 0x800_0000 + a / PAGE;
  }
}
