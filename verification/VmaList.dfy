/**
 * The VMA list of mm/mmap.c: a sorted list of disjoint intervals standing for
 * a partial map from address to flags.
 */
module VmaList {
  import opened Basics

  datatype Prot = Prot(r: bool, w: bool, x: bool)

  /** vm_flags: VM_READ, VM_WRITE, VM_EXEC and VM_STACK. */
  datatype Flags = Flags(prot: Prot, stack: bool)

  datatype Vma = Vma(start: nat, end: nat, flags: Flags)

  ghost predicate Sorted(a: seq<Vma>) {
    && (forall i | 0 <= i < |a| :: a[i].start < a[i].end)
    && (forall i, j | 0 <= i < j < |a| :: a[i].end <= a[j].start)
  }

  /** Sorted, read from the front: every VMA starts at or above the end of the one before. */
  ghost predicate Chain(a: seq<Vma>, lo: nat) {
    a == [] || (lo <= a[0].start < a[0].end && Chain(a[1..], a[0].end))
  }

  lemma {:induction false} ChainSorted(a: seq<Vma>, lo: nat)
    ensures Chain(a, lo) <==> Sorted(a) && forall i | 0 <= i < |a| :: lo <= a[i].start
  {
    if a != [] {
      var b := a[1..];
      ChainSorted(b, a[0].end);
      assert forall i | 0 < i < |a| :: a[i] == b[i - 1];
      assert forall i | 0 <= i < |b| :: b[i] == a[i + 1];
    }
  }

  lemma {:induction false} ChainWeaken(a: seq<Vma>, lo: nat, lo': nat)
    requires Chain(a, lo) && lo' <= lo
    ensures Chain(a, lo')
  {
  }

  /** What the list says about address x. */
  function At(a: seq<Vma>, x: nat): Option<Flags> {
    if a == [] then None
    else if a[0].start <= x < a[0].end then Some(a[0].flags)
    else At(a[1..], x)
  }

  lemma {:induction false} AtConcat(a: seq<Vma>, b: seq<Vma>, x: nat)
    ensures At(a + b, x) == if At(a, x).Some? then At(a, x) else At(b, x)
  {
    if a == [] {
      assert a + b == b;
    } else {
      assert (a + b)[1..] == a[1..] + b;
      AtConcat(a[1..], b, x);
    }
  }

  lemma {:induction false} AtNone(a: seq<Vma>, x: nat)
    ensures At(a, x).None? <==> forall i | 0 <= i < |a| :: !(a[i].start <= x < a[i].end)
  {
    if a != [] {
      AtNone(a[1..], x);
      assert forall i | 1 <= i < |a| :: a[i] == a[1..][i - 1];
    }
  }

  lemma {:induction false} AtIndex(a: seq<Vma>, i: nat, x: nat)
    requires Sorted(a) && i < |a| && a[i].start <= x < a[i].end
    ensures At(a, x) == Some(a[i].flags)
  {
    if i > 0 {
      assert a[0].end <= a[i].start;
      assert Sorted(a[1..]);
      AtIndex(a[1..], i - 1, x);
    }
  }

  // ------------------------------------------------------------------
  // Erasing a range

  function EraseOne(v: Vma, s: nat, e: nat): seq<Vma> {
    if v.end <= s || v.start >= e then [v]
    else (if v.start < s then [v.(end := s)] else []) + (if e < v.end then [v.(start := e)] else [])
  }

  function Erase(a: seq<Vma>, s: nat, e: nat): seq<Vma> {
    if a == [] then [] else EraseOne(a[0], s, e) + Erase(a[1..], s, e)
  }

  lemma {:induction false} EraseConcat(a: seq<Vma>, b: seq<Vma>, s: nat, e: nat)
    ensures Erase(a + b, s, e) == Erase(a, s, e) + Erase(b, s, e)
  {
    if a == [] {
      assert a + b == b;
    } else {
      assert (a + b)[1..] == a[1..] + b;
      EraseConcat(a[1..], b, s, e);
    }
  }

  lemma EraseOneAt(v: Vma, s: nat, e: nat, x: nat)
    requires s <= e
    ensures At(EraseOne(v, s, e), x) == if s <= x < e then None else At([v], x)
  {
    var l := if v.start < s then [v.(end := s)] else [];
    var r := if e < v.end then [v.(start := e)] else [];
    AtConcat(l, r, x);
  }

  /** Erasing removes exactly the range. */
  lemma {:induction false} EraseAt(a: seq<Vma>, s: nat, e: nat, x: nat)
    requires s <= e
    ensures At(Erase(a, s, e), x) == if s <= x < e then None else At(a, x)
  {
    if a != [] {
      EraseAt(a[1..], s, e, x);
      EraseOneAt(a[0], s, e, x);
      AtConcat(EraseOne(a[0], s, e), Erase(a[1..], s, e), x);
    }
  }

  lemma {:induction false} EraseChain(a: seq<Vma>, s: nat, e: nat, lo: nat)
    requires s <= e && Chain(a, lo)
    ensures Chain(Erase(a, s, e), lo)
  {
    if a != [] {
      EraseChain(a[1..], s, e, a[0].end);
      PiecesChain(a[0], EraseOne(a[0], s, e), Erase(a[1..], s, e), lo);
    }
  }

  /** One or two pieces of v, in order, go before a chain that starts above v. */
  lemma PiecesChain(v: Vma, p: seq<Vma>, q: seq<Vma>, lo: nat)
    requires lo <= v.start < v.end && Chain(q, v.end) && |p| <= 2
    requires forall i | 0 <= i < |p| :: v.start <= p[i].start < p[i].end <= v.end
    requires |p| == 2 ==> p[0].end <= p[1].start
    ensures Chain(p + q, lo)
  {
    var c := p + q;
    if |p| == 0 {
      assert c == q;
      ChainWeaken(q, v.end, lo);
    } else if |p| == 1 {
      assert c[1..] == q;
      ChainWeaken(q, v.end, p[0].end);
    } else {
      assert c[1..][1..] == q;
      ChainWeaken(q, v.end, p[1].end);
    }
  }

  lemma EraseSorted(a: seq<Vma>, s: nat, e: nat)
    requires s <= e && Sorted(a)
    ensures Sorted(Erase(a, s, e))
  {
    ChainSorted(a, 0);
    EraseChain(a, s, e, 0);
    ChainSorted(Erase(a, s, e), 0);
  }

  // ------------------------------------------------------------------
  // Inserting

  predicate Overlaps(v: Vma, s: nat, e: nat) {
    v.start < e && s < v.end
  }

  predicate Clear(a: seq<Vma>, s: nat, e: nat) {
    forall i | 0 <= i < |a| :: !Overlaps(a[i], s, e)
  }

  function Insert(a: seq<Vma>, v: Vma): seq<Vma> {
    if a != [] && a[0].start < v.start then [a[0]] + Insert(a[1..], v) else [v] + a
  }

  lemma {:induction false} InsertPlace(a: seq<Vma>, k: nat, v: Vma)
    requires k <= |a| && (forall i | 0 <= i < k :: a[i].start < v.start) && (k < |a| ==> v.start <= a[k].start)
    ensures Insert(a, v) == a[..k] + [v] + a[k..]
  {
    if k == 0 {
      assert a[..k] + [v] + a[k..] == [v] + a;
    } else {
      var b := a[1..];
      InsertPlace(b, k - 1, v);
      assert Insert(a, v) == [a[0]] + (b[..k - 1] + [v] + b[k - 1..]);
      assert [a[0]] + b[..k - 1] == a[..k] && b[k - 1..] == a[k..];
    }
  }

  lemma InsertSorted(a: seq<Vma>, k: nat, v: Vma)
    requires Sorted(a) && k <= |a| && v.start < v.end && Clear(a, v.start, v.end)
    requires forall i | 0 <= i < k :: a[i].start < v.start
    requires k < |a| ==> v.start <= a[k].start
    ensures Sorted(a[..k] + [v] + a[k..])
  {
    var b := a[..k] + [v] + a[k..];
    forall i, j | 0 <= i < j < |b| ensures b[i].end <= b[j].start {
      if i < k && j == k { assert !Overlaps(a[i], v.start, v.end); }
      if i == k && j > k {
        assert !Overlaps(a[k], v.start, v.end);
        assert a[k].start <= a[j - 1].start;
      }
    }
  }

  lemma InsertAt(a: seq<Vma>, k: nat, v: Vma, x: nat)
    requires Sorted(a) && k <= |a| && v.start < v.end && Clear(a, v.start, v.end)
    ensures At(a[..k] + [v] + a[k..], x) == if v.start <= x < v.end then Some(v.flags) else At(a, x)
  {
    AtConcat(a[..k] + [v], a[k..], x);
    AtConcat(a[..k], [v], x);
    AtConcat(a[..k], a[k..], x);
    assert a[..k] + a[k..] == a;
    if v.start <= x < v.end {
      forall i | 0 <= i < |a| ensures !(a[i].start <= x < a[i].end) {
        assert !Overlaps(a[i], v.start, v.end);
      }
      AtNone(a[..k], x);
    }
  }

  // ------------------------------------------------------------------
  // Changing protection

  function SplitOne(v: Vma, x: nat): seq<Vma> {
    if v.start < x < v.end then [v.(end := x), v.(start := x)] else [v]
  }

  function Split(a: seq<Vma>, x: nat): seq<Vma> {
    if a == [] then [] else SplitOne(a[0], x) + Split(a[1..], x)
  }

  lemma {:induction false} SplitAt(a: seq<Vma>, x: nat, y: nat)
    ensures At(Split(a, x), y) == At(a, y)
  {
    if a != [] {
      SplitAt(a[1..], x, y);
      AtConcat(SplitOne(a[0], x), Split(a[1..], x), y);
      if a[0].start < x < a[0].end {
        AtConcat([a[0].(end := x)], [a[0].(start := x)], y);
        assert SplitOne(a[0], x) == [a[0].(end := x)] + [a[0].(start := x)];
      }
      assert At(SplitOne(a[0], x), y) == At([a[0]], y);
    }
  }

  /** No VMA has x strictly inside. */
  ghost predicate CutAt(a: seq<Vma>, x: nat) {
    forall v | v in a :: v.end <= x || x <= v.start
  }

  /** The VMAs before index k are those before a cut. */
  lemma BeforeCut(a: seq<Vma>, k: nat, s: nat)
    requires Sorted(a) && CutAt(a, s) && k <= |a|
    requires (forall i | 0 <= i < k :: a[i].end <= s) && (k < |a| ==> s < a[k].end)
    ensures forall i | 0 <= i < |a| :: i < k <==> a[i].start < s
  {
    forall i | 0 <= i < |a| ensures i < k <==> a[i].start < s {
      assert a[i] in a;
      if i > k { assert a[k].end <= a[i].start; }
    }
  }

  lemma AfterStart(a: seq<Vma>, k: nat, e: nat)
    requires Sorted(a) && k <= |a| && (k < |a| ==> e <= a[k].start)
    ensures forall i | k <= i < |a| :: e <= a[i].start
  {
    forall i | k <= i < |a| ensures e <= a[i].start {
      if i > k { assert a[k].end <= a[i].start; }
    }
  }

  lemma {:induction false} SplitCuts(a: seq<Vma>, x: nat, z: nat)
    requires z == x || CutAt(a, z)
    ensures CutAt(Split(a, x), z)
  {
    if a != [] {
      SplitCuts(a[1..], x, z);
    }
  }

  lemma {:induction false} SplitChain(a: seq<Vma>, x: nat, lo: nat)
    requires Chain(a, lo)
    ensures Chain(Split(a, x), lo)
  {
    if a != [] {
      SplitChain(a[1..], x, a[0].end);
      PiecesChain(a[0], SplitOne(a[0], x), Split(a[1..], x), lo);
    }
  }

  function WithProt(f: Flags, p: Prot): Flags {
    f.(prot := p)
  }

  function ReflagOne(v: Vma, s: nat, e: nat, p: Prot): Vma {
    if s <= v.start < e then v.(flags := WithProt(v.flags, p)) else v
  }

  function Reflag(a: seq<Vma>, s: nat, e: nat, p: Prot): seq<Vma> {
    if a == [] then [] else [ReflagOne(a[0], s, e, p)] + Reflag(a[1..], s, e, p)
  }

  lemma {:induction false} ReflagIndex(a: seq<Vma>, s: nat, e: nat, p: Prot, b: seq<Vma>)
    requires |b| == |a| && forall i | 0 <= i < |a| :: b[i] == ReflagOne(a[i], s, e, p)
    ensures b == Reflag(a, s, e, p)
  {
    if a != [] {
      ReflagIndex(a[1..], s, e, p, b[1..]);
      assert b == [b[0]] + b[1..];
    }
  }

  function Protect(a: seq<Vma>, s: nat, e: nat, p: Prot): seq<Vma> {
    Reflag(Split(Split(a, s), e), s, e, p)
  }

  lemma {:induction false} ReflagChain(a: seq<Vma>, s: nat, e: nat, p: Prot, lo: nat)
    requires Chain(a, lo)
    ensures Chain(Reflag(a, s, e, p), lo)
  {
    if a != [] {
      ReflagChain(a[1..], s, e, p, a[0].end);
      var b := Reflag(a, s, e, p);
      assert b[1..] == Reflag(a[1..], s, e, p);
    }
  }

  function Changed(f: Option<Flags>, hit: bool, p: Prot): Option<Flags> {
    match f
    case None => None
    case Some(v) => Some(if hit then WithProt(v, p) else v)
  }

  lemma {:induction false} ReflagAt(a: seq<Vma>, s: nat, e: nat, p: Prot, x: nat)
    requires CutAt(a, s) && CutAt(a, e) && s <= e
    ensures At(Reflag(a, s, e, p), x) == Changed(At(a, x), s <= x < e, p)
  {
    if a != [] {
      ReflagAt(a[1..], s, e, p, x);
      var b := Reflag(a, s, e, p);
      assert b[1..] == Reflag(a[1..], s, e, p);
      assert a[0] in a;
    }
  }

  /** mprotect changes exactly the protection bits of the addresses in the range. */
  lemma ProtectAt(a: seq<Vma>, s: nat, e: nat, p: Prot, x: nat)
    requires s <= e
    ensures At(Protect(a, s, e, p), x) == Changed(At(a, x), s <= x < e, p)
  {
    var b := Split(a, s);
    SplitCuts(a, s, s);
    SplitCuts(b, e, s);
    SplitCuts(b, e, e);
    SplitAt(a, s, x);
    SplitAt(b, e, x);
    ReflagAt(Split(b, e), s, e, p, x);
  }

  /** Every address of [s, e) belongs to a VMA. */
  ghost predicate Mapped(a: seq<Vma>, s: nat, e: nat) {
    forall x: nat | s <= x < e :: At(a, x).Some?
  }

  /** Two lists that say the same about every address. */
  ghost predicate SameMap(a: seq<Vma>, b: seq<Vma>) {
    forall x: nat :: At(b, x) == At(a, x)
  }

  /** b differs from a in the protection of the addresses of [s, e) only. */
  ghost predicate ProtectedMap(a: seq<Vma>, b: seq<Vma>, s: nat, e: nat, p: Prot) {
    forall x: nat :: At(b, x) == Changed(At(a, x), s <= x < e, p)
  }

  /** b is a with the addresses of [s, e) given flags f. */
  ghost predicate AddedMap(a: seq<Vma>, b: seq<Vma>, s: nat, e: nat, f: Flags) {
    forall x: nat :: At(b, x) == if s <= x < e then Some(f) else At(a, x)
  }

  lemma EraseAbove(a: seq<Vma>, s: nat, e: nat, lim: nat)
    requires Aligned(a, lim) && lim <= s
    ensures Erase(a, s, e) == a
  {
    forall i | 0 <= i < |a| ensures a[i].end <= s { assert a[i] in a; }
    NotHit(a, s, e);
  }

  /** The end of the range do_munmap works on, in 64-bit arithmetic. */
  function RangeEnd(va: nat, len: nat): nat {
    (va + len + PAGE - 1) % 0x1_0000_0000_0000_0000 / PAGE * PAGE
  }

  lemma RangeEndFits(va: nat, len: nat)
    ensures RangeEnd(va, len) % PAGE == 0
    ensures va + len + PAGE <= 0x1_0000_0000_0000_0000 ==> RangeEnd(va, len) == RoundUp(va + len)
  {
  }

  /** The end wrapped round to below s, and some VMA reaches across both. */
  predicate Torn(a: seq<Vma>, s: nat, e: nat) {
    e < s && !Clear(a, s, e)
  }

  /** A wrapped range leaves the list alone, or duplicates the middle of a VMA. */
  lemma TornUnsorted(a: seq<Vma>, s: nat, e: nat)
    requires Sorted(a)
    ensures Sorted(Erase(a, s, e)) <==> !Torn(a, s, e)
    ensures e < s && !Torn(a, s, e) ==> Erase(a, s, e) == a
  {
    if s <= e {
      EraseSorted(a, s, e);
    } else {
      WrappedErase(a, s, e);
    }
  }

  /**
   * One mapping of 32 pages; the range from its middle has its end wrapped round to below the middle. munmap
   * tears the list, and so does mmap with MAP_FIXED, which takes the range for an empty one.
   */
  lemma WrapTears(f: Flags)
    ensures var a := [Vma(0x1_0000, 0x3_0000, f)]; var va, len := 0x2_0000, 0x1_0000_0000_0000_0000 - 0x8000;
            && Sorted(a) && RangeEnd(va, len) == 0x1_8000
            && Erase(a, va, RangeEnd(va, len)) == [Vma(0x1_0000, va, f), Vma(0x1_8000, 0x3_0000, f)]
            && !Sorted(Erase(a, va, RangeEnd(va, len)))
            && PlanFixed(va, len, 0x400_0000) == Empty(va, RangeEnd(va, len))
  {
    var a := [Vma(0x1_0000, 0x3_0000, f)];
    assert Overlaps(a[0], 0x2_0000, 0x1_8000);
    TornUnsorted(a, 0x2_0000, 0x1_8000);
  }

  lemma {:induction false} WrappedErase(a: seq<Vma>, s: nat, e: nat)
    requires Sorted(a) && e < s
    ensures Clear(a, s, e) ==> Erase(a, s, e) == a
    ensures !Clear(a, s, e) ==> !Sorted(Erase(a, s, e))
  {
    if a == [] {
    } else {
      var v, b := a[0], a[1..];
      var r := Erase(a, s, e);
      if Overlaps(v, s, e) {
        assert r[0].end == s && r[1].start == e;
      } else {
        assert Sorted(b) by { TailSorted(a); }
        WrappedErase(b, s, e);
        assert r == [v] + Erase(b, s, e) && r[1..] == Erase(b, s, e);
        ClearTail(a, s, e);
        TailSorted(r);
        assert a == [v] + b;
      }
    }
  }

  lemma ClearTail(a: seq<Vma>, s: nat, e: nat)
    requires a != []
    ensures Clear(a, s, e) <==> !Overlaps(a[0], s, e) && Clear(a[1..], s, e)
  {
    assert forall i | 0 <= i < |a| - 1 :: a[1..][i] == a[i + 1];
  }

  lemma TailSorted(r: seq<Vma>)
    requires r != []
    ensures Sorted(r) ==> Sorted(r[1..])
  {
    assert forall i | 0 <= i < |r| - 1 :: r[1..][i] == r[i + 1];
  }

  lemma EraseClears(a: seq<Vma>, s: nat, e: nat)
    requires s < e && Sorted(a)
    ensures Clear(Erase(a, s, e), s, e)
  {
    var b := Erase(a, s, e);
    EraseSorted(a, s, e);
    forall i | 0 <= i < |b| ensures !Overlaps(b[i], s, e) {
      if Overlaps(b[i], s, e) {
        var x := if b[i].start < s then s else b[i].start;
        EraseAt(a, s, e, x);
        AtIndex(b, i, x);
      }
    }
  }

  lemma AddedAfterErase(a: seq<Vma>, s: nat, e: nat, f: Flags)
    requires s < e
    ensures forall b :: AddedMap(Erase(a, s, e), b, s, e, f) ==> AddedMap(a, b, s, e, f)
  {
    forall b | AddedMap(Erase(a, s, e), b, s, e, f) ensures AddedMap(a, b, s, e, f) {
      forall x: nat ensures At(b, x) == if s <= x < e then Some(f) else At(a, x) {
        EraseAt(a, s, e, x);
      }
    }
  }

  lemma SplitSame(a: seq<Vma>, y: nat)
    ensures SameMap(a, Split(a, y))
  {
    forall x: nat { SplitAt(a, y, x); }
  }

  lemma ProtectMap(a: seq<Vma>, s: nat, e: nat, p: Prot)
    requires s <= e
    ensures ProtectedMap(a, Protect(a, s, e, p), s, e, p)
  {
    forall x: nat { ProtectAt(a, s, e, p, x); }
  }

  lemma ProtectSorted(a: seq<Vma>, s: nat, e: nat, p: Prot)
    requires Sorted(a)
    ensures Sorted(Protect(a, s, e, p))
  {
    ChainSorted(a, 0);
    SplitChain(a, s, 0);
    SplitChain(Split(a, s), e, 0);
    ReflagChain(Split(Split(a, s), e), s, e, p, 0);
    ChainSorted(Protect(a, s, e, p), 0);
  }

  // ------------------------------------------------------------------
  // The code

  datatype Errno = Ok | EINVAL | ENOMEM

  function RoundUp(x: nat): nat {
    (x + PAGE - 1) / PAGE * PAGE
  }

  /** [y, y + len) misses every VMA and ends at or below the stack. */
  ghost predicate Fits(a: seq<Vma>, y: nat, len: nat, limit: nat) {
    Clear(a, y, y + len) && y + len <= limit
  }

  // ---------- the place of a new mapping, in 64-bit arithmetic ----------

  function End64(va: nat, size: nat): nat {
    (va + size) % 0x1_0000_0000_0000_0000
  }

  /** find_unmapped_area from last on. */
  function Search(a: seq<Vma>, last: nat, size: nat, limit: nat): nat
    decreases |a|
  {
    if a == [] then (if End64(last, size) <= limit then last else 0)
    else if End64(last, size) <= a[0].start && End64(last, size) <= limit then last
    else Search(a[1..], if a[0].end > last then RoundUp(a[0].end) else last, size, limit)
  }

  /** va is the lowest page-aligned address from base on where size bytes fit below limit, or 0 when there is none. */
  ghost predicate FirstFit(a: seq<Vma>, base: nat, size: nat, limit: nat, va: nat) {
    && (va != 0 ==> base <= va && va % PAGE == 0 && Fits(a, va, size, limit))
    && forall y: nat | y % PAGE == 0 && base <= y && (va != 0 ==> y < va) :: !Fits(a, y, size, limit)
  }

  /** Where no sum wraps around, the search finds the first fit. */
  lemma SearchFirst(a: seq<Vma>, base: nat, size: nat, limit: nat, top: nat)
    requires Sorted(a) && size > 0 && 0 < base <= top && (forall i | 0 <= i < |a| :: a[i].end <= top)
    requires top + PAGE + size <= 0x1_0000_0000_0000_0000
    ensures FirstFit(a, base, size, limit, Search(a, RoundUp(base), size, limit))
  {
    RoundUpLeast(base);
    assert a[0..] == a;
    SearchFrom(a, 0, RoundUp(base), base, size, limit, top);
  }

  lemma {:induction false} SearchFrom(a: seq<Vma>, i: nat, last: nat, base: nat, size: nat, limit: nat, top: nat)
    requires Sorted(a) && size > 0 && i <= |a| && (forall j | 0 <= j < |a| :: a[j].end <= top)
    requires top + PAGE + size <= 0x1_0000_0000_0000_0000 && 0 < base <= last < top + PAGE && last % PAGE == 0
    requires forall j | 0 <= j < i :: a[j].end <= last
    requires forall y: nat | y % PAGE == 0 && base <= y < last :: !Fits(a, y, size, limit)
    ensures FirstFit(a, base, size, limit, Search(a[i..], last, size, limit))
    decreases |a| - i
  {
    assert End64(last, size) == last + size;
    if i == |a| {
      assert a[i..] == [];
    } else {
      assert a[i..][0] == a[i] && a[i..][1..] == a[i + 1..];
      if last + size <= a[i].start && last + size <= limit {
        FitsBefore(a, i, last, size);
      } else if a[i].end > last {
        NoneInside(a, i, last, size, limit);
        RoundUpLeast(a[i].end);
        SearchFrom(a, i + 1, RoundUp(a[i].end), base, size, limit, top);
      } else {
        SearchFrom(a, i + 1, last, base, size, limit, top);
      }
    }
  }

  /** What the search returns is clear unless its end wraps. */
  lemma {:induction false} SearchClear(a: seq<Vma>, i: nat, last: nat, size: nat, limit: nat)
    requires Sorted(a) && i <= |a| && last % PAGE == 0 && forall j | 0 <= j < i :: a[j].end <= last
    ensures var va := Search(a[i..], last, size, limit);
            && (va != 0 ==> va % PAGE == 0 && End64(va, size) <= limit)
            && (va != 0 && End64(va, size) == va + size ==> Clear(a, va, va + size))
    decreases |a| - i
  {
    if i == |a| {
      assert a[i..] == [];
    } else {
      assert a[i..][0] == a[i] && a[i..][1..] == a[i + 1..];
      if End64(last, size) <= a[i].start && End64(last, size) <= limit {
        if End64(last, size) == last + size {
          FitsBefore(a, i, last, size);
        }
      } else {
        RoundUpLeast(a[i].end);
        SearchClear(a, i + 1, if a[i].end > last then RoundUp(a[i].end) else last, size, limit);
      }
    }
  }

  /** What do_mmap makes of its arguments; Empty is a range whose end wraps to its start or below. */
  datatype Plan = Refused | NoRoom | Empty(va: nat, e: nat) | Place(va: nat, size: nat)

  function At64(va: nat, size: nat): Plan {
    if End64(va, size) <= va then Empty(va, End64(va, size)) else Place(va, size)
  }

  function PlanAnywhere(a: seq<Vma>, base: nat, len: nat, limit: nat): Plan {
    var size := RangeEnd(0, len);
    var va := Search(a, RoundUp(base), size, limit);
    if va == 0 then NoRoom else At64(va, size)
  }

  function PlanFixed(addr: nat, len: nat, limit: nat): Plan {
    var size, va := RangeEnd(0, len), addr / PAGE * PAGE;
    if va == 0 || End64(va, size) > limit then Refused else At64(va, size)
  }

  /** A range is page-aligned; a place is not empty and below the limit. */
  ghost predicate Sensible(p: Plan, limit: nat) {
    match p
    case Place(va, size) => va % PAGE == 0 && size % PAGE == 0 && size > 0 && va + size <= limit
    case Empty(va, e) => va % PAGE == 0 && e % PAGE == 0 && e <= va
    case _ => true
  }

  lemma AnywhereFacts(a: seq<Vma>, base: nat, len: nat, limit: nat)
    requires Sorted(a)
    ensures var p := PlanAnywhere(a, base, len, limit);
            Sensible(p, limit) && (p.Place? ==> Clear(a, p.va, p.va + p.size))
  {
    var size := RangeEnd(0, len);
    RoundUpLeast(base);
    assert a[0..] == a;
    SearchClear(a, 0, RoundUp(base), size, limit);
    var va := Search(a, RoundUp(base), size, limit);
    NotWrapped(va, size);
    AlignedEnd(va, size);
  }

  lemma FixedFacts(addr: nat, len: nat, limit: nat)
    ensures Sensible(PlanFixed(addr, len, limit), limit)
  {
    var size, va := RangeEnd(0, len), addr / PAGE * PAGE;
    NotWrapped(va, size);
    AlignedEnd(va, size);
  }

  lemma AlignedEnd(va: nat, size: nat)
    requires size % PAGE == 0
    ensures va % PAGE == 0 ==> End64(va, size) % PAGE == 0
  {
    if va % PAGE == 0 {
      var n := va + size;
      var k, q := n / PAGE, n / 0x1_0000_0000_0000_0000;
      assert n == k * PAGE && End64(va, size) == n - q * 0x1_0000_0000_0000_0000;
      assert End64(va, size) == (k - q * 0x10_0000_0000_0000) * PAGE;
    }
  }

  lemma NotWrapped(va: nat, size: nat)
    requires size < 0x1_0000_0000_0000_0000
    ensures va < End64(va, size) ==> End64(va, size) == va + size && size > 0
  {
  }

  /** A range is empty exactly when rounding the length up made it 0 or its end is not below 2^64. */
  lemma EmptyExactly(va: nat, len: nat)
    requires va < 0x1_0000_0000_0000_0000 && len < 0x1_0000_0000_0000_0000
    ensures At64(va, RangeEnd(0, len)).Empty? <==>
              len == 0 || len > 0x1_0000_0000_0000_0000 - PAGE || va + RoundUp(len) >= 0x1_0000_0000_0000_0000
  {
    if len <= 0x1_0000_0000_0000_0000 - PAGE {
      RangeEndFits(0, len);
      RoundUpLeast(len);
    }
  }

  class Mm {
    var mmap: seq<Vma>
    var mmapBase: nat

    ghost predicate Valid()
      reads this
    {
      Sorted(mmap)
    }

    constructor (list: seq<Vma>, base: nat)
      ensures mmap == list && mmapBase == base
    {
      mmap, mmapBase := list, base;
    }

    /** find_vma: the first VMA that ends above addr, |mmap| for none. */
    method FindVma(addr: nat) returns (k: nat)
      requires Valid()
      ensures k <= |mmap|
      ensures forall i | 0 <= i < k :: mmap[i].end <= addr
      ensures k < |mmap| ==> addr < mmap[k].end
      ensures At(mmap, addr) == if k < |mmap| && mmap[k].start <= addr then Some(mmap[k].flags) else None
    {
      k := 0;
      while k < |mmap| && mmap[k].end <= addr
        invariant k <= |mmap|
        invariant forall i | 0 <= i < k :: mmap[i].end <= addr
      {
        k := k + 1;
      }
      if k < |mmap| && mmap[k].start <= addr {
        AtIndex(mmap, k, addr);
      } else {
        AtNone(mmap, addr);
      }
    }

    /** insert_vma: succeeds exactly when the interval is non-empty and overlaps nothing. */
    method InsertVma(v: Vma) returns (err: Errno)
      requires Valid()
      modifies this`mmap
      ensures Valid()
      ensures err == Ok <==> v.start < v.end && Clear(old(mmap), v.start, v.end)
      ensures err == Ok ==> mmap == Insert(old(mmap), v) && AddedMap(old(mmap), mmap, v.start, v.end, v.flags)
      ensures err != Ok ==> mmap == old(mmap) && err == EINVAL
    {
      if v.start >= v.end {
        return EINVAL;
      }
      var k := 0;
      while k < |mmap| && mmap[k].start < v.start
        invariant k <= |mmap|
        invariant forall i | 0 <= i < k :: mmap[i].start < v.start
      {
        k := k + 1;
      }
      if k < |mmap| && v.end > mmap[k].start {
        assert Overlaps(mmap[k], v.start, v.end);
        return EINVAL;
      }
      if k > 0 && mmap[k - 1].end > v.start {
        assert Overlaps(mmap[k - 1], v.start, v.end);
        return EINVAL;
      }
      forall i | 0 <= i < |mmap| ensures !Overlaps(mmap[i], v.start, v.end) {
        if i < k - 1 { assert mmap[i].end <= mmap[k - 1].start; }
        if i > k { assert mmap[k].end <= mmap[i].start; }
      }
      InsertPlace(mmap, k, v);
      InsertSorted(mmap, k, v);
      forall x: nat { InsertAt(mmap, k, v, x); }
      mmap := mmap[..k] + [v] + mmap[k..];
      return Ok;
    }

    /** vma_erase_range: removes exactly [s, e), or fails and changes nothing. */
    method EraseRange(s: nat, e: nat) returns (err: Errno)
      requires Valid()
      modifies this`mmap
      ensures err == Ok || err == ENOMEM
      ensures err == Ok ==> mmap == Erase(old(mmap), s, e) && (Valid() <==> !Torn(old(mmap), s, e))
      ensures err == ENOMEM ==> Valid() && mmap == old(mmap) && exists v | v in mmap :: v.start < s && e < v.end
    {
      TornUnsorted(mmap, s, e);
      err := EraseEach(s, e);
    }

    /** The loop of vma_erase_range. */
    method EraseEach(s: nat, e: nat) returns (err: Errno)
      requires Valid()
      modifies this`mmap
      ensures err == Ok || err == ENOMEM
      ensures err == Ok ==> mmap == Erase(old(mmap), s, e)
      ensures err == ENOMEM ==> mmap == old(mmap) && exists v | v in mmap :: v.start < s && e < v.end
    {
      ghost var a := mmap;
      ghost var j := 0;
      var i := 0;
      while i < |mmap|
        invariant 0 <= j <= |a|
        invariant i == |Erase(a[..j], s, e)|
        invariant mmap == Erase(a[..j], s, e) + a[j..]
        decreases |a| - j
      {
        ghost var before := mmap;
        AtSeam(Erase(a[..j], s, e), a, j);
        err, i := EraseStep(i, s, e);
        if err == ENOMEM {
          Untouched(a, j, s, e);
          return;
        }
        EraseNext(a, j, s, e, before, mmap);
        j := j + 1;
      }
      EraseDone(a, j, s, e);
      return Ok;
    }

    /** vma_split: cuts the VMA with index k at addr when addr is strictly inside. */
    method SplitVma(k: nat, addr: nat) returns (err: Errno)
      requires k < |mmap|
      modifies this`mmap
      ensures err == Ok || err == ENOMEM
      ensures err == Ok ==> mmap == old(mmap)[..k] + SplitOne(old(mmap)[k], addr) + old(mmap)[k + 1..]
      ensures err == ENOMEM ==> mmap == old(mmap)
    {
      var v := mmap[k];
      if addr <= v.start || addr >= v.end {
        return Ok;
      }
      var noMemory: bool := *;
      if noMemory {
        return ENOMEM;
      }
      mmap := mmap[..k] + [v.(end := addr), v.(start := addr)] + mmap[k + 1..];
      return Ok;
    }

    /** find_vma at the address just below a boundary (or at it) and vma_split there. */
    method CutBoundary(find: nat, x: nat) returns (err: Errno)
      requires Valid() && find <= x <= find + 1
      modifies this`mmap
      ensures Valid() && (err == Ok || err == ENOMEM)
      ensures err == Ok ==> mmap == Split(old(mmap), x)
      ensures err == ENOMEM ==> mmap == old(mmap)
    {
      ghost var a := mmap;
      var k := FindVma(find);
      ChainSorted(a, 0);
      SplitChain(a, x, 0);
      ChainSorted(Split(a, x), 0);
      CutAround(a, k, x);
      if k < |mmap| {
        SplitIndex(a, k, x);
        err := SplitVma(k, x);
      } else {
        assert a[..k] == a;
        SplitNone(a, x);
        err := Ok;
      }
    }

    /** mprotect_covered: every address of [s, e) belongs to a VMA. */
    method Covered(s: nat, e: nat) returns (yes: bool)
      requires Valid()
      ensures yes <==> Mapped(mmap, s, e)
    {
      var va := s;
      while va < e
        invariant s <= va
        invariant forall x: nat | s <= x < va && x < e :: At(mmap, x).Some?
        decreases e - va
      {
        var k := FindVma(va);
        if k == |mmap| || mmap[k].start > va {
          assert At(mmap, va).None?;
          return false;
        }
        forall x: nat | va <= x < mmap[k].end ensures At(mmap, x).Some? {
          AtIndex(mmap, k, x);
        }
        va := mmap[k].end;
      }
      return true;
    }

    /** The loop of mm_mprotect over the VMAs that start inside the range. */
    method SetProt(s: nat, e: nat, p: Prot)
      requires Valid() && CutAt(mmap, s) && CutAt(mmap, e) && s < e
      modifies this`mmap
      ensures mmap == Reflag(old(mmap), s, e, p)
    {
      ghost var a := mmap;
      var k := FindVma(s);
      BeforeCut(a, k, s);
      while k < |mmap| && mmap[k].start < e
        invariant k <= |mmap| == |a|
        invariant forall i | 0 <= i < k :: mmap[i] == ReflagOne(a[i], s, e, p)
        invariant forall i | k <= i < |a| :: mmap[i] == a[i] && s <= a[i].start
      {
        mmap := mmap[k := mmap[k].(flags := WithProt(mmap[k].flags, p))];
        k := k + 1;
      }
      assert forall i | k <= i < |a| :: e <= a[i].start by { AfterStart(a, k, e); }
      ReflagIndex(a, s, e, p, mmap);
    }

    /** mm_mprotect on the VMA list: all or nothing, as a map. */
    method Mprotect(s: nat, e: nat, p: Prot) returns (err: Errno)
      requires Valid()
      modifies this`mmap
      ensures Valid()
      ensures err == EINVAL <==> s >= e
      ensures err == Ok ==> Mapped(old(mmap), s, e) && mmap == Protect(old(mmap), s, e, p)
      ensures err == Ok ==> ProtectedMap(old(mmap), mmap, s, e, p)
      ensures err != Ok ==> SameMap(old(mmap), mmap) && (mmap == old(mmap) || mmap == Split(old(mmap), s))
      ensures s < e && !Mapped(old(mmap), s, e) ==> err == ENOMEM
    {
      if s >= e {
        return EINVAL;
      }
      var covered := Covered(s, e);
      if !covered {
        return ENOMEM;
      }
      ghost var a := mmap;
      err := CutBoundary(s, s);
      if err != Ok {
        return;
      }
      ghost var b := mmap;
      SplitSame(a, s);
      err := CutBoundary(e - 1, e);
      if err != Ok {
        return;
      }
      SplitCuts(a, s, s);
      SplitCuts(b, e, s);
      SplitCuts(b, e, e);
      SetProt(s, e, p);
      ProtectSorted(a, s, e, p);
      ProtectMap(a, s, e, p);
    }

    /** find_unmapped_area. */
    method FindUnmappedArea(len: nat, limit: nat) returns (r: nat)
      ensures r == Search(mmap, RoundUp(mmapBase), len, limit)
    {
      var last := RoundUp(mmapBase);
      var i := 0;
      assert mmap[0..] == mmap;
      while i < |mmap|
        invariant i <= |mmap|
        invariant Search(mmap, RoundUp(mmapBase), len, limit) == Search(mmap[i..], last, len, limit)
      {
        assert mmap[i..][0] == mmap[i] && mmap[i..][1..] == mmap[i + 1..];
        if End64(last, len) <= mmap[i].start && End64(last, len) <= limit {
          return last;
        }
        if mmap[i].end > last {
          last := RoundUp(mmap[i].end);
        }
        i := i + 1;
      }
      assert mmap[i..] == [];
      if End64(last, len) <= limit {
        return last;
      }
      return 0;
    }

    /** do_mmap with a place chosen by the kernel. */
    method MmapAnywhere(len: nat, p: Prot, limit: nat) returns (err: Errno, va: nat)
      requires Valid()
      modifies this
      ensures Valid()
      ensures match PlanAnywhere(old(mmap), old(mmapBase), len, limit)
              case Refused => true
              case NoRoom => err == ENOMEM
              case Empty(_, _) => err == EINVAL || err == ENOMEM
              case Place(at, size) =>
                && va == at && (err == Ok || err == ENOMEM)
                && (err == Ok ==> AddedMap(old(mmap), mmap, va, va + size, Flags(p, false)))
                && (err == Ok ==> mmapBase == if va + size > old(mmapBase) then va + size else old(mmapBase))
      ensures err != Ok ==> mmap == old(mmap) && mmapBase == old(mmapBase)
    {
      AnywhereFacts(mmap, mmapBase, len, limit);
      var size := RangeEnd(0, len);
      va := FindUnmappedArea(size, limit);
      if va == 0 {
        return ENOMEM, 0;
      }
      NotWrapped(va, size);
      err := Record(va, End64(va, size), p);
    }

    /** do_mmap with MAP_FIXED: whatever was in the range is unmapped first, even when the range is empty. */
    method MmapFixed(addr: nat, len: nat, p: Prot, limit: nat) returns (err: Errno, va: nat)
      requires Valid()
      modifies this
      ensures va == addr / PAGE * PAGE
      ensures match PlanFixed(addr, len, limit)
              case Refused => err == EINVAL && mmap == old(mmap) && mmapBase == old(mmapBase) && Valid()
              case NoRoom => true
              case Empty(_, e) =>
                && (err == EINVAL || err == ENOMEM) && mmapBase == old(mmapBase)
                && (mmap == old(mmap) || mmap == Erase(old(mmap), va, e))
                && (Valid() <==> mmap == old(mmap) || !Torn(old(mmap), va, e))
              case Place(_, size) =>
                && Valid() && (err == Ok || err == ENOMEM)
                && (err == Ok ==> AddedMap(old(mmap), mmap, va, va + size, Flags(p, false)))
                && (err == Ok ==> mmapBase == if va + size > old(mmapBase) then va + size else old(mmapBase))
                && (err != Ok ==> mmap == old(mmap) || mmap == Erase(old(mmap), va, va + size))
                && (err != Ok ==> mmapBase == old(mmapBase))
    {
      FixedFacts(addr, len, limit);
      var size := RangeEnd(0, len);
      va := addr / PAGE * PAGE;
      var e := End64(va, size);
      if va == 0 || e > limit {
        return EINVAL, va;
      }
      NotWrapped(va, size);
      ghost var a := mmap;
      TornUnsorted(a, va, e);
      err := EraseRange(va, e);
      if err != Ok {
        return;
      }
      if va < e {
        EraseClears(a, va, e);
        AddedAfterErase(a, va, e, Flags(p, false));
      }
      err := Record(va, e, p);
    }

    /** vma_alloc, insert_vma and the new mmap_base, for a range known to be clear. */
    method Record(va: nat, e: nat, p: Prot) returns (err: Errno)
      requires va < e ==> Valid() && Clear(mmap, va, e)
      modifies this
      ensures err == Ok ==> va < e && Valid() && AddedMap(old(mmap), mmap, va, e, Flags(p, false))
      ensures err == Ok ==> mmapBase == if e > old(mmapBase) then e else old(mmapBase)
      ensures err != Ok ==> mmap == old(mmap) && mmapBase == old(mmapBase)
      ensures err == Ok || err == ENOMEM || (err == EINVAL && va >= e)
    {
      var noMemory: bool := *;
      if noMemory {
        return ENOMEM;
      }
      if va >= e {
        return EINVAL;
      }
      err := InsertVma(Vma(va, e, Flags(p, false)));
      if e > mmapBase {
        mmapBase := e;
      }
    }

    /** The body of the loop of vma_erase_range, at the VMA with index i; k is the next one. */
    method EraseStep(i: nat, s: nat, e: nat) returns (err: Errno, k: nat)
      requires i < |mmap|
      modifies this`mmap
      ensures err == Ok || err == ENOMEM
      ensures err == Ok ==> mmap == old(mmap)[..i] + EraseOne(old(mmap)[i], s, e) + old(mmap)[i + 1..]
                            && k == i + |EraseOne(old(mmap)[i], s, e)|
      ensures err == ENOMEM ==> mmap == old(mmap) && mmap[i].start < s && e < mmap[i].end
    {
      var v := mmap[i];
      err, k := Ok, i;
      if v.end <= s || v.start >= e {
        k := i + 1;
      } else if s <= v.start && e >= v.end {
        mmap := mmap[..i] + mmap[i + 1..];
      } else if s <= v.start && e < v.end {
        mmap := mmap[i := v.(start := e)];
        k := i + 1;
      } else if s > v.start && e >= v.end {
        mmap := mmap[i := v.(end := s)];
        k := i + 1;
      } else {
        var noMemory: bool := *;
        if noMemory {
          return ENOMEM, i;
        }
        mmap := mmap[..i] + [v.(end := s), v.(start := e)] + mmap[i + 1..];
        k := i + 2;
      }
    }
  }

  lemma RoundUpLeast(x: nat)
    ensures RoundUp(x) % PAGE == 0 && x <= RoundUp(x)
    ensures forall y: nat | y % PAGE == 0 && x <= y :: RoundUp(x) <= y
  {
    forall y: nat | y % PAGE == 0 && x <= y ensures RoundUp(x) <= y {
      assert y == y / PAGE * PAGE;
      assert (x + PAGE - 1) / PAGE <= (y + PAGE - 1) / PAGE;
    }
  }

  lemma FitsBefore(a: seq<Vma>, i: nat, y: nat, len: nat)
    requires Sorted(a) && i < |a| && y + len <= a[i].start
    requires forall j | 0 <= j < i :: a[j].end <= y
    ensures Clear(a, y, y + len)
  {
    forall j | 0 <= j < |a| ensures !Overlaps(a[j], y, y + len) {
      if j > i { assert a[i].end <= a[j].start; }
    }
  }

  /** Nothing fits between a candidate that was refused and the end of the VMA in its way. */
  lemma NoneInside(a: seq<Vma>, i: nat, last: nat, len: nat, limit: nat)
    requires i < |a| && len > 0 && !(last + len <= a[i].start && last + len <= limit)
    ensures forall y: nat | last <= y < a[i].end :: !Fits(a, y, len, limit)
  {
    forall y: nat | last <= y < a[i].end ensures !Fits(a, y, len, limit) {
      if y + len <= limit {
        assert Overlaps(a[i], y, y + len);
      }
    }
  }

  lemma {:induction false} SplitConcat(a: seq<Vma>, b: seq<Vma>, x: nat)
    ensures Split(a + b, x) == Split(a, x) + Split(b, x)
  {
    if a == [] {
      assert a + b == b;
    } else {
      assert (a + b)[1..] == a[1..] + b;
      SplitConcat(a[1..], b, x);
    }
  }

  lemma {:induction false} SplitNone(a: seq<Vma>, x: nat)
    requires CutAt(a, x)
    ensures Split(a, x) == a
  {
    if a != [] {
      assert a[0] in a;
      assert CutAt(a[1..], x);
      SplitNone(a[1..], x);
    }
  }

  lemma SplitIndex(a: seq<Vma>, k: nat, x: nat)
    requires k < |a| && CutAt(a[..k], x) && CutAt(a[k + 1..], x)
    ensures Split(a, x) == a[..k] + SplitOne(a[k], x) + a[k + 1..]
  {
    assert a == a[..k] + ([a[k]] + a[k + 1..]);
    SplitConcat(a[..k], [a[k]] + a[k + 1..], x);
    SplitNone(a[..k], x);
    SplitNone(a[k + 1..], x);
    assert ([a[k]] + a[k + 1..])[1..] == a[k + 1..];
  }

  /** In a sorted list only the VMA around x can have x inside. */
  lemma CutAround(a: seq<Vma>, k: nat, x: nat)
    requires Sorted(a) && k <= |a|
    requires forall i | 0 <= i < k :: a[i].end <= x
    requires k < |a| ==> x <= a[k].end
    ensures CutAt(a[..k], x) && (k < |a| ==> CutAt(a[k + 1..], x))
  {
    if k < |a| {
      forall v | v in a[k + 1..] ensures x <= v.start {
        var i :| k + 1 <= i < |a| && a[i] == v;
      }
    }
  }

  lemma EraseNext(a: seq<Vma>, j: nat, s: nat, e: nat, b: seq<Vma>, c: seq<Vma>)
    requires j < |a| && b == Erase(a[..j], s, e) + a[j..]
    requires var i := |Erase(a[..j], s, e)|; c == b[..i] + EraseOne(a[j], s, e) + b[i + 1..]
    ensures c == Erase(a[..j + 1], s, e) + a[j + 1..]
    ensures |Erase(a[..j + 1], s, e)| == |Erase(a[..j], s, e)| + |EraseOne(a[j], s, e)|
  {
    EraseSnoc(a, j, s, e);
    Around(Erase(a[..j], s, e), a, j);
  }

  lemma AtSeam(p: seq<Vma>, a: seq<Vma>, j: nat)
    requires j <= |a| && |p| < |p + a[j..]|
    ensures j < |a| && (p + a[j..])[|p|] == a[j] && a[j] in a
  {
  }

  lemma EraseSnoc(a: seq<Vma>, j: nat, s: nat, e: nat)
    requires j < |a|
    ensures Erase(a[..j + 1], s, e) == Erase(a[..j], s, e) + EraseOne(a[j], s, e)
  {
    assert a[..j + 1] == a[..j] + [a[j]];
    EraseConcat(a[..j], [a[j]], s, e);
    assert Erase([a[j]], s, e) == EraseOne(a[j], s, e) + [];
  }

  lemma Around(d: seq<Vma>, a: seq<Vma>, j: nat)
    requires j < |a|
    ensures (d + a[j..])[..|d|] == d && (d + a[j..])[|d| + 1..] == a[j + 1..]
  {
  }

  lemma EraseDone(a: seq<Vma>, j: nat, s: nat, e: nat)
    requires j <= |a| && |Erase(a[..j], s, e) + a[j..]| <= |Erase(a[..j], s, e)|
    ensures Erase(a[..j], s, e) + a[j..] == Erase(a, s, e)
  {
    assert a[..j] == a;
  }

  /** VMAs before one that strictly contains the range are not in its way. */
  lemma Untouched(a: seq<Vma>, j: nat, s: nat, e: nat)
    requires Sorted(a) && j < |a| && a[j].start < s
    ensures Erase(a[..j], s, e) + a[j..] == a
  {
    NotHit(a[..j], s, e);
    assert a[..j] + a[j..] == a;
  }

  lemma {:induction false} NotHit(a: seq<Vma>, s: nat, e: nat)
    requires forall i | 0 <= i < |a| :: a[i].end <= s
    ensures Erase(a, s, e) == a
  {
    if a != [] {
      NotHit(a[1..], s, e);
    }
  }

  // ------------------------------------------------------------------
  // Page granularity

  /** Every VMA starts and ends on a page boundary at or below lim. */
  ghost predicate Aligned(a: seq<Vma>, lim: nat) {
    forall v | v in a :: v.start % PAGE == 0 && v.end % PAGE == 0 && v.end <= lim
  }

  /** All addresses of a page have the same flags. */
  lemma {:induction false} AtPage(a: seq<Vma>, lim: nat, x: nat)
    requires Aligned(a, lim)
    ensures At(a, x) == At(a, x - x % PAGE)
    ensures At(a, x).Some? ==> x < lim
  {
    if a != [] {
      assert a[0] in a;
      assert a[0].start <= x <==> a[0].start <= x - x % PAGE;
      assert x < a[0].end <==> x - x % PAGE < a[0].end;
      AtPage(a[1..], lim, x);
    }
  }

  lemma {:induction false} EraseAligned(a: seq<Vma>, s: nat, e: nat, lim: nat)
    requires Aligned(a, lim) && s % PAGE == 0 && e % PAGE == 0
    ensures Aligned(Erase(a, s, e), lim)
  {
    if a != [] {
      assert a[0] in a;
      EraseAligned(a[1..], s, e, lim);
    }
  }

  lemma {:induction false} SplitAligned(a: seq<Vma>, x: nat, lim: nat)
    requires Aligned(a, lim) && x % PAGE == 0
    ensures Aligned(Split(a, x), lim)
  {
    if a != [] {
      assert a[0] in a;
      SplitAligned(a[1..], x, lim);
    }
  }

  lemma {:induction false} ReflagAligned(a: seq<Vma>, s: nat, e: nat, p: Prot, lim: nat)
    requires Aligned(a, lim)
    ensures Aligned(Reflag(a, s, e, p), lim)
  {
    if a != [] {
      assert a[0] in a;
      ReflagAligned(a[1..], s, e, p, lim);
    }
  }

  lemma ProtectAligned(a: seq<Vma>, s: nat, e: nat, p: Prot, lim: nat)
    requires Aligned(a, lim) && s % PAGE == 0 && e % PAGE == 0
    ensures Aligned(Protect(a, s, e, p), lim)
  {
    SplitAligned(a, s, lim);
    SplitAligned(Split(a, s), e, lim);
    ReflagAligned(Split(Split(a, s), e), s, e, p, lim);
  }

  function PlaceOf(a: seq<Vma>, s: nat): (k: nat)
    ensures k <= |a| && (forall i | 0 <= i < k :: a[i].start < s) && (k < |a| ==> s <= a[k].start)
  {
    if a != [] && a[0].start < s then 1 + PlaceOf(a[1..], s) else 0
  }

  lemma InsertGood(a: seq<Vma>, v: Vma)
    requires Sorted(a) && v.start < v.end && Clear(a, v.start, v.end)
    ensures Sorted(Insert(a, v)) && AddedMap(a, Insert(a, v), v.start, v.end, v.flags)
    ensures forall u :: u in Insert(a, v) <==> u == v || u in a
  {
    var k := PlaceOf(a, v.start);
    InsertPlace(a, k, v);
    InsertSorted(a, k, v);
    forall x: nat { InsertAt(a, k, v, x); }
    assert a == a[..k] + a[k..];
  }
}
