/**
 The allocator of user virtual address ranges: a bump pointer and a sorted array of the ranges
 that were given back. Sizes are 64-bit and wrap.
 */
module Valloc {
  import opened Sizes
  import opened Options
  import opened VSpans

  const VSPACE_BASE: nat := 0x0800_0000
  const VSPACE_TOP: nat := 0x8000_0000
  const MAX_FREE: nat := 64
  /** The number of pages between the two ends of the window. */
  const WINDOW_PAGES: nat := 0x7_8000

  datatype FreeRegion = FreeRegion(base: nat, pages: nat) {
    function End(): nat { base + pages * PAGE_SIZE }
  }

  const ZERO := FreeRegion(0, 0)

  function AddrOf(page: nat): nat { VSPACE_BASE + page * PAGE_SIZE }

  function RegionOf(s: Span): FreeRegion { FreeRegion(AddrOf(s.lo), s.n) }

  /** `k` is the lowest page at which `n` pages that are not live start. */
  ghost predicate FirstRun(live: set<nat>, k: nat, n: nat) {
    NoneLive(live, k, n) && forall j: nat | NoneLive(live, j, n) :: k <= j
  }

  /** Nowhere in the window are `n` consecutive pages not live. */
  ghost predicate NoRun(live: set<nat>, n: nat) {
    forall k: nat | k + n <= WINDOW_PAGES :: !NoneLive(live, k, n)
  }

  /** The end of an `n`-page range at `addr`, as the 64-bit sum comes out. */
  function WrappedEnd(addr: nat, n: nat): nat {
    (addr + (n * PAGE_SIZE) % WORD_LIMIT) % WORD_LIMIT
  }

  /** The guard of the branch that goes wrong: the sum overflows and comes out inside the window's bound. */
  predicate WrapsIntoWindow(bump: nat, n: nat) {
    bump + n * PAGE_SIZE >= WORD_LIMIT && WrappedEnd(bump, n) <= VSPACE_TOP
  }

  class VAddrSpace {
    var bump: nat
    const free: array<FreeRegion>
    var freeLen: nat
    /** The same state in pages: everything below `top` is live but the spans. */
    ghost var top: nat
    ghost var spans: seq<Span>

    /** The array holds the spans in order, and zero entries after them. */
    ghost predicate Rep()
      reads `freeLen, `spans, free
    {
      && free.Length == MAX_FREE
      && freeLen == |spans| <= MAX_FREE
      && (forall i | 0 <= i < freeLen :: free[i] == RegionOf(spans[i]))
      && forall i | freeLen <= i < MAX_FREE :: free[i] == ZERO
    }

    ghost predicate Valid()
      reads this, free
    {
      && Rep()
      && bump == AddrOf(top) <= VSPACE_TOP
      && Canonical(top, spans)
    }

    /** The page numbers that are allocated. */
    ghost function LivePages(): set<nat>
      reads `top, `spans
    {
      Live(top, spans)
    }

    constructor ()
      ensures Valid() && fresh(free) && LivePages() == {}
    {
      bump, freeLen, top, spans := VSPACE_BASE, 0, 0, [];
      free := new FreeRegion[MAX_FREE](_ => ZERO);
    }

    method FreeRemove(i: nat)
      requires Rep() && i < freeLen
      modifies free, `freeLen, `spans
      ensures Rep() && spans == Without(old(spans), i) && freeLen == |spans| == |old(spans)| - 1
    {
      for j := i to freeLen - 1
        invariant forall k | 0 <= k < MAX_FREE :: free[k] == if i <= k < j then old(free[k + 1]) else old(free[k])
        modifies free
      {
        free[j] := free[j + 1];
      }
      freeLen := freeLen - 1;
      free[freeLen] := ZERO;
      WithoutIndices(spans, i);
      spans := Without(spans, i);
    }

    /** Shifts the regions from index `ins` on and stores one there. */
    method Insert(ins: nat, addr: nat, n: nat, ghost s: Span)
      requires Rep() && ins <= freeLen < MAX_FREE && FreeRegion(addr, n) == RegionOf(s)
      modifies free, `freeLen, `spans
      ensures Rep() && spans == InsertAt(old(spans), ins, s)
    {
      var j := freeLen;
      while j > ins
        modifies free
        invariant ins <= j <= freeLen
        invariant forall k | 0 <= k < MAX_FREE :: free[k] == if j < k <= freeLen then old(free[k - 1]) else old(free[k])
      {
        free[j] := free[j - 1];
        j := j - 1;
      }
      free[ins] := FreeRegion(addr, n);
      freeLen := freeLen + 1;
      InsertIndices(spans, ins, s);
      spans := InsertAt(spans, ins, s);
    }

    /** Merges every pair of touching neighbours. */
    method Coalesce()
      requires Rep() && Sorted(top, spans)
      modifies free, `freeLen, `spans
      ensures Rep() && Canonical(top, spans) && LivePages() == old(LivePages())
    {
      hide InFree, Live;
      var i := 0;
      while i + 1 < freeLen
        invariant Rep() && ApartUpTo(top, spans, i)
        invariant LivePages() == old(LivePages())
        decreases freeLen - i
      {
        Touching(spans[i], spans[i + 1]);
        if free[i].End() == free[i + 1].base {
          MergeStep(top, spans, i);
          MergePair(i);
        } else {
          ApartStep(top, spans, i);
          i := i + 1;
        }
      }
      AllApart(top, spans, i);
    }

    method MergePair(i: nat)
      requires Rep() && i + 1 < freeLen
      modifies free, `freeLen, `spans
      ensures Rep() && spans == Merge(old(spans), i)
    {
      ghost var merged := Span(spans[i].lo, spans[i].n + spans[i + 1].n);
      free[i] := free[i].(pages := free[i].pages + free[i + 1].pages);
      spans := spans[i := merged];
      FreeRemove(i + 1);
      assert spans == Merge(old(spans), i);
    }

    /** The index of the first region of at least `n` pages, or `freeLen`. */
    method FindFit(n: nat) returns (i: nat)
      requires Rep()
      ensures i <= freeLen && (forall h | 0 <= h < i :: spans[h].n < n) && (i < freeLen ==> spans[i].n >= n)
    {
      for k := 0 to freeLen
        invariant forall h | 0 <= h < k :: spans[h].n < n
      {
        if free[k].pages >= n { return k; }
      }
      return freeLen;
    }

    /** The branch of the allocation that finds a long enough region at index `i`. */
    method TakeFrom(i: nat, n: nat) returns (addr: nat)
      requires Valid() && i < freeLen && 0 < n <= spans[i].n
      modifies free, `freeLen, `spans
      ensures Valid() && addr == AddrOf(old(spans)[i].lo) && spans == Cut(old(spans), i, n)
    {
      hide InFree, Live;
      CutIsCanonical(top, spans, i, n);
      addr := free[i].base;
      var leftover := free[i].pages - n;
      if leftover == 0 {
        FreeRemove(i);
      } else {
        free[i] := FreeRegion(free[i].base + n * PAGE_SIZE, leftover);
        spans := Cut(spans, i, n);
      }
    }

    /**
     Lowest-address first fit. The 64-bit sum is the one thing that can go wrong: the answer is
     right unless no region fits and the sum wraps around into the window.
     */
    method Alloc(n: nat) returns (r: Option<nat>)
      requires Valid() && n < WORD_LIMIT
      modifies free, `freeLen, `spans, `bump, `top
      ensures n == 0 ==> r == None
      ensures r == None ==> Valid() && top == old(top) && spans == old(spans)
      ensures n > 0 && !Misled(old(bump), old(spans), n) ==>
                && Valid()
                && (r == None <==> NoRun(old(LivePages()), n))
                && (r.Some? ==> Served(old(LivePages()), r.value, n, LivePages()))
      ensures n > 0 && Misled(old(bump), old(spans), n) ==>
                r == Some(old(bump)) && bump == WrappedEnd(old(bump), n) && NoRun(old(LivePages()), n)
    {
      if n == 0 { return None; }
      hide *;
      FromValid();
      var i := FindFit(n);
      SumOf(bump, n);
      if i < freeLen {
        FitServes(bump, top, spans, i, n);
        var a := TakeFrom(i, n);
        FromValid();
        return Some(a);
      }
      NoFitServes(bump, top, spans, n);
      var addr := bump;
      var end := WrappedEnd(addr, n);
      if end > VSPACE_TOP {
        return None;
      }
      bump := end;
      if addr + n * PAGE_SIZE < WORD_LIMIT {
        top := top + n;
        ToValid();
      }
      return Some(addr);
    }

    /**
     Gives live pages back. At the bump pointer they are absorbed, with the region below that they
     touch; elsewhere they are filed while the array has room, and stay live when it has none.
     */
    method Free(addr: nat, n: nat)
      requires Valid() && n < WORD_LIMIT
      requires Accepted(addr, n) ==> Pages(Span(PageOf(addr), n)) <= LivePages()
      modifies free, `freeLen, `spans, `bump, `top
      ensures Valid()
      ensures !Accepted(addr, n) ==> top == old(top) && spans == old(spans)
      ensures Accepted(addr, n) ==>
                if PageOf(addr) + n == old(top) || |old(spans)| < MAX_FREE
                then LivePages() == old(LivePages()) - Pages(Span(PageOf(addr), n))
                else top == old(top) && spans == old(spans)
    {
      hide *;
      FromValid();
      Gate(addr, n);
      if n == 0 || addr < VSPACE_BASE || addr >= VSPACE_TOP { return; }
      if addr % PAGE_SIZE != 0 { return; }
      RangeBelowTop(top, spans, addr, n);
      var expectedBump := WrappedEnd(addr, n);
      if expectedBump == bump {
        GiveBackTop(addr, n);
        return;
      }
      if freeLen >= MAX_FREE { return; }
      var ins := InsertionPoint(addr, Span(PageOf(addr), n));
      ghost var s := Span(PageOf(addr), n);
      InsertIsSorted(top, spans, ins, s);
      InsertIsFree(top, spans, ins, s);
      Insert(ins, addr, n, s);
      LiveIs();
      Coalesce();
      LiveIs();
      ToValid();
    }

    /**
     The bump-pointer branch of a release: lowers the pointer, then follows it down through the regions that end
     at it.
     */
    method GiveBackTop(addr: nat, ghost n: nat)
      requires Valid() && n > 0 && addr == AddrOf(PageOf(addr)) && PageOf(addr) + n == top
      requires Pages(Span(PageOf(addr), n)) <= LivePages()
      modifies free, `freeLen, `spans, `bump, `top
      ensures Valid() && LivePages() == old(LivePages()) - Pages(Span(PageOf(addr), n))
    {
      hide *;
      FromValid();
      Retract(top, spans, PageOf(addr));
      AddrGrows(PageOf(addr), top);
      bump := addr;
      top := PageOf(addr);
      LiveIs();
      var merged := true;
      while merged
        invariant Rep() && freeLen == |spans| && bump == AddrOf(top) <= VSPACE_TOP && UpToTop(top, spans)
        invariant Live(top, spans) == old(LivePages()) - Pages(Span(PageOf(addr), n))
        invariant !merged ==> Canonical(top, spans)
        decreases freeLen, merged
      {
        var i := FindEnding();
        merged := i < freeLen;
        if merged {
          RetractThrough(top, spans, i);
          RegionAt(i);
          AddrGrows(spans[i].lo, top);
          bump := free[i].base;
          top := spans[i].lo;
          FreeRemove(i);
        } else {
          NotTouchingTop(top, spans);
        }
      }
      LiveIs();
      ToValid();
    }

    /** The index of the first region that ends at the bump pointer, or `freeLen`. */
    method FindEnding() returns (i: nat)
      requires Rep() && bump == AddrOf(top)
      ensures i <= freeLen && (i < freeLen ==> spans[i].End() == top)
      ensures i == freeLen ==> forall h | 0 <= h < |spans| :: spans[h].End() != top
    {
      for k := 0 to freeLen
        invariant forall h | 0 <= h < k :: spans[h].End() != top
      {
        if free[k].End() == bump { return k; }
      }
      return freeLen;
    }

    /** The index of the first region that starts above `addr`, or `freeLen`. */
    method InsertionPoint(addr: nat, ghost s: Span) returns (ins: nat)
      requires Valid() && addr == AddrOf(s.lo)
      ensures FirstAfter(spans, ins, s) && ins <= freeLen
    {
      for i := 0 to freeLen
        invariant forall h | 0 <= h < i :: spans[h].lo <= s.lo
      {
        if free[i].base > addr { return i; }
      }
      return freeLen;
    }

    /**
     For a nonempty range whose end does not wrap: whether every byte of it lies in a live page. A range whose wrapped
     end comes to lie above its start is judged by the bytes in between, and one whose end does not by whether a
     region reaches over both.
     */
    method Contains(addr: nat, n: nat) returns (r: bool)
      requires Valid() && n < WORD_LIMIT
      ensures n > 0 && addr + n * PAGE_SIZE < WORD_LIMIT ==>
                (r <==> forall x: nat | addr <= x < addr + n * PAGE_SIZE :: LiveByte(x, LivePages()))
      ensures addr < WrappedEnd(addr, n) ==>
                (r <==> forall x: nat | addr <= x < WrappedEnd(addr, n) :: LiveByte(x, LivePages()))
      ensures WrappedEnd(addr, n) <= addr ==>
                (r <==> VSPACE_BASE <= addr < VSPACE_TOP && WrappedEnd(addr, n) <= bump
                        && forall s <- spans :: !(AddrOf(s.lo) < WrappedEnd(addr, n) && addr < AddrOf(s.End())))
    {
      ghost var plain := addr < WrappedEnd(addr, n);
      if addr + n * PAGE_SIZE < WORD_LIMIT { NoWrap(addr, n); }
      if addr < VSPACE_BASE || addr >= VSPACE_TOP {
        assert !LiveByte(addr, LivePages());
        return false;
      }
      var end := WrappedEnd(addr, n);
      if end > bump {
        assert plain ==> !LiveByte(end - 1, LivePages());
        return false;
      }
      for i := 0 to freeLen
        invariant forall h | 0 <= h < i :: !Overlaps(RegionOf(spans[h]), addr, end)
      {
        if free[i].base < end && free[i].End() > addr {
          if plain {
            ghost var x := OverlapIsNotLive(top, spans, i, addr, end);
            assert !LiveByte(x, LivePages());
          }
          return false;
        }
      }
      NoOverlapIsLive(top, spans, addr, end);
      return true;
    }

    /**
     Giving a fresh allocation straight back restores the identical state, bump pointer, regions
     and all, exactly if the array has room for it or it ends at the bump pointer.
     */
    method AllocThenFree(n: nat) returns (room: bool)
      requires Valid() && n < WORD_LIMIT && !Misled(bump, spans, n)
      modifies free, `freeLen, `spans, `bump, `top
      ensures Valid()
      ensures room ==> bump == old(bump) && freeLen == old(freeLen) && free[..] == old(free[..])
      ensures room <==> LivePages() == old(LivePages())
    {
      hide *;
      FromValid();
      ArrayIs();
      ghost var before := LivePages();
      var r := Alloc(n);
      if r == None {
        FromValid();
        SameArray(old(spans), old(free[..]));
        return true;
      }
      FromValid();
      ghost var s := Span(PageOf(r.value), n);
      ServedRange(before, r.value, n, LivePages());
      Gate(r.value, n);
      AtTop(r.value, n);
      room := freeLen < MAX_FREE || r.value + n * PAGE_SIZE == bump;
      ghost var during := LivePages();
      Free(r.value, n);
      LiveIs();
      FromValid();
      if room {
        RepresentationIsUnique(old(top), old(spans), top, spans);
        SameArray(old(spans), old(free[..]));
      }
    }

    /** The exact number of live pages. */
    method UsedPages() returns (used: nat)
      requires Valid()
      ensures used == |LivePages()|
    {
      var totalBump := (bump - VSPACE_BASE) / PAGE_SIZE;
      var freePages := 0;
      for i := 0 to freeLen
        invariant freePages == Total(spans[..i])
      {
        assert spans[..i + 1][..i] == spans[..i];
        freePages := freePages + free[i].pages;
      }
      assert spans[..freeLen] == spans;
      CanonicalIsSorted(top, spans);
      LiveCount(top, spans);
      used := SaturatingSub(totalBump, freePages);
    }

    method Reset()
      requires Valid()
      modifies free, `freeLen, `spans, `bump, `top
      ensures Valid() && LivePages() == {}
    {
      bump, freeLen := VSPACE_BASE, 0;
      for i := 0 to MAX_FREE
        modifies free
        invariant forall j | 0 <= j < i :: free[j] == ZERO
      {
        free[i] := ZERO;
      }
      top, spans := 0, [];
    }

    lemma AtTop(addr: nat, n: nat)
      requires Valid() && addr == AddrOf(PageOf(addr))
      ensures addr + n * PAGE_SIZE == bump <==> PageOf(addr) + n == top
    {
    }

    lemma ArrayIs()
      requires Rep()
      ensures |free[..]| == MAX_FREE && |spans| <= MAX_FREE
      ensures forall i | 0 <= i < |spans| :: free[..][i] == RegionOf(spans[i])
      ensures forall i | |spans| <= i < MAX_FREE :: free[..][i] == ZERO
    {
    }

    lemma SameArray(before: seq<Span>, regions: seq<FreeRegion>)
      requires Rep() && |regions| == MAX_FREE && |before| <= MAX_FREE
      requires forall i | 0 <= i < |before| :: regions[i] == RegionOf(before[i])
      requires forall i | |before| <= i < MAX_FREE :: regions[i] == ZERO
      ensures spans == before ==> free[..] == regions
    {
    }

    lemma LiveIs()
      ensures LivePages() == Live(top, spans)
    {
    }

    lemma RegionAt(i: nat)
      requires Rep() && i < freeLen
      ensures i < free.Length && i < |spans| && free[i].base == AddrOf(spans[i].lo)
    {
    }

    lemma FromValid()
      requires Valid()
      ensures Rep() && Canonical(top, spans) && bump == AddrOf(top) <= VSPACE_TOP < WORD_LIMIT
      ensures freeLen == |spans| <= MAX_FREE
      ensures LivePages() == Live(top, spans)
    {
    }

    lemma ToValid()
      requires Rep() && Canonical(top, spans) && bump == AddrOf(top) <= VSPACE_TOP
      ensures Valid() && LivePages() == Live(top, spans)
    {
    }
  }

  /** Requests that could fit the window at all are never misled. */
  lemma NeverMisled(bump: nat, spans: seq<Span>, n: nat)
    requires n <= WINDOW_PAGES && bump <= VSPACE_TOP
    ensures !Misled(bump, spans, n) && n < WORD_LIMIT
  {
  }

  /** In an empty space, 2^52 pages are "served" at the bump pointer, which does not move. */
  lemma WrapMisleads()
    ensures Misled(VSPACE_BASE, [], 0x10_0000_0000_0000) && WrappedEnd(VSPACE_BASE, 0x10_0000_0000_0000) == VSPACE_BASE
  {
    assert 0x10_0000_0000_0000 * PAGE_SIZE == WORD_LIMIT;
  }

  lemma ServedRange(live: set<nat>, addr: nat, n: nat, live': set<nat>)
    requires Served(live, addr, n, live') && n > 0
    ensures Accepted(addr, n) && Pages(Span(PageOf(addr), n)) <= live'
    ensures live' - Pages(Span(PageOf(addr), n)) == live && live' != live
  {
    hide Pages;
    var k: nat :| addr == AddrOf(k) && k + n <= WINDOW_PAGES && FirstRun(live, k, n)
        && live' == live + Pages(Span(k, n));
    assert PageOf(addr) == k && k in Pages(Span(k, n)) && k !in live;
  }

  /** The page an address of the window lies in. */
  function PageOf(addr: nat): nat {
    if addr < VSPACE_BASE then 0 else (addr - VSPACE_BASE) / PAGE_SIZE
  }

  /** The guards that a release passes: a nonempty, page-aligned range that starts in the window. */
  predicate Accepted(addr: nat, n: nat) {
    n > 0 && VSPACE_BASE <= addr < VSPACE_TOP && addr % PAGE_SIZE == 0
  }

  predicate LiveByte(x: nat, live: set<nat>) {
    x >= VSPACE_BASE && PageOf(x) in live
  }

  predicate Overlaps(r: FreeRegion, addr: nat, end: nat) {
    r.base < end && r.End() > addr
  }

  lemma Gate(addr: nat, n: nat)
    ensures Accepted(addr, n) <==> n > 0 && VSPACE_BASE <= addr < VSPACE_TOP && addr % PAGE_SIZE == 0
    ensures Accepted(addr, n) ==> addr == AddrOf(PageOf(addr))
    ensures PAGE_SIZE > 0
  {
  }

  lemma AddrGrows(k: nat, top: nat)
    ensures k <= top ==> AddrOf(k) <= AddrOf(top)
  {
  }

  function SaturatingSub(a: nat, b: nat): nat { if a < b then 0 else a - b }

  lemma NoWrap(addr: nat, n: nat)
    requires addr + n * PAGE_SIZE < WORD_LIMIT
    ensures WrappedEnd(addr, n) == addr + n * PAGE_SIZE
  {
  }

  lemma CanonicalIsSorted(top: nat, spans: seq<Span>)
    requires Canonical(top, spans)
    ensures Sorted(top, spans)
  {
  }

  /** A live range ends at or below the bump pointer, so its end does not wrap. */
  lemma RangeBelowTop(top: nat, spans: seq<Span>, addr: nat, n: nat)
    requires Accepted(addr, n) && AddrOf(top) <= VSPACE_TOP && Pages(Span(PageOf(addr), n)) <= Live(top, spans)
    ensures PageOf(addr) + n <= top && WrappedEnd(addr, n) == AddrOf(PageOf(addr) + n)
    ensures WrappedEnd(addr, n) == AddrOf(top) <==> PageOf(addr) + n == top
    ensures FreeRegion(addr, n) == RegionOf(Span(PageOf(addr), n))
    ensures Span(PageOf(addr), n).End() == PageOf(addr) + n
  {
    hide InFree;
    Gate(addr, n);
    var last := PageOf(addr) + n - 1;
    assert last in Pages(Span(PageOf(addr), n));
    assert last in Live(top, spans);
    assert addr + n * PAGE_SIZE == AddrOf(PageOf(addr) + n);
    NoWrap(addr, n);
  }

  lemma OverlapIsNotLive(top: nat, spans: seq<Span>, i: nat, addr: nat, end: nat) returns (x: nat)
    requires Canonical(top, spans) && i < |spans| && Overlaps(RegionOf(spans[i]), addr, end) && addr < end
    ensures addr <= x < end && !LiveByte(x, Live(top, spans))
  {
    x := if addr <= RegionOf(spans[i]).base then RegionOf(spans[i]).base else addr;
    assert spans[i].n > 0 && spans[i].Has(PageOf(x));
    FreeIsNotLive(top, spans, spans[i], PageOf(x));
    assert !LiveByte(x, Live(top, spans));
  }

  lemma NoOverlapIsLive(top: nat, spans: seq<Span>, addr: nat, end: nat)
    requires VSPACE_BASE <= addr && end <= AddrOf(top)
    requires forall h | 0 <= h < |spans| :: !Overlaps(RegionOf(spans[h]), addr, end)
    ensures forall x: nat | addr <= x < end :: LiveByte(x, Live(top, spans))
  {
    forall x: nat | addr <= x < end
      ensures LiveByte(x, Live(top, spans))
    {
      forall r <- spans
        ensures !r.Has(PageOf(x))
      {
        var h :| 0 <= h < |spans| && spans[h] == r;
        assert !Overlaps(RegionOf(spans[h]), addr, end);
      }
    }
  }

  /** No region fits, and the bump branch is taken in by a wrapped sum. */
  predicate Misled(bump: nat, spans: seq<Span>, n: nat) {
    (forall i | 0 <= i < |spans| :: spans[i].n < n) && WrapsIntoWindow(bump, n)
  }

  /** The range at `addr` is the lowest run of `n` pages in the window, and became live. */
  ghost predicate Served(live: set<nat>, addr: nat, n: nat, live': set<nat>) {
    exists k: nat :: addr == AddrOf(k) && k + n <= WINDOW_PAGES && FirstRun(live, k, n)
        && live' == live + Pages(Span(k, n))
  }

  lemma FitServes(bump: nat, top: nat, spans: seq<Span>, i: nat, n: nat)
    requires Canonical(top, spans) && AddrOf(top) <= VSPACE_TOP && i < |spans| && spans[i].n >= n > 0
    requires forall h | 0 <= h < i :: spans[h].n < n
    ensures Served(Live(top, spans), AddrOf(spans[i].lo), n, Live(top, Cut(spans, i, n)))
    ensures !NoRun(Live(top, spans), n) && !Misled(bump, spans, n)
  {
    hide InFree, Live;
    var k := spans[i].lo;
    CutIsLive(top, spans, i, n);
    forall j: nat
      ensures NoneLive(Live(top, spans), k, n) && (NoneLive(Live(top, spans), j, n) ==> k <= j)
    {
      FirstFitIsLowest(top, spans, i, n, j);
    }
    assert spans[i].End() < top;
  }

  lemma NoFitServes(bump: nat, top: nat, spans: seq<Span>, n: nat)
    requires Canonical(top, spans) && bump == AddrOf(top) <= VSPACE_TOP && n > 0
    requires forall h | 0 <= h < |spans| :: spans[h].n < n
    ensures bump + n * PAGE_SIZE <= VSPACE_TOP ==>
              && Canonical(top + n, spans) && AddrOf(top + n) == bump + n * PAGE_SIZE
              && Served(Live(top, spans), bump, n, Live(top + n, spans)) && !NoRun(Live(top, spans), n)
    ensures bump + n * PAGE_SIZE > VSPACE_TOP ==> NoRun(Live(top, spans), n)
    ensures Misled(bump, spans, n) <==> WrapsIntoWindow(bump, n)
  {
    forall j: nat
      ensures NoneLive(Live(top, spans), top, n) && (NoneLive(Live(top, spans), j, n) ==> top <= j)
    {
      NoFitMeansTop(top, spans, n, j);
    }
    assert forall k | top <= k :: !InFree(spans, k) by {
      assert forall i | 0 <= i < |spans| :: spans[i].End() < top;
    }
    assert Live(top + n, spans) == Live(top, spans) + Pages(Span(top, n));
  }

  lemma SumOf(bump: nat, n: nat)
    requires n < WORD_LIMIT && bump <= VSPACE_TOP
    ensures VSPACE_TOP < WORD_LIMIT
    ensures bump + n * PAGE_SIZE < WORD_LIMIT ==> WrappedEnd(bump, n) == bump + n * PAGE_SIZE
    ensures WrapsIntoWindow(bump, n) <==> bump + n * PAGE_SIZE >= WORD_LIMIT && WrappedEnd(bump, n) <= VSPACE_TOP
  {
  }

  lemma Touching(r: Span, s: Span)
    ensures RegionOf(r).End() == RegionOf(s).base <==> r.End() == s.lo
  {
  }
}
