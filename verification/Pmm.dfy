/**
 The physical memory manager: the frame bitmap with its search hint, the free-frame count and the
 saturating reference counts. Physical addresses are frame numbers (the address divided by 4096).
 */
module Pmm {
  import opened Words

  const MAX_FRAMES: nat := 0x10000
  const BM_WORDS: nat := 1024
  const HUGE_FRAMES: nat := 512
  const REF_MAX: nat := 0xFFFF

  /** The ways in which counts and the bitmap move while address spaces are mapped, cloned and torn down. */
  datatype RefStep = Take | Share(frame: nat) | Drop(frame: nat) | GiveBack(frame: nat)

  /** What `mm_alloc_nolock` comes back with; OutOfMemory is the kernel panic. */
  datatype Allocation = Frame(frame: nat) | OutOfMemory

  /** A count after `frame_inc`: pinned once it reaches the top. */
  function IncRef(n: nat): nat { if n == REF_MAX then REF_MAX else n + 1 }

  /** A count after `frame_dec`: a pinned count stays, and 0 wraps around to the pinned value. */
  function DecRef(n: nat): nat { if n == REF_MAX || n == 0 then REF_MAX else n - 1 }

  function Min(a: nat, b: nat): nat { if a < b then a else b }

  predicate BitFree(bm: seq<Word>, base: nat, f: nat)
    requires |bm| == BM_WORDS && base <= f < base + MAX_FRAMES
  {
    !BitAt(bm, f - base)
  }

  /** The managed frames whose bitmap bit is clear. */
  ghost function FreeIn(bm: seq<Word>, base: nat, limit: nat): (r: set<nat>)
    requires |bm| == BM_WORDS && limit <= MAX_FRAMES
  {
    set f: nat | base <= f < base + limit && BitFree(bm, base, f)
  }

  lemma StoreFree(bm: seq<Word>, base: nat, limit: nat, i: nat, used: bool)
    requires |bm| == BM_WORDS && i < limit <= MAX_FRAMES
    ensures var s, s' := FreeIn(bm, base, limit), FreeIn(StoreBit(bm, i, used), base, limit);
            s' == if used then s - {base + i} else s + {base + i}
    ensures base + i in FreeIn(bm, base, limit) <==> !BitAt(bm, i)
  {
    assert BitFree(bm, base, base + i) <==> !BitAt(bm, i);
    forall f: nat | base <= f < base + limit
      ensures BitFree(StoreBit(bm, i, used), base, f) <==> if f == base + i then !used else BitFree(bm, base, f)
    {
      assert BitFree(bm, base, f) <==> !BitAt(bm, f - base);
    }
  }

  /** No free frame lies in a word below the hint. */
  ghost predicate HintBelow(free: set<nat>, base: nat, hint: nat) {
    forall f <- free :: f >= base && hint <= (f - base) / WORD_BITS
  }

  class FrameManager {
    var memBase: nat
    var memFrames: nat
    var hint: nat
    var freeFrames: nat
    const bm: array<Word>
    const refs: array<nat>

    function Limit(): nat
      reads `memFrames
    {
      Min(memFrames, MAX_FRAMES)
    }

    ghost predicate Shaped()
      reads refs
    {
      bm.Length == BM_WORDS && refs.Length == MAX_FRAMES && forall i | 0 <= i < MAX_FRAMES :: refs[i] <= REF_MAX
    }

    /** The free managed frames. */
    ghost function Free(): set<nat>
      requires bm.Length == BM_WORDS
      reads `memBase, `memFrames, bm
    {
      FreeIn(bm[..], memBase, Limit())
    }

    /**
     No free frame lies in a word below the hint, and the count is right up to the frames the bitmap has no bits
     for.
     */
    ghost predicate Valid()
      reads this, bm, refs
    {
      && Shaped()
      && hint <= BM_WORDS
      && HintBelow(Free(), memBase, hint)
      && freeFrames == |Free()| + (memFrames - Limit())
    }

    predicate Managed(f: nat)
      reads `memBase
    {
      memBase <= f < memBase + MAX_FRAMES
    }

    /** The reference count of a frame; 0 for a frame without one. */
    function RefOf(f: nat): nat
      requires refs.Length == MAX_FRAMES
      reads `memBase, refs
    {
      if Managed(f) then refs[f - memBase] else 0
    }

    constructor ()
      ensures Shaped() && fresh(bm) && fresh(refs)
    {
      memBase, memFrames, hint, freeFrames := 0, 0, 0, 0;
      bm := new Word[BM_WORDS](_ => NO_BITS);
      refs := new nat[MAX_FRAMES](_ => 0);
    }

    predicate IsFree(i: nat): (r: bool)
      requires i < MAX_FRAMES && bm.Length == BM_WORDS
      reads bm
      ensures r <==> !BitAt(bm[..], i)
    {
      !bm[i / WORD_BITS][i % WORD_BITS]
    }

    method MarkUsed(i: nat)
      requires Valid() && i < Limit()
      modifies bm, `freeFrames
      ensures Valid() && Free() == old(Free()) - {memBase + i}
    {
      hide HintBelow, BitAt, StoreBit, FreeIn;
      ghost var before := bm[..];
      StoreFree(before, memBase, Limit(), i, true);
      HintAfter(FreeIn(before, memBase, Limit()), memBase, hint, i, hint);
      if IsFree(i) {
        bm[i / WORD_BITS] := bm[i / WORD_BITS][i % WORD_BITS := true];
        StoredWord(before, bm[..], i, true);
        freeFrames := freeFrames - 1;
      }
    }

    method MarkFree(i: nat)
      requires Valid() && i < Limit()
      modifies bm, `freeFrames, `hint
      ensures Valid() && Free() == old(Free()) + {memBase + i}
    {
      hide HintBelow, BitAt, StoreBit, FreeIn;
      ghost var before := bm[..];
      StoreFree(before, memBase, Limit(), i, false);
      HintAfter(FreeIn(before, memBase, Limit()), memBase, hint, i, if i / WORD_BITS < hint then i / WORD_BITS
          else hint);
      if !IsFree(i) {
        bm[i / WORD_BITS] := bm[i / WORD_BITS][i % WORD_BITS := false];
        StoredWord(before, bm[..], i, false);
        freeFrames := freeFrames + 1;
        if i / WORD_BITS < hint { hint := i / WORD_BITS; }
      }
    }

    /** Reserves frame 0 and counts every other managed frame once. */
    method Init(base: nat, frames: nat)
      requires Shaped()
      modifies this, bm, refs
      ensures Valid() && memBase == base && memFrames == frames
      ensures forall f: nat :: f in Free() <==> base < f < base + Limit()
      ensures forall i | 0 <= i < MAX_FRAMES :: refs[i] == if 1 <= i < Limit() then 1 else old(refs[i])
    {
      memBase, memFrames := base, frames;
      for w := 0 to BM_WORDS
        modifies bm
        invariant forall v | 0 <= v < w :: bm[v] == NO_BITS
      {
        bm[w] := NO_BITS;
      }
      ghost var before := bm[..];
      bm[0] := bm[0][0 := true];
      freeFrames := if frames > 0 then frames - 1 else 0;
      hint := 0;
      var i := 1;
      while i < Limit()
        modifies refs
        invariant 1 <= i && (Limit() > 0 ==> i <= Limit())
        invariant forall j | 0 <= j < MAX_FRAMES :: refs[j] == if 1 <= j < Min(i, Limit()) then 1 else old(refs[j])
      {
        refs[i] := 1;
        i := i + 1;
      }
      InitialFree(before, bm[..], base, Limit());
    }

    /** The lowest free managed frame whose bit lies in the words from `s` up to `e`, if any. */
    method ScanWords(s: nat, e: nat) returns (found: bool, idx: nat)
      requires Shaped() && s <= e <= BM_WORDS
      ensures found ==> idx < Limit() && idx / WORD_BITS < e && IsFree(idx)
      ensures forall j: nat | s <= j / WORD_BITS < e && j < Limit() && (found ==> j < idx) :: !IsFree(j)
    {
      found, idx := false, 0;
      for w := s to e
        invariant forall j: nat | s <= j / WORD_BITS < w && j < Limit() :: !IsFree(j)
      {
        if bm[w] == ALL_BITS { continue; }
        for bit := 0 to WORD_BITS
          invariant forall j: nat | s <= j / WORD_BITS < w && j < Limit() :: !IsFree(j)
          invariant forall j: nat | w * WORD_BITS <= j < w * WORD_BITS + bit && j < Limit() :: !IsFree(j)
        {
          idx := w * WORD_BITS + bit;
          if idx >= MAX_FRAMES { continue; }
          if idx >= memFrames { continue; }
          if IsFree(idx) {
            found := true;
            return;
          }
        }
      }
    }

    /**
     The hint never changes the answer: the lowest free frame of all is returned, and the kernel
     runs out of memory exactly when no frame is free.
     */
    method AllocNoLock() returns (r: Allocation)
      requires Valid()
      modifies bm, refs, `freeFrames, `hint
      ensures Valid()
      ensures r == OutOfMemory <==> old(Free()) == {}
      ensures r == OutOfMemory ==> Free() == old(Free()) && refs[..] == old(refs[..])
      ensures r.Frame? ==>
                && r.frame in old(Free()) && (forall f <- old(Free()) :: r.frame <= f)
                && Free() == old(Free()) - {r.frame}
                && Managed(r.frame) && refs[..] == old(refs[..])[r.frame - memBase := 1]
    {
      hide HintBelow, FreeIn;
      var found, idx := ScanWords(hint, BM_WORDS);
      if !found {
        NoneLeft();
        found, idx := ScanWords(0, hint);
        assert !found;
        return OutOfMemory;
      }
      LowestFree(idx);
      MarkUsed(idx);
      hint := idx / WORD_BITS;
      refs[idx] := 1;
      return Frame(memBase + idx);
    }

    /** 512 free frames on a 512-frame boundary, past the first such run; 0 exactly when there is none. */
    method AllocHuge() returns (p: nat)
      requires Valid()
      modifies bm, refs, `freeFrames
      ensures Valid()
      ensures p == 0 <==> NoRunBelow(old(Free()), memBase, Limit(), Limit())
      ensures p == 0 ==> Free() == old(Free()) && refs[..] == old(refs[..])
      ensures p != 0 ==>
                var k := RunIndex(memBase, p);
                && p == memBase + HUGE_FRAMES * k && IsRun(old(Free()), memBase, Limit(), k)
                && NoRunBelow(old(Free()), memBase, Limit(), k)
                && Free() == old(Free()) - Run(memBase, k)
                && HUGE_FRAMES * k + HUGE_FRAMES <= |old(refs[..])|
                && refs[..] == CountedOnce(old(refs[..]), HUGE_FRAMES * k, HUGE_FRAMES)
    {
      hide *;
      FromValid();
      RunIsSpan(memBase, 1);
      var i := HUGE_FRAMES;
      ghost var k: nat := 1;
      NoRunYet(Free(), memBase, Limit());
      while i + HUGE_FRAMES <= Limit()
        invariant k >= 1 && i == HUGE_FRAMES * k && NoRunBelow(Free(), memBase, Limit(), k)
        invariant Valid() && Free() == old(Free()) && refs[..] == old(refs[..])
      {
        var ok := RunIsFree(i, k);
        NextRun(Free(), memBase, Limit(), k);
        RunIndexOf(memBase, k);
        if ok {
          TakeRun(i, k);
          return memBase + i;
        }
        i := i + HUGE_FRAMES;
        k := k + 1;
      }
      NoRunAtAll(Free(), memBase, Limit(), k);
      return 0;
    }

    method RunIsFree(i: nat, ghost k: nat) returns (ok: bool)
      requires Valid() && i == HUGE_FRAMES * k && HUGE_FRAMES * (k + 1) <= Limit()
      ensures ok <==> RunFree(Free(), memBase, k)
    {
      hide HintBelow, FreeIn, Run;
      ok := true;
      for w := i / WORD_BITS to i / WORD_BITS + 8
        invariant ok && forall v | i / WORD_BITS <= v < w :: bm[v] == NO_BITS
      {
        if bm[w] != NO_BITS {
          ok := false;
          break;
        }
      }
      WordsOfRun(k, ok);
    }

    lemma FromValid()
      requires Valid()
      ensures Shaped() && refs.Length == MAX_FRAMES && bm.Length == BM_WORDS && Limit() <= MAX_FRAMES
    {
    }

    /** Marks a frame used and counts it once. */
    method TakeFrame(i: nat)
      requires Valid() && i < Limit()
      modifies bm, refs, `freeFrames
      ensures Valid() && Free() == old(Free()) - {memBase + i} && refs[..] == old(refs[..])[i := 1]
    {
      hide HintBelow, FreeIn;
      MarkUsed(i);
      refs[i] := 1;
    }

    method TakeRun(i: nat, ghost k: nat)
      requires Valid() && k >= 1 && i == HUGE_FRAMES * k && HUGE_FRAMES * (k + 1) <= Limit()
      modifies bm, refs, `freeFrames
      ensures Valid() && Free() == old(Free()) - Run(memBase, k)
      ensures refs[..] == CountedOnce(old(refs[..]), i, HUGE_FRAMES)
    {
      hide *;
      FromValid();
      RunIsSpan(memBase, k);
      SpanStep(Free(), memBase + i, 0);
      CountNone(refs[..], i);
      for j := 0 to HUGE_FRAMES
        invariant Valid() && Free() == old(Free()) - FrameSpan(memBase + i, j)
        invariant refs[..] == CountedOnce(old(refs[..]), i, j)
      {
        hide *;
        FromValid();
        CountStep(old(refs[..]), i, j);
        SpanStep(old(Free()), memBase + i, j);
        assert memBase + i + j == memBase + (i + j);
        TakeFrame(i + j);
      }
    }

    lemma WordsOfRun(k: nat, ok: bool)
      requires Valid() && HUGE_FRAMES * (k + 1) <= Limit()
      requires ok <==> forall v | 8 * k <= v < 8 * k + 8 :: bm[v] == NO_BITS
      ensures ok <==> RunFree(Free(), memBase, k)
    {
      FreeBits();
      if ok {
        forall f <- Run(memBase, k)
          ensures f in Free()
        {
          assert bm[(f - memBase) / WORD_BITS] == NO_BITS;
          assert IsFree(f - memBase);
        }
      }
      if RunFree(Free(), memBase, k) {
        forall v | 8 * k <= v < 8 * k + 8
          ensures bm[v] == NO_BITS
        {
          forall b: nat | b < WORD_BITS
            ensures !bm[v][b]
          {
            var x := WORD_BITS * v + b;
            assert memBase + x in Run(memBase, k);
            assert IsFree(x);
          }
          EmptyWord(bm[v]);
        }
      }
    }

    /** Frees a managed frame; any other address is ignored. */
    method FreeNoLock(p: nat)
      requires Valid()
      modifies bm, `freeFrames, `hint
      ensures Valid() && Free() == if memBase <= p < memBase + Limit() then old(Free()) + {p} else old(Free())
    {
      if p < memBase { return; }
      var i := p - memBase;
      if i >= MAX_FRAMES || i >= memFrames { return; }
      MarkFree(i);
    }

    method FreeHuge(p: nat)
      requires Valid()
      modifies bm, `freeFrames, `hint
      ensures Valid()
      ensures Free() == if p % HUGE_FRAMES != 0 then old(Free())
              else FreedTo(old(Free()), p, HUGE_FRAMES, memBase, Limit())
    {
      hide *;
      FromValid();
      RunIsSpan(0, 0);
      if p % HUGE_FRAMES != 0 { return; }
      FreedNone(Free(), p, memBase, Limit());
      for j := 0 to HUGE_FRAMES
        invariant Valid() && Free() == FreedTo(old(Free()), p, j, memBase, Limit())
      {
        FreedStep(old(Free()), p, j, memBase, Limit());
        FreeNoLock(p + j);
      }
    }

    // ----- reference counts -----

    method FrameInit(f: nat)
      requires Valid()
      modifies refs
      ensures Valid() && Free() == old(Free())
      ensures refs[..] == if Managed(f) then old(refs[..])[f - memBase := 1] else old(refs[..])
    {
      if !Managed(f) { return; }
      refs[f - memBase] := 1;
    }

    /** `fetch_add`, which wraps, followed by the store that pins a count already at the top. */
    method FrameInc(f: nat)
      requires Valid()
      modifies refs
      ensures Valid() && Free() == old(Free())
      ensures refs[..] == if Managed(f) then old(refs[..])[f - memBase := IncRef(old(refs[f - memBase]))]
              else old(refs[..])
      ensures Managed(f) ==>
                var n := old(refs[f - memBase]); refs[f - memBase] == if n == 65535 then 65535 else n + 1
    {
      if !Managed(f) { return; }
      var prev := refs[f - memBase];
      refs[f - memBase] := (prev + 1) % (REF_MAX + 1);
      if prev == REF_MAX { refs[f - memBase] := REF_MAX; }
    }

    /** Drops one reference; the frame goes back to the free frames exactly when it was the last one. */
    method FrameDec(f: nat) returns (freed: bool)
      requires Valid()
      modifies refs, bm, `freeFrames, `hint
      ensures Valid()
      ensures freed <==> Managed(f) && old(RefOf(f)) == 1
      ensures refs[..] == if Managed(f) then old(refs[..])[f - memBase := DecRef(old(refs[f - memBase]))]
              else old(refs[..])
      ensures Managed(f) ==>
                var n := old(refs[f - memBase]); refs[f - memBase] == if n == 0 || n == 65535 then 65535 else n - 1
      ensures Free() == if freed && f < memBase + Limit() then old(Free()) + {f} else old(Free())
    {
      hide HintBelow, FreeIn;
      if !Managed(f) { return false; }
      var cur := refs[f - memBase];
      if cur == REF_MAX { return false; }
      refs[f - memBase] := (cur + REF_MAX) % (REF_MAX + 1);
      if cur == 1 {
        FreeNoLock(f);
        return true;
      }
      return false;
    }

    predicate FrameShared(f: nat)
      requires refs.Length == MAX_FRAMES
      reads `memBase, refs
    {
      RefOf(f) > 1
    }

    /**
     A count that reached the top stays there, and its frame stays used, whatever happens to the counts and to
     other frames.
     */
    method PinnedStays(f: nat, steps: seq<RefStep>)
      requires Valid() && Managed(f) && f !in Free() && RefOf(f) == REF_MAX
      requires forall s <- steps | s.GiveBack? :: s.frame != f
      modifies bm, refs, `freeFrames, `hint
      ensures Valid() && f !in Free() && RefOf(f) == REF_MAX
    {
      hide HintBelow, FreeIn;
      for i := 0 to |steps|
        invariant Valid() && f !in Free() && RefOf(f) == REF_MAX
      {
        match steps[i] {
          case Take => var a := AllocNoLock();
          case Share(g) => FrameInc(g);
          case Drop(g) => var freed := FrameDec(g);
          case GiveBack(g) => FreeNoLock(g);
        }
      }
    }

    /** The count is the number of free frames exactly when the bitmap has a bit for every frame of memory. */
    lemma CountIsExact()
      requires Valid()
      ensures freeFrames == |Free()| <==> memFrames <= MAX_FRAMES
    {
    }

    lemma FreeBits()
      requires Shaped()
      ensures forall i: nat | i < Limit() :: IsFree(i) <==> memBase + i in Free()
      ensures forall f <- Free() :: memBase <= f < memBase + Limit()
    {
      forall i: nat | i < Limit()
        ensures IsFree(i) <==> memBase + i in Free()
      {
        assert BitFree(bm[..], memBase, memBase + i) <==> !BitAt(bm[..], i);
      }
    }

    /** Nothing free from the hint on means nothing free at all. */
    lemma NoneLeft()
      requires Valid() && forall j: nat | hint <= j / WORD_BITS < BM_WORDS && j < Limit() :: !IsFree(j)
      ensures Free() == {} && forall j: nat | j < Limit() :: !IsFree(j)
    {
      FreeBits();
      forall f: nat | memBase <= f < memBase + Limit()
        ensures f !in Free()
      {
        assert !IsFree(f - memBase);
      }
      assert Free() == {};
    }

    /** The lowest free frame from the hint on is the lowest of all. */
    lemma LowestFree(idx: nat)
      requires Valid() && idx < Limit() && IsFree(idx)
      requires forall j: nat | hint <= j / WORD_BITS < BM_WORDS && j < idx :: !IsFree(j)
      ensures memBase + idx in Free() && forall f <- Free() :: memBase + idx <= f
      ensures HintBelow(Free() - {memBase + idx}, memBase, idx / WORD_BITS)
    {
      FreeBits();
      forall f <- Free()
        ensures memBase + idx <= f
      {
        assert IsFree(f - memBase);
      }
    }
  }

  /** The free frames after the managed ones among the `n` from `p` on were freed. */
  ghost function FreedTo(free: set<nat>, p: nat, n: nat, base: nat, limit: nat): set<nat> {
    free + (FrameSpan(p, n) * FrameSpan(base, limit))
  }

  lemma FreedNone(free: set<nat>, p: nat, base: nat, limit: nat)
    ensures FreedTo(free, p, 0, base, limit) == free
  {
  }

  lemma FreedStep(free: set<nat>, p: nat, n: nat, base: nat, limit: nat)
    ensures FreedTo(free, p, n + 1, base, limit) ==
            if base <= p + n < base + limit then FreedTo(free, p, n, base, limit) + {p + n}
                else FreedTo(free, p, n, base, limit)
  {
  }

  lemma StoredWord(bm: seq<Word>, bm': seq<Word>, i: nat, used: bool)
    requires |bm| == |bm'| == BM_WORDS && i < MAX_FRAMES
    requires bm' == bm[i / WORD_BITS := bm[i / WORD_BITS][i % WORD_BITS := used]]
    ensures bm' == StoreBit(bm, i, used)
  {
  }

  lemma HintAfter(free: set<nat>, base: nat, hint: nat, i: nat, hint': nat)
    requires HintBelow(free, base, hint) && hint' <= hint
    ensures HintBelow(free - {base + i}, base, hint)
    ensures hint' <= i / WORD_BITS ==> HintBelow(free + {base + i}, base, hint')
  {
  }

  lemma InitialFree(bm: seq<Word>, bm': seq<Word>, base: nat, limit: nat)
    requires |bm| == BM_WORDS && (forall w | 0 <= w < BM_WORDS :: bm[w] == NO_BITS) && limit <= MAX_FRAMES
    requires bm' == bm[0 := bm[0][0 := true]]
    ensures forall f: nat :: f in FreeIn(bm', base, limit) <==> base < f < base + limit
    ensures |FreeIn(bm', base, limit)| == if limit > 0 then limit - 1 else 0
    ensures HintBelow(FreeIn(bm', base, limit), base, 0)
  {
    forall f: nat | base <= f < base + limit
      ensures BitFree(bm', base, f) <==> f != base
    {
    }
    var s := FreeIn(bm', base, limit);
    if limit > 0 {
      SpanSize(base + 1, limit - 1);
      assert s == FrameSpan(base + 1, limit - 1);
    } else {
      assert s == {};
    }
  }

  /** The counts after `n` of them, from index `lo` on, were set to one. */
  ghost function CountedOnce(refs: seq<nat>, lo: nat, n: nat): (r: seq<nat>)
    requires lo + n <= |refs|
  {
    seq(|refs|, i requires 0 <= i < |refs| => if lo <= i < lo + n then 1 else refs[i])
  }

  lemma CountNone(refs: seq<nat>, lo: nat)
    requires lo <= |refs|
    ensures CountedOnce(refs, lo, 0) == refs
  {
  }

  lemma RunIsSpan(base: nat, k: nat)
    ensures Run(base, k) == FrameSpan(base + HUGE_FRAMES * k, HUGE_FRAMES) && HUGE_FRAMES == 512
  {
  }

  lemma CountStep(refs: seq<nat>, lo: nat, n: nat)
    requires lo + n < |refs|
    ensures CountedOnce(refs, lo, n)[lo + n := 1] == CountedOnce(refs, lo, n + 1)
  {
  }

  lemma SpanStep(s: set<nat>, lo: nat, n: nat)
    ensures (s - FrameSpan(lo, n)) - {lo + n} == s - FrameSpan(lo, n + 1)
    ensures s - FrameSpan(lo, 0) == s
  {
  }

  /** The frames of the `k`-th huge page. */
  ghost function Run(base: nat, k: nat): set<nat> {
    FrameSpan(base + HUGE_FRAMES * k, HUGE_FRAMES)
  }

  ghost function RunIndex(base: nat, p: nat): nat {
    if p < base then 0 else (p - base) / HUGE_FRAMES
  }

  /** The `k`-th huge page is managed, not the first, and free. */
  ghost predicate IsRun(free: set<nat>, base: nat, limit: nat, k: nat) {
    1 <= k && HUGE_FRAMES * k + HUGE_FRAMES <= limit && RunFree(free, base, k)
  }

  ghost predicate NoRunBelow(free: set<nat>, base: nat, limit: nat, k: nat) {
    forall j: nat | j < k :: !IsRun(free, base, limit, j)
  }

  lemma NoRunYet(free: set<nat>, base: nat, limit: nat)
    ensures NoRunBelow(free, base, limit, 1)
  {
  }

  lemma NextRun(free: set<nat>, base: nat, limit: nat, k: nat)
    requires k >= 1 && NoRunBelow(free, base, limit, k) && HUGE_FRAMES * k + HUGE_FRAMES <= limit
    ensures RunFree(free, base, k) ==> IsRun(free, base, limit, k) && !NoRunBelow(free, base, limit, limit)
    ensures !RunFree(free, base, k) ==> NoRunBelow(free, base, limit, k + 1)
  {
    hide RunFree;
    if RunFree(free, base, k) { assert IsRun(free, base, limit, k); }
  }

  lemma NoRunAtAll(free: set<nat>, base: nat, limit: nat, k: nat)
    requires NoRunBelow(free, base, limit, k) && limit < HUGE_FRAMES * k + HUGE_FRAMES
    ensures NoRunBelow(free, base, limit, limit)
  {
  }

  lemma RunIndexOf(base: nat, k: nat)
    requires k >= 1
    ensures RunIndex(base, base + HUGE_FRAMES * k) == k && base + HUGE_FRAMES * k != 0
  {
  }

  ghost predicate RunFree(free: set<nat>, base: nat, k: nat) {
    Run(base, k) <= free
  }

  predicate InSpan(f: nat, lo: nat, n: nat) { lo <= f < lo + n }

  ghost function FrameSpan(lo: nat, n: nat): set<nat> {
    set f: nat | lo <= f < lo + n && InSpan(f, lo, n)
  }

  lemma {:induction false} SpanSize(lo: nat, n: nat)
    ensures |FrameSpan(lo, n)| == n
  {
    if n == 0 {
      assert FrameSpan(lo, n) == {};
    } else {
      SpanSize(lo, n - 1);
      assert FrameSpan(lo, n) == FrameSpan(lo, n - 1) + {lo + n - 1};
    }
  }
}
