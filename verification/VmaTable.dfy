/**
 The table of virtual memory areas as a sequence: kept sorted by insertion, pairwise disjoint, with
 first-fit search above a hint.
 */
module VmaTable {
  import opened Sizes
  import opened Options

  const MAX_VMAS: nat := 128
  const USER_HEAP_BASE: nat := 0x1000_0000
  const USER_MMAP_BASE: nat := 0x4000_0000
  const USER_STACK_TOP: nat := 0x7FFF_FFFF_0000
  const USER_STACK_SIZE: nat := 0x80_0000

  datatype VmaType = Unused | Anonymous | Stack | Heap | Code | Data | GuardPage

  datatype Perm = Perm(w: bool, x: bool, user: bool, demand: bool, guard: bool, fixed: bool)

  datatype Vma = Vma(base: nat, size: nat, perm: Perm, typ: VmaType) {
    /** The sum has 64 bits. */
    function End(): nat { (base + size) % WORD_LIMIT }

    predicate Contains(addr: nat) { base <= addr < End() }

    predicate Overlaps(otherBase: nat, otherSize: nat) { base < (otherBase + otherSize) % WORD_LIMIT
        && otherBase < End() }
  }

  const EMPTY := Vma(0, 0, Perm(false, false, false, false, false, false), Unused)

  function PageUp(a: nat): nat { (a + PAGE_SIZE - 1) / PAGE_SIZE * PAGE_SIZE }

  /** A used area of whole pages that ends below 2^64. */
  ghost predicate Proper(v: Vma) {
    v.base % PAGE_SIZE == 0 && v.size % PAGE_SIZE == 0 && v.size > 0 && v.typ != Unused && v.perm.user
        && v.base + v.size < WORD_LIMIT
  }

  /** Sorted by base and pairwise disjoint. */
  ghost predicate TableOk(s: seq<Vma>) {
    && (forall j | 0 <= j < |s| :: Proper(s[j]))
    && forall j, k | 0 <= j < k < |s| :: s[j].End() <= s[k].base
  }

  predicate IsPageOf(p: nat, base: nat, n: nat) { base / PAGE_SIZE <= p < (base + n) / PAGE_SIZE }

  /** The numbers of the pages of `n` bytes from `base` on. */
  ghost function PagesOf(base: nat, n: nat): set<nat> {
    set p: nat | p < (base + n) / PAGE_SIZE && IsPageOf(p, base, n)
  }

  // ----- searching -----

  /** `n` bytes at `a` meet no area and end below the top. */
  ghost predicate Fits(s: seq<Vma>, a: nat, n: nat) {
    a + n <= USER_STACK_TOP && forall j | 0 <= j < |s| && s[j].typ != Unused :: !(a < s[j].End() && a + n > s[j].base)
  }

  /** The places the search looks at: the hint itself, and page boundaries. */
  predicate Candidate(a: nat, hint: nat) { a >= hint && (a == hint || a % PAGE_SIZE == 0) }

  /** An area in the way of `addr` is in the way of every candidate up to its end, rounded up. */
  lemma Blocked(s: seq<Vma>, k: nat, addr: nat, n: nat, hint: nat)
    requires k < |s| && s[k].typ != Unused && addr < s[k].End() && addr + n > s[k].base && addr >= hint
    ensures PageUp(s[k].End()) > addr
    ensures forall a | addr <= a < PageUp(s[k].End()) && Candidate(a, hint) :: !Fits(s, a, n)
  {
    var e := s[k].End();
    assert PageUp(e) >= e;
    forall a | addr <= a < PageUp(e) && Candidate(a, hint)
      ensures !Fits(s, a, n)
    {
      if a != hint { BetweenPages(a, e); }
      assert a < e;
    }
  }

  /** No page boundary lies strictly between an address and that address rounded up. */
  lemma BetweenPages(a: nat, e: nat)
    requires a < PageUp(e) && a % PAGE_SIZE == 0
    ensures a < e
  {
    var p := a / PAGE_SIZE;
    assert a == p * PAGE_SIZE;
    assert p < (e + PAGE_SIZE - 1) / PAGE_SIZE;
    assert (p + 1) * PAGE_SIZE <= e + PAGE_SIZE - 1;
  }

  /**
   With page-aligned areas, a place that fits may be rounded down to a candidate: the least candidate is the
   least of all.
   */
  lemma RoundDown(s: seq<Vma>, a: nat, n: nat, hint: nat)
    requires hint <= a && Fits(s, a, n) && forall j | 0 <= j < |s| && s[j].typ != Unused :: s[j].End() % PAGE_SIZE == 0
    ensures var lo := if a - a % PAGE_SIZE < hint then hint else a - a % PAGE_SIZE;
            Candidate(lo, hint) && Fits(s, lo, n) && lo <= a
  {
    var lo := if a - a % PAGE_SIZE < hint then hint else a - a % PAGE_SIZE;
    forall j | 0 <= j < |s| && s[j].typ != Unused
      ensures !(lo < s[j].End() && lo + n > s[j].base)
    {
      var e := s[j].End();
      if e <= a {
        assert e == e / PAGE_SIZE * PAGE_SIZE && a - a % PAGE_SIZE == a / PAGE_SIZE * PAGE_SIZE;
        assert e / PAGE_SIZE <= a / PAGE_SIZE;
      }
    }
  }

  // ----- inserting and removing -----

  /** A new area after all those that start at or before it. */
  ghost function Inserted(s: seq<Vma>, v: Vma): (r: seq<Vma>)
    ensures |r| == |s| + 1
  {
    if s == [] || s[|s| - 1].base <= v.base then s + [v] else Inserted(s[..|s| - 1], v) + [s[|s| - 1]]
  }

  /** Insertion one step further down: the last of the first `i` areas starts after the new one. */
  lemma InsertedStep(s: seq<Vma>, v: Vma, i: nat)
    requires 0 < i <= |s| && s[i - 1].base > v.base
    ensures Inserted(s[..i], v) + s[i..] == Inserted(s[..i - 1], v) + s[i - 1..]
  {
    assert s[..i][..i - 1] == s[..i - 1];
    assert s[i - 1..] == [s[i - 1]] + s[i..];
  }

  /** Where the swapping stops. */
  lemma InsertedHere(s: seq<Vma>, v: Vma, i: nat, t: seq<Vma>)
    requires i <= |s| && (i > 0 ==> s[i - 1].base <= v.base)
    requires |t| == |s| + 1 && t[i] == v && (forall j | 0 <= j < i :: t[j] == s[j])
    requires forall j | i < j < |t| :: t[j] == s[j - 1]
    ensures Inserted(s[..i], v) + s[i..] == t
  {
    assert Inserted(s[..i], v) == s[..i] + [v];
  }

  ghost predicate NoOverlap(s: seq<Vma>, base: nat, n: nat) {
    forall j | 0 <= j < |s| && s[j].typ != Unused :: !s[j].Overlaps(base, n)
  }

  lemma {:induction false} InsertedContents(s: seq<Vma>, v: Vma)
    ensures multiset(Inserted(s, v)) == multiset(s) + multiset{v}
  {
    if !(s == [] || s[|s| - 1].base <= v.base) {
      InsertedContents(s[..|s| - 1], v);
      assert s == s[..|s| - 1] + [s[|s| - 1]];
    }
  }

  /** Of a range that does not wrap, and of areas that do not, the code's test is the plain one. */
  lemma OverlapPlain(s: seq<Vma>, base: nat, n: nat)
    requires TableOk(s) && base + n < WORD_LIMIT
    ensures forall j | 0 <= j < |s| :: s[j].End() == s[j].base + s[j].size
    ensures NoOverlap(s, base, n) <==> forall j | 0 <= j < |s| :: base + n <= s[j].base || s[j].base + s[j].size <= base
  {
    forall j | 0 <= j < |s|
      ensures s[j].End() == s[j].base + s[j].size && s[j].typ != Unused
      ensures s[j].Overlaps(base, n) <==> s[j].base < base + n && base < s[j].base + s[j].size
    {
      assert Proper(s[j]);
    }
  }

  lemma AppendOk(s: seq<Vma>, v: Vma)
    requires TableOk(s) && Proper(v) && forall j | 0 <= j < |s| :: s[j].End() <= v.base
    ensures TableOk(s + [v])
  {
    hide Proper;
  }

  /** An area that meets no other keeps the table sorted and disjoint. */
  lemma {:induction false} InsertedOk(s: seq<Vma>, v: Vma)
    requires TableOk(s) && Proper(v) && NoOverlap(s, v.base, v.size)
    ensures TableOk(Inserted(s, v))
    ensures forall u | u in Inserted(s, v) :: u == v || u in s
  {
    OverlapPlain(s, v.base, v.size);
    assert v.End() == v.base + v.size;
    if s == [] {
      AppendOk(s, v);
    } else if s[|s| - 1].base <= v.base {
      BeforeLast(s, v.base);
      AppendOk(s, v);
    } else {
      var last, rest := s[|s| - 1], s[..|s| - 1];
      assert Proper(last);
      InsertedOk(rest, v);
      var r := Inserted(rest, v);
      forall j | 0 <= j < |r|
        ensures r[j].End() <= last.base
      {
        assert r[j] in r;
      }
      AppendOk(r, last);
    }
  }

  lemma BeforeLast(s: seq<Vma>, a: nat)
    requires TableOk(s) && s != [] && s[|s| - 1].base <= a && s[|s| - 1].End() <= a
    ensures forall j | 0 <= j < |s| :: s[j].End() <= a
  {
  }

  ghost function Removed(s: seq<Vma>, i: nat): seq<Vma>
    requires i < |s|
  {
    s[..i] + s[i + 1..]
  }

  /** The table after one more area starts or one ends, as far as its members go. */
  lemma InsertedHas(s: seq<Vma>, v: Vma)
    ensures forall u :: u in Inserted(s, v) <==> u in s || u == v
  {
    InsertedContents(s, v);
    forall u
      ensures u in Inserted(s, v) <==> u in s || u == v
    {
      assert u in Inserted(s, v) <==> u in multiset(Inserted(s, v));
      assert u in s <==> u in multiset(s);
    }
  }

  lemma RemovedHas(s: seq<Vma>, i: nat)
    requires TableOk(s) && i < |s|
    ensures TableOk(Removed(s, i))
    ensures forall u :: u in Removed(s, i) <==> u in s && u != s[i]
  {
    var r := Removed(s, i);
    assert forall j | 0 <= j < |r| :: r[j] == if j < i then s[j] else s[j + 1];
    forall u
      ensures u in r <==> u in s && u != s[i]
    {
      StillIn(s, i, u);
    }
  }

  lemma StillIn(s: seq<Vma>, i: nat, u: Vma)
    requires TableOk(s) && i < |s|
    ensures u in Removed(s, i) <==> u in s && u != s[i]
  {
    hide TableOk, Removed;
    if u in s && u != s[i] {
      var j :| 0 <= j < |s| && s[j] == u;
      KeptIn(s, i, j);
    }
    if u in Removed(s, i) {
      var j :| 0 <= j < |Removed(s, i)| && Removed(s, i)[j] == u;
      CameFrom(s, i, j);
    }
  }

  lemma KeptIn(s: seq<Vma>, i: nat, j: nat)
    requires i < |s| && j < |s| && j != i
    ensures s[j] in Removed(s, i)
  {
    assert Removed(s, i)[if j < i then j else j - 1] == s[j];
  }

  lemma CameFrom(s: seq<Vma>, i: nat, j: nat)
    requires TableOk(s) && i < |s| && j < |Removed(s, i)|
    ensures Removed(s, i)[j] in s && Removed(s, i)[j] != s[i]
  {
    var k := if j < i then j else j + 1;
    assert Removed(s, i)[j] == s[k];
    OneBase(s, i);
  }

  /** The size that mmap works with, rounded up in 64 bits. */
  function RoundedSize(n: nat): nat {
    PageUp(n) % WORD_LIMIT
  }

  /** The sum of place and size wraps around, and to a value that looks as if there was room. */
  predicate Misled(from: nat, size: nat) {
    from + size >= WORD_LIMIT && (from + size) % WORD_LIMIT <= USER_STACK_TOP
  }

  /** All areas end at or below the top of the search. */
  ghost predicate EndsBelow(s: seq<Vma>) {
    forall j | 0 <= j < |s| && s[j].typ != Unused :: s[j].End() <= USER_STACK_TOP
  }

  /** No area ends in the last page of the 64-bit addresses. */
  ghost predicate TidyEnds(s: seq<Vma>) {
    forall j | 0 <= j < |s| && s[j].typ != Unused :: s[j].End() + PAGE_SIZE <= WORD_LIMIT
  }

  /** The least candidate that fits, or none when there is none. */
  ghost predicate FirstFit(s: seq<Vma>, place: Option<nat>, n: nat, hint: nat) {
    match place
    case None => forall a | Candidate(a, hint) :: !Fits(s, a, n)
    case Some(a) => Candidate(a, hint) && Fits(s, a, n) && forall b | hint <= b < a && Candidate(b, hint) ::
        !Fits(s, b, n)
  }

  function Shifted(start: nat, off: nat): nat {
    (start + off) % WORD_LIMIT - (start + off) % WORD_LIMIT % PAGE_SIZE
  }

  /** Where the search starts: at a random multiple of the page size above the start, rounded down, in 64 bits. */
  ghost predicate IsShifted(from: nat, start: nat) {
    exists off: nat :: off % PAGE_SIZE == 0 && off < 65536 * PAGE_SIZE && from == Shifted(start, off)
  }

  lemma ShiftedFrom(from: nat, start: nat, off: nat)
    requires off % PAGE_SIZE == 0 && off < 65536 * PAGE_SIZE && from == Shifted(start, off)
    ensures IsShifted(from, start) && from % PAGE_SIZE == 0 && from < WORD_LIMIT
  {
    var a := (start + off) % WORD_LIMIT;
    assert a - a % PAGE_SIZE == a / PAGE_SIZE * PAGE_SIZE;
  }

  lemma TidyTable(s: seq<Vma>)
    requires TableOk(s)
    ensures TidyEnds(s)
  {
    forall j | 0 <= j < |s|
      ensures s[j].End() + PAGE_SIZE <= WORD_LIMIT
    {
      assert Proper(s[j]);
      LastPage(s[j].End());
    }
  }

  lemma LastPage(e: nat)
    requires e % PAGE_SIZE == 0 && e < WORD_LIMIT
    ensures e + PAGE_SIZE <= WORD_LIMIT
  {
  }

  lemma TopAligned(e: nat)
    requires e <= USER_STACK_TOP
    ensures PageUp(e) <= USER_STACK_TOP
  {
  }

  lemma SumOf(a: nat, b: nat)
    requires a < WORD_LIMIT && b < WORD_LIMIT
    ensures (a + b) % WORD_LIMIT == if a + b < WORD_LIMIT then a + b else a + b - WORD_LIMIT
  {
  }

  lemma FittingIsFree(s: seq<Vma>, a: nat, n: nat)
    requires Fits(s, a, n)
    ensures NoOverlap(s, a, n)
  {
  }

  // ----- what the whole address space keeps -----

  /** The heap area, if the heap is not empty, is exactly what lies between its two ends. */
  ghost predicate HeapOk(s: seq<Vma>, start: nat, end: nat) {
    && start % PAGE_SIZE == 0 && end % PAGE_SIZE == 0 && start <= end
    && (forall v <- s | v.typ == Heap :: v.base == start && v.size == end - start)
    && (end > start ==> exists v <- s :: v.typ == Heap)
  }

  /** No page of a guard area is mapped. */
  ghost predicate GuardsBare(s: seq<Vma>, mapped: set<nat>) {
    forall v <- s | v.typ == GuardPage :: PagesOf(v.base, v.size) !! mapped
  }

  /** Pages of an area that meets no other are in no guard area. */
  lemma FreshPagesBare(s: seq<Vma>, mapped: set<nat>, base: nat, n: nat, more: set<nat>)
    requires TableOk(s) && GuardsBare(s, mapped) && base % PAGE_SIZE == 0 && n % PAGE_SIZE == 0 && NoOverlap(s, base, n)
    requires base + n < WORD_LIMIT
    requires more <= PagesOf(base, n)
    ensures GuardsBare(s, mapped + more)
  {
    OverlapPlain(s, base, n);
    forall v <- s | v.typ == GuardPage
      ensures PagesOf(v.base, v.size) !! mapped + more
    {
      var j :| 0 <= j < |s| && s[j] == v;
      assert Proper(s[j]);
      PagesApart(v.base, v.size, base, n);
    }
  }

  lemma PagesApart(a: nat, m: nat, b: nat, n: nat)
    requires a % PAGE_SIZE == 0 && m % PAGE_SIZE == 0 && b % PAGE_SIZE == 0 && n % PAGE_SIZE == 0
    requires a + m <= b || b + n <= a
    ensures PagesOf(a, m) !! PagesOf(b, n)
  {
    forall p | p in PagesOf(a, m)
      ensures p !in PagesOf(b, n)
    {
      assert IsPageOf(p, a, m);
      if a + m <= b {
        assert (a + m) / PAGE_SIZE <= b / PAGE_SIZE;
      } else {
        assert (b + n) / PAGE_SIZE <= a / PAGE_SIZE;
      }
    }
  }

  /** The page of an address inside an aligned area. */
  lemma PageWithin(v: Vma, addr: nat)
    requires Proper(v) && v.Contains(addr)
    ensures addr / PAGE_SIZE in PagesOf(v.base, v.size)
  {
    assert v.End() / PAGE_SIZE * PAGE_SIZE == v.End();
    assert IsPageOf(addr / PAGE_SIZE, v.base, v.size);
  }

  /** A new area that is neither heap nor guard keeps everything. */
  lemma NewAreaKeeps(s: seq<Vma>, v: Vma, start: nat, end: nat, mapped: set<nat>, more: set<nat>)
    requires TableOk(s) && HeapOk(s, start, end) && GuardsBare(s, mapped)
    requires Proper(v) && NoOverlap(s, v.base, v.size) && v.typ != Heap && v.typ != GuardPage
    requires more <= PagesOf(v.base, v.size)
    ensures TableOk(Inserted(s, v)) && HeapOk(Inserted(s, v), start, end) && GuardsBare(Inserted(s, v), mapped + more)
  {
    InsertedOk(s, v);
    InsertedHas(s, v);
    FreshPagesBare(s, mapped, v.base, v.size, more);
  }

  lemma AreaGone(s: seq<Vma>, k: nat, start: nat, end: nat, mapped: set<nat>, less: set<nat>)
    requires TableOk(s) && HeapOk(s, start, end) && GuardsBare(s, mapped) && k < |s| && less <= mapped
    ensures TableOk(Removed(s, k)) && GuardsBare(Removed(s, k), less)
    ensures HeapOk(Removed(s, k), start, end) <==> s[k].typ != Heap
  {
    RemovedHas(s, k);
    if s[k].typ == Heap {
      assert s[k] in s && Proper(s[k]);
      forall j | 0 <= j < |s| && s[j].typ == Heap
        ensures s[j].base == s[k].base
      {
        assert s[j] in s;
      }
      OneBase(s, k);
      assert forall v <- Removed(s, k) :: v.typ != Heap;
    }
  }

  /** No two areas start at the same address. */
  lemma OneBase(s: seq<Vma>, k: nat)
    requires TableOk(s) && k < |s|
    ensures forall j | 0 <= j < |s| && s[j].base == s[k].base :: j == k
  {
    forall j | 0 <= j < |s| && s[j].base == s[k].base
      ensures j == k
    {
      assert Proper(s[j]) && Proper(s[k]);
    }
  }

  // ----- the heap area -----

  ghost predicate NoneContains(s: seq<Vma>, a: nat) {
    forall j | 0 <= j < |s| :: !s[j].Contains(a)
  }

  /** The table after the first area that contains `a` got a new size. */
  ghost predicate Resized(s: seq<Vma>, s': seq<Vma>, a: nat, size: nat) {
    if NoneContains(s, a) then s' == s
    else exists k: nat ::
        && k < |s| && s[k].Contains(a) && (forall j | 0 <= j < k :: !s[j].Contains(a))
        && s' == s[k := Vma(s[k].base, size, s[k].perm, s[k].typ)]
  }

  lemma OneContains(s: seq<Vma>, a: nat, j: nat, k: nat)
    requires TableOk(s) && j < |s| && k < |s| && s[j].Contains(a) && s[k].Contains(a)
    ensures j == k
  {
  }

  /** A heap that is not empty is the only area that contains its start. */
  lemma HeapAt(s: seq<Vma>, start: nat, end: nat, k: nat)
    requires TableOk(s) && HeapOk(s, start, end) && start < end && k < |s| && s[k].Contains(start)
    ensures s[k].typ == Heap && s[k].base == start && s[k].End() == end
    ensures forall j | 0 <= j < |s| && s[j].typ == Heap :: j == k
    ensures !NoneContains(s, start)
  {
    var h := TheHeap(s, start, end);
    OneContains(s, start, h, k);
    OneBase(s, k);
    forall j | 0 <= j < |s| && s[j].typ == Heap
      ensures j == k
    {
      assert s[j] in s;
    }
  }

  lemma TheHeap(s: seq<Vma>, start: nat, end: nat) returns (h: nat)
    requires TableOk(s) && HeapOk(s, start, end) && start < end
    ensures h < |s| && s[h].typ == Heap && s[h].base == start && s[h].End() == end && s[h].Contains(start)
  {
    var v :| v in s && v.typ == Heap;
    h :| h < |s| && s[h] == v;
    ProperEnd(s[h]);
  }

  lemma ProperEnd(v: Vma)
    requires Proper(v)
    ensures v.End() == v.base + v.size
  {
  }

  lemma HeapThere(s: seq<Vma>, start: nat, end: nat)
    requires TableOk(s) && HeapOk(s, start, end) && start < end
    ensures !NoneContains(s, start)
  {
    var h := TheHeap(s, start, end);
  }

  /** A heap area that ends elsewhere, with nothing in its way, keeps the table in order. */
  lemma HeapMoved(s: seq<Vma>, s': seq<Vma>, start: nat, end: nat, end': nat)
    requires TableOk(s) && HeapOk(s, start, end) && start < end && start < end' < WORD_LIMIT && end' % PAGE_SIZE == 0
    requires end' > end ==> NoOverlap(s, end, end' - end)
    requires Resized(s, s', start, end' - start)
    ensures TableOk(s') && HeapOk(s', start, end')
    ensures forall m :: GuardsBare(s, m) ==> GuardsBare(s', m)
  {
    HeapThere(s, start, end);
    var k: nat :| k < |s| && s[k].Contains(start) && s' == s[k := Vma(s[k].base, end' - start, s[k].perm, s[k].typ)];
    HeapAt(s, start, end, k);
    MovedTable(s, s', start, end, end', k);
    MovedKinds(s, s', start, end' - start, k);
    assert s'[k] in s' && s'[k].typ == Heap;
  }

  lemma MovedTable(s: seq<Vma>, s': seq<Vma>, start: nat, end: nat, end': nat, k: nat)
    requires TableOk(s) && k < |s| && s[k].base == start && s[k].End() == end && start < end' < WORD_LIMIT
    requires end' % PAGE_SIZE == 0
    requires end' > end ==> NoOverlap(s, end, end' - end)
    requires s' == s[k := Vma(s[k].base, end' - start, s[k].perm, s[k].typ)]
    ensures TableOk(s')
  {
    assert Proper(s[k]);
    assert s'[k].End() == end';
    if end' > end { OverlapPlain(s, end, end' - end); }
    forall l | k < l < |s|
      ensures end' <= s[l].base
    {
      assert s[k].End() <= s[l].base && Proper(s[l]);
    }
    forall j, l | 0 <= j < l < |s'|
      ensures s'[j].End() <= s'[l].base
    {
      assert s[j].End() <= s[l].base;
    }
  }

  lemma MovedKinds(s: seq<Vma>, s': seq<Vma>, start: nat, size: nat, k: nat)
    requires k < |s| && s[k].typ == Heap && s[k].base == start
    requires s' == s[k := Vma(s[k].base, size, s[k].perm, s[k].typ)]
    requires forall j | 0 <= j < |s| && s[j].typ == Heap :: j == k
    ensures forall v <- s' | v.typ == Heap :: v.base == start && v.size == size
    ensures forall m :: GuardsBare(s, m) ==> GuardsBare(s', m)
  {
    forall v <- s' | v.typ == Heap
      ensures v.base == start && v.size == size
    {
      var j :| 0 <= j < |s'| && s'[j] == v;
      assert s[j].typ == Heap;
    }
    forall v <- s' | v.typ == GuardPage
      ensures v in s
    {
      var j :| 0 <= j < |s'| && s'[j] == v;
    }
  }

  /** Resizing to nothing, or letting the heap end before it starts, spoils the table. */
  lemma Spoiled(s: seq<Vma>, s': seq<Vma>, start: nat, end: nat, size: nat)
    requires Resized(s, s', start, size) && (end < start || (size == 0 && !NoneContains(s, start)))
    ensures !(TableOk(s') && HeapOk(s', start, end))
  {
    if end >= start {
      var k: nat :| k < |s| && s' == s[k := Vma(s[k].base, size, s[k].perm, s[k].typ)];
      assert !Proper(s'[k]);
    }
  }

  /** The first growth of the heap. */
  lemma HeapStarted(s: seq<Vma>, start: nat, end: nat, v: Vma)
    requires TableOk(s) && HeapOk(s, start, start) && v.typ == Heap && v.base == start && v.size == end - start
    requires start < end < WORD_LIMIT && end % PAGE_SIZE == 0 && v.perm.user && NoOverlap(s, start, end - start)
    ensures TableOk(Inserted(s, v)) && HeapOk(Inserted(s, v), start, end)
    ensures forall m :: GuardsBare(s, m) ==> GuardsBare(Inserted(s, v), m)
  {
    InsertedOk(s, v);
    InsertedHas(s, v);
    NoHeapYet(s, start);
    assert v in Inserted(s, v);
  }

  lemma NoHeapYet(s: seq<Vma>, start: nat)
    requires TableOk(s) && HeapOk(s, start, start)
    ensures forall v <- s :: v.typ != Heap
  {
    forall v <- s
      ensures v.typ != Heap
    {
      var j :| 0 <= j < |s| && s[j] == v;
      assert Proper(s[j]);
    }
  }

  /** A first growth that gets no page, or finds the table full, spoils it. */
  lemma HeapNotStarted(s: seq<Vma>, start: nat, end: nat, v: Vma)
    requires TableOk(s) && HeapOk(s, start, start) && start <= end
    ensures end > start ==> !HeapOk(s, start, end)
    ensures v.size == 0 ==> !TableOk(Inserted(s, v))
  {
    NoHeapYet(s, start);
    InsertedHas(s, v);
    if v.size == 0 {
      assert v in Inserted(s, v);
      var j :| 0 <= j < |Inserted(s, v)| && Inserted(s, v)[j] == v;
      assert !Proper(Inserted(s, v)[j]);
    }
  }

  /** Growing a range by the page after it. */
  lemma OverlapNext(s: seq<Vma>, a: nat, n: nat)
    requires TableOk(s) && a % PAGE_SIZE == 0 && n % PAGE_SIZE == 0 && a + n + PAGE_SIZE < WORD_LIMIT
    ensures (n == 0 || NoOverlap(s, a, n)) && NoOverlap(s, a + n, PAGE_SIZE) ==> NoOverlap(s, a, n + PAGE_SIZE)
    ensures NoOverlap(s, a, n + PAGE_SIZE) ==> NoOverlap(s, a + n, PAGE_SIZE)
  {
    OverlapPlain(s, a, n);
    OverlapPlain(s, a + n, PAGE_SIZE);
    OverlapPlain(s, a, n + PAGE_SIZE);
    assert forall j | 0 <= j < |s| :: Proper(s[j]);
    hide NoOverlap, Proper;
  }
}
