/**
 Address spaces as page numbers: everything below `top` is live except the free spans. The spans
 are kept sorted, nonempty and apart from each other and from `top`, which makes them a function
 of the set of live pages.
 */
module VSpans {

  datatype Span = Span(lo: nat, n: nat) {
    function End(): nat { lo + n }

    predicate Has(k: nat) { lo <= k < lo + n }
  }

  ghost predicate InFree(rs: seq<Span>, k: nat) {
    exists r <- rs :: r.Has(k)
  }

  /** The live pages. */
  ghost function Live(top: nat, rs: seq<Span>): set<nat> {
    set k: nat | k < top && !InFree(rs, k)
  }

  /** Sorted, nonempty, disjoint spans below `top`; they may touch. */
  ghost predicate Sorted(top: nat, rs: seq<Span>) {
    && (forall i | 0 <= i < |rs| :: rs[i].n > 0 && rs[i].End() < top)
    && forall i, j | 0 <= i < j < |rs| :: rs[i].End() <= rs[j].lo
  }

  /** Sorted spans that do not touch. */
  ghost predicate Canonical(top: nat, rs: seq<Span>) {
    && (forall i | 0 <= i < |rs| :: rs[i].n > 0 && rs[i].End() < top)
    && forall i, j | 0 <= i < j < |rs| :: rs[i].End() < rs[j].lo
  }

  ghost predicate NoneLive(live: set<nat>, k: nat, n: nat) {
    forall p: nat | k <= p < k + n :: p !in live
  }

  // ----- the representation is canonical -----

  /** A maximal run of pages below `top` that are not live. */
  ghost predicate IsGap(live: set<nat>, s: Span) {
    s.n > 0 && NoneLive(live, s.lo, s.n) && s.End() in live && (s.lo > 0 ==> s.lo - 1 in live)
  }

  lemma SpansAreGaps(top: nat, rs: seq<Span>, s: Span)
    requires Canonical(top, rs)
    ensures s in rs <==> IsGap(Live(top, rs), s)
  {
    hide IsGap;
    if s in rs { SpansAreGapsForward(top, rs, s); }
    if IsGap(Live(top, rs), s) {
      GapStarts(top, rs, s);
      var r :| r in rs && r.Has(s.lo);
      SpansAreGapsForward(top, rs, r);
      OneGap(Live(top, rs), r, s);
    }
  }

  lemma GapStarts(top: nat, rs: seq<Span>, s: Span)
    requires Canonical(top, rs) && IsGap(Live(top, rs), s)
    ensures InFree(rs, s.lo)
  {
    assert s.lo !in Live(top, rs) && s.End() in Live(top, rs);
  }

  /** Two gaps with a page in common are the same. */
  lemma OneGap(live: set<nat>, r: Span, s: Span)
    requires IsGap(live, r) && IsGap(live, s) && r.Has(s.lo)
    ensures r == s
  {
  }

  lemma SpansAreGapsForward(top: nat, rs: seq<Span>, s: Span)
    requires Canonical(top, rs) && s in rs
    ensures IsGap(Live(top, rs), s)
  {
    var i :| 0 <= i < |rs| && rs[i] == s;
    forall r <- rs
      ensures !r.Has(s.End()) && (s.lo > 0 ==> !r.Has(s.lo - 1))
    {
      var j :| 0 <= j < |rs| && rs[j] == r;
      if j < i { assert rs[j].End() < rs[i].lo; }
      if i < j { assert rs[i].End() < rs[j].lo; }
    }
  }

  lemma TopIsLast(top: nat, rs: seq<Span>)
    requires Canonical(top, rs)
    ensures top > 0 ==> top - 1 in Live(top, rs)
    ensures forall k <- Live(top, rs) :: k < top
  {
    assert forall i | 0 <= i < |rs| :: rs[i].End() < top;
  }

  lemma {:induction false} SameSpansSameOrder(top: nat, rs: seq<Span>, top': nat, rs': seq<Span>)
    requires Canonical(top, rs) && Canonical(top', rs')
    requires forall s: Span :: s in rs <==> s in rs'
    ensures rs == rs'
    decreases |rs|
  {
    assert rs != [] ==> rs[0] in rs';
    assert rs' != [] ==> rs'[0] in rs;
    if rs != [] {
      FirstIsLowest(top, rs, rs'[0]);
      FirstIsLowest(top', rs', rs[0]);
      assert rs[0] == rs'[0];
      RestWithoutFirst(top, rs);
      RestWithoutFirst(top', rs');
      SameSpansSameOrder(top, rs[1..], top', rs'[1..]);
    }
  }

  lemma FirstIsLowest(top: nat, rs: seq<Span>, s: Span)
    requires Canonical(top, rs) && s in rs
    ensures s == rs[0] || rs[0].lo < s.lo
  {
    var i :| 0 <= i < |rs| && rs[i] == s;
    if i > 0 { assert rs[0].End() < rs[i].lo; }
  }

  lemma RestWithoutFirst(top: nat, rs: seq<Span>)
    requires Canonical(top, rs) && rs != []
    ensures Canonical(top, rs[1..]) && forall s: Span :: s in rs[1..] <==> s in rs && s != rs[0]
  {
    assert rs == [rs[0]] + rs[1..];
    assert forall i | 0 <= i < |rs[1..]| :: rs[1..][i] == rs[i + 1];
    assert forall i | 0 < i < |rs| :: rs[i] != rs[0] && rs[i] == rs[1..][i - 1];
  }

  /** Equal live sets have equal representations. */
  lemma RepresentationIsUnique(top: nat, rs: seq<Span>, top': nat, rs': seq<Span>)
    requires Canonical(top, rs) && Canonical(top', rs') && Live(top, rs) == Live(top', rs')
    ensures top == top' && rs == rs'
  {
    TopIsLast(top, rs);
    TopIsLast(top', rs');
    forall s: Span
      ensures s in rs <==> s in rs'
    {
      SpansAreGaps(top, rs, s);
      SpansAreGaps(top', rs', s);
    }
    SameSpansSameOrder(top, rs, top', rs');
  }

  // ----- accounting -----

  function Total(rs: seq<Span>): nat {
    if rs == [] then 0 else Total(rs[..|rs| - 1]) + rs[|rs| - 1].n
  }

  ghost function Pages(s: Span): (r: set<nat>)
    ensures |r| == s.n && forall k :: k in r <==> s.Has(k)
    decreases s.n
  {
    if s.n == 0 then {} else Pages(Span(s.lo, s.n - 1)) + {s.lo + s.n - 1}
  }

  /** The live pages are those below `top` less the pages of the spans. */
  lemma {:induction false} LiveCount(top: nat, rs: seq<Span>)
    requires Sorted(top, rs)
    ensures |Live(top, rs)| == top - Total(rs)
    decreases |rs|
  {
    if rs == [] {
      assert Live(top, rs) == Pages(Span(0, top));
    } else {
      var init, s := rs[..|rs| - 1], rs[|rs| - 1];
      assert rs == init + [s];
      SortedInit(top, rs);
      LiveCount(top, init);
      LiveWithout(top, init, s);
      LastIsLive(top, rs);
      hide Sorted, Live, Pages;
      assert |Live(top, init) - Pages(s)| == |Live(top, init)| - |Pages(s)|;
    }
  }

  lemma SortedInit(top: nat, rs: seq<Span>)
    requires Sorted(top, rs) && rs != []
    ensures Sorted(top, rs[..|rs| - 1])
  {
  }

  /** The last span is live as long as it is not among the free ones. */
  lemma LastIsLive(top: nat, rs: seq<Span>)
    requires Sorted(top, rs) && rs != []
    ensures Pages(rs[|rs| - 1]) <= Live(top, rs[..|rs| - 1]) && |Pages(rs[|rs| - 1])| == rs[|rs| - 1].n
  {
    var init, s := rs[..|rs| - 1], rs[|rs| - 1];
    forall k <- Pages(s)
      ensures k in Live(top, init)
    {
      assert forall i | 0 <= i < |init| :: init[i] == rs[i] && rs[i].End() <= s.lo;
    }
  }

  lemma LiveWithout(top: nat, rs: seq<Span>, s: Span)
    ensures Live(top, rs + [s]) == Live(top, rs) - Pages(s)
  {
    forall k: nat
      ensures InFree(rs + [s], k) <==> InFree(rs, k) || s.Has(k)
    {
      if InFree(rs, k) {
        var r :| r in rs && r.Has(k);
        assert r in rs + [s];
      }
      if s.Has(k) { assert s in rs + [s]; }
    }
  }

  // ----- first fit -----

  /** A run of pages that are not live lies inside one span, or starts at or above `top`. */
  lemma FreeRunIsInASpan(top: nat, rs: seq<Span>, k: nat, n: nat) returns (i: nat)
    requires Canonical(top, rs) && n > 0 && k < top && NoneLive(Live(top, rs), k, n)
    ensures i < |rs| && rs[i].lo <= k && k + n <= rs[i].End()
  {
    assert k !in Live(top, rs);
    var r :| r in rs && r.Has(k);
    i :| 0 <= i < |rs| && rs[i] == r;
    SpansAreGapsForward(top, rs, r);
    assert r.End() in Live(top, rs);
  }

  /** Taking the front of the first span that is long enough takes the lowest run of all. */
  lemma FirstFitIsLowest(top: nat, rs: seq<Span>, i: nat, n: nat, j: nat)
    requires Canonical(top, rs) && n > 0 && i < |rs| && rs[i].n >= n
    requires forall h | 0 <= h < i :: rs[h].n < n
    ensures NoneLive(Live(top, rs), rs[i].lo, n)
    ensures NoneLive(Live(top, rs), j, n) ==> rs[i].lo <= j
  {
    assert rs[i] in rs;
    assert forall h | i < h < |rs| :: rs[i].End() < rs[h].lo;
    if NoneLive(Live(top, rs), j, n) && j < rs[i].lo {
      var h := FreeRunIsInASpan(top, rs, j, n);
    }
  }

  lemma NoFitMeansTop(top: nat, rs: seq<Span>, n: nat, j: nat)
    requires Canonical(top, rs) && n > 0 && forall h | 0 <= h < |rs| :: rs[h].n < n
    ensures NoneLive(Live(top, rs), top, n)
    ensures NoneLive(Live(top, rs), j, n) ==> top <= j
  {
    if NoneLive(Live(top, rs), j, n) && j < top {
      var h := FreeRunIsInASpan(top, rs, j, n);
    }
  }

  // ----- what the operations do to the spans -----

  lemma FreeConcat(a: seq<Span>, b: seq<Span>, k: nat)
    ensures InFree(a + b, k) <==> InFree(a, k) || InFree(b, k)
  {
    if InFree(a, k) {
      var r :| r in a && r.Has(k);
      assert r in a + b;
    }
    if InFree(b, k) {
      var r :| r in b && r.Has(k);
      assert r in a + b;
    }
  }

  lemma FreeOne(s: Span, k: nat)
    ensures InFree([s], k) <==> s.Has(k)
  {
    assert s in [s];
  }

  /** Freedom of a page in a list that has `s` in its middle. */
  lemma FreeAround(a: seq<Span>, s: Span, c: seq<Span>, k: nat)
    ensures InFree(a + [s] + c, k) <==> InFree(a, k) || s.Has(k) || InFree(c, k)
  {
    FreeConcat(a + [s], c, k);
    FreeConcat(a, [s], k);
    FreeOne(s, k);
  }

  lemma NeighboursMiss(top: nat, rs: seq<Span>, i: nat, k: nat)
    requires Sorted(top, rs) && i < |rs| && rs[i].Has(k)
    ensures !InFree(rs[..i], k) && !InFree(rs[i + 1..], k)
  {
    forall r <- rs[..i]
      ensures !r.Has(k)
    {
      var j :| 0 <= j < i && rs[..i][j] == r;
      assert rs[j].End() <= rs[i].lo;
    }
    forall r <- rs[i + 1..]
      ensures !r.Has(k)
    {
      var j :| 0 <= j < |rs| - i - 1 && rs[i + 1..][j] == r;
      assert rs[i].End() <= rs[i + 1 + j].lo;
    }
  }

  function Without(rs: seq<Span>, i: nat): seq<Span>
    requires i < |rs|
  {
    rs[..i] + rs[i + 1..]
  }

  lemma WithoutIndices(rs: seq<Span>, i: nat)
    requires i < |rs|
    ensures |Without(rs, i)| == |rs| - 1
    ensures forall j | 0 <= j < |rs| - 1 :: Without(rs, i)[j] == rs[if j < i then j else j + 1]
  {
  }

  /** The spans after the first `n` pages of span `i` became live. */
  function Cut(rs: seq<Span>, i: nat, n: nat): seq<Span>
    requires i < |rs| && n <= rs[i].n
  {
    if n == rs[i].n then Without(rs, i) else rs[i := Span(rs[i].lo + n, rs[i].n - n)]
  }

  lemma CutIsCanonical(top: nat, rs: seq<Span>, i: nat, n: nat)
    requires Canonical(top, rs) && i < |rs| && 0 < n <= rs[i].n
    ensures Canonical(top, Cut(rs, i, n))
  {
    var rs' := Cut(rs, i, n);
    if n == rs[i].n {
      assert forall j | 0 <= j < |rs'| :: rs'[j] == rs[if j < i then j else j + 1];
    }
  }

  lemma CutIsLive(top: nat, rs: seq<Span>, i: nat, n: nat)
    requires Canonical(top, rs) && i < |rs| && 0 < n <= rs[i].n
    ensures Live(top, Cut(rs, i, n)) == Live(top, rs) + Pages(Span(rs[i].lo, n))
  {
    hide InFree;
    var rs', s := Cut(rs, i, n), Span(rs[i].lo + n, rs[i].n - n);
    assert rs[i].End() < top;
    assert rs == rs[..i] + [rs[i]] + rs[i + 1..];
    assert n < rs[i].n ==> rs' == rs[..i] + [s] + rs[i + 1..];
    forall k: nat
      ensures InFree(rs', k) <==> InFree(rs, k) && !(rs[i].lo <= k < rs[i].lo + n)
      ensures rs[i].Has(k) ==> InFree(rs, k)
    {
      FreeAround(rs[..i], rs[i], rs[i + 1..], k);
      FreeAround(rs[..i], s, rs[i + 1..], k);
      FreeConcat(rs[..i], rs[i + 1..], k);
      if rs[i].Has(k) { NeighboursMiss(top, rs, i, k); }
    }
  }

  /** Where a new span goes: in front of the first one that starts after it. */
  function InsertAt(rs: seq<Span>, i: nat, s: Span): seq<Span>
    requires i <= |rs|
  {
    rs[..i] + [s] + rs[i..]
  }

  lemma InsertIndices(rs: seq<Span>, i: nat, s: Span)
    requires i <= |rs|
    ensures |InsertAt(rs, i, s)| == |rs| + 1
    ensures forall j | 0 <= j <= |rs| :: InsertAt(rs, i, s)[j] == if j < i then rs[j] else if j == i then s
            else rs[j - 1]
  {
  }

  ghost predicate FirstAfter(rs: seq<Span>, i: nat, s: Span) {
    i <= |rs| && (forall h | 0 <= h < i :: rs[h].lo <= s.lo) && (i < |rs| ==> s.lo < rs[i].lo)
  }

  /** Freeing live pages that do not reach `top`: the span fits between its neighbours, which it may touch. */
  lemma InsertIsSorted(top: nat, rs: seq<Span>, i: nat, s: Span)
    requires Canonical(top, rs) && FirstAfter(rs, i, s) && s.n > 0 && s.End() < top && Pages(s) <= Live(top, rs)
    ensures Sorted(top, InsertAt(rs, i, s))
  {
    forall j | 0 <= j < |rs|
      ensures if j < i then rs[j].End() <= s.lo else s.End() <= rs[j].lo
    {
      InsertFits(top, rs, i, s, j);
    }
    InsertBetween(top, rs, i, s);
  }

  lemma InsertBetween(top: nat, rs: seq<Span>, i: nat, s: Span)
    requires Canonical(top, rs) && i <= |rs| && s.n > 0 && s.End() < top
    requires forall j | 0 <= j < |rs| :: if j < i then rs[j].End() <= s.lo else s.End() <= rs[j].lo
    ensures Sorted(top, InsertAt(rs, i, s))
  {
    InsertIndices(rs, i, s);
  }

  lemma FreeIsNotLive(top: nat, rs: seq<Span>, r: Span, k: nat)
    requires r in rs && r.Has(k)
    ensures k !in Live(top, rs)
  {
  }

  lemma InsertIsFree(top: nat, rs: seq<Span>, i: nat, s: Span)
    requires i <= |rs|
    ensures Live(top, InsertAt(rs, i, s)) == Live(top, rs) - Pages(s)
  {
    hide InFree;
    assert rs == rs[..i] + rs[i..];
    forall k: nat
      ensures InFree(InsertAt(rs, i, s), k) <==> InFree(rs, k) || s.Has(k)
    {
      FreeAround(rs[..i], s, rs[i..], k);
      FreeConcat(rs[..i], rs[i..], k);
    }
  }

  lemma InsertFits(top: nat, rs: seq<Span>, i: nat, s: Span, j: nat)
    requires Canonical(top, rs) && FirstAfter(rs, i, s) && s.n > 0 && Pages(s) <= Live(top, rs) && j < |rs|
    ensures if j < i then rs[j].End() <= s.lo else s.End() <= rs[j].lo
  {
    hide Pages, Live, InFree;
    var r := rs[j];
    assert r.n > 0 && (i < j ==> rs[i].End() < r.lo);
    if j < i {
      assert s.lo in Pages(s);
      if r.Has(s.lo) { FreeIsNotLive(top, rs, r, s.lo); }
    } else {
      assert s.lo < rs[i].lo;
      FreeIsNotLive(top, rs, r, r.lo);
      assert r.lo !in Pages(s);
      assert !s.Has(r.lo);
    }
  }

  /** Two touching neighbours become one span. */
  function Merge(rs: seq<Span>, i: nat): seq<Span>
    requires i + 1 < |rs|
  {
    rs[..i] + [Span(rs[i].lo, rs[i].n + rs[i + 1].n)] + rs[i + 2..]
  }

  /** Sorted spans of which those up to `i` are already apart from their successors. */
  ghost predicate ApartUpTo(top: nat, rs: seq<Span>, i: nat) {
    Sorted(top, rs) && forall h, j | 0 <= h < i && h < j < |rs| :: rs[h].End() < rs[j].lo
  }

  lemma MergeStep(top: nat, rs: seq<Span>, i: nat)
    requires ApartUpTo(top, rs, i) && i + 1 < |rs| && rs[i].End() == rs[i + 1].lo
    ensures ApartUpTo(top, Merge(rs, i), i)
    ensures Live(top, Merge(rs, i)) == Live(top, rs)
  {
    hide InFree;
    var rs' := Merge(rs, i);
    assert forall j | 0 <= j < |rs'| && j != i :: rs'[j] == rs[if j < i then j else j + 1];
    forall k: nat
      ensures InFree(rs', k) <==> InFree(rs, k)
    {
      MergeMember(rs, i, k);
    }
  }

  lemma MergeMember(rs: seq<Span>, i: nat, k: nat)
    requires i + 1 < |rs| && rs[i].End() == rs[i + 1].lo
    ensures InFree(Merge(rs, i), k) <==> InFree(rs, k)
  {
    hide InFree;
    var a, c := rs[..i], rs[i + 2..];
    assert rs == (a + [rs[i]]) + [rs[i + 1]] + c;
    FreeAround(a, Span(rs[i].lo, rs[i].n + rs[i + 1].n), c, k);
    FreeAround(a + [rs[i]], rs[i + 1], c, k);
    FreeConcat(a, [rs[i]], k);
    FreeOne(rs[i], k);
  }

  lemma ApartStep(top: nat, rs: seq<Span>, i: nat)
    requires ApartUpTo(top, rs, i) && i + 1 < |rs| && rs[i].End() != rs[i + 1].lo
    ensures ApartUpTo(top, rs, i + 1)
  {
    forall j | i + 1 < j < |rs|
      ensures rs[i].End() < rs[j].lo
    {
      assert rs[i + 1].End() <= rs[j].lo;
    }
  }

  lemma AllApart(top: nat, rs: seq<Span>, i: nat)
    requires ApartUpTo(top, rs, i) && |rs| <= i + 1
    ensures Canonical(top, rs)
  {
  }

  /** Spans apart from each other that may touch `top`. */
  ghost predicate UpToTop(top: nat, rs: seq<Span>) {
    && (forall i | 0 <= i < |rs| :: rs[i].n > 0 && rs[i].End() <= top)
    && forall i, j | 0 <= i < j < |rs| :: rs[i].End() < rs[j].lo
  }

  /** Freeing the last live pages lowers `top`, which a span may then touch. */
  lemma Retract(top: nat, rs: seq<Span>, k: nat)
    requires Canonical(top, rs) && k < top && Pages(Span(k, top - k)) <= Live(top, rs)
    ensures UpToTop(k, rs) && Live(k, rs) == Live(top, rs) - Pages(Span(k, top - k))
  {
    forall i | 0 <= i < |rs|
      ensures rs[i].End() <= k
    {
      var last := rs[i].End() - 1;
      assert rs[i].n > 0;
      FreeIsNotLive(top, rs, rs[i], last);
      assert last !in Pages(Span(k, top - k));
    }
  }

  lemma NotTouchingTop(top: nat, rs: seq<Span>)
    requires UpToTop(top, rs) && forall i | 0 <= i < |rs| :: rs[i].End() != top
    ensures Canonical(top, rs)
  {
  }

  /** The span that touches `top` is the last one, and lowering `top` through it changes no live page. */
  lemma RetractThrough(top: nat, rs: seq<Span>, i: nat)
    requires UpToTop(top, rs) && i < |rs| && rs[i].End() == top
    ensures rs[i].lo <= top && UpToTop(rs[i].lo, Without(rs, i)) && Live(rs[i].lo, Without(rs, i)) == Live(top, rs)
  {
    LastTouches(top, rs, i);
    var init := rs[..i];
    assert rs == init + [rs[i]] && Without(rs, i) == init;
    LiveWithout(top, init, rs[i]);
    hide UpToTop;
    forall k: nat
      ensures k in Live(rs[i].lo, init) <==> k in Live(top, rs)
    {
      InitBelow(top, rs, i, k);
    }
  }

  lemma LastTouches(top: nat, rs: seq<Span>, i: nat)
    requires UpToTop(top, rs) && i < |rs| && rs[i].End() == top
    ensures i == |rs| - 1 && rs[i].lo <= top && UpToTop(rs[i].lo, rs[..i])
  {
    assert i + 1 < |rs| ==> rs[i].End() < rs[i + 1].lo;
  }

  lemma InitBelow(top: nat, rs: seq<Span>, i: nat, k: nat)
    requires i == |rs| - 1 && rs[i].End() == top
    requires Live(top, rs) == Live(top, rs[..i]) - Pages(rs[i])
    ensures k in Live(rs[i].lo, rs[..i]) <==> k in Live(top, rs)
  {
  }
}
