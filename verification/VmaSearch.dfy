/**
 The search for a free range as a function of any table: round by round, with sums of 64 bits. It climbs
 from its start over the areas in its way; an area that ends in the last page sends it back to address 0.
 */
module VmaSearch {
  import opened Sizes
  import opened Options
  import opened VmaTable

  /** One round either decides or goes on at another address. */
  datatype Round = Stop(place: Option<nat>) | Go(next: nat)

  /** The first area of the table from index `i` on that is in the way. */
  function FirstHit(s: seq<Vma>, n: nat, addr: nat, i: nat): (r: Option<nat>)
    requires i <= |s|
    ensures r.Some? ==> i <= r.value < |s|
    decreases |s| - i
  {
    if i == |s| then None
    else if s[i].typ != Unused && s[i].Overlaps(addr, n) then Some(i)
    else FirstHit(s, n, addr, i + 1)
  }

  lemma {:induction false} FirstHitIs(s: seq<Vma>, n: nat, addr: nat, i: nat)
    requires i <= |s|
    ensures match FirstHit(s, n, addr, i)
            case None => forall j | i <= j < |s| && s[j].typ != Unused :: !s[j].Overlaps(addr, n)
            case Some(k) =>
              && s[k].typ != Unused && s[k].Overlaps(addr, n)
              && forall j | i <= j < k && s[j].typ != Unused :: !s[j].Overlaps(addr, n)
    decreases |s| - i
  {
    if i < |s| { FirstHitIs(s, n, addr, i + 1); }
  }

  /** The sum is beyond the top of the search. */
  predicate PastTop(addr: nat, n: nat) {
    (addr + n) % WORD_LIMIT > USER_STACK_TOP
  }

  /** The end of an area, rounded up to a page in 64 bits. */
  function NextAfter(v: Vma): nat {
    PageUp(v.End()) % WORD_LIMIT
  }

  function Look(s: seq<Vma>, n: nat, addr: nat): Round {
    if PastTop(addr, n) then Stop(None)
    else
      match FirstHit(s, n, addr, 0)
      case None => Stop(Some(addr))
      case Some(k) => Go(NextAfter(s[k]))
  }

  /** Where the search stands after `k` rounds. */
  ghost function After(s: seq<Vma>, n: nat, addr: nat, k: nat): Round {
    if k == 0 then Go(addr)
    else
      match After(s, n, addr, k - 1)
      case Stop(p) => Stop(p)
      case Go(a) => Look(s, n, a)
  }

  ghost predicate Ends(s: seq<Vma>, n: nat, addr: nat) {
    exists k: nat :: After(s, n, addr, k).Stop?
  }

  // ----- climbing -----

  /** An area is in the way that ends in the last page of the 64-bit addresses. */
  predicate MeetsLastPage(s: seq<Vma>, n: nat, addr: nat) {
    && (addr + n) % WORD_LIMIT <= USER_STACK_TOP
    && var k := FirstHit(s, n, addr, 0); k.Some? && s[k.value].End() + PAGE_SIZE > WORD_LIMIT
  }

  /** A round leads further up, or back to 0 if the area in the way ends in the last page. */
  lemma RoundGoes(s: seq<Vma>, n: nat, addr: nat)
    requires addr < WORD_LIMIT && Look(s, n, addr).Go?
    ensures var b := Look(s, n, addr).next;
            && b < WORD_LIMIT && b % PAGE_SIZE == 0
            && (if MeetsLastPage(s, n, addr) then b == 0 else b > addr)
  {
    FirstHitIs(s, n, addr, 0);
    var k := FirstHit(s, n, addr, 0).value;
    var e := s[k].End();
    RoundedEnd(e);
  }

  lemma RoundedEnd(e: nat)
    requires 0 < e < WORD_LIMIT
    ensures e <= PageUp(e) <= WORD_LIMIT && (PageUp(e) == WORD_LIMIT <==> e + PAGE_SIZE > WORD_LIMIT)
    ensures PageUp(e) % PAGE_SIZE == 0 && PageUp(e) % WORD_LIMIT % PAGE_SIZE == 0
    ensures PageUp(e) % WORD_LIMIT == if PageUp(e) == WORD_LIMIT then 0 else PageUp(e)
  {
    assert WORD_LIMIT % PAGE_SIZE == 0;
  }

  /** What comes of climbing: a place, no place, or the way back to 0. */
  datatype Climbed = Found(at: nat) | Full | Back

  function Climb(s: seq<Vma>, n: nat, addr: nat): (c: Climbed)
    requires addr < WORD_LIMIT
    ensures c.Found? ==> addr <= c.at < WORD_LIMIT
    decreases WORD_LIMIT - addr
  {
    match Look(s, n, addr)
    case Stop(None) => Full
    case Stop(Some(a)) => Found(addr)
    case Go(b) => if b > addr && b < WORD_LIMIT then Climb(s, n, b) else Back
  }

  /** A climb, one round at a time. */
  lemma ClimbOn(s: seq<Vma>, n: nat, addr: nat)
    requires addr < WORD_LIMIT
    ensures PastTop(addr, n) ==> Climb(s, n, addr) == Full
    ensures !PastTop(addr, n) ==>
              match FirstHit(s, n, addr, 0)
              case None => Climb(s, n, addr) == Found(addr)
              case Some(k) =>
                var next := NextAfter(s[k]);
                && next < WORD_LIMIT
                && if next > addr then Climb(s, n, addr) == Climb(s, n, next)
                   else next == 0 && Climb(s, n, addr) == Back
  {
    if Look(s, n, addr).Go? { RoundGoes(s, n, addr); }
  }

  /** The round that a climb ends with. */
  function Last(c: Climbed): Round {
    match c
    case Found(a) => Stop(Some(a))
    case Full => Stop(None)
    case Back => Go(0)
  }

  lemma {:induction false} ClimbRounds(s: seq<Vma>, n: nat, addr: nat) returns (k: nat)
    requires addr < WORD_LIMIT
    ensures k > 0 && After(s, n, addr, k) == Last(Climb(s, n, addr))
    decreases WORD_LIMIT - addr
  {
    assert After(s, n, addr, 0) == Go(addr) && After(s, n, addr, 1) == Look(s, n, addr);
    match Look(s, n, addr) {
      case Stop(p) => k := 1;
      case Go(b) =>
        RoundGoes(s, n, addr);
        if b > addr {
          var j := ClimbRounds(s, n, b);
          AfterSum(s, n, addr, 1, j);
          k := 1 + j;
        } else {
          k := 1;
        }
    }
  }

  lemma {:induction false} AfterSum(s: seq<Vma>, n: nat, addr: nat, i: nat, j: nat)
    ensures After(s, n, addr, i + j) ==
            match After(s, n, addr, i) { case Stop(p) => Stop(p) case Go(b) => After(s, n, b, j) }
    decreases j
  {
    if j > 0 {
      AfterSum(s, n, addr, i, j - 1);
      assert i + j - 1 == i + (j - 1);
    }
  }

  /** What the search answers, if it ends: going back to 0 it starts over, whatever the start was. */
  function Search(s: seq<Vma>, n: nat, addr: nat): Climbed
    requires addr < WORD_LIMIT
  {
    if Climb(s, n, addr) == Back then Climb(s, n, 0) else Climb(s, n, addr)
  }

  function PlaceOf(c: Climbed): Option<nat> {
    if c.Found? then Some(c.at) else None
  }

  /**
   The search runs for ever exactly if it comes to an area that ends in the last page, and comes to one again from
   address 0. Otherwise it ends with the answer of `Search`.
   */
  lemma SearchEnds(s: seq<Vma>, n: nat, addr: nat)
    requires addr < WORD_LIMIT
    ensures Ends(s, n, addr) <==> Search(s, n, addr) != Back
    ensures Search(s, n, addr) != Back ==>
              exists k: nat :: After(s, n, addr, k) == Stop(PlaceOf(Search(s, n, addr)))
  {
    var k := ClimbRounds(s, n, addr);
    if Climb(s, n, addr) == Back {
      var j := ClimbRounds(s, n, 0);
      AfterSum(s, n, addr, k, j);
      if Climb(s, n, 0) == Back {
        forall i: nat
          ensures After(s, n, addr, i).Go?
        {
          Circles(s, n, addr, k, j, i);
        }
      }
    }
  }

  /** Back at 0 after `j` rounds from 0, the search goes round and round. */
  lemma {:induction false} Circles(s: seq<Vma>, n: nat, addr: nat, k: nat, j: nat, i: nat)
    requires After(s, n, addr, k) == Go(0) && After(s, n, 0, j) == Go(0) && j > 0
    ensures After(s, n, addr, i).Go?
    decreases i, if addr == 0 && k == j then 0 else 1
  {
    if i <= k {
      AfterSum(s, n, addr, i, k - i);
    } else {
      AfterSum(s, n, addr, k, i - k);
      assert k + (i - k) == i;
      if k > 0 || addr != 0 || k != j { Circles(s, n, 0, j, j, i - k); }
    }
  }

  /** The search started at `hint` stands at `addr`; `again` says whether it came back to 0. */
  ghost predicate Searching(s: seq<Vma>, n: nat, hint: nat, addr: nat, again: bool) {
    && hint < WORD_LIMIT && addr < WORD_LIMIT
    && if again then Climb(s, n, hint) == Back && Climb(s, n, 0) == Climb(s, n, addr)
       else Climb(s, n, hint) == Climb(s, n, addr)
  }

  lemma Starting(s: seq<Vma>, n: nat, hint: nat)
    requires hint < WORD_LIMIT
    ensures Searching(s, n, hint, hint, false)
  {
  }

  /** What one round tells about the whole search. */
  lemma SearchOn(s: seq<Vma>, n: nat, hint: nat, addr: nat, again: bool)
    requires Searching(s, n, hint, addr, again)
    ensures PastTop(addr, n) ==> Ends(s, n, hint) && Search(s, n, hint) == Full
    ensures !PastTop(addr, n) ==>
              match FirstHit(s, n, addr, 0)
              case None => Ends(s, n, hint) && Search(s, n, hint) == Found(addr)
              case Some(k) =>
                var next := NextAfter(s[k]);
                && next < WORD_LIMIT
                && if next > addr then Searching(s, n, hint, next, again)
                   else if again then !Ends(s, n, hint)
                   else Searching(s, n, hint, next, true)
  {
    ClimbOn(s, n, addr);
    SearchEnds(s, n, hint);
    hide Climb, Ends, PastTop, NextAfter;
  }

  // ----- what the answer means -----

  /** A round that goes on passes no candidate that fits. */
  lemma NothingPassed(s: seq<Vma>, n: nat, addr: nat, hint: nat)
    requires addr < WORD_LIMIT && hint <= addr && Look(s, n, addr).Go?
    ensures var b := Look(s, n, addr).next;
            forall a | addr <= a && (MeetsLastPage(s, n, addr) || a < b) && Candidate(a, hint) :: !Fits(s, a, n)
  {
    FirstHitIs(s, n, addr, 0);
    var k := FirstHit(s, n, addr, 0).value;
    var e := s[k].End();
    RoundedEnd(e);
    if addr + n < WORD_LIMIT { Blocked(s, k, addr, n, hint); }
  }

  /** A climb finds the first candidate that fits, unless the sum at its place wraps; back at 0, there is none. */
  lemma {:induction false} ClimbMeans(s: seq<Vma>, n: nat, addr: nat, hint: nat)
    requires addr < WORD_LIMIT && Candidate(addr, hint)
    requires forall a | hint <= a < addr && Candidate(a, hint) :: !Fits(s, a, n)
    ensures match Climb(s, n, addr)
            case Found(a) =>
              && Candidate(a, hint) && NoOverlap(s, a, n)
              && (FirstFit(s, Some(a), n, hint) <==> a + n < WORD_LIMIT)
            case _ => FirstFit(s, None, n, hint)
    decreases WORD_LIMIT - addr
  {
    match Look(s, n, addr) {
      case Stop(None) =>
      case Stop(Some(a)) =>
        FirstHitIs(s, n, addr, 0);
        if addr + n < WORD_LIMIT { assert (addr + n) % WORD_LIMIT == addr + n; }
      case Go(b) =>
        RoundGoes(s, n, addr);
        NothingPassed(s, n, addr, hint);
        if b > addr { ClimbMeans(s, n, b, hint); }
    }
  }

  /**
   First fit: the answer is the first candidate from the start on that fits, exactly if the search did not go back to
   0 for a place, and the sum at the place does not wrap.
   */
  lemma AnswerMeans(s: seq<Vma>, n: nat, hint: nat)
    requires hint < WORD_LIMIT && Search(s, n, hint) != Back
    ensures var r := Search(s, n, hint);
            FirstFit(s, PlaceOf(r), n, hint) <==>
            (r.Found? ==> Climb(s, n, hint) != Back && r.at + n < WORD_LIMIT)
    ensures Search(s, n, hint).Found? ==> NoOverlap(s, Search(s, n, hint).at, n)
  {
    ClimbMeans(s, n, hint, hint);
    if Climb(s, n, hint) == Back { ClimbMeans(s, n, 0, 0); }
  }

  /** The answer lies below the start exactly if the search went back to 0 and found a place there. */
  lemma AnswerBelow(s: seq<Vma>, n: nat, hint: nat)
    requires hint < WORD_LIMIT && Search(s, n, hint).Found?
    ensures Search(s, n, hint).at < hint <==> Climb(s, n, hint) == Back && Climb(s, n, 0).at < hint
  {
  }

  /** Neither the start nor the end of any area, rounded up, misleads the sum, and no area ends in the last page. */
  ghost predicate Honest(s: seq<Vma>, n: nat, hint: nat) {
    && !Misled(hint, n) && TidyEnds(s)
    && forall j | 0 <= j < |s| && s[j].typ != Unused :: !Misled(PageUp(s[j].End()), n)
  }

  /** In that case the answer is the first fit, wherever areas end. */
  lemma HonestIsFirstFit(s: seq<Vma>, n: nat, hint: nat)
    requires hint < WORD_LIMIT && Honest(s, n, hint)
    ensures Search(s, n, hint) != Back && FirstFit(s, PlaceOf(Search(s, n, hint)), n, hint)
  {
    HonestClimb(s, n, hint, hint);
    AnswerMeans(s, n, hint);
  }

  lemma {:induction false} HonestClimb(s: seq<Vma>, n: nat, addr: nat, hint: nat)
    requires addr < WORD_LIMIT && Honest(s, n, hint)
    requires addr == hint || exists j :: 0 <= j < |s| && s[j].typ != Unused && addr == PageUp(s[j].End())
    ensures match Climb(s, n, addr)
            case Found(a) => a + n < WORD_LIMIT
            case Full => true
            case Back => false
    decreases WORD_LIMIT - addr
  {
    match Look(s, n, addr) {
      case Stop(None) =>
      case Stop(Some(a)) =>
      case Go(b) =>
        RoundGoes(s, n, addr);
        FirstHitIs(s, n, addr, 0);
    var k := FirstHit(s, n, addr, 0).value;
        RoundedEnd(s[k].End());
        HonestClimb(s, n, b, hint);
    }
  }

  /** Where no area ends above the top, only the start can mislead, and if it does a place is found that wraps. */
  lemma BelowTheTop(s: seq<Vma>, n: nat, hint: nat)
    requires hint < WORD_LIMIT && n < WORD_LIMIT && EndsBelow(s)
    ensures Search(s, n, hint) != Back
    ensures if Misled(hint, n) then Search(s, n, hint).Found? && Search(s, n, hint).at + n >= WORD_LIMIT
            else FirstFit(s, PlaceOf(Search(s, n, hint)), n, hint)
  {
    LowClimb(s, n, hint, hint);
    AnswerMeans(s, n, hint);
  }

  lemma {:induction false} LowClimb(s: seq<Vma>, n: nat, addr: nat, hint: nat)
    requires addr < WORD_LIMIT && n < WORD_LIMIT && EndsBelow(s) && hint <= addr
    requires addr > hint ==> addr <= USER_STACK_TOP && (hint + n) % WORD_LIMIT <= USER_STACK_TOP
    ensures match Climb(s, n, addr)
            case Found(a) => a + n >= WORD_LIMIT <==> Misled(hint, n)
            case Full => !Misled(hint, n)
            case Back => false
    decreases WORD_LIMIT - addr
  {
    SumOf(addr, n);
    SumOf(hint, n);
    match Look(s, n, addr) {
      case Stop(None) =>
      case Stop(Some(a)) =>
      case Go(b) =>
        RoundGoes(s, n, addr);
        FirstHitIs(s, n, addr, 0);
    var k := FirstHit(s, n, addr, 0).value;
        assert s[k].End() <= USER_STACK_TOP;
        TopAligned(s[k].End());
        LowClimb(s, n, b, hint);
    }
  }

  /** The answer is address 0 exactly if the search comes there, at its start or by going back, and page 0 is free. */
  lemma AnswerZero(s: seq<Vma>, n: nat, hint: nat)
    requires hint < WORD_LIMIT && n < WORD_LIMIT
    ensures Search(s, n, hint) == Found(0) <==>
            (hint == 0 || Climb(s, n, hint) == Back) && n <= USER_STACK_TOP && NoOverlap(s, 0, n)
  {
    ZeroLook(s, n);
  }

  lemma ZeroLook(s: seq<Vma>, n: nat)
    requires n < WORD_LIMIT
    ensures Climb(s, n, 0) == Found(0) <==> n <= USER_STACK_TOP && NoOverlap(s, 0, n)
  {
    FirstHitIs(s, n, 0, 0);
    if Look(s, n, 0).Go? { RoundGoes(s, n, 0); }
  }

  /** Where no area ends in the last page, every search ends. */
  lemma {:induction false} TidyNeverBack(s: seq<Vma>, n: nat, addr: nat)
    requires addr < WORD_LIMIT && TidyEnds(s)
    ensures Climb(s, n, addr) != Back
    decreases WORD_LIMIT - addr
  {
    if Look(s, n, addr).Go? {
      RoundGoes(s, n, addr);
      FirstHitIs(s, n, addr, 0);
      TidyNeverBack(s, n, Look(s, n, addr).next);
    }
  }

  /** From a page boundary the search only comes to page boundaries. */
  lemma AnswerAligned(s: seq<Vma>, n: nat, hint: nat)
    requires hint < WORD_LIMIT && hint % PAGE_SIZE == 0 && Search(s, n, hint).Found?
    ensures Search(s, n, hint).at % PAGE_SIZE == 0
  {
    ClimbMeans(s, n, hint, hint);
    ClimbMeans(s, n, 0, 0);
  }

  // ----- inputs -----

  /** One area over all pages, up to and into the last one, keeps every search past the first test for ever. */
  lemma WholeSpaceHangs(n: nat, hint: nat, perm: Perm)
    requires hint < WORD_LIMIT && 1 < n <= USER_STACK_TOP && hint + n <= USER_STACK_TOP
    ensures !Ends([Vma(1, WORD_LIMIT - PAGE_SIZE, perm, Anonymous)], n, hint)
  {
    var s := [Vma(1, WORD_LIMIT - PAGE_SIZE, perm, Anonymous)];
    assert s[0].End() == WORD_LIMIT - PAGE_SIZE + 1;
    MeetsIt(s, n, hint);
    MeetsIt(s, n, 0);
    SearchEnds(s, n, hint);
  }

  lemma MeetsIt(s: seq<Vma>, n: nat, addr: nat)
    requires |s| == 1 && s[0].typ != Unused && s[0].base == 1 && s[0].End() == WORD_LIMIT - PAGE_SIZE + 1
    requires 1 < n && addr + n <= USER_STACK_TOP
    ensures Climb(s, n, addr) == Back
  {
    assert (addr + n) % WORD_LIMIT == addr + n;
    assert s[0].Overlaps(addr, n) && FirstHit(s, n, addr, 0) == Some(0);
    RoundGoes(s, n, addr);
  }

  /** A page that ends in the last one, above the top, is in nobody's way, unless the sum wraps. */
  lemma LonePageIsNoHarm(n: nat, hint: nat, perm: Perm)
    requires hint < WORD_LIMIT && n < WORD_LIMIT && hint + n < WORD_LIMIT
    ensures Search([Vma(WORD_LIMIT - 8191, PAGE_SIZE, perm, Anonymous)], n, hint) ==
            if hint + n <= USER_STACK_TOP then Found(hint) else Full
  {
    var s := [Vma(WORD_LIMIT - 8191, PAGE_SIZE, perm, Anonymous)];
    assert FirstHit(s, n, hint, 0) == if s[0].Overlaps(hint, n) then Some(0) else FirstHit(s, n, hint, 1);
  }

  /**
   An area from right above the second page into the last one: a search that starts higher comes back with address 0,
   far below its start.
   */
  lemma BackBelowTheStart(hint: nat, perm: Perm)
    requires PAGE_SIZE <= hint <= USER_STACK_TOP - PAGE_SIZE
    ensures var s := [Vma(PAGE_SIZE + 1, WORD_LIMIT - 2 * PAGE_SIZE, perm, Anonymous)];
            Search(s, PAGE_SIZE, hint) == Found(0) && !FirstFit(s, Some(0), PAGE_SIZE, hint)
  {
    var s := [Vma(PAGE_SIZE + 1, WORD_LIMIT - 2 * PAGE_SIZE, perm, Anonymous)];
    assert s[0].End() == WORD_LIMIT - PAGE_SIZE + 1;
    assert s[0].Overlaps(hint, PAGE_SIZE) && FirstHit(s, PAGE_SIZE, hint, 0) == Some(0);
    RoundGoes(s, PAGE_SIZE, hint);
    ZeroLook(s, PAGE_SIZE);
  }
}
