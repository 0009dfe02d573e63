/**
 The slab allocator of the kernel heap. `pop` takes the head of a class's free list and makes
 `**head` the new head: it follows two links where one was meant, so every successful pop drops
 a free slot, and a list of exactly one slot is read through the null pointer.
 */
module Slab {
  import opened Sizes
  import opened Buddy
  import opened BuddyBlocks
  import BuddyLists

  const SLAB_CLASSES: seq<nat> := [8, 16, 32, 64, 128, 256, 512]
  const N_CLASSES: nat := 7
  const MAX_SLAB_SIZE: nat := 512

  /** What an allocation comes back with; Fault is a read through the null pointer. */
  datatype Outcome = Null | Ptr(addr: nat) | Fault

  /** `n` slots of size `sz` side by side from address `a` on. */
  function Slots(a: nat, sz: nat, n: nat): (r: seq<nat>)
    requires sz > 0
    ensures |r| == n
    ensures forall x <- r :: a <= x
    decreases n
  {
    if n == 0 then [] else [a] + Slots(a + sz, sz, n - 1)
  }

  /** `page + i * sz` */
  function SlotAddr(page: nat, i: nat, sz: nat): nat { page + i * sz }

  predicate IsClass(sz: nat) {
    sz == 8 || sz == 16 || sz == 32 || sz == 64 || sz == 128 || sz == 256 || sz == 512
  }

  /** How many slots of size `sz` a page holds. */
  function SlotsPer(sz: nat): nat
    requires sz > 0
  {
    PAGE_SIZE / sz
  }

  /** The slots that a page at address `page` is cut into. */
  function PageSlots(page: nat, sz: nat): seq<nat>
    requires IsClass(sz)
  {
    Slots(page, sz, SlotsPer(sz))
  }

  /** The number of slots that `n` pages are cut into. */
  function SlotCount(n: nat, sz: nat): nat
    requires sz > 0
  {
    n * (SlotsPer(sz))
  }

  ghost predicate Distinct(l: seq<nat>) {
    forall i, j | 0 <= i < j < |l| :: l[i] != l[j]
  }

  /** `head` starts a list of the slots `l` linked through their first words. */
  ghost predicate Chain(head: nat, mem: map<nat, nat>, l: seq<nat>) {
    && head == SlotAt(l, 0)
    && forall i: nat | i < |l| :: LinkAt(mem, l, i)
  }

  function SlotAt(l: seq<nat>, i: nat): nat { if i < |l| then l[i] else 0 }

  ghost predicate LinkAt(mem: map<nat, nat>, l: seq<nat>, i: nat)
    requires i < |l|
  {
    l[i] != 0 && l[i] in mem && mem[l[i]] == SlotAt(l, i + 1)
  }

  ghost predicate PagesApart(pages: set<nat>) {
    && (forall page <- pages :: page > 0)
    && forall page <- pages, other <- pages | page < other :: page + PAGE_SIZE <= other
  }

  /** Every slot of every page is on the list, live or lost, and in one of the three only. */
  ghost predicate Partition(l: seq<nat>, live: set<nat>, lost: set<nat>, pages: set<nat>, sz: nat)
    requires IsClass(sz)
  {
    && Distinct(l)
    && (forall a <- l :: a !in live && a !in lost)
    && live !! lost
    && forall a: nat :: a in l || a in live || a in lost <==> exists page <- pages :: a in PageSlots(page, sz)
  }

  lemma PopSlot(head: nat, mem: map<nat, nat>, l: seq<nat>)
    requires Chain(head, mem, l)
    ensures head == 0 <==> l == []
    ensures l != [] ==> head == l[0] && head in mem && (mem[head] == 0 <==> |l| == 1)
    ensures |l| >= 2 ==>
              && mem[head] == l[1] && l[1] in mem && Chain(mem[l[1]], mem, l[2..])
              && |l[2..]| == |l| - 2 && |l[2..]| % 2 == |l| % 2
  {
    if l != [] { assert LinkAt(mem, l, 0); }
    if |l| >= 2 {
      assert LinkAt(mem, l, 1);
      forall i: nat | i < |l[2..]|
        ensures LinkAt(mem, l[2..], i)
      {
        assert LinkAt(mem, l, i + 2);
      }
    }
  }

  lemma PopPartition(l: seq<nat>, live: set<nat>, lost: set<nat>, pages: set<nat>, sz: nat)
    requires IsClass(sz) && Partition(l, live, lost, pages, sz) && |l| >= 2
    ensures Partition(l[2..], live + {l[0]}, lost + {l[1]}, pages, sz)
    ensures |live + {l[0]}| == |live| + 1 && |lost + {l[1]}| == |lost| + 1
  {
    assert l == [l[0], l[1]] + l[2..];
    assert forall a: nat :: a in l <==> a == l[0] || a == l[1] || a in l[2..];
  }

  lemma PushSlot(head: nat, mem: map<nat, nat>, l: seq<nat>, a: nat)
    requires Chain(head, mem, l) && a !in l && a != 0
    ensures Chain(a, mem[a := head], [a] + l)
  {
    var l', mem' := [a] + l, mem[a := head];
    forall i: nat | i < |l'|
      ensures LinkAt(mem', l', i)
    {
      if i > 0 { assert LinkAt(mem, l, i - 1); }
    }
  }

  lemma ReturnSlot(l: seq<nat>, live: set<nat>, lost: set<nat>, pages: set<nat>, sz: nat, a: nat)
    requires IsClass(sz) && Partition(l, live, lost, pages, sz) && a in live
    requires PagesApart(pages)
    ensures a !in l && a != 0 && Partition([a] + l, live - {a}, lost, pages, sz)
    ensures |live - {a}| == |live| - 1 && |[a] + l| == |l| + 1 && (|[a] + l| % 2 == (|l| + 1) % 2)
  {
    var p :| p in pages && a in PageSlots(p, sz);
    assert forall x: nat :: x in [a] + l <==> x == a || x in l;
  }

  lemma {:induction false} SlotBounds(a: nat, sz: nat, n: nat, x: nat)
    requires sz > 0 && x in Slots(a, sz, n)
    ensures a <= x && x + sz <= a + n * sz
    decreases n
  {
    assert n * sz == (n - 1) * sz + sz;
    if x in Slots(a + sz, sz, n - 1) {
      SlotBounds(a + sz, sz, n - 1, x);
    } else {
      NonNegative(n - 1, sz);
    }
  }

  lemma NonNegative(n: nat, sz: nat)
    ensures n * sz >= 0
  {
  }

  lemma InPage(page: nat, sz: nat, x: nat)
    requires IsClass(sz) && x in PageSlots(page, sz)
    ensures page <= x && x + sz <= page + PAGE_SIZE
  {
    SlotBounds(page, sz, SlotsPer(sz), x);
    WholePage(sz);
  }

  lemma WholePage(sz: nat)
    requires IsClass(sz)
    ensures (SlotsPer(sz)) * sz == PAGE_SIZE && (SlotsPer(sz)) % 2 == 0 && SlotsPer(sz) >= 8
  {
  }

  lemma {:induction false} SlotsDiffer(a: nat, sz: nat, n: nat)
    requires sz > 0
    ensures Distinct(Slots(a, sz, n))
    decreases n
  {
    if n > 0 {
      var rest := Slots(a + sz, sz, n - 1);
      SlotsDiffer(a + sz, sz, n - 1);
      assert forall k: nat | k < |rest| :: rest[k] in rest;
    }
  }

  /** A page apart from the others brings slots that none of them has. */
  lemma NewPage(l: seq<nat>, live: set<nat>, lost: set<nat>, pages: set<nat>, sz: nat, page: nat)
    requires IsClass(sz) && Partition(l, live, lost, pages, sz)
    requires PagesApart(pages + {page}) && page !in pages
    ensures forall a :: a in PageSlots(page, sz) ==> a != 0 && a !in l && a !in live && a !in lost
    ensures Partition(PageSlots(page, sz) + l, live, lost, pages + {page}, sz)
  {
    var s := PageSlots(page, sz);
    SlotsDiffer(page, sz, SlotsPer(sz));
    forall a | a in s
      ensures a != 0 && a !in l && a !in live && a !in lost
    {
      InPage(page, sz, a);
      forall p <- pages | a in PageSlots(p, sz)
        ensures false
      {
        InPage(p, sz, a);
      }
    }
    forall i, j | 0 <= i < j < |s + l|
      ensures (s + l)[i] != (s + l)[j]
    {
      if i < |s| <= j { assert s[i] in s && l[j - |s|] in l; }
    }
    forall a: nat
      ensures a in s + l || a in live || a in lost <==> exists p <- pages + {page} :: a in PageSlots(p, sz)
    {
      if a in s {
        assert page in pages + {page};
      } else if a in l || a in live || a in lost {
        var p :| p in pages && a in PageSlots(p, sz);
        assert p in pages + {page};
      }
    }
  }

  /** The slots that a run of pops serves from a list. */
  function EveryOther(l: seq<nat>): seq<nat> {
    if |l| < 2 then [] else [l[0]] + EveryOther(l[2..])
  }

  lemma EveryOtherStep(l: seq<nat>)
    ensures |l| < 2 ==> EveryOther(l) == []
    ensures |l| >= 2 ==> EveryOther(l) == [l[0]] + EveryOther(l[2..]) && |l[2..]| % 2 == |l| % 2
  {
  }

  lemma {:induction false} HalfIsServed(l: seq<nat>)
    ensures |EveryOther(l)| == |l| / 2
    ensures forall k: nat | k < |l| / 2 :: EveryOther(l)[k] == l[2 * k]
  {
    if |l| >= 2 {
      HalfIsServed(l[2..]);
      forall k: nat | 0 < k < |l| / 2
        ensures EveryOther(l)[k] == l[2 * k]
      {
        assert EveryOther(l)[k] == EveryOther(l[2..])[k - 1] == l[2..][2 * (k - 1)];
      }
    }
  }

  /** A fresh page of the largest class serves slots 0, 2, 4 and 6 of its eight. */
  lemma FreshPageServesHalf(page: nat, sz: nat)
    requires IsClass(sz)
    ensures |EveryOther(PageSlots(page, sz))| == SlotsPer(sz) / 2
    ensures sz == 512 ==> EveryOther(PageSlots(page, sz)) == [page, page + 1024, page + 2048, page + 3072]
  {
    HalfIsServed(PageSlots(page, sz));
    if sz == 512 {
      var l := PageSlots(page, sz);
      IthSlot(page, 512, 8, 2);
      IthSlot(page, 512, 8, 4);
      IthSlot(page, 512, 8, 6);
      assert EveryOther(l) == [l[0], l[2], l[4], l[6]];
    }
  }

  class SlabClass {
    const objSize: nat
    var freeHead: nat
    var freeCount: nat
    var slabCount: nat
    /** The link word at the start of each free slot. */
    var mem: map<nat, nat>

    /** The free list, head first. */
    ghost var list: seq<nat>
    /** Slots handed out, slots dropped by `pop`, and the pages the class was given. */
    ghost var live: set<nat>
    ghost var lost: set<nat>
    ghost var pages: set<nat>
    /** The number of slots given back so far. */
    ghost var frees: nat

    ghost predicate Counted()
      reads this
    {
      && freeCount == |list| + |lost|
      && slabCount == |pages|
      && objSize > 0
      && freeCount + |live| == SlotCount(slabCount, objSize)
      && |list| % 2 == frees % 2
    }

    ghost predicate Valid()
      reads this
    {
      && IsClass(objSize)
      && Chain(freeHead, mem, list)
      && Partition(list, live, lost, pages, objSize)
      && PagesApart(pages)
      && Counted()
    }

    constructor (sz: nat)
      requires IsClass(sz)
      ensures Valid() && objSize == sz && list == [] && live == {} && pages == {}
    {
      objSize, freeHead, freeCount, slabCount, mem := sz, 0, 0, 0, map[];
      list, live, lost, pages, frees := [], {}, {}, {}, 0;
    }

    /** `pop`, word for word: `free_head = **free_head`. */
    method Pop() returns (r: Outcome)
      requires Valid()
      modifies `freeHead, `freeCount, `mem, `list, `live, `lost
      ensures Valid()
      ensures old(list) == [] ==> r == Null
      ensures |old(list)| == 1 ==> r == Fault
      ensures |old(list)| <= 1 ==> list == old(list) && live == old(live) && lost == old(lost)
      ensures |old(list)| >= 2 ==>
                && r == Ptr(old(list)[0])
                && list == old(list)[2..]
                && live == old(live) + {old(list)[0]}
                && lost == old(lost) + {old(list)[1]}
    {
      hide *;
      FromValid();
      PopSlot(freeHead, mem, list);
      if freeHead == 0 { return Null; }
      var slot := freeHead;
      var next := mem[freeHead];
      if next == 0 { return Fault; }
      PopPartition(list, live, lost, pages, objSize);
      freeHead := mem[next];
      freeCount := freeCount - 1;
      live := live + {slot};
      lost := lost + {next};
      list := list[2..];
      ToValid();
      return Ptr(slot);
    }

    /** `push`: the slot's first word takes the old head. */
    method Push(a: nat)
      requires Chain(freeHead, mem, list) && a !in list && a != 0
      modifies `freeHead, `mem, `freeCount, `list
      ensures Chain(freeHead, mem, list) && list == [a] + old(list) && freeCount == old(freeCount) + 1
    {
      PushSlot(freeHead, mem, list, a);
      mem := mem[a := freeHead];
      freeHead := a;
      freeCount := freeCount + 1;
      list := [a] + list;
    }

    /** The loop of `populate_from_page`: the slots go on from the last to the first. */
    method PushSlots(page: nat)
      requires IsClass(objSize) && Chain(freeHead, mem, list)
      requires forall a :: a in PageSlots(page, objSize) ==> a != 0 && a !in list
      modifies `freeHead, `mem, `freeCount, `list
      ensures Chain(freeHead, mem, list) && list == PageSlots(page, objSize) + old(list)
      ensures freeCount == old(freeCount) + SlotsPer(objSize)
    {
      hide *;
      LastSlots(page, objSize, list);
      var slots := SlotsPer(objSize);
      var i := slots;
      while i > 0
        invariant 0 <= i <= slots
        invariant Chain(freeHead, mem, list) && freeCount == old(freeCount) + (slots - i)
        invariant list == Slots(SlotAddr(page, i, objSize), objSize, slots - i) + old(list)
      {
        i := i - 1;
        NextSlot(page, objSize, i, old(list));
        Push(SlotAddr(page, i, objSize));
      }
    }

    method PopulateFromPage(page: nat)
      requires Valid() && PagesApart(pages + {page}) && page !in pages
      modifies `freeHead, `freeCount, `slabCount, `mem, `list, `pages
      ensures Valid() && pages == old(pages) + {page}
      ensures list == PageSlots(page, objSize) + old(list)
      ensures objSize > 0 && |list| == PAGE_SIZE / objSize + |old(list)|
      ensures forall i | 0 <= i < PAGE_SIZE / objSize :: list[i] == page + i * objSize
    {
      hide *;
      FromValid();
      SlotsInOrder(page, objSize);
      NewPage(list, live, lost, pages, objSize, page);
      PushSlots(page);
      slabCount := slabCount + 1;
      pages := pages + {page};
      MorePages(page, objSize, old(slabCount), old(list));
      ToValid();
    }

    /** Pops until no slot comes back: of a list, every other slot is served and the rest are lost. */
    method Exhaust() returns (served: seq<nat>, last: Outcome)
      requires Valid()
      modifies `freeHead, `freeCount, `mem, `list, `live, `lost
      ensures Valid() && served == EveryOther(old(list))
      ensures last == if |old(list)| % 2 == 0 then Null else Fault
      decreases |list|
    {
      hide *;
      EveryOtherStep(list);
      last := Pop();
      if last.Ptr? {
        var rest, end := Exhaust();
        served, last := [last.addr] + rest, end;
      } else {
        served := [];
      }
    }

    /** `populate_from_page` and the `pop` that follows it: the page's first slot is served. */
    method FirstOf(page: nat) returns (r: Outcome)
      requires Valid() && PagesApart(pages + {page}) && page !in pages && list == []
      modifies `freeHead, `freeCount, `slabCount, `mem, `list, `live, `lost, `pages
      ensures Valid() && pages == old(pages) + {page}
      ensures r == Ptr(page) && page !in old(live) && live == old(live) + {page}
    {
      hide *;
      FromValid();
      FirstSlot(page, objSize);
      PopulateFromPage(page);
      FromValid();
      assert list[0] == page;
      NotBoth(list, live, lost, pages, objSize);
      r := Pop();
    }

    /** What the allocator does with a slot handed back: `push`. */
    method Return(a: nat)
      requires Valid() && a in live
      modifies `freeHead, `mem, `freeCount, `list, `live, `frees
      ensures Valid() && list == [a] + old(list) && live == old(live) - {a} && frees == old(frees) + 1
    {
      hide *;
      FromValid();
      ReturnSlot(list, live, lost, pages, objSize, a);
      Push(a);
      live := live - {a};
      frees := frees + 1;
      ToValid();
    }

    lemma FromValid()
      requires Valid()
      ensures IsClass(objSize) && Chain(freeHead, mem, list)
      ensures Partition(list, live, lost, pages, objSize) && PagesApart(pages)
      ensures freeCount == |list| + |lost| && slabCount == |pages| && objSize > 0
      ensures freeCount + |live| == SlotCount(slabCount, objSize) && |list| % 2 == frees % 2
    {
    }

    lemma ToValid()
      requires IsClass(objSize) && Chain(freeHead, mem, list)
      requires Partition(list, live, lost, pages, objSize) && PagesApart(pages)
      requires freeCount == |list| + |lost| && slabCount == |pages| && objSize > 0
      requires freeCount + |live| == SlotCount(slabCount, objSize) && |list| % 2 == frees % 2
      ensures Valid()
    {
    }
  }

  lemma NextSlot(page: nat, sz: nat, i: nat, l: seq<nat>)
    requires IsClass(sz) && i < SlotsPer(sz)
    requires forall a :: a in PageSlots(page, sz) ==> a != 0 && a !in l
    ensures var a, k := SlotAddr(page, i, sz), SlotsPer(sz) - i - 1;
            && a != 0 && a !in Slots(SlotAddr(page, i + 1, sz), sz, k) + l
            && [a] + (Slots(SlotAddr(page, i + 1, sz), sz, k) + l) == Slots(a, sz, k + 1) + l
  {
    hide SlotsPer, SlotAddr;
    var a, k := SlotAddr(page, i, sz), SlotsPer(sz) - i - 1;
    NextAddr(page, i, sz);
    IthSlot(page, sz, SlotsPer(sz), i);
    assert PageSlots(page, sz)[i] == a && a in PageSlots(page, sz);
    assert a !in Slots(a + sz, sz, k);
  }

  /** The slots of a page in address order. */
  lemma SlotsInOrder(page: nat, sz: nat)
    requires IsClass(sz)
    ensures |PageSlots(page, sz)| == PAGE_SIZE / sz && sz > 0
    ensures forall i | 0 <= i < PAGE_SIZE / sz :: PageSlots(page, sz)[i] == page + i * sz
  {
    forall i | 0 <= i < PAGE_SIZE / sz
      ensures PageSlots(page, sz)[i] == page + i * sz
    {
      IthSlot(page, sz, SlotsPer(sz), i);
    }
  }

  lemma NextAddr(page: nat, i: nat, sz: nat)
    ensures SlotAddr(page, i + 1, sz) == SlotAddr(page, i, sz) + sz
  {
    assert (i + 1) * sz == i * sz + sz;
  }

  lemma {:induction false} IthSlot(a: nat, sz: nat, n: nat, i: nat)
    requires sz > 0 && i < n
    ensures Slots(a, sz, n)[i] == SlotAddr(a, i, sz)
    decreases n
  {
    if i > 0 {
      IthSlot(a + sz, sz, n - 1, i - 1);
      NextAddr(a, i - 1, sz);
    }
  }

  lemma LastSlots(page: nat, sz: nat, l: seq<nat>)
    requires IsClass(sz)
    ensures sz > 0 && Slots(SlotAddr(page, SlotsPer(sz), sz), sz, 0) + l == l
    ensures Slots(SlotAddr(page, 0, sz), sz, SlotsPer(sz)) == PageSlots(page, sz)
  {
  }

  lemma MorePages(page: nat, sz: nat, n: nat, l: seq<nat>)
    requires IsClass(sz)
    ensures SlotCount(n + 1, sz) == SlotCount(n, sz) + SlotsPer(sz)
    ensures |PageSlots(page, sz) + l| == SlotsPer(sz) + |l| && |PageSlots(page, sz) + l| % 2 == |l| % 2
  {
    WholePage(sz);
  }

  // ----- the allocator -----

  /** The first class whose slots are long enough. */
  function ClassFor(size: nat): (r: nat)
    ensures r < N_CLASSES <==> size <= MAX_SLAB_SIZE
    ensures r < N_CLASSES ==> size <= SLAB_CLASSES[r] && forall c | 0 <= c < r :: SLAB_CLASSES[c] < size
    ensures r <= N_CLASSES
  {
    ClassFrom(size, 0)
  }

  function ClassFrom(size: nat, c: nat): (r: nat)
    requires c <= N_CLASSES && forall d | 0 <= d < c :: SLAB_CLASSES[d] < size
    ensures c <= r <= N_CLASSES
    ensures r < N_CLASSES ==> size <= SLAB_CLASSES[r]
    ensures forall d | 0 <= d < r :: SLAB_CLASSES[d] < size
    decreases N_CLASSES - c
  {
    if c == N_CLASSES || size <= SLAB_CLASSES[c] then c else ClassFrom(size, c + 1)
  }

  /** The order-0 buddy block at a page address. */
  ghost function PageBlock(base: nat, page: nat): Block { BlockAt(base, page, 0) }

  /** Every page of every class is a live block of the buddy, and no two classes share one. */
  ghost predicate PagesLive(pages: seq<set<nat>>, base: nat, live: set<Block>) {
    && (forall c, p | 0 <= c < |pages| && p in pages[c] ::
          p == BuddyLists.Addr(base, PageBlock(base, p)) && PageBlock(base, p) in live)
    && forall c, d, p | 0 <= c < d < |pages| && p in pages[c] :: p !in pages[d]
  }

  function ClassSize(c: nat): (r: nat)
    requires c < N_CLASSES
    ensures IsClass(r)
  {
    SLAB_CLASSES[c]
  }

  ghost predicate SlotOf(c: nat, pages: set<nat>, a: nat)
    requires c < N_CLASSES
  {
    exists p <- pages :: a in PageSlots(p, ClassSize(c))
  }

  ghost predicate SlotsInPages(slots: seq<set<nat>>, pages: seq<set<nat>>) {
    && |slots| == |pages| == N_CLASSES
    && forall c, a | 0 <= c < N_CLASSES && a in slots[c] :: SlotOf(c, pages[c], a)
  }

  /** A page that was no live block belongs to no class yet, so one class may take it. */
  lemma MorePagesLive(pages: seq<set<nat>>, c: nat, page: nat, base: nat, live: set<Block>)
    requires PagesLive(pages, base, live) && c < |pages| && NewPageBlock(base, page, live)
    ensures PagesLive(pages[c := pages[c] + {page}], base, live + {PageBlock(base, page)})
  {
    assert forall d | 0 <= d < |pages| :: page !in pages[d];
  }

  /** What a slab allocation changes: live slots and pages per class, and the buddy's live blocks and free pages. */
  datatype Books = Books(lives: seq<set<nat>>, pages: seq<set<nat>>, blocks: set<Block>, free: set<nat>)

  /** The outcome of allocating from class `c`, whose free list was `l`. */
  ghost predicate Served(r: Outcome, c: nat, l: seq<nat>, base: nat, s: Books, s': Books) {
    && |s.lives| == |s.pages| == N_CLASSES && c < N_CLASSES
    && (r == Fault <==> |l| == 1)
    && (r == Null <==> l == [] && NoFreePage(s.free))
    && match r {
      case Ptr(a) =>
        && a !in s.lives[c]
        && var lives' := s.lives[c := s.lives[c] + {a}];
           if l != [] then s' == s.(lives := lives')
           else NewPageBlock(base, a, s.blocks) && s' == TakePage(s, c, base, a).(lives := lives')
      case _ => s' == s
    }
  }

  ghost function TakePage(s: Books, c: nat, base: nat, page: nat): Books
    requires c < |s.pages|
  {
    var b := PageBlock(base, page);
    s.(pages := s.pages[c := s.pages[c] + {page}], blocks := s.blocks + {b}, free := s.free - b.Pages())
  }

  lemma ServedFromList(r: Outcome, c: nat, l: seq<nat>, base: nat, s: Books, s': Books)
    requires |s.lives| == |s.pages| == N_CLASSES && c < N_CLASSES && l != []
    requires r != Null && (r == Fault <==> |l| == 1)
    requires r == Fault ==> s' == s
    requires r.Ptr? ==> r.addr !in s.lives[c] && s' == s.(lives := s.lives[c := s.lives[c] + {r.addr}])
    ensures Served(r, c, l, base, s, s')
  {
  }

  lemma ServedNothing(c: nat, base: nat, s: Books)
    requires |s.lives| == |s.pages| == N_CLASSES && c < N_CLASSES && NoFreePage(s.free)
    ensures Served(Null, c, [], base, s, s)
  {
  }

  lemma ServedFromPage(page: nat, c: nat, base: nat, s: Books, s': Books)
    requires |s.lives| == |s.pages| == N_CLASSES && c < N_CLASSES && !NoFreePage(s.free)
    requires NewPageBlock(base, page, s.blocks) && page !in s.lives[c]
    requires s'.lives == s.lives[c := s.lives[c] + {page}] && s'.pages == s.pages[c := s.pages[c] + {page}]
    requires s'.blocks == s.blocks + {PageBlock(base, page)} && s'.free == s.free - PageBlock(base, page).Pages()
    ensures Served(Ptr(page), c, [], base, s, s')
  {
  }

  /** A class that holds nothing yet. */
  ghost predicate IsNew(cls: SlabClass, c: nat)
    requires c < N_CLASSES
    reads cls
  {
    cls.Valid() && cls.objSize == ClassSize(c) && cls.list == [] && cls.live == {} && cls.pages == {}
  }

  method EmptyClass(c: nat) returns (cls: SlabClass)
    requires c < N_CLASSES
    ensures fresh(cls) && IsNew(cls, c)
  {
    cls := new SlabClass(ClassSize(c));
  }

  class SlabAllocator {
    const classes: seq<SlabClass>

    ghost predicate Shaped()
    {
      && |classes| == N_CLASSES
      && (forall c | 0 <= c < N_CLASSES :: classes[c].objSize == SLAB_CLASSES[c])
      && forall c, d | 0 <= c < d < N_CLASSES :: classes[c] != classes[d]
    }

    /** The pages of each class. */
    ghost function PageSets(): (r: seq<set<nat>>)
      requires Shaped()
      reads classes`pages
      ensures |r| == N_CLASSES && forall c | 0 <= c < N_CLASSES :: r[c] == classes[c].pages
    {
      [classes[0].pages, classes[1].pages, classes[2].pages, classes[3].pages, classes[4].pages, classes[5].pages,
          classes[6].pages]
    }

    /** The live slots of each class. */
    ghost function LiveSets(): (r: seq<set<nat>>)
      requires Shaped()
      reads classes`live
      ensures |r| == N_CLASSES && forall c | 0 <= c < N_CLASSES :: r[c] == classes[c].live
    {
      [classes[0].live, classes[1].live, classes[2].live, classes[3].live, classes[4].live, classes[5].live,
          classes[6].live]
    }

    lemma LiveSlotsPlaced()
      requires Shaped() && forall c | 0 <= c < N_CLASSES :: classes[c].Valid()
      ensures SlotsInPages(LiveSets(), PageSets())
    {
      forall c, a | 0 <= c < N_CLASSES && a in classes[c].live
        ensures SlotOf(c, classes[c].pages, a)
      {
        classes[c].FromValid();
      }
    }

    ghost predicate Valid(base: nat, live: set<Block>)
      reads classes
    {
      && Shaped()
      && (forall c | 0 <= c < N_CLASSES :: classes[c].Valid())
      && PagesLive(PageSets(), base, live)
    }

    constructor ()
      ensures Shaped() && fresh(classes)
      ensures forall base: nat :: Valid(base, {})
      ensures forall c | 0 <= c < N_CLASSES ::
              && classes[c].Valid() && classes[c].list == [] && classes[c].live == {}
              && classes[c].pages == {}
    {
      hide IsNew, SlabClass.Valid, PagesLive;
      var c0 := EmptyClass(0);
      var c1 := EmptyClass(1);
      var c2 := EmptyClass(2);
      var c3 := EmptyClass(3);
      var c4 := EmptyClass(4);
      var c5 := EmptyClass(5);
      var c6 := EmptyClass(6);
      classes := [c0, c1, c2, c3, c4, c5, c6];
      new;
      hide *;
      FreshIsShaped();
    }

    lemma FreshIsShaped()
      requires |classes| == N_CLASSES
      requires forall d | 0 <= d < N_CLASSES :: IsNew(classes[d], d)
      requires forall d, e | 0 <= d < e < N_CLASSES :: classes[d] != classes[e]
      ensures Shaped() && forall base: nat :: Valid(base, {})
      ensures forall c | 0 <= c < N_CLASSES ::
              && classes[c].Valid() && classes[c].list == [] && classes[c].live == {}
              && classes[c].pages == {}
    {
      forall base: nat
        ensures Valid(base, {})
      {
        assert PagesLive(PageSets(), base, {});
      }
    }

    method FindClass(size: nat) returns (c: nat)
      ensures c == ClassFor(size)
    {
      c := 0;
      while c < N_CLASSES
        invariant c <= N_CLASSES && forall d | 0 <= d < c :: SLAB_CLASSES[d] < size
        invariant ClassFor(size) == ClassFrom(size, c)
      {
        if size <= SLAB_CLASSES[c] { return; }
        c := c + 1;
      }
    }

    /**
     A slot of the size's class: from the free list when it is not empty, else from a fresh buddy
     page. Null only if there is no class, or the list is empty and the buddy has no free page;
     Fault exactly when the list holds a single slot.
     */
    method Alloc(size: nat, buddy: BuddyAllocator) returns (r: Outcome)
      requires buddy.Valid() && Valid(buddy.base, buddy.live)
      modifies if Shaped() && ClassFor(size) < N_CLASSES then {classes[ClassFor(size)]} else {}
      modifies buddy`mem, buddy`freeBytes, buddy`lists, buddy`free, buddy`live, buddy.freeLists, buddy.bitmap
      ensures buddy.Valid() && Valid(buddy.base, buddy.live)
      ensures size > MAX_SLAB_SIZE ==> r == Null && BooksOf(buddy) == old(BooksOf(buddy))
      ensures size <= MAX_SLAB_SIZE ==>
                Served(r, ClassFor(size), old(ListFor(size)), buddy.base, old(BooksOf(buddy)), BooksOf(buddy))
    {
      hide *;
      FromValid(buddy.base, buddy.live);
      var c := FindClass(size);
      ClassBounds(size);
      if c == N_CLASSES { return Null; }
      BooksAre(size, buddy);
      ghost var before := BooksOf(buddy);
      ghost var l := classes[c].list;
      classes[c].FromValid();
      HeadOf(classes[c].freeHead, classes[c].mem, classes[c].list);
      if classes[c].freeHead != 0 {
        r := PopFrom(c, buddy.base, buddy.live);
        BooksAre(size, buddy);
        ServedFromList(r, c, l, buddy.base, before, BooksOf(buddy));
        return;
      }
      r := AllocFromPage(size, c, buddy);
    }

    /** The rest of an allocation from class `c` when its free list is empty. */
    method AllocFromPage(ghost size: nat, c: nat, buddy: BuddyAllocator) returns (r: Outcome)
      requires buddy.Valid() && Valid(buddy.base, buddy.live) && size <= MAX_SLAB_SIZE
      requires c == ClassFor(size) < N_CLASSES && classes[c].list == []
      modifies classes[c]
      modifies buddy`mem, buddy`freeBytes, buddy`lists, buddy`free, buddy`live, buddy.freeLists, buddy.bitmap
      ensures buddy.Valid() && Valid(buddy.base, buddy.live)
      ensures Served(r, c, [], buddy.base, old(BooksOf(buddy)), BooksOf(buddy))
    {
      hide *;
      FromValid(buddy.base, buddy.live);
      PageOrder();
      BaseIsSet(buddy);
      NoPageMeans(buddy.free);
      BooksAre(size, buddy);
      ghost var before := BooksOf(buddy);
      var page := buddy.Alloc(PAGE_SIZE, PAGE_SIZE);
      assert page == 0 <==> NoFreePage(before.free);
      BooksAre(size, buddy);
      if page == 0 {
        ServedNothing(c, buddy.base, before);
        return Null;
      }
      NewBlock(buddy.base, page, before.blocks, before.free, PagesIn(buddy.size), buddy.free);
      r := Refill(c, page, buddy.base, before.blocks);
      BooksAre(size, buddy);
      ServedFromPage(page, c, buddy.base, before, BooksOf(buddy));
    }

    ghost function BooksOf(buddy: BuddyAllocator): Books
      requires Shaped()
      reads classes`live, classes`pages, buddy`live, buddy`free
    {
      Books(LiveSets(), PageSets(), buddy.live, buddy.free)
    }

    ghost function ListFor(size: nat): seq<nat>
      requires Shaped() && size <= MAX_SLAB_SIZE
      reads classes`list
    {
      classes[ClassFor(size)].list
    }

    lemma BooksAre(size: nat, buddy: BuddyAllocator)
      requires Shaped() && size <= MAX_SLAB_SIZE
      ensures BooksOf(buddy) == Books(LiveSets(), PageSets(), buddy.live, buddy.free)
      ensures ListFor(size) == classes[ClassFor(size)].list
    {
    }

    /** The allocation path that finds the free list of class `c` nonempty. */
    method PopFrom(c: nat, ghost base: nat, ghost blocks: set<Block>) returns (r: Outcome)
      requires Valid(base, blocks) && c < N_CLASSES && classes[c].list != []
      modifies classes[c]
      ensures Valid(base, blocks) && classes[c].pages == old(classes[c].pages)
      ensures r != Null && (r == Fault <==> |old(classes[c].list)| == 1)
      ensures r == Fault ==> classes[c].live == old(classes[c].live) && classes[c].list == old(classes[c].list)
      ensures r.Ptr? ==> r.addr !in old(classes[c].live) && classes[c].live == old(classes[c].live) + {r.addr}
      ensures PageSets() == old(PageSets())
      ensures LiveSets() == if r.Ptr? then old(LiveSets())[c := old(classes[c].live) + {r.addr}] else old(LiveSets())
    {
      hide *;
      FromValid(base, blocks);
      classes[c].FromValid();
      r := classes[c].Pop();
      forall d | 0 <= d < N_CLASSES
        ensures classes[d].Valid()
        ensures d != c ==> classes[d].live == old(classes[d].live)
      {
        if d != c { assert classes[d] != classes[c]; }
      }
      assert PageSets() == old(PageSets());
      ToValid(base, blocks);
    }

    /** The allocation path that cuts up a fresh page for class `c`. */
    method Refill(c: nat, page: nat, ghost base: nat, ghost blocks: set<Block>) returns (r: Outcome)
      requires Valid(base, blocks) && c < N_CLASSES && classes[c].list == [] && base > 0
      requires NewPageBlock(base, page, blocks)
      modifies classes[c]
      ensures Valid(base, blocks + {PageBlock(base, page)})
      ensures r == Ptr(page) && page !in old(classes[c].live)
      ensures PageSets() == old(PageSets())[c := old(classes[c].pages) + {page}]
      ensures LiveSets() == old(LiveSets())[c := old(classes[c].live) + {page}]
    {
      hide *;
      FromValid(base, blocks);
      classes[c].FromValid();
      PagesOf(PageSets(), c, base, blocks);
      FreshPage(base, page, blocks, classes[c].pages);
      r := classes[c].FirstOf(page);
      assert forall d | 0 <= d < N_CLASSES && d != c :: classes[d] != classes[c];
      assert forall d | 0 <= d < N_CLASSES && d != c ::
             classes[d].Valid() && classes[d].pages == old(classes[d].pages) && classes[d].live == old(classes[d].live);
      MorePagesLive(old(PageSets()), c, page, base, blocks);
      assert PageSets() == old(PageSets())[c := old(classes[c].pages) + {page}];
      ToValid(base, blocks + {PageBlock(base, page)});
    }

    /** Hands a slot back to its class; a size with no class, or null, is ignored. */
    method Free(ptr: nat, size: nat, ghost base: nat, ghost blocks: set<Block>)
      requires Valid(base, blocks)
      requires ptr != 0 && size <= MAX_SLAB_SIZE ==> ptr in LiveSets()[ClassFor(size)]
      modifies if Shaped() && ClassFor(size) < N_CLASSES then {classes[ClassFor(size)]} else {}
      ensures Valid(base, blocks) && PageSets() == old(PageSets())
      ensures ptr == 0 || size > MAX_SLAB_SIZE ==> LiveSets() == old(LiveSets())
      ensures ptr != 0 && size <= MAX_SLAB_SIZE ==>
                var c := ClassFor(size); LiveSets() == old(LiveSets())[c := old(LiveSets())[c] - {ptr}]
    {
      hide *;
      FromValid(base, blocks);
      if ptr == 0 { return; }
      var c := FindClass(size);
      ClassBounds(size);
      if c == N_CLASSES { return; }
      classes[c].Return(ptr);
      forall d | 0 <= d < N_CLASSES
        ensures classes[d].Valid()
        ensures d != c ==> classes[d].live == old(classes[d].live)
      {
        if d != c { assert classes[d] != classes[c]; }
      }
      assert PageSets() == old(PageSets());
      ToValid(base, blocks);
    }

    lemma FromValid(base: nat, blocks: set<Block>)
      requires Valid(base, blocks)
      ensures Shaped() && PagesLive(PageSets(), base, blocks)
      ensures |classes| == N_CLASSES && forall c | 0 <= c < N_CLASSES :: classes[c].Valid()
      ensures forall c, d | 0 <= c < d < N_CLASSES :: classes[c] != classes[d]
    {
    }

    lemma ToValid(base: nat, blocks: set<Block>)
      requires Shaped() && PagesLive(PageSets(), base, blocks)
      requires forall c | 0 <= c < N_CLASSES :: classes[c].Valid()
      ensures Valid(base, blocks)
    {
    }
  }

  lemma PagesOf(pages: seq<set<nat>>, c: nat, base: nat, blocks: set<Block>)
    requires PagesLive(pages, base, blocks) && c < |pages|
    ensures forall p <- pages[c] :: p == BuddyLists.Addr(base, PageBlock(base, p)) && PageBlock(base, p) in blocks
  {
  }

  lemma ClassBounds(size: nat)
    ensures ClassFor(size) <= N_CLASSES
    ensures ClassFor(size) < N_CLASSES <==> size <= MAX_SLAB_SIZE
  {
  }

  lemma HeadOf(head: nat, mem: map<nat, nat>, l: seq<nat>)
    requires Chain(head, mem, l)
    ensures head == 0 <==> l == []
  {
    if l != [] { assert LinkAt(mem, l, 0); }
  }

  lemma NotBoth(l: seq<nat>, live: set<nat>, lost: set<nat>, pages: set<nat>, sz: nat)
    requires IsClass(sz) && Partition(l, live, lost, pages, sz) && l != []
    ensures l[0] !in live
  {
  }

  lemma BaseIsSet(buddy: BuddyAllocator)
    requires buddy.Valid()
    ensures buddy.base > 0
  {
  }

  lemma NoPageMeans(free: set<nat>)
    ensures NoFreePage(free) <==> forall b: Block | b.order == 0 :: !AllFree(b, free)
    ensures PAGE_SIZE != 0
  {
  }

  lemma NewBlock(base: nat, page: nat, live: set<Block>, free: set<nat>, n: nat, free': set<nat>)
    requires Carved(base, page, 0, n, free, free')
    requires forall b <- live :: b.Pages() !! BlockAt(base, page, 0).Pages()
    ensures NewPageBlock(base, page, live) && PageBlock(base, page) == BlockAt(base, page, 0)
    ensures free' == free - PageBlock(base, page).Pages()
  {
    NotLiveYet(live, PageBlock(base, page));
  }

  /** No order-0 block is free. */
  ghost predicate NoFreePage(free: set<nat>) {
    forall b: Block | b.order == 0 :: !AllFree(b, free)
  }

  ghost predicate NewPageBlock(base: nat, page: nat, live: set<Block>) {
    page == BuddyLists.Addr(base, PageBlock(base, page)) && PageBlock(base, page) !in live
  }

  lemma PageOrder()
    ensures SizeToOrder(Max(PAGE_SIZE, PAGE_SIZE)) == 0
  {
    OrderIs(PAGE_SIZE, 0);
  }

  lemma FreshPage(base: nat, page: nat, live: set<Block>, pages: set<nat>)
    requires NewPageBlock(base, page, live) && base > 0 && PagesApart(pages)
    requires forall p <- pages :: p == BuddyLists.Addr(base, PageBlock(base, p)) && PageBlock(base, p) in live
    ensures page !in pages && PagesApart(pages + {page})
  {
  }

  lemma FirstSlot(page: nat, sz: nat)
    requires IsClass(sz)
    ensures |PageSlots(page, sz)| >= 2 && PageSlots(page, sz)[0] == page
  {
    WholePage(sz);
  }
}
