/** The front end of the kernel heap: which allocator serves a request and which one gets it back. */
module KernelHeap {
  import opened Sizes
  import opened Buddy
  import opened BuddyBlocks
  import opened Slab
  import BuddyLists

  datatype Layout = Layout(size: nat, align: nat) {
    /** `size <= MAX_SLAB_SIZE && align <= size` */
    predicate IsSlab() { size <= MAX_SLAB_SIZE && align <= size }

    function Class(): nat { ClassFor(size) }

    function Order(): nat { SizeToOrder(Max(size, align)) }

    /** Release orders by size alone; a buddy block comes back whole exactly if that is the order it was cut with. */
    predicate Releasable() { IsSlab() || SizeToOrder(size) == Order() }
  }

  /**
   The books balance: the live allocations are exactly the live slots and the live buddy blocks
   that are not slab pages, each on the side its layout routes to.
   */
  ghost predicate Balanced(allocs: map<nat, Layout>, slots: seq<set<nat>>, pages: seq<set<nat>>, base: nat,
      live: set<Block>) {
    && |slots| == |pages| == N_CLASSES
    && (forall p <- allocs | allocs[p].IsSlab() :: p in slots[allocs[p].Class()])
    && (forall c, p | 0 <= c < N_CLASSES && p in slots[c] ::
       p in allocs && allocs[p].IsSlab() && allocs[p].Class() == c)
    && (forall p <- allocs | !allocs[p].IsSlab() :: ServedByBuddy(allocs[p], p, pages, base, live))
    && forall b <- live :: IsSlabPage(b, pages, base) || OwnedBlock(allocs, b, base)
  }

  /** Nothing is served at null or for an empty request. */
  ghost predicate NoneEmpty(allocs: map<nat, Layout>) {
    0 !in allocs && forall p <- allocs :: allocs[p].size > 0
  }

  lemma NoneEmptyAfter(allocs: map<nat, Layout>, p: nat, l: Layout)
    requires NoneEmpty(allocs)
    ensures p != 0 && l.size > 0 ==> NoneEmpty(allocs[p := l])
    ensures NoneEmpty(allocs - {p})
    ensures p in allocs ==> p != 0 && allocs[p].size > 0
  {
  }

  ghost predicate IsSlabPage(b: Block, pages: seq<set<nat>>, base: nat) {
    b.order == 0 && exists c :: 0 <= c < |pages| && BuddyLists.Addr(base, b) in pages[c]
  }

  ghost predicate OwnedBlock(allocs: map<nat, Layout>, b: Block, base: nat) {
    var p := BuddyLists.Addr(base, b);
    p in allocs && !allocs[p].IsSlab() && allocs[p].Order() == b.order
  }

  ghost predicate ServedByBuddy(l: Layout, p: nat, pages: seq<set<nat>>, base: nat, live: set<Block>) {
    var b := BlockAt(base, p, l.Order());
    p == BuddyLists.Addr(base, b) && b in live && !IsSlabPage(b, pages, base)
  }

  /** A page just cut from the free pages joins a class without touching any allocation. */
  lemma BalancedNewPage(allocs: map<nat, Layout>, slots: seq<set<nat>>, pages: seq<set<nat>>, base: nat,
      live: set<Block>, c: nat, page: nat)
    requires Balanced(allocs, slots, pages, base, live) && c < N_CLASSES && NewPageBlock(base, page, live)
    ensures Balanced(allocs, slots, pages[c := pages[c] + {page}], base, live + {PageBlock(base, page)})
  {
    var pages', live' := pages[c := pages[c] + {page}], live + {PageBlock(base, page)};
    forall b <- live'
      ensures IsSlabPage(b, pages', base) <==> b == PageBlock(base, page) || IsSlabPage(b, pages, base)
    {
      BlockAtAddr(base, b);
      if b == PageBlock(base, page) {
        assert BuddyLists.Addr(base, b) in pages'[c];
      } else if IsSlabPage(b, pages, base) {
        var d :| 0 <= d < |pages| && BuddyLists.Addr(base, b) in pages[d];
        assert BuddyLists.Addr(base, b) in pages'[d];
      }
    }
  }

  lemma SamePage(base: nat, p: nat, q: nat, a: nat)
    requires p == BuddyLists.Addr(base, PageBlock(base, p)) && q == BuddyLists.Addr(base, PageBlock(base, q))
    requires p <= a < p + PAGE_SIZE && q <= a < q + PAGE_SIZE
    ensures p == q
  {
  }

  /** A live block that starts inside a slab page is that page. */
  lemma PageOfBlock(base: nat, live: set<Block>, p: nat, b: Block)
    requires NoOverlap(live) && b in live && PageBlock(base, p) in live
    requires p == BuddyLists.Addr(base, PageBlock(base, p))
    requires p <= BuddyLists.Addr(base, b) < p + PAGE_SIZE
    ensures b == PageBlock(base, p)
  {
    CoversItsRange(b);
    CoversItsRange(PageBlock(base, p));
    assert b.Covers(b.Page()) && PageBlock(base, p).Covers(b.Page());
  }

  /** The address of a slot is not the address of another class's slot. */
  lemma SlotMeetsSlot(slots: seq<set<nat>>, pages: seq<set<nat>>, base: nat, live: set<Block>, c: nat, d: nat, a: nat)
    requires |pages| == |slots| == N_CLASSES && c < N_CLASSES && d < N_CLASSES && PagesLive(pages, base, live)
    requires SlotOf(c, pages[c], a) && SlotOf(d, pages[d], a)
    ensures c == d
  {
    hide Slab.Slots, BlockAt, BuddyLists.Addr;
    var p :| p in pages[c] && a in PageSlots(p, ClassSize(c));
    var q :| q in pages[d] && a in PageSlots(q, ClassSize(d));
    InPage(p, ClassSize(c), a);
    InPage(q, ClassSize(d), a);
    assert p == q by {
      assert p == BuddyLists.Addr(base, PageBlock(base, p)) && q == BuddyLists.Addr(base, PageBlock(base, q));
      SamePage(base, p, q, a);
    }
  }

  /** A live block that starts at the address of a slot is a slab page. */
  lemma SlotMeetsBlock(pages: seq<set<nat>>, base: nat, live: set<Block>, c: nat, b: Block)
    requires |pages| == N_CLASSES && c < N_CLASSES && PagesLive(pages, base, live) && NoOverlap(live)
    requires SlotOf(c, pages[c], BuddyLists.Addr(base, b)) && b in live
    ensures IsSlabPage(b, pages, base)
  {
    hide Slab.Slots, BlockAt, BuddyLists.Addr, NoOverlap;
    var p :| p in pages[c] && BuddyLists.Addr(base, b) in PageSlots(p, ClassSize(c));
    InPage(p, ClassSize(c), BuddyLists.Addr(base, b));
    PageOfBlock(base, live, p, b);
  }

  /** A slot that is on no class's books yet is at no address in use. */
  lemma SlotIsUnused(allocs: map<nat, Layout>, slots: seq<set<nat>>, pages: seq<set<nat>>, base: nat, live: set<Block>,
      c: nat, a: nat)
    requires Balanced(allocs, slots, pages, base, live) && PagesLive(pages, base, live) && NoOverlap(live)
    requires c < N_CLASSES && a !in slots[c]
    requires forall d, x | 0 <= d < N_CLASSES && x in slots[d] :: SlotOf(d, pages[d], x)
    requires SlotOf(c, pages[c], a)
    ensures a !in allocs
  {
    hide SlotOf, IsSlabPage, OwnedBlock, PagesLive, NoOverlap, BlockAt, ClassFor, SizeToOrder;
    if a in allocs {
      if allocs[a].IsSlab() {
        SlotMeetsSlot(slots, pages, base, live, c, allocs[a].Class(), a);
      } else {
        SlotMeetsBlock(pages, base, live, c, BlockAt(base, a, allocs[a].Order()));
      }
    }
  }

  /** A block just cut from the free pages starts at no address in use and is no slab page. */
  lemma BlockIsUnused(allocs: map<nat, Layout>, slots: seq<set<nat>>, pages: seq<set<nat>>, base: nat, live: set<Block>,
      b: Block)
    requires Balanced(allocs, slots, pages, base, live) && PagesLive(pages, base, live) && NoOverlap(live + {b})
    requires b !in live
    requires forall d, x | 0 <= d < N_CLASSES && x in slots[d] :: SlotOf(d, pages[d], x)
    ensures BuddyLists.Addr(base, b) !in allocs && !IsSlabPage(b, pages, base)
  {
    hide SlotOf, OwnedBlock, NoOverlap, BlockAt, ClassFor, SizeToOrder, Slab.Slots;
    var a, live' := BuddyLists.Addr(base, b), live + {b};
    if IsSlabPage(b, pages, base) {
      var c :| 0 <= c < |pages| && a in pages[c];
      PageOfBlock(base, live', a, b);
    }
    if a in allocs {
      if allocs[a].IsSlab() {
        SlotMeetsBlock(pages, base, live', allocs[a].Class(), b);
      } else {
        PageOfBlockAt(base, live', BlockAt(base, a, allocs[a].Order()), b);
      }
    }
  }

  lemma PageOfBlockAt(base: nat, live: set<Block>, b: Block, c: Block)
    requires NoOverlap(live) && b in live && c in live && BuddyLists.Addr(base, b) == BuddyLists.Addr(base, c)
    ensures b == c
  {
    CoversItsRange(b);
    CoversItsRange(c);
    assert b.Covers(b.Page()) && c.Covers(b.Page());
  }

  lemma BalancedNewSlot(allocs: map<nat, Layout>, slots: seq<set<nat>>, pages: seq<set<nat>>, base: nat,
      live: set<Block>, a: nat, l: Layout)
    requires Balanced(allocs, slots, pages, base, live) && l.IsSlab() && a !in allocs
    ensures var c := l.Class(); c < N_CLASSES && Balanced(allocs[a := l], slots[c := slots[c] + {a}], pages, base, live)
  {
    hide BlockAt, ClassFor, IsSlabPage, ServedByBuddy, BuddyLists.Addr, SizeToOrder;
    var allocs' := allocs[a := l];
    forall b <- live | OwnedBlock(allocs, b, base)
      ensures OwnedBlock(allocs', b, base)
    {
    }
  }

  lemma BalancedDropSlot(allocs: map<nat, Layout>, slots: seq<set<nat>>, pages: seq<set<nat>>, base: nat,
      live: set<Block>, a: nat)
    requires Balanced(allocs, slots, pages, base, live) && a in allocs && allocs[a].IsSlab()
    ensures var c := allocs[a].Class();
            c < N_CLASSES && a in slots[c] && Balanced(allocs - {a}, slots[c := slots[c] - {a}], pages, base, live)
  {
    hide BlockAt, ClassFor, IsSlabPage, ServedByBuddy, BuddyLists.Addr, SizeToOrder;
    var allocs' := allocs - {a};
    forall b <- live | OwnedBlock(allocs, b, base)
      ensures OwnedBlock(allocs', b, base)
    {
    }
  }

  lemma BalancedDropBlock(allocs: map<nat, Layout>, slots: seq<set<nat>>, pages: seq<set<nat>>, base: nat,
      live: set<Block>, a: nat)
    requires Balanced(allocs, slots, pages, base, live) && a in allocs && !allocs[a].IsSlab()
    ensures var b := BlockAt(base, a, allocs[a].Order());
            && a == BuddyLists.Addr(base, b) && b in live && Balanced(allocs - {a}, slots, pages, base, live - {b})
  {
    hide ClassFor, IsSlabPage, SizeToOrder;
    var b := BlockAt(base, a, allocs[a].Order());
    forall c <- live - {b} | OwnedBlock(allocs, c, base)
      ensures BuddyLists.Addr(base, c) != a
    {
      BlockAtAddr(base, c);
    }
  }

  lemma BalancedNewBlock(allocs: map<nat, Layout>, slots: seq<set<nat>>, pages: seq<set<nat>>, base: nat,
      live: set<Block>, a: nat, l: Layout)
    requires Balanced(allocs, slots, pages, base, live) && !l.IsSlab() && a !in allocs
    requires var b := BlockAt(base, a, l.Order()); a == BuddyLists.Addr(base, b) && !IsSlabPage(b, pages, base)
    ensures Balanced(allocs[a := l], slots, pages, base, live + {BlockAt(base, a, l.Order())})
  {
    hide ClassFor, ClassFrom, IsSlabPage, SizeToOrder;
  }

  class KernelHeap {
    const buddy: BuddyAllocator
    const slab: SlabAllocator
    var inited: bool
    /** The live allocations and the layouts they were made with. */
    ghost var allocs: map<nat, Layout>

    ghost predicate Valid()
      reads `allocs, buddy, buddy.freeLists, buddy.bitmap, slab.classes
    {
      && buddy.Valid()
      && slab.Valid(buddy.base, buddy.live)
      && Balanced(allocs, slab.LiveSets(), slab.PageSets(), buddy.base, buddy.live)
      && NoneEmpty(allocs)
    }

    constructor (base: nat, size: nat)
      requires base > 0 && PagesIn(size) <= BITMAP_PAGES
      ensures Valid() && inited && allocs == map[]
      ensures buddy.base == base && buddy.size == size && buddy.free == Span(0, PagesIn(size))
    {
      hide *;
      var b := new BuddyAllocator();
      var s := new SlabAllocator();
      buddy, slab, inited, allocs := b, s, true, map[];
      new;
      assert s.LiveSets() == seq(N_CLASSES, _ => {}) && s.PageSets() == seq(N_CLASSES, _ => {});
      buddy.Init(base, size);
      NothingBalanced(base);
      ToValid();
    }

    lemma FromValid()
      requires Valid()
      ensures buddy.Valid() && slab.Valid(buddy.base, buddy.live)
      ensures slab.Shaped() && |slab.classes| == N_CLASSES
      ensures Balanced(allocs, slab.LiveSets(), slab.PageSets(), buddy.base, buddy.live)
      ensures SlotsInPages(slab.LiveSets(), slab.PageSets())
      ensures forall d, x | 0 <= d < N_CLASSES && x in slab.LiveSets()[d] :: SlotOf(d, slab.PageSets()[d], x)
      ensures PagesLive(slab.PageSets(), buddy.base, buddy.live)
      ensures NoOverlap(buddy.live) && buddy.base > 0 && NoneEmpty(allocs)
    {
      slab.LiveSlotsPlaced();
    }

    lemma ToValid()
      requires buddy.Valid() && slab.Valid(buddy.base, buddy.live)
      requires Balanced(allocs, slab.LiveSets(), slab.PageSets(), buddy.base, buddy.live) && NoneEmpty(allocs)
      ensures Valid()
    {
    }

    /**
     `do_alloc`, with the verdict of the integrity gate as a parameter. The fallback from an empty
     slab to the buddy never yields a block, so a slab request is only ever served a slot. When the
     gate refuses, pages are lost exactly if a block was cut that is not given back whole.
     */
    method DoAlloc(l: Layout, accepted: bool) returns (r: Outcome)
      requires Valid()
      modifies slab.classes, buddy`mem, buddy`freeBytes, buddy`lists, buddy`free, buddy`live, buddy`lost,
               buddy.freeLists, buddy.bitmap, `allocs
      ensures Valid()
      ensures !inited || l.size == 0 ==> r == Null && buddy.free == old(buddy.free)
      ensures l.size == 0 || l.IsSlab() || accepted ==> buddy.lost == old(buddy.lost)
      ensures inited && l.size > 0 && l.IsSlab() ==>
                && (r == Fault <==> |old(slab.ListFor(l.size))| == 1)
                && (r == Null <==> |old(slab.ListFor(l.size))| != 1 &&
                                   (!accepted || (old(slab.ListFor(l.size)) == [] && NoFreePage(old(buddy.free)))))
      ensures inited && l.size > 0 && !l.IsSlab() ==>
                && r != Fault
                && (r == Null <==> !accepted || forall b: Block | b.order == l.Order() :: !AllFree(b, old(buddy.free)))
                && (r == Null ==> buddy.live == old(buddy.live))
                && (r == Null ==> buddy.free + buddy.lost == old(buddy.free) + old(buddy.lost))
                && (r == Null ==>
                      (buddy.free == old(buddy.free) <==>
                         l.Releasable() || forall b: Block | b.order == l.Order() :: !AllFree(b, old(buddy.free))))
      ensures r.Ptr? ==> r.addr !in old(allocs) && allocs == old(allocs)[r.addr := l]
      ensures !r.Ptr? ==> allocs == old(allocs)
      ensures r.Ptr? && l.size <= 512 && l.align <= l.size ==>
                exists c :: 0 <= c < N_CLASSES && r.addr in slab.LiveSets()[c] && l.size <= SLAB_CLASSES[c]
                            && forall d | 0 <= d < c :: SLAB_CLASSES[d] < l.size
      ensures r.Ptr? && !(l.size <= 512 && l.align <= l.size) ==>
                var b := BlockAt(buddy.base, r.addr, SizeToOrder(if l.size < l.align then l.align else l.size));
                b in buddy.live && r.addr == BuddyLists.Addr(buddy.base, b)
    {
      hide *;
      FromValid();
      if !inited { return Null; }
      if l.size == 0 { return Null; }
      var isSlab := l.size <= MAX_SLAB_SIZE && l.align <= l.size;
      RouteOf(l);
      if isSlab {
        SlabLayout(l);
        r := SlabAlloc(l);
        if r == Fault { return; }
        if r == Null {
          var fallback := FallBack(l);
          assert fallback == 0;
        }
      } else {
        var ptr := BuddyAlloc(l);
        r := if ptr == 0 then Null else Ptr(ptr);
      }
      if r == Null { return; }
      if !accepted {
        var ptr := r.addr;
        assert (old(allocs)[ptr := l]) - {ptr} == old(allocs);
        ghost var mid := buddy.free;
        Release(ptr, l);
        if !isSlab { RefusedBlock(buddy.base, ptr, l, old(buddy.free), mid, buddy.free, old(buddy.lost), buddy.lost); }
        r := Null;
        return;
      }
      FromValid();
      ServedWhere(allocs, slab.LiveSets(), slab.PageSets(), buddy.base, buddy.live, r.addr);
    }

    /** The branch of `do_alloc` that turns to the buddy when the slab had no slot: it finds no block either. */
    method FallBack(l: Layout) returns (ptr: nat)
      requires Valid() && l.IsSlab() && l.size > 0 && NoFreePage(buddy.free)
      modifies buddy`mem, buddy`freeBytes, buddy`lists, buddy`free, buddy`live, buddy.freeLists, buddy.bitmap
      ensures Valid() && ptr == 0 && buddy.free == old(buddy.free) && buddy.live == old(buddy.live)
    {
      hide *;
      FromValid();
      SmallOrder(l);
      NoPageMeans(buddy.free);
      ptr := buddy.Alloc(l.size, l.align);
      ToValid();
    }

    /** The allocator that served `ptr` takes it back; the buddy by the order of the size alone. */
    method Release(ptr: nat, l: Layout)
      requires Valid() && ptr in allocs && allocs[ptr] == l
      modifies slab.classes, buddy`mem, buddy`freeBytes, buddy`lists, buddy`free, buddy`live, buddy`lost,
               buddy.freeLists, buddy.bitmap, `allocs
      ensures Valid() && allocs == old(allocs) - {ptr}
      ensures buddy.lost == old(buddy.lost) <==> l.Releasable()
      ensures l.IsSlab() ==>
                && buddy.free == old(buddy.free) && buddy.live == old(buddy.live)
                && slab.LiveSets() == old(slab.LiveSets())[l.Class() := old(slab.LiveSets())[l.Class()] - {ptr}]
      ensures !l.IsSlab() ==>
                var b, c := BlockAt(buddy.base, ptr, l.Order()), BlockAt(buddy.base, ptr, SizeToOrder(l.size));
                && c.Pages() <= b.Pages() && buddy.live == old(buddy.live) - {b}
                && buddy.free == old(buddy.free) + c.Pages()
                && buddy.lost == old(buddy.lost) + (b.Pages() - c.Pages())
    {
      hide *;
      FromValid();
      NoneEmptyAfter(allocs, ptr, l);
      var isSlab := l.size <= MAX_SLAB_SIZE && l.align <= l.size;
      RouteOf(l);
      if isSlab {
        SlabLayout(l);
        BalancedDropSlot(allocs, slab.LiveSets(), slab.PageSets(), buddy.base, buddy.live, ptr);
        slab.Free(ptr, l.size, buddy.base, buddy.live);
      } else {
        ReleaseOrderOf(l);
        BalancedDropBlock(allocs, slab.LiveSets(), slab.PageSets(), buddy.base, buddy.live, ptr);
        BuddyOwner(allocs, slab.LiveSets(), slab.PageSets(), buddy.base, buddy.live, ptr);
        LostExactly(buddy, ptr, l);
        FewerBlocks(slab.PageSets(), buddy.base, buddy.live, BlockAt(buddy.base, ptr, l.Order()));
        slab.FromValid(buddy.base, buddy.live);
        buddy.Free(ptr, l.size, l.Order());
        slab.ToValid(buddy.base, buddy.live);
      }
      NoneEmptyAfter(allocs, ptr, l);
      allocs := allocs - {ptr};
      ToValid();
    }

    /** `do_dealloc`, with the verdict of the integrity gate as a parameter; a refusal halts the machine. */
    method DoDealloc(ptr: nat, l: Layout, accepted: bool) returns (halted: bool)
      requires Valid()
      requires inited && ptr != 0 ==> ptr in allocs && allocs[ptr] == l
      modifies slab.classes, buddy`mem, buddy`freeBytes, buddy`lists, buddy`free, buddy`live, buddy`lost,
               buddy.freeLists, buddy.bitmap, `allocs
      ensures Valid()
      ensures halted <==> inited && ptr != 0 && !accepted
      ensures allocs == if inited && ptr != 0 && accepted then old(allocs) - {ptr} else old(allocs)
      ensures buddy.lost == old(buddy.lost) <==> !inited || ptr == 0 || !accepted || l.Releasable()
    {
      hide *;
      if !inited || ptr == 0 { return false; }
      if !accepted { return true; }
      Release(ptr, l);
      return false;
    }

    /** The buddy half of `do_alloc`. */
    method BuddyAlloc(l: Layout) returns (ptr: nat)
      requires Valid() && !l.IsSlab() && l.size > 0
      modifies buddy`mem, buddy`freeBytes, buddy`lists, buddy`free, buddy`live, buddy.freeLists, buddy.bitmap, `allocs
      ensures Valid()
      ensures ptr == 0 <==> forall b: Block | b.order == l.Order() :: !AllFree(b, old(buddy.free))
      ensures ptr == 0 ==> allocs == old(allocs) && buddy.free == old(buddy.free) && buddy.live == old(buddy.live)
      ensures ptr != 0 ==>
                && ptr !in old(allocs) && allocs == old(allocs)[ptr := l]
                && Carved(buddy.base, ptr, l.Order(), PagesIn(buddy.size), old(buddy.free), buddy.free)
                && buddy.live == old(buddy.live) + {BlockAt(buddy.base, ptr, l.Order())}
                && buddy.live - {BlockAt(buddy.base, ptr, l.Order())} == old(buddy.live)
                && ptr == BuddyLists.Addr(buddy.base, BlockAt(buddy.base, ptr, l.Order()))
                && BlockAt(buddy.base, ptr, l.Order()).Pages() <= old(buddy.free)
                && buddy.free == old(buddy.free) - BlockAt(buddy.base, ptr, l.Order()).Pages()
    {
      hide *;
      FromValid();
      OrderOf(l);
      ptr := buddy.Alloc(l.size, l.align);
      FromBuddy(buddy);
      if ptr != 0 {
        ghost var b := BlockAt(buddy.base, ptr, l.Order());
        PtrIsNew(buddy.base, ptr, l.Order(), PagesIn(buddy.size), old(buddy.free), buddy.free, old(buddy.live));
        BlockIsUnused(allocs, slab.LiveSets(), slab.PageSets(), buddy.base, old(buddy.live), b);
        BalancedNewBlock(allocs, slab.LiveSets(), slab.PageSets(), buddy.base, old(buddy.live), ptr, l);
        MoreBlocks(slab.PageSets(), buddy.base, old(buddy.live), buddy.live);
        NoneEmptyAfter(allocs, ptr, l);
        allocs := allocs[ptr := l];
      }
      slab.FromValid(buddy.base, old(buddy.live));
      slab.ToValid(buddy.base, buddy.live);
      ToValid();
    }

    /** The slab half of `do_alloc`. */
    method SlabAlloc(l: Layout) returns (r: Outcome)
      requires Valid() && l.IsSlab() && l.size > 0
      modifies slab.classes, buddy`mem, buddy`freeBytes, buddy`lists, buddy`free, buddy`live, buddy.freeLists,
               buddy.bitmap, `allocs
      ensures Valid()
      ensures r.Ptr? ==> r.addr !in old(allocs) && allocs == old(allocs)[r.addr := l]
      ensures r.Ptr? ==> r.addr != 0
      ensures !r.Ptr? ==> allocs == old(allocs) && slab.BooksOf(buddy) == old(slab.BooksOf(buddy))
      ensures !r.Ptr? ==> buddy.free == old(buddy.free) && buddy.live == old(buddy.live)
      ensures r == Fault <==> |old(slab.ListFor(l.size))| == 1
      ensures r == Null <==> old(slab.ListFor(l.size)) == [] && NoFreePage(old(buddy.free))
    {
      hide *;
      FromValid();
      SlabLayout(l);
      slab.BooksAre(l.size, buddy);
      ghost var before := slab.BooksOf(buddy);
      ghost var list := slab.ListFor(l.size);
      r := slab.Alloc(l.size, buddy);
      slab.BooksAre(l.size, buddy);
      slab.FromValid(buddy.base, buddy.live);
      slab.LiveSlotsPlaced();
      FromBuddy(buddy);
      ServedBalanced(r, l, list, allocs, buddy.base, before, slab.BooksOf(buddy));
      if r.Ptr? {
        SlotIsNotNull(slab.PageSets(), buddy.base, buddy.live, l.Class(), r.addr);
        NoneEmptyAfter(allocs, r.addr, l);
        allocs := allocs[r.addr := l];
      }
      ToValid();
    }
  }

  lemma PtrIsNew(base: nat, ptr: nat, order: nat, n: nat, free: set<nat>, free': set<nat>, live: set<Block>)
    requires Carved(base, ptr, order, n, free, free')
    requires forall b <- live :: b.Pages() !! BlockAt(base, ptr, order).Pages()
    ensures var b := BlockAt(base, ptr, order); b.order == order && ptr == BuddyLists.Addr(base, b) && b !in live
    ensures (live + {BlockAt(base, ptr, order)}) - {BlockAt(base, ptr, order)} == live
    ensures BlockAt(base, ptr, order).Pages() <= free && free' == free - BlockAt(base, ptr, order).Pages()
  {
    NotLiveYet(live, BlockAt(base, ptr, order));
  }

  lemma FewerBlocks(pages: seq<set<nat>>, base: nat, live: set<Block>, b: Block)
    requires PagesLive(pages, base, live) && !IsSlabPage(b, pages, base)
    ensures PagesLive(pages, base, live - {b})
  {
    forall c, p | 0 <= c < |pages| && p in pages[c]
      ensures PageBlock(base, p) != b
    {
    }
  }

  lemma BuddyOwner(allocs: map<nat, Layout>, slots: seq<set<nat>>, pages: seq<set<nat>>, base: nat, live: set<Block>,
      a: nat)
    requires Balanced(allocs, slots, pages, base, live) && a in allocs && !allocs[a].IsSlab()
    ensures !IsSlabPage(BlockAt(base, a, allocs[a].Order()), pages, base)
  {
  }

  lemma ReleaseOrderOf(l: Layout)
    requires !l.IsSlab()
    ensures SizeToOrder(l.size) <= l.Order() && (l.Releasable() <==> SizeToOrder(l.size) == l.Order())
  {
    ReleasesLess(l.size, l.align);
  }

  /** Releasing a block loses pages exactly if it is not given back whole. */
  lemma LostExactly(buddy: BuddyAllocator, ptr: nat, l: Layout)
    requires buddy.Valid() && !l.IsSlab()
    requires var b := BlockAt(buddy.base, ptr, l.Order()); ptr == BuddyLists.Addr(buddy.base, b) && b in buddy.live
    ensures var b, c := BlockAt(buddy.base, ptr, l.Order()), BlockAt(buddy.base, ptr, SizeToOrder(l.size));
            buddy.lost + (b.Pages() - c.Pages()) == buddy.lost <==> l.Releasable()
  {
    ReleaseOrderOf(l);
    var b, c := BlockAt(buddy.base, ptr, l.Order()), BlockAt(buddy.base, ptr, SizeToOrder(l.size));
    FirstPart(buddy.base, b, c.order);
    assert b.Pages() !! buddy.lost;
    hide *;
    NewlyLost(buddy.lost, b.Pages(), c.Pages());
  }

  lemma NewlyLost(lost: set<nat>, b: set<nat>, c: set<nat>)
    requires c <= b && b !! lost
    ensures lost + (b - c) == lost <==> c == b
  {
    forall p | p in b && p !in c
      ensures p in lost + (b - c) && p !in lost
    {
    }
  }

  /** What is lost when a block that was just cut is given back by its size. */
  lemma RefusedBlock(base: nat, ptr: nat, l: Layout, free0: set<nat>, free1: set<nat>, free: set<nat>, lost0: set<nat>,
      lost: set<nat>)
    requires !l.IsSlab()
    requires var b, c := BlockAt(base, ptr, l.Order()), BlockAt(base, ptr, SizeToOrder(l.size));
             && ptr == BuddyLists.Addr(base, b) && b.Pages() <= free0 && free1 == free0 - b.Pages()
             && free == free1 + c.Pages() && lost == lost0 + (b.Pages() - c.Pages())
    ensures free + lost == free0 + lost0 && (free == free0 <==> l.Releasable())
  {
    ReleaseOrderOf(l);
    ThereAndBack(base, ptr, l.Order(), SizeToOrder(l.size), free0, free1, free, lost0, lost);
  }

  lemma FromBuddy(buddy: BuddyAllocator)
    requires buddy.Valid()
    ensures NoOverlap(buddy.live) && buddy.base > 0
  {
  }

  lemma SlotIsNotNull(pages: seq<set<nat>>, base: nat, live: set<Block>, c: nat, a: nat)
    requires |pages| == N_CLASSES && c < N_CLASSES && PagesLive(pages, base, live) && base > 0 && SlotOf(c, pages[c], a)
    ensures a != 0
  {
    var p :| p in pages[c] && a in PageSlots(p, ClassSize(c));
    assert p == BuddyLists.Addr(base, PageBlock(base, p));
    InPage(p, ClassSize(c), a);
  }

  /** By size and alignment a live allocation is a slot of the smallest class, or a block of the smallest order. */
  lemma ServedWhere(allocs: map<nat, Layout>, slots: seq<set<nat>>, pages: seq<set<nat>>, base: nat, live: set<Block>,
      p: nat)
    requires Balanced(allocs, slots, pages, base, live) && p in allocs
    ensures var l := allocs[p];
            if l.size <= 512 && l.align <= l.size
            then exists c :: 0 <= c < N_CLASSES && p in slots[c] && l.size <= SLAB_CLASSES[c]
                             && forall d | 0 <= d < c :: SLAB_CLASSES[d] < l.size
            else
              var b := BlockAt(base, p, SizeToOrder(if l.size < l.align then l.align else l.size));
              b in live && p == BuddyLists.Addr(base, b)
  {
    var l := allocs[p];
    if l.IsSlab() {
      assert p in slots[l.Class()] && l.Class() == ClassFor(l.size);
    } else {
      assert ServedByBuddy(l, p, pages, base, live);
    }
  }

  lemma RouteOf(l: Layout)
    ensures l.IsSlab() <==> l.size <= MAX_SLAB_SIZE && l.align <= l.size
  {
  }

  lemma SmallOrder(l: Layout)
    requires l.IsSlab()
    ensures SizeToOrder(Max(l.size, l.align)) == 0
  {
    OrderIs(Max(l.size, l.align), 0);
  }

  lemma OrderOf(l: Layout)
    ensures l.Order() == SizeToOrder(Max(l.size, l.align))
  {
  }

  lemma MoreBlocks(pages: seq<set<nat>>, base: nat, live: set<Block>, live': set<Block>)
    requires PagesLive(pages, base, live) && live <= live'
    ensures PagesLive(pages, base, live')
  {
  }

  lemma SlabLayout(l: Layout)
    requires l.IsSlab()
    ensures l.size <= MAX_SLAB_SIZE && l.Class() == ClassFor(l.size) < N_CLASSES && l.Releasable()
  {
  }

  lemma NothingBalanced(base: nat)
    ensures Balanced(map[], seq(N_CLASSES, _ => {}), seq(N_CLASSES, _ => {}), base, {}) && NoneEmpty(map[])
  {
  }

  /** Whatever a slab allocation comes back with, the books still balance with its slot added. */
  lemma ServedBalanced(r: Outcome, l: Layout, list: seq<nat>, allocs: map<nat, Layout>, base: nat, s: Books, s': Books)
    requires l.IsSlab() && Served(r, l.Class(), list, base, s, s')
    requires Balanced(allocs, s.lives, s.pages, base, s.blocks)
    requires SlotsInPages(s.lives, s.pages) && SlotsInPages(s'.lives, s'.pages)
    requires PagesLive(s'.pages, base, s'.blocks) && NoOverlap(s'.blocks)
    ensures r == Fault <==> |list| == 1
    ensures r == Null <==> list == [] && NoFreePage(s.free)
    ensures r.Ptr? ==>
            && r.addr !in allocs && SlotOf(l.Class(), s'.pages[l.Class()], r.addr)
            && Balanced(allocs[r.addr := l], s'.lives, s'.pages, base, s'.blocks)
    ensures !r.Ptr? ==> s' == s
  {
    hide IsSlabPage, OwnedBlock, ServedByBuddy, PagesLive, NoOverlap, ClassFor, NoFreePage;
    if r.Ptr? {
      var a, c := r.addr, l.Class();
      if list == [] {
        BalancedNewPage(allocs, s.lives, s.pages, base, s.blocks, c, a);
      }
      assert a in s'.lives[c];
      assert SlotOf(c, s'.pages[c], a);
      SlotIsUnused(allocs, s.lives, s'.pages, base, s'.blocks, c, a);
      BalancedNewSlot(allocs, s.lives, s'.pages, base, s'.blocks, a, l);
    }
  }

  /** Exactly which layouts get their whole block back. */
  lemma ReleasableExactly(l: Layout)
    ensures l.Releasable() <==>
            l.IsSlab() || l.align <= PAGE_SIZE * Pow2(SizeToOrder(l.size)) || l.size > PAGE_SIZE * Pow2(MAX_ORDER - 2)
  {
    ReleaseOrder(l.size, l.align);
  }

  /** Eight bytes aligned to two pages are cut as two pages and would be given back as one. */
  lemma OveralignedIsNotReleasable()
    ensures !Layout(8, 0x2000).Releasable() && Layout(8, 0x2000).Order() == 1 && SizeToOrder(8) == 0
  {
    assert Pow2(0) == 1 && Pow2(1) == 2;
    OrderIs(8, 0);
    OrderIs(0x2000, 1);
  }

  // ----- what the live allocations look like in memory -----

  /** How many bytes a live allocation keeps from every other: its slot or its block. */
  function Footprint(l: Layout): nat {
    if l.IsSlab() then ClassSize(l.Class()) else PAGE_SIZE * Pow2(l.Order())
  }

  /** The footprint holds the request exactly for requests up to the largest block. */
  lemma FootprintHolds(l: Layout)
    ensures Max(l.size, l.align) <= Footprint(l) <==> Max(l.size, l.align) <= MAX_BLOCK
  {
    if l.IsSlab() {
      assert Max(l.size, l.align) == l.size <= ClassSize(l.Class());
    } else {
      ServedLength(Max(l.size, l.align));
    }
  }

  ghost predicate Apart(p: nat, m: nat, q: nat, n: nat) {
    p + m <= q || q + n <= p
  }

  lemma BlocksApart(base: nat, live: set<Block>, b: Block, c: Block)
    requires NoOverlap(live) && b in live && c in live && b != c
    ensures Apart(BuddyLists.Addr(base, b), PAGE_SIZE * b.Size(), BuddyLists.Addr(base, c), PAGE_SIZE * c.Size())
  {
    CoversItsRange(b);
    CoversItsRange(c);
    assert !c.Covers(b.Page()) || !b.Covers(b.Page());
    assert !b.Covers(c.Page()) || !c.Covers(c.Page());
  }

  lemma {:induction false} SlotsApart(a: nat, sz: nat, n: nat, x: nat, y: nat)
    requires sz > 0 && x in Slots(a, sz, n) && y in Slots(a, sz, n) && x != y
    ensures Apart(x, sz, y, sz)
    decreases n
  {
    var rest := Slots(a + sz, sz, n - 1);
    if x in rest && y in rest {
      SlotsApart(a + sz, sz, n - 1, x, y);
    }
  }

  lemma SlabSlotsApart(pages: seq<set<nat>>, base: nat, live: set<Block>, c: nat, x: nat, d: nat, y: nat)
    requires |pages| == N_CLASSES && c < N_CLASSES && d < N_CLASSES && PagesLive(pages, base, live) && NoOverlap(live)
    requires SlotOf(c, pages[c], x) && SlotOf(d, pages[d], y) && x != y
    ensures Apart(x, ClassSize(c), y, ClassSize(d))
  {
    hide Slab.Slots, BlockAt, NoOverlap;
    var p :| p in pages[c] && x in PageSlots(p, ClassSize(c));
    var q :| q in pages[d] && y in PageSlots(q, ClassSize(d));
    InPage(p, ClassSize(c), x);
    InPage(q, ClassSize(d), y);
    if p == q {
      assert c == d;
      SlotsApart(p, ClassSize(c), SlotsPer(ClassSize(c)), x, y);
    } else {
      assert p == BuddyLists.Addr(base, PageBlock(base, p)) && q == BuddyLists.Addr(base, PageBlock(base, q));
      BlocksApart(base, live, PageBlock(base, p), PageBlock(base, q));
    }
  }

  lemma SlotAndBlockApart(pages: seq<set<nat>>, base: nat, live: set<Block>, c: nat, x: nat, b: Block)
    requires |pages| == N_CLASSES && c < N_CLASSES && PagesLive(pages, base, live) && NoOverlap(live)
    requires SlotOf(c, pages[c], x) && b in live && !IsSlabPage(b, pages, base)
    ensures Apart(x, ClassSize(c), BuddyLists.Addr(base, b), PAGE_SIZE * b.Size())
  {
    hide Slab.Slots, BlockAt, NoOverlap;
    var p :| p in pages[c] && x in PageSlots(p, ClassSize(c));
    InPage(p, ClassSize(c), x);
    assert p == BuddyLists.Addr(base, PageBlock(base, p)) && PageBlock(base, p) in live;
    BlocksApart(base, live, PageBlock(base, p), b);
  }

  /** No two live allocations share a byte of their footprints. */
  lemma LiveAllocationsApart(h: KernelHeap, p: nat, q: nat)
    requires h.Valid() && p in h.allocs && q in h.allocs && p != q
    ensures Apart(p, Footprint(h.allocs[p]), q, Footprint(h.allocs[q]))
  {
    h.FromValid();
    var slots, pages, base, live := h.slab.LiveSets(), h.slab.PageSets(), h.buddy.base, h.buddy.live;
    FootprintsApart(h.allocs, slots, pages, base, live, p, q);
  }

  lemma FootprintsApart(allocs: map<nat, Layout>, slots: seq<set<nat>>, pages: seq<set<nat>>, base: nat,
      live: set<Block>, p: nat, q: nat)
    requires Balanced(allocs, slots, pages, base, live) && PagesLive(pages, base, live) && NoOverlap(live)
    requires forall d, x | 0 <= d < N_CLASSES && x in slots[d] :: SlotOf(d, pages[d], x)
    requires p in allocs && q in allocs && p != q
    ensures Apart(p, Footprint(allocs[p]), q, Footprint(allocs[q]))
  {
    hide SlotOf, NoOverlap, BlockAt, ClassFor, SizeToOrder, PagesLive, IsSlabPage, OwnedBlock, BuddyLists.Addr;
    var k, l := allocs[p], allocs[q];
    var b, c := BlockAt(base, p, k.Order()), BlockAt(base, q, l.Order());
    if k.IsSlab() && l.IsSlab() {
      SlabSlotsApart(pages, base, live, k.Class(), p, l.Class(), q);
    } else if k.IsSlab() {
      SlotAndBlockApart(pages, base, live, k.Class(), p, c);
    } else if l.IsSlab() {
      SlotAndBlockApart(pages, base, live, l.Class(), q, b);
    } else {
      BlocksApart(base, live, b, c);
    }
  }

  // ----- alignment -----

  function Times(m: nat, d: nat): nat { m * d }

  ghost predicate Multiple(x: nat, d: nat) {
    exists m: nat :: Times(m, d) == x
  }

  lemma SumOfMultiples(x: nat, y: nat, d: nat)
    requires Multiple(x, d) && Multiple(y, d)
    ensures Multiple(x + y, d)
  {
    var m: nat, n: nat :| Times(m, d) == x && Times(n, d) == y;
    assert Times(m + n, d) == x + y;
  }

  lemma {:induction false} ShiftedIsMultiple(i: nat, k: nat, j: nat)
    requires j <= k
    ensures Multiple(Shl(i, k), Pow2(j))
    decreases k
  {
    if k == j {
      ShlIsTimes(i, k);
    } else {
      ShiftedIsMultiple(i, k - 1, j);
      SumOfMultiples(Shl(i, k - 1), Shl(i, k - 1), Pow2(j));
    }
  }

  lemma {:induction false} ShlIsTimes(i: nat, k: nat)
    ensures Shl(i, k) == Times(i, Pow2(k))
  {
    if k > 0 {
      ShlIsTimes(i, k - 1);
      assert 2 * Times(i, Pow2(k - 1)) == Times(i, 2 * Pow2(k - 1));
    }
  }

  lemma {:induction false} SmallerPower(j: nat, k: nat)
    requires Pow2(j) <= Pow2(k)
    ensures j <= k
  {
    if k < j { PowersGrow(k, j); }
  }

  lemma {:induction false} SlotIsAligned(a: nat, sz: nat, n: nat, x: nat, d: nat)
    requires sz > 0 && x in Slots(a, sz, n) && Multiple(a, d) && Multiple(sz, d)
    ensures Multiple(x, d)
    decreases n
  {
    if x != a {
      SumOfMultiples(a, sz, d);
      SlotIsAligned(a + sz, sz, n - 1, x, d);
    }
  }

  lemma ClassIsPower(c: nat)
    requires c < N_CLASSES
    ensures ClassSize(c) == Shl(1, c + 3) == Pow2(c + 3)
  {
    assert Shl(1, 3) == 8;
    assert Shl(1, 5) == 32;
    assert Shl(1, 7) == 128;
    assert Shl(1, 9) == 512;
  }

  lemma PageIsShifted(p: nat)
    ensures PAGE_SIZE * p == Shl(p, 12)
  {
    ShiftByPageSize(p);
  }

  lemma {:induction false} ShiftTwice(i: nat, j: nat, k: nat)
    ensures Shl(Shl(i, j), k) == Shl(i, j + k)
  {
    if k > 0 { ShiftTwice(i, j, k - 1); }
  }

  /**
   Every live allocation that fits its footprint is aligned as its layout asks, whenever the heap
   base is: `a` is the exponent of the (power of two) alignment.
   */
  lemma LiveAllocationsAligned(h: KernelHeap, p: nat, a: nat)
    requires h.Valid() && p in h.allocs && h.allocs[p].align == Pow2(a) && h.allocs[p].align <= MAX_BLOCK
    requires Multiple(h.buddy.base, Pow2(a))
    ensures Multiple(p, Pow2(a))
  {
    hide *;
    h.FromValid();
    var l := h.allocs[p];
    if l.IsSlab() {
      SlabAligned(h.allocs, h.slab.LiveSets(), h.slab.PageSets(), h.buddy.base, h.buddy.live, p, a);
    } else {
      BlockAligned(h.allocs, h.slab.LiveSets(), h.slab.PageSets(), h.buddy.base, h.buddy.live, p, a);
    }
  }

  lemma SlabAligned(allocs: map<nat, Layout>, slots: seq<set<nat>>, pages: seq<set<nat>>, base: nat, live: set<Block>,
      p: nat, a: nat)
    requires Balanced(allocs, slots, pages, base, live) && PagesLive(pages, base, live)
    requires forall d, x | 0 <= d < N_CLASSES && x in slots[d] :: SlotOf(d, pages[d], x)
    requires p in allocs && allocs[p].IsSlab() && allocs[p].align == Pow2(a) && Multiple(base, Pow2(a))
    ensures Multiple(p, Pow2(a))
  {
    hide Slab.Slots, BlockAt, OwnedBlock, ServedByBuddy, IsSlabPage, Multiple;
    var l, c := allocs[p], allocs[p].Class();
    assert SlotOf(c, pages[c], p);
    var page :| page in pages[c] && p in PageSlots(page, ClassSize(c));
    assert page == BuddyLists.Addr(base, PageBlock(base, page));
    ClassIsPower(c);
    assert Pow2(a) <= Pow2(c + 3);
    SmallerPower(a, c + 3);
    ShiftedIsMultiple(1, c + 3, a);
    PageIsShifted(PageBlock(base, page).Page());
    ShiftedIsMultiple(PageBlock(base, page).Page(), 12, a);
    SumOfMultiples(base, PAGE_SIZE * PageBlock(base, page).Page(), Pow2(a));
    SlotIsAligned(page, ClassSize(c), SlotsPer(ClassSize(c)), p, Pow2(a));
  }

  lemma BlockAligned(allocs: map<nat, Layout>, slots: seq<set<nat>>, pages: seq<set<nat>>, base: nat, live: set<Block>,
      p: nat, a: nat)
    requires Balanced(allocs, slots, pages, base, live)
    requires p in allocs && !allocs[p].IsSlab() && allocs[p].align == Pow2(a) && Multiple(base, Pow2(a))
    requires allocs[p].align <= MAX_BLOCK
    ensures Multiple(p, Pow2(a))
  {
    hide BlockAt, OwnedBlock, IsSlabPage, Multiple, SizeToOrder, ClassFor, Shr;
    var l := allocs[p];
    var b := BlockAt(base, p, l.Order());
    assert p == BuddyLists.Addr(base, b);
    AlignFits(l);
    ShiftByPageSize(Pow2(b.order));
    ShiftTwice(1, b.order, 12);
    SmallerPower(a, b.order + 12);
    ShiftByPageSize(b.Page());
    ShiftTwice(b.index, b.order, 12);
    ShiftedIsMultiple(b.index, b.order + 12, a);
    SumOfMultiples(base, PAGE_SIZE * b.Page(), Pow2(a));
  }

  lemma AlignFits(l: Layout)
    requires l.align <= MAX_BLOCK
    ensures l.align <= PAGE_SIZE * Pow2(l.Order())
  {
    var m := Max(l.size, l.align);
    ServedLength(m);
    if m > MAX_BLOCK { InitStart(0); }
  }
}
