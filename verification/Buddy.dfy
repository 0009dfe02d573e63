/** The buddy page allocator of the kernel heap. */
module Buddy {
  import opened Sizes
  import opened Words
  import opened BuddyBlocks
  import opened BuddyLists

  const MAX_BLOCK: nat := PAGE_SIZE * 512
  const BITMAP_WORDS: nat := 129
  const BITMAP_PAGES: nat := WORD_BITS * BITMAP_WORDS

  /** The order that serves `size` bytes: the smallest whose blocks are long enough, capped at the top order. */
  function SizeToOrder(size: nat): (r: nat)
    ensures r < MAX_ORDER
    ensures forall o: nat | o < r :: PAGE_SIZE * Pow2(o) < size
    ensures r < MAX_ORDER - 1 ==> size <= PAGE_SIZE * Pow2(r)
  {
    OrderFrom(size, 0)
  }

  function OrderFrom(size: nat, o: nat): (r: nat)
    requires o < MAX_ORDER
    ensures o <= r < MAX_ORDER
    ensures forall p: nat | o <= p < r :: PAGE_SIZE * Pow2(p) < size
    ensures r < MAX_ORDER - 1 ==> size <= PAGE_SIZE * Pow2(r)
    decreases MAX_ORDER - o
  {
    if PAGE_SIZE * Pow2(o) < size && o < MAX_ORDER - 1 then OrderFrom(size, o + 1) else o
  }

  /** The number of whole pages in a region of `size` bytes. */
  function PagesIn(size: nat): nat { size / PAGE_SIZE }

  /** The block of order `o` that starts at address `a`. */
  function BlockAt(base: nat, a: nat, o: nat): (b: Block)
    ensures b.order == o
  {
    Block(if a < base then 0 else Shr((a - base) / PAGE_SIZE, o), o)
  }

  lemma {:induction false} ShrOfShl(i: nat, k: nat)
    ensures Shr(Shl(i, k), k) == i
  {
    CoversRange(Shl(i, k), i, k);
    ShlAdds(i, 1, k);
    PowersArePositive(k);
  }

  lemma BlockAtAddr(base: nat, b: Block)
    ensures BlockAt(base, Addr(base, b), b.order) == b
  {
    ShrOfShl(b.index, b.order);
  }

  /** Exclusive or with a block size moves an address to the buddy of its block. */
  lemma {:induction false} FlipIsBuddy(i: nat, o: nat, s: nat)
    ensures FlipBit(Shl(Shl(i, o), s), o + s) == Shl(Shl(FlipBit(i, 0), o), s)
    decreases o + s
  {
    if s > 0 {
      FlipIsBuddy(i, o, s - 1);
      FlipDoubled(Shl(Shl(i, o), s - 1), o + s);
    } else if o > 0 {
      FlipIsBuddy(i, o - 1, 0);
      FlipDoubled(Shl(i, o - 1), o);
    }
  }

  lemma FlipDoubled(x: nat, k: nat)
    requires k > 0
    ensures FlipBit(2 * x, k) == 2 * FlipBit(x, k - 1)
  {
    assert 2 * x / 2 == x && 2 * x % 2 == 0;
  }

  lemma GivenPages(free: set<nat>, b: Block)
    requires b.Pages() !! free
    ensures |free + b.Pages()| == |free| + Pow2(b.order)
  {
  }

  lemma TakenPages(free: set<nat>, b: Block)
    requires b.Pages() <= free
    ensures |free - b.Pages()| == |free| - Pow2(b.order)
    ensures b.Page() + b.Size() - 1 in free
  {
    CoversItsRange(b);
  }

  lemma NoNodeOnUsedPage(lists: seq<seq<nat>>, free: set<nat>, n: nat, p: nat)
    requires |lists| == MAX_ORDER && Canonical(Blocks(lists), free, n) && p !in free
    ensures NoNodeAt(lists, p)
  {
    forall o: nat, i: nat | o < |lists| && i < |lists[o]|
      ensures Block(lists[o][i], o).Page() != p
    {
      var b := Block(lists[o][i], o);
      assert b in Blocks(lists);
      CoversItsRange(b);
    }
  }

  /** A block outside the free pages can join the free family unless its buddy is in it. */
  lemma CanPush(lists: seq<seq<nat>>, free: set<nat>, n: nat, b: Block)
    requires |lists| == MAX_ORDER && Canonical(Blocks(lists), free, n) && n <= BITMAP_PAGES
    requires b.Within(n) && b.Pages() !! free && (b.order < MAX_ORDER - 1 ==> b.Buddy() !in Blocks(lists))
    ensures NoNodeAt(lists, b.Page()) && b.Page() + b.Size() <= BITMAP_PAGES
    ensures Canonical(Blocks(lists) + {b}, free + b.Pages(), n)
  {
    CoversItsRange(b);
    assert b.Page() in b.Pages();
    NoNodeOnUsedPage(lists, free, n, b.Page());
    AddBlock(Blocks(lists), free, n, b);
  }

  lemma NotListed(lists: seq<seq<nat>>, free: set<nat>, n: nat, b: Block)
    requires Canonical(Blocks(lists), free, n) && b.Pages() !! free
    ensures b !in Blocks(lists)
  {
    CoversItsRange(b);
    assert b.Page() in b.Pages();
  }

  /** A block of order `order` at `addr` was cut out of the free pages of a region of n pages. */
  ghost predicate Carved(base: nat, addr: nat, order: nat, n: nat, free: set<nat>, free': set<nat>) {
    var b := BlockAt(base, addr, order);
    && addr == Addr(base, b) && b.Within(n)
    && b.Pages() <= free && free' == free - b.Pages()
  }

  lemma ShowCarved(base: nat, b: Block, n: nat, free: set<nat>, free': set<nat>)
    requires b.Within(n) && b.Pages() <= free && free' == free - b.Pages()
    ensures Carved(base, Addr(base, b), b.order, n, free, free')
  {
    BlockAtAddr(base, b);
  }

  lemma CarvedBlock(base: nat, addr: nat, order: nat, n: nat, free: set<nat>, free': set<nat>)
    requires Carved(base, addr, order, n, free, free')
    ensures var b := BlockAt(base, addr, order);
            b.order == order && addr == Addr(base, b) && b.Within(n) && b.Pages() <= free && free' == free - b.Pages()
  {
  }

  lemma ListedBlocksAreFree(lists: seq<seq<nat>>, free: set<nat>, n: nat)
    requires Canonical(Blocks(lists), free, n)
    ensures forall b <- Blocks(lists) :: b.Pages() <= free
  {
  }

  lemma CanSplit(base: nat, lists: seq<seq<nat>>, free: set<nat>, n: nat, hole: Block)
    requires Canonical(Blocks(lists), free, n)
    requires hole.Within(n) && hole.order > 0 && hole.Pages() !! free
    ensures LeftHalf(hole).order == RightHalf(hole).order == hole.order - 1
    ensures Addr(base, LeftHalf(hole)) == Addr(base, hole) && LeftHalf(hole).Within(n) && RightHalf(hole).Within(n)
    ensures Addr(base, RightHalf(hole)) == Addr(base, hole) + PAGE_SIZE * Pow2(RightHalf(hole).order)
    ensures RightHalf(hole).Pages() !! free && RightHalf(hole).Buddy() !in Blocks(lists)
  {
    HalvesPlaced(hole, n);
    HalvesCover(hole);
    NotListed(lists, free, n, LeftHalf(hole));
  }

  /** `base + ((addr - base) ^ block_size(order))` */
  function BuddyOf(base: nat, addr: nat, order: nat): nat
    requires base <= addr
  {
    base + FlipBit(addr - base, 12 + order)
  }

  lemma ShiftByPageSize(x: nat)
    ensures Shl(x, 12) == PAGE_SIZE * x
  {
    assert Shl(x, 1) == 2 * x;
    assert Shl(x, 2) == 4 * x;
    assert Shl(x, 3) == 8 * x;
    assert Shl(x, 4) == 16 * x;
    assert Shl(x, 5) == 32 * x;
    assert Shl(x, 6) == 64 * x;
    assert Shl(x, 7) == 128 * x;
    assert Shl(x, 8) == 256 * x;
    assert Shl(x, 9) == 512 * x;
    assert Shl(x, 10) == 1024 * x;
    assert Shl(x, 11) == 2048 * x;
  }

  lemma BuddyAddress(base: nat, b: Block)
    ensures BuddyOf(base, Addr(base, b), b.order) == Addr(base, b.Buddy())
    ensures BlockAt(base, Addr(base, b.Buddy()), b.order) == b.Buddy()
  {
    hide Shr;
    var p, q := b.Page(), b.Buddy().Page();
    assert FlipBit(Shl(p, 12), 12 + b.order) == Shl(q, 12) by {
      FlipIsBuddy(b.index, b.order, 12);
      assert b.order + 12 == 12 + b.order;
    }
    ShiftByPageSize(p);
    ShiftByPageSize(q);
    assert Addr(base, b) - base == PAGE_SIZE * p;
    BlockAtAddr(base, b.Buddy());
  }

  /** What the region bound and the bitmap say of the buddy of a used block is what the lists say. */
  lemma BuddyStatus(base: nat, size: nat, lists: seq<seq<nat>>, free: set<nat>, b: Block)
    requires Canonical(Blocks(lists), free, PagesIn(size))
    requires b.Pages() !! free && b.order < MAX_ORDER - 1
    ensures b.Buddy() in Blocks(lists) <==> AllFree(b.Buddy(), free)
    ensures b.Buddy() in Blocks(lists) ==> Addr(base, b.Buddy()) < base + size && b.Buddy().Within(PagesIn(size))
  {
    CoversItsRange(b);
    CoversItsRange(b.Buddy());
    assert b.Page() in b.Pages();
    if AllFree(b.Buddy(), free) {
      FreeBuddyIsABlock(Blocks(lists), free, PagesIn(size), b);
    }
  }

  /** Everything one round of coalescing needs to know about the block it tries to merge. */
  lemma MergeFacts(base: nat, size: nat, lists: seq<seq<nat>>, free: set<nat>, b: Block)
    requires Canonical(Blocks(lists), free, PagesIn(size))
    requires b.Within(PagesIn(size)) && b.Pages() !! free && b.order < MAX_ORDER - 1
    ensures BuddyOf(base, Addr(base, b), b.order) == Addr(base, b.Buddy())
    ensures BlockAt(base, Addr(base, b.Buddy()), b.order) == b.Buddy()
    ensures b.Buddy().order == b.order && b.Parent().order == b.order + 1
    ensures b.Buddy() in Blocks(lists) <==> AllFree(b.Buddy(), free)
    ensures b.Buddy() in Blocks(lists) ==>
              && Addr(base, b.Buddy()) < base + size
              && Addr(base, b.Parent()) == (if Addr(base, b.Buddy()) < Addr(base, b) then Addr(base, b.Buddy())
                 else Addr(base, b))
              && b.Parent().Within(PagesIn(size))
              && b.Parent().Pages() == b.Pages() + b.Buddy().Pages()
  {
    BuddyAddress(base, b);
    BuddyStatus(base, size, lists, free, b);
    if b.Buddy() in Blocks(lists) {
      JoinPlaced(b, PagesIn(size));
      JoinCovers(b);
    }
  }

  /** `init` has freed exactly the pages below `offset`, which ends a block of order `ord`. */
  ghost predicate InitPoint(size: nat, offset: nat, i: nat, ord: nat, free: set<nat>) {
    offset == PAGE_SIZE * Shl(i, ord) && offset <= size && free == Span(0, Shl(i, ord))
  }

  /** Less than one block of order `ord` is left, or less than two and the next one is a left half. */
  ghost predicate InitTail(size: nat, offset: nat, i: nat, ord: nat) {
    || size < offset + PAGE_SIZE * Pow2(ord)
    || (i % 2 == 0 && size < offset + 2 * (PAGE_SIZE * Pow2(ord)))
  }

  lemma InitStart(size: nat)
    ensures InitPoint(size, 0, 0, MAX_ORDER - 1, {})
    ensures MAX_ORDER == 10 && MAX_BLOCK == PAGE_SIZE * Pow2(MAX_ORDER - 1)
  {
    assert Pow2(3) == 8;
    assert Pow2(6) == 64;
    assert Pow2(9) == 512;
    assert Shl(0, 3) == 0;
    assert Shl(0, 6) == 0;
    assert Shl(0, 9) == 0;
  }

  lemma InitPush(base: nat, size: nat, offset: nat, i: nat, ord: nat, free: set<nat>)
    requires InitPoint(size, offset, i, ord, free) && ord < MAX_ORDER && offset + PAGE_SIZE * Pow2(ord) <= size
    ensures var b := Block(i, ord);
            && b.order == ord && b.Within(PagesIn(size)) && Addr(base, b) == base + offset && b.Pages() !! free
            && InitPoint(size, offset + PAGE_SIZE * Pow2(ord), i + 1, ord, free + b.Pages())
    ensures PAGE_SIZE * Pow2(ord) > 0
  {
    InitSpan(i, ord);
    FitsInside(Block(i, ord), size);
  }

  lemma InitBuddy(size: nat, offset: nat, i: nat, ord: nat, free: set<nat>, lists: seq<seq<nat>>)
    requires InitPoint(size, offset, i, ord, free) && ord < MAX_ORDER && offset + PAGE_SIZE * Pow2(ord) <= size
    requires Canonical(Blocks(lists), free, PagesIn(size)) && InitTail(size, offset, i, ord)
    ensures Block(i, ord).Buddy() !in Blocks(lists)
    ensures InitTail(size, offset + PAGE_SIZE * Pow2(ord), i + 1, ord)
  {
    hide Canonical, NoOverlap, Covered, NoFreeBuddies, Blocks, Shr, Span, Block.Pages;
    assert i % 2 == 0 && Block(i, ord).Buddy() == Block(i + 1, ord);
    InitSpan(i, ord);
    InitSpan(i + 1, ord);
    NotListed(lists, free, PagesIn(size), Block(i + 1, ord));
  }

  lemma FitsInside(b: Block, size: nat)
    requires b.order < MAX_ORDER && PAGE_SIZE * b.Page() + PAGE_SIZE * b.Size() <= size
    ensures b.Within(PagesIn(size))
  {
    ShlAdds(b.index, 1, b.order);
    var e := Shl(b.index + 1, b.order);
    assert PAGE_SIZE * e <= size;
  }

  lemma InitSpan(i: nat, k: nat)
    ensures Shl(i + 1, k) == Shl(i, k) + Pow2(k) && Pow2(k) > 0
    ensures Block(i, k).Page() == Shl(i, k) && forall p :: p in Block(i, k).Pages() <==> Shl(i, k) <= p < Shl(i + 1, k)
    ensures Span(0, Shl(i, k)) + Block(i, k).Pages() == Span(0, Shl(i + 1, k))
    ensures Span(0, Shl(i, k)) !! Block(i, k).Pages()
  {
    CoversItsRange(Block(i, k));
  }

  lemma InitHalve(size: nat, offset: nat, i: nat, ord: nat, free: set<nat>)
    requires InitPoint(size, offset, i, ord, free) && ord > 0
    requires size < offset + PAGE_SIZE * Pow2(ord)
    ensures InitPoint(size, offset, 2 * i, ord - 1, free) && InitTail(size, offset, 2 * i, ord - 1)
  {
    ShlAdds(i, i, ord - 1);
    assert i + i == 2 * i;
  }

  lemma InitDone(size: nat, offset: nat, i: nat, ord: nat, free: set<nat>)
    requires InitPoint(size, offset, i, ord, free)
    requires (size <= offset || (ord == 0 && size < offset + PAGE_SIZE * Pow2(ord)))
    ensures free == Span(0, PagesIn(size)) && Shared({}, free, {}, PagesIn(size))
  {
    assert Shl(i, ord) == PagesIn(size);
  }

  /** What a region looks like once nothing is live is fixed by its size: exactly what `init` builds. */
  lemma DrainedIsInitial(blocks: set<Block>, free: set<nat>, blocks': set<Block>, free': set<nat>, n: nat)
    requires Canonical(blocks, free, n) && Shared({}, free, {}, n)
    requires Canonical(blocks', free', n) && Shared({}, free', {}, n)
    ensures blocks == blocks' && free == free'
  {
    forall p: nat
      ensures p in free <==> p < n
      ensures p in free' <==> p < n
    {
      FreeIsInside(blocks, free, n, p);
      FreeIsInside(blocks', free', n, p);
    }
    assert free == free';
    CanonicalIsUnique(blocks, blocks', free, n);
  }

  lemma FreeIsInside(blocks: set<Block>, free: set<nat>, n: nat, p: nat)
    requires Canonical(blocks, free, n)
    ensures p in free ==> p < n
  {
    if p in free {
      var b :| b in blocks && b.Covers(p);
      CoversItsRange(b);
    }
  }

  /** A block taken out and put back leaves the family of free blocks as it was. */
  lemma TakeAndReturn(blocks: set<Block>, free: set<nat>, blocks': set<Block>, free': set<nat>, n: nat, b: Block)
    requires Canonical(blocks, free, n) && Canonical(blocks', free', n)
    requires b.Pages() <= free && free' == (free - b.Pages()) + b.Pages()
    ensures blocks == blocks' && free == free'
  {
    assert free == free';
    CanonicalIsUnique(blocks, blocks', free, n);
  }

  lemma NothingLive(blocks: set<Block>, free: set<nat>, lost: set<nat>, n: nat)
    requires Canonical(blocks, free, n) && Shared({}, free, lost, n)
    ensures free == Span(0, n) - lost && |free| == n - |lost|
  {
    forall p: nat
      ensures p in free <==> p < n && p !in lost
    {
      FreeIsInside(blocks, free, n, p);
    }
    assert free + lost == Span(0, n);
  }

  ghost predicate AreLive(live: set<Block>, rest: seq<Block>) {
    forall b: Block :: b in live <==> b in rest
  }

  lemma FirstLive(live: set<Block>, blocks: seq<Block>, i: nat)
    requires i < |blocks| && AreLive(live, blocks[i..])
    ensures blocks[i] in live
  {
    assert blocks[i] == blocks[i..][0];
  }

  lemma RestLive(live: set<Block>, live': set<Block>, blocks: seq<Block>, i: nat)
    requires i < |blocks| && forall i, j | 0 <= i < j < |blocks| :: blocks[i] != blocks[j]
    requires AreLive(live, blocks[i..]) && live' == live - {blocks[i]}
    ensures AreLive(live', blocks[i + 1..])
  {
    assert blocks[i..] == [blocks[i]] + blocks[i + 1..];
  }

  lemma NoneLeft(live: set<Block>, blocks: seq<Block>)
    requires AreLive(live, blocks[|blocks|..])
    ensures live == {}
  {
  }

  lemma NotLiveYet(live: set<Block>, b: Block)
    requires forall c <- live :: c.Pages() !! b.Pages()
    ensures b !in live && (live + {b}) - {b} == live
  {
    CoversItsRange(b);
    assert b.Page() in b.Pages();
  }

  lemma LiveBlock(base: nat, live: set<Block>, free: set<nat>, lost: set<nat>, n: nat, b: Block)
    requires Shared(live, free, lost, n) && b in live && base > 0
    ensures Addr(base, b) != 0 && PAGE_SIZE * Pow2(b.order) != 0
    ensures SizeToOrder(PAGE_SIZE * Pow2(b.order)) == b.order && BlockAt(base, Addr(base, b), b.order) == b
  {
    PowersArePositive(b.order);
    BlockAtAddr(base, b);
    forall o: nat | o < b.order
      ensures Pow2(o) < Pow2(b.order)
    {
      PowersGrow(o, b.order);
    }
    OrderIs(PAGE_SIZE * Pow2(b.order), b.order);
  }

  lemma {:induction false} PowersGrow(o: nat, k: nat)
    requires o < k
    ensures Pow2(o) < Pow2(k)
  {
    PowersArePositive(k - 1);
    if o < k - 1 { PowersGrow(o, k - 1); }
  }

  lemma OrderIs(bytes: nat, r: nat)
    requires r < MAX_ORDER && (forall o: nat | o < r :: PAGE_SIZE * Pow2(o) < bytes)
    requires r < MAX_ORDER - 1 ==> bytes <= PAGE_SIZE * Pow2(r)
    ensures SizeToOrder(bytes) == r
  {
    var s := SizeToOrder(bytes);
    var lengthAtS, lengthAtR := PAGE_SIZE * Pow2(s), PAGE_SIZE * Pow2(r);
    assert s < r ==> lengthAtS < bytes;
    assert r < s ==> lengthAtR < bytes;
  }

  /**
   The served block is long enough exactly for requests up to the largest block, which the order
   cap does not refuse, and less than twice as long as asked for.
   */
  lemma ServedLength(bytes: nat)
    ensures bytes <= PAGE_SIZE * Pow2(SizeToOrder(bytes)) <==> bytes <= MAX_BLOCK
    ensures PAGE_SIZE * Pow2(SizeToOrder(bytes)) < 2 * Max(bytes, PAGE_SIZE)
  {
    InitStart(0);
    var r := SizeToOrder(bytes);
    if r < MAX_ORDER - 1 { PowersGrow(r, MAX_ORDER - 1); }
    if r > 0 { assert PAGE_SIZE * Pow2(r - 1) < bytes; }
  }

  /** Allocation orders by max(size, align) and release by size alone: when the two agree. */
  lemma ReleaseOrder(bytes: nat, align: nat)
    ensures SizeToOrder(Max(bytes, align)) == SizeToOrder(bytes) <==>
            align <= PAGE_SIZE * Pow2(SizeToOrder(bytes)) || bytes > PAGE_SIZE * Pow2(MAX_ORDER - 2)
  {
    var r := SizeToOrder(bytes);
    if align <= PAGE_SIZE * Pow2(r) || r == MAX_ORDER - 1 {
      OrderIs(Max(bytes, align), r);
    } else if bytes > PAGE_SIZE * Pow2(MAX_ORDER - 2) {
      if r < MAX_ORDER - 2 { PowersGrow(r, MAX_ORDER - 2); }
      assert false;
    }
    if r == MAX_ORDER - 1 { assert PAGE_SIZE * Pow2(MAX_ORDER - 2) < bytes; }
  }

  class BuddyAllocator {
    var base: nat
    var size: nat
    const freeLists: array<nat>
    const bitmap: array<Word>
    var freeBytes: nat
    var mem: map<nat, FreeNode>

    /** The blocks on each free list, front first. */
    ghost var lists: seq<seq<nat>>
    /** The pages whose bitmap bit says free. */
    ghost var free: set<nat>
    /** The blocks handed out and not yet returned. */
    ghost var live: set<Block>
    /** The pages that came back neither with their block nor with another one. */
    ghost var lost: set<nat>

    ghost predicate Bits()
      reads `free, bitmap
    {
      && bitmap.Length == BITMAP_WORDS
      && (forall p: nat | p < BITMAP_PAGES :: BitAt(bitmap[..], p) <==> p in free)
      && (forall p <- free :: p < BITMAP_PAGES)
    }

    /** The representation: lists, bitmap and byte count describe `lists` and `free`. */
    ghost predicate Rep()
      reads `base, `mem, `lists, `free, `freeBytes, freeLists, bitmap
    {
      Lists() && Bits() && freeBytes == PAGE_SIZE * |free|
    }

    ghost predicate Coalesced()
      reads `base, `size, `mem, `lists, `free, `freeBytes, freeLists, bitmap
    {
      Rep() && Canonical(Blocks(lists), free, PagesIn(size)) && PagesIn(size) <= BITMAP_PAGES
    }

    ghost predicate Valid()
      reads this, freeLists, bitmap
    {
      Coalesced() && Shared(live, free, lost, PagesIn(size))
    }

    constructor ()
      ensures fresh(freeLists) && fresh(bitmap)
      ensures freeLists.Length == MAX_ORDER && bitmap.Length == BITMAP_WORDS
    {
      base, size, freeBytes, mem := 0, 0, 0, map[];
      freeLists := new nat[MAX_ORDER](_ => 0);
      bitmap := new Word[BITMAP_WORDS](_ => NO_BITS);
      lists, free, live, lost := seq(MAX_ORDER, _ => []), {}, {}, {};
    }

    /** An empty allocator over a region, in which every list is empty and no page is free. */
    method Clear(newBase: nat, newSize: nat)
      requires newBase > 0 && freeLists.Length == MAX_ORDER && bitmap.Length == BITMAP_WORDS
      modifies this, freeLists, bitmap
      ensures base == newBase && size == newSize && free == {} && live == {} && lost == {}
      ensures Rep() && Canonical(Blocks(lists), {}, PagesIn(size))
    {
      base, size := newBase, newSize;
      for i := 0 to MAX_ORDER
        invariant base == newBase && size == newSize
        invariant forall o | 0 <= o < i :: freeLists[o] == 0
      {
        freeLists[i] := 0;
      }
      for i := 0 to BITMAP_WORDS
        invariant base == newBase && size == newSize
        invariant forall o: nat | o < MAX_ORDER :: freeLists[o] == 0
        invariant forall w | 0 <= w < i :: bitmap[w] == NO_BITS
      {
        bitmap[i] := NO_BITS;
      }
      freeBytes := 0;
      lists, free, live, lost := seq(MAX_ORDER, _ => []), {}, {}, {};
      assert Blocks(lists) == {};
    }

    /** Greedy: whole blocks of the top order, then at most one block of each smaller order. */
    method Init(newBase: nat, newSize: nat)
      requires newBase > 0 && freeLists.Length == MAX_ORDER && bitmap.Length == BITMAP_WORDS
      requires PagesIn(newSize) <= BITMAP_PAGES
      modifies this, freeLists, bitmap
      ensures Valid() && base == newBase && size == newSize
      ensures live == {} && lost == {} && free == Span(0, PagesIn(size))
    {
      hide *;
      Clear(newBase, newSize);
      ToCoalesced();
      var offset: nat := 0;
      InitStart(size);
      ghost var i: nat := 0;
      while offset + MAX_BLOCK <= size
        invariant Coalesced() && base == newBase && size == newSize && live == {} && lost == {}
        invariant InitPoint(size, offset, i, MAX_ORDER - 1, free)
      {
        Known();
        InitPush(base, size, offset, i, MAX_ORDER - 1, free);
        PushCoalesced(base + offset, MAX_ORDER - 1, Block(i, MAX_ORDER - 1));
        offset := offset + MAX_BLOCK;
        i := i + 1;
      }
      var ord: nat := MAX_ORDER - 2;
      InitHalve(size, offset, i, MAX_ORDER - 1, free);
      i := 2 * i;
      while offset < size
        invariant Coalesced() && base == newBase && size == newSize && live == {} && lost == {}
        invariant ord < MAX_ORDER - 1 && InitPoint(size, offset, i, ord, free)
        invariant InitTail(size, offset, i, ord)
        decreases size - offset, ord
      {
        var blockSz := PAGE_SIZE * Pow2(ord);
        if offset + blockSz <= size {
          Known();
          InitPush(base, size, offset, i, ord, free);
          InitBuddy(size, offset, i, ord, free, lists);
          PushCoalesced(base + offset, ord, Block(i, ord));
          offset := offset + blockSz;
          i := i + 1;
        } else if ord > 0 {
          InitHalve(size, offset, i, ord, free);
          ord := ord - 1;
          i := 2 * i;
        } else {
          break;
        }
      }
      InitDone(size, offset, i, ord, free);
      ToValid();
    }

    /**
     A block that is allocated and given straight back leaves the free blocks as they were exactly if nothing was
     served or the two orders agree; otherwise the pages of the larger order that are not of the smaller one are lost.
     */
    method AllocThenFree(bytes: nat, align: nat)
      requires Valid()
      modifies this`mem, this`freeBytes, this`lists, this`free, this`live, this`lost, freeLists, bitmap
      ensures Valid() && live == old(live)
      ensures free + lost == old(free) + old(lost) && freeBytes == PAGE_SIZE * |free|
      ensures Blocks(lists) == Blocks(old(lists)) && free == old(free) <==>
                || bytes == 0 || SizeToOrder(bytes) == SizeToOrder(Max(bytes, align))
                || forall b: Block | b.order == SizeToOrder(Max(bytes, align)) :: !AllFree(b, old(free))
    {
      hide *;
      Accounted();
      FromValid();
      Known();
      var ptr := Alloc(bytes, align);
      if ptr == 0 {
        Accounted();
        return;
      }
      ghost var k, cut, mid := SizeToOrder(bytes), SizeToOrder(Max(bytes, align)), free;
      ghost var b := BlockAt(base, ptr, cut);
      CarvedBlock(base, ptr, cut, PagesIn(size), old(free), free);
      NotLiveYet(old(live), b);
      ReleasesLess(bytes, align);
      Free(ptr, bytes, cut);
      FromValid();
      Known();
      ThereAndBack(base, ptr, cut, k, old(free), mid, free, old(lost), lost);
      if k == cut { TakeAndReturn(Blocks(old(lists)), old(free), Blocks(lists), free, PagesIn(size), b); }
      Accounted();
    }

    lemma Accounted()
      requires Valid()
      ensures freeBytes == PAGE_SIZE * |free|
    {
    }

    /** Returning every live block, in whatever order, frees all pages that were not lost, as `Init` did. */
    method Drain(blocks: seq<Block>)
      requires Valid()
      requires forall b: Block :: b in live <==> b in blocks
      requires forall i, j | 0 <= i < j < |blocks| :: blocks[i] != blocks[j]
      modifies this`mem, this`freeBytes, this`lists, this`free, this`live, this`lost, freeLists, bitmap
      ensures Valid() && live == {} && lost == old(lost) && free == Span(0, PagesIn(size)) - lost
      ensures freeBytes == PAGE_SIZE * (PagesIn(size) - |lost|)
    {
      for i := 0 to |blocks|
        invariant lost == old(lost)
        invariant Valid() && AreLive(live, blocks[i..])
      {
        hide *;
        var b := blocks[i];
        ghost var before := live;
        FirstLive(live, blocks, i);
        FromValid();
        LiveBlock(base, live, free, lost, PagesIn(size), b);
        Free(Addr(base, b), PAGE_SIZE * Pow2(b.order), b.order);
        NothingMore(old(lost), b);
        RestLive(before, live, blocks, i);
      }
      NoneLeft(live, blocks);
      hide *;
      FromValid();
      Known();
      Accounted();
      NothingLive(Blocks(lists), free, lost, PagesIn(size));
    }

    // ----- bitmap -----

    method BitmapSetFree(addr: nat, order: nat)
      requires Bits() && addr == Addr(base, BlockAt(base, addr, order))
      requires BlockAt(base, addr, order).Page() + Pow2(order) <= BITMAP_PAGES
      modifies bitmap, this`free
      ensures Bits() && free == old(free) + BlockAt(base, addr, order).Pages()
    {
      ghost var b := BlockAt(base, addr, order);
      CoversItsRange(b);
      var start := (addr - base) / PAGE_SIZE;
      for i := start to start + Pow2(order)
        invariant free == old(free)
        invariant forall p: nat | p < BITMAP_PAGES ::
                    BitAt(bitmap[..], p) <==> if start <= p < i then true else p in free
      {
        if i / WORD_BITS < BITMAP_WORDS {
          ghost var bm := bitmap[..];
          bitmap[i / WORD_BITS] := bitmap[i / WORD_BITS][i % WORD_BITS := true];
          assert bitmap[..] == StoreBit(bm, i, true);
        }
      }
      free := free + b.Pages();
    }

    method BitmapSetUsed(addr: nat, order: nat)
      requires Bits() && addr == Addr(base, BlockAt(base, addr, order))
      requires BlockAt(base, addr, order).Page() + Pow2(order) <= BITMAP_PAGES
      modifies bitmap, this`free
      ensures Bits() && free == old(free) - BlockAt(base, addr, order).Pages()
    {
      ghost var b := BlockAt(base, addr, order);
      CoversItsRange(b);
      var start := (addr - base) / PAGE_SIZE;
      for i := start to start + Pow2(order)
        invariant free == old(free)
        invariant forall p: nat | p < BITMAP_PAGES ::
                    BitAt(bitmap[..], p) <==> if start <= p < i then false else p in free
      {
        if i / WORD_BITS < BITMAP_WORDS {
          ghost var bm := bitmap[..];
          bitmap[i / WORD_BITS] := bitmap[i / WORD_BITS][i % WORD_BITS := false];
          assert bitmap[..] == StoreBit(bm, i, false);
        }
      }
      free := free - b.Pages();
    }

    method BitmapIsFree(addr: nat, order: nat) returns (r: bool)
      requires Bits() && addr == Addr(base, BlockAt(base, addr, order))
      ensures r <==> AllFree(BlockAt(base, addr, order), free)
    {
      CoversItsRange(BlockAt(base, addr, order));
      var start := (addr - base) / PAGE_SIZE;
      for i := start to start + Pow2(order)
        invariant forall p: nat | start <= p < i :: p in free
      {
        assert BlockAt(base, addr, order).Covers(i);
        if i / WORD_BITS >= BITMAP_WORDS { return false; }
        if !bitmap[i / WORD_BITS][i % WORD_BITS] {
          assert !BitAt(bitmap[..], i);
          return false;
        }
        assert BitAt(bitmap[..], i);
      }
      return true;
    }

    // ----- free lists -----

    ghost predicate Lists()
      reads `base, `mem, `lists, freeLists
    {
      freeLists.Length == MAX_ORDER == |lists| && Linked(base, freeLists[..], mem, lists)
    }

    /** The pointer half of `free_push`. */
    method LinkFront(node: nat, order: nat, ghost b: Block)
      requires Lists() && order == b.order < MAX_ORDER && node == Addr(base, b) && NoNodeAt(lists, b.Page())
      modifies this`mem, this`lists, freeLists
      ensures Lists() && lists == Push(old(lists), b)
      ensures Blocks(lists) == Blocks(old(lists)) + {b}
    {
      LinkedPush(base, freeLists[..], mem, lists, b);
      mem := mem[node := FreeNode(freeLists[order], 0)];
      if freeLists[order] != 0 {
        mem := mem[freeLists[order] := mem[freeLists[order]].(prev := node)];
      }
      freeLists[order] := node;
      lists := Push(lists, b);
      assert freeLists[..] == old(freeLists[..])[order := node];
    }

    /** The pointer half of `free_pop`. */
    method UnlinkFront(order: nat) returns (node: nat)
      requires Lists() && order < MAX_ORDER && freeLists[order] != 0
      modifies this`mem, this`lists, freeLists
      ensures Lists() && old(lists)[order] != []
      ensures node == Addr(base, Block(old(lists)[order][0], order)) && lists == Remove(old(lists), order, 0)
      ensures Blocks(lists) == Blocks(old(lists)) - {Block(old(lists)[order][0], order)}
      ensures NoNodeAt(lists, Block(old(lists)[order][0], order).Page())
    {
      assert Chain(base, freeLists[..][order], mem, lists[order], order);
      LinkedRemove(base, freeLists[..], mem, lists, order, 0);
      node := freeLists[order];
      freeLists[order] := mem[node].next;
      if mem[node].next != 0 {
        mem := mem[mem[node].next := mem[mem[node].next].(prev := 0)];
      }
      lists := Remove(lists, order, 0);
      assert freeLists[..] == old(freeLists[..])[order := old(mem)[node].next];
      assert mem == RemovedMem(old(mem), node);
    }

    /** The pointer half of `free_remove`. */
    method Unlink(node: nat, order: nat, ghost b: Block)
      requires Lists() && order == b.order < MAX_ORDER && node == Addr(base, b) && b in Blocks(lists)
      modifies this`mem, this`lists, freeLists
      ensures Lists()
      ensures Blocks(lists) == Blocks(old(lists)) - {b} && NoNodeAt(lists, b.Page())
    {
      ghost var k: nat :| k < |lists[order]| && lists[order][k] == b.index;
      LinkedRemove(base, freeLists[..], mem, lists, order, k);
      if mem[node].prev != 0 {
        mem := mem[mem[node].prev := mem[mem[node].prev].(next := mem[node].next)];
      } else {
        freeLists[order] := mem[node].next;
        assert freeLists[..] == old(freeLists[..])[order := mem[node].next];
      }
      if mem[node].next != 0 {
        mem := mem[mem[node].next := mem[mem[node].next].(prev := mem[node].prev)];
      }
      assert mem == RemovedMem(old(mem), node);
      lists := Remove(lists, order, k);
    }

    lemma FromRep()
      requires Rep()
      ensures Lists() && Bits() && freeBytes == PAGE_SIZE * |free|
      ensures base > 0 && freeLists.Length == |lists| == MAX_ORDER && forall p <- free :: p < BITMAP_PAGES
    {
    }

    lemma ToRep()
      requires Lists() && Bits() && freeBytes == PAGE_SIZE * |free|
      ensures Rep()
    {
    }

    lemma FrontNode(order: nat)
      requires Lists() && order < MAX_ORDER
      ensures freeLists[order] == 0 <==> lists[order] == []
      ensures lists[order] != [] ==> Block(lists[order][0], order) in Blocks(lists)
    {
      assert Chain(base, freeLists[..][order], mem, lists[order], order);
    }

    method FreePush(addr: nat, order: nat)
      requires Rep() && order < MAX_ORDER
      requires var b := BlockAt(base, addr, order);
               && addr == Addr(base, b) && b.Pages() !! free && NoNodeAt(lists, b.Page())
               && b.Page() + b.Size() <= BITMAP_PAGES
      modifies this`mem, this`freeBytes, this`lists, this`free, freeLists, bitmap
      ensures Rep()
      ensures lists == Push(old(lists), BlockAt(base, addr, order))
      ensures Blocks(lists) == Blocks(old(lists)) + {BlockAt(base, addr, order)}
      ensures free == old(free) + BlockAt(base, addr, order).Pages()
    {
      hide *;
      FromRep();
      ghost var b := BlockAt(base, addr, order);
      GivenPages(free, b);
      LinkFront(addr, order, b);
      BitmapSetFree(addr, order);
      freeBytes := freeBytes + PAGE_SIZE * Pow2(order);
      ToRep();
    }

    method FreePop(order: nat) returns (addr: nat)
      requires Rep() && order < MAX_ORDER
      requires forall b <- Blocks(lists) :: b.Pages() <= free
      modifies this`mem, this`freeBytes, this`lists, this`free, freeLists, bitmap
      ensures Rep()
      ensures old(lists)[order] == [] ==> addr == 0 && lists == old(lists) && free == old(free)
      ensures old(lists)[order] != [] ==>
                var b := Block(old(lists)[order][0], order);
                && addr == Addr(base, b) > 0
                && lists == Remove(old(lists), order, 0) && Blocks(lists) == Blocks(old(lists)) - {b}
                && NoNodeAt(lists, b.Page())
                && free == old(free) - b.Pages()
    {
      hide *;
      FromRep();
      FrontNode(order);
      if freeLists[order] == 0 { return 0; }
      ghost var b := Block(lists[order][0], order);
      BlockAtAddr(base, b);
      TakenPages(free, b);
      addr := UnlinkFront(order);
      BitmapSetUsed(addr, order);
      freeBytes := freeBytes - PAGE_SIZE * Pow2(order);
      ToRep();
    }

    method FreeRemove(addr: nat, order: nat)
      requires Rep() && order < MAX_ORDER
      requires addr == Addr(base, BlockAt(base, addr, order))
      requires BlockAt(base, addr, order) in Blocks(lists)
      requires BlockAt(base, addr, order).Pages() <= free
      modifies this`mem, this`freeBytes, this`lists, this`free, freeLists, bitmap
      ensures Rep()
      ensures Blocks(lists) == Blocks(old(lists)) - {BlockAt(base, addr, order)}
      ensures NoNodeAt(lists, BlockAt(base, addr, order).Page())
      ensures free == old(free) - BlockAt(base, addr, order).Pages()
    {
      hide *;
      FromRep();
      ghost var b := BlockAt(base, addr, order);
      TakenPages(free, b);
      Unlink(addr, order, b);
      BitmapSetUsed(addr, order);
      freeBytes := freeBytes - PAGE_SIZE * Pow2(order);
      ToRep();
    }

    // ----- allocation and release -----

    lemma FromValid()
      requires Valid()
      ensures Coalesced() && Shared(live, free, lost, PagesIn(size))
    {
    }

    lemma ToValid()
      requires Coalesced() && Shared(live, free, lost, PagesIn(size))
      ensures Valid()
    {
    }

    lemma ToCoalesced()
      requires Rep() && Canonical(Blocks(lists), free, PagesIn(size)) && PagesIn(size) <= BITMAP_PAGES
      ensures Coalesced()
    {
    }

    lemma Known()
      requires Coalesced()
      ensures base > 0 && |lists| == MAX_ORDER && Bits()
      ensures Canonical(Blocks(lists), free, PagesIn(size)) && PagesIn(size) <= BITMAP_PAGES
    {
    }

    /** A push that keeps the free family canonical. */
    method PushCoalesced(addr: nat, order: nat, ghost b: Block)
      requires Coalesced() && order == b.order && addr == Addr(base, b)
      requires b.Within(PagesIn(size)) && b.Pages() !! free && (order < MAX_ORDER - 1 ==> b.Buddy() !in Blocks(lists))
      modifies this`mem, this`freeBytes, this`lists, this`free, freeLists, bitmap
      ensures Coalesced() && free == old(free) + b.Pages()
    {
      hide Canonical, Linked, Bits;
      CanPush(lists, free, PagesIn(size), b);
      BlockAtAddr(base, b);
      FreePush(addr, order);
    }

    /** A removal that keeps the free family canonical. */
    method RemoveCoalesced(addr: nat, order: nat, ghost b: Block)
      requires Coalesced() && order == b.order < MAX_ORDER && addr == Addr(base, b) && b in Blocks(lists)
      modifies this`mem, this`freeBytes, this`lists, this`free, freeLists, bitmap
      ensures Coalesced() && b.Pages() <= old(free) && free == old(free) - b.Pages()
    {
      hide Canonical, Linked, Bits;
      RemoveBlock(Blocks(lists), free, PagesIn(size), b);
      BlockAtAddr(base, b);
      FreeRemove(addr, order);
    }

    method PopCoalesced(order: nat) returns (addr: nat)
      requires Coalesced() && order < MAX_ORDER == |lists| && lists[order] != []
      modifies this`mem, this`freeBytes, this`lists, this`free, freeLists, bitmap
      ensures var b := Block(old(lists[order][0]), order);
              && addr == Addr(base, b) > 0 && b.Within(PagesIn(size))
              && b.Pages() <= old(free) && free == old(free) - b.Pages()
      ensures Coalesced()
    {
      hide Canonical, Linked, Bits;
      ghost var b := Block(lists[order][0], order);
      assert b in Blocks(lists);
      RemoveBlock(Blocks(lists), free, PagesIn(size), b);
      ListedBlocksAreFree(lists, free, PagesIn(size));
      addr := FreePop(order);
    }

    /** The smallest nonempty list that can serve `order`, or MAX_ORDER. */
    method FindList(order: nat) returns (found: nat)
      requires Coalesced() && order < MAX_ORDER
      ensures order <= found <= MAX_ORDER
      ensures found == MAX_ORDER ==> forall b <- Blocks(lists) :: b.order < order
      ensures found < MAX_ORDER ==> lists[found] != []
    {
      for o := order to MAX_ORDER
        invariant forall p | order <= p < o :: lists[p] == []
      {
        assert Chain(base, freeLists[..][o], mem, lists[o], o);
        if freeLists[o] != 0 { return o; }
      }
      return MAX_ORDER;
    }

    method AllocOrder(order: nat) returns (addr: nat)
      requires Coalesced() && order < MAX_ORDER
      modifies this`mem, this`freeBytes, this`lists, this`free, freeLists, bitmap
      ensures Coalesced()
      ensures addr == 0 ==> lists == old(lists) && free == old(free) && forall b: Block | b.order == order ::
              !AllFree(b, free)
      ensures addr != 0 ==> Carved(base, addr, order, PagesIn(size), old(free), free)
    {
      hide *;
      Known();
      var found := FindList(order);
      if found == MAX_ORDER {
        NoLargeBlock(Blocks(lists), free, PagesIn(size), order);
        return 0;
      }
      ghost var hole := Block(lists[found][0], found);
      addr := PopCoalesced(found);
      if addr == 0 { assert false; }
      var cur := found;
      while cur > order
        invariant order <= cur < MAX_ORDER && hole.order == cur
        invariant Coalesced() && hole.Within(PagesIn(size)) && addr == Addr(base, hole)
        invariant hole.Pages() <= old(free) && free == old(free) - hole.Pages()
      {
        cur := cur - 1;
        Known();
        CanSplit(base, lists, free, PagesIn(size), hole);
        KeepLeftHalf(old(free), hole);
        PushCoalesced(addr + PAGE_SIZE * Pow2(cur), cur, RightHalf(hole));
        hole := LeftHalf(hole);
      }
      ShowCarved(base, hole, PagesIn(size), old(free), free);
    }

    method FreeCoalesce(addr0: nat, order0: nat, ghost b: Block)
      requires Coalesced() && order0 == b.order && addr0 == Addr(base, b)
      requires b.Within(PagesIn(size)) && b.Pages() !! free
      modifies this`mem, this`freeBytes, this`lists, this`free, freeLists, bitmap
      ensures Coalesced() && free == old(free) + b.Pages()
    {
      hide *;
      var addr, order := addr0, order0;
      ghost var hole := b;
      while order < MAX_ORDER - 1
        invariant Coalesced() && order == hole.order && addr == Addr(base, hole)
        invariant hole.Within(PagesIn(size)) && hole.Pages() !! free
        invariant free + hole.Pages() == old(free) + b.Pages()
      {
        Known();
        var buddy := BuddyOf(base, addr, order);
        MergeFacts(base, size, lists, free, hole);
        if buddy < base || buddy >= base + size { break; }
        var isFree := BitmapIsFree(buddy, order);
        if !isFree { break; }
        RemoveCoalesced(buddy, order, hole.Buddy());
        if buddy < addr { addr := buddy; }
        order := order + 1;
        hole := hole.Parent();
      }
      PushCoalesced(addr, order, hole);
    }

    method OrderForSize(bytes: nat) returns (order: nat)
      ensures order == SizeToOrder(bytes)
    {
      order := 0;
      var block := PAGE_SIZE;
      while block < bytes && order < MAX_ORDER - 1
        invariant order < MAX_ORDER && block == PAGE_SIZE * Pow2(order)
        invariant OrderFrom(bytes, order) == SizeToOrder(bytes)
      {
        block := block * 2;
        order := order + 1;
      }
    }

    /**
     Null exactly when no aligned run of the order's length is entirely free; otherwise a wholly
     free block of that order, now live.
     */
    method Alloc(bytes: nat, align: nat) returns (ptr: nat)
      requires Valid()
      modifies this`mem, this`freeBytes, this`lists, this`free, this`live, freeLists, bitmap
      ensures Valid()
      ensures var order := SizeToOrder(Max(bytes, align));
              ptr == 0 <==> bytes == 0 || forall b: Block | b.order == order :: !AllFree(b, old(free))
      ensures ptr == 0 ==> lists == old(lists) && free == old(free) && live == old(live)
      ensures var order := SizeToOrder(Max(bytes, align));
              ptr != 0 ==>
                && Carved(base, ptr, order, PagesIn(size), old(free), free)
                && live == old(live) + {BlockAt(base, ptr, order)}
                && forall b <- old(live) :: b.Pages() !! BlockAt(base, ptr, order).Pages()
    {
      hide *;
      FromValid();
      if bytes == 0 { return 0; }
      var order := OrderForSize(Max(bytes, align));
      ptr := AllocOrder(order);
      if ptr != 0 {
        ghost var b := BlockAt(base, ptr, order);
        CarvedBlock(base, ptr, order, PagesIn(size), old(free), free);
        CarvedIsLive(old(live), old(free), lost, PagesIn(size), b);
        CarvedWasFree(old(free), b);
        live := live + {b};
      }
      ToValid();
    }

    /**
     The block of the size's order at `ptr` becomes free. `cut` is the order that the live block there was cut with;
     what the smaller order leaves of it is lost.
     */
    method Free(ptr: nat, bytes: nat, ghost cut: nat)
      requires Valid()
      requires ptr != 0 && bytes != 0 ==>
                 var b := BlockAt(base, ptr, cut);
                 ptr == Addr(base, b) && b in live && SizeToOrder(bytes) <= cut
      modifies this`mem, this`freeBytes, this`lists, this`free, this`live, this`lost, freeLists, bitmap
      ensures Valid()
      ensures ptr == 0 || bytes == 0 ==>
                lists == old(lists) && free == old(free) && live == old(live) && lost == old(lost)
      ensures ptr != 0 && bytes != 0 ==>
                var b, c := BlockAt(base, ptr, cut), BlockAt(base, ptr, SizeToOrder(bytes));
                && c.Pages() <= b.Pages() && live == old(live) - {b}
                && free == old(free) + c.Pages() && lost == old(lost) + (b.Pages() - c.Pages())
    {
      hide *;
      FromValid();
      if ptr == 0 || bytes == 0 { return; }
      var order := OrderForSize(bytes);
      ghost var b, c := BlockAt(base, ptr, cut), BlockAt(base, ptr, order);
      FirstPartIsFree(base, ptr, cut, order, live, free, lost, PagesIn(size));
      FreeCoalesce(ptr, order, c);
      live, lost := live - {b}, lost + (b.Pages() - c.Pages());
      ToValid();
    }
  }

  function Max(a: nat, b: nat): nat { if a > b then a else b }

  /** The live blocks, the free pages and the lost ones split a region of n pages. */
  ghost predicate Shared(live: set<Block>, free: set<nat>, lost: set<nat>, n: nat) {
    && (forall b <- live :: b.Within(n) && b.Pages() !! free && b.Pages() !! lost)
    && NoOverlap(live) && (forall p <- lost :: p < n && p !in free)
    && forall p: nat | p < n :: p in free || p in lost || exists b <- live :: b.Covers(p)
  }

  lemma CarvedIsLive(live: set<Block>, free: set<nat>, lost: set<nat>, n: nat, b: Block)
    requires Shared(live, free, lost, n) && b.Within(n) && b.Pages() <= free
    ensures Shared(live + {b}, free - b.Pages(), lost, n)
    ensures forall c <- live :: c.Pages() !! b.Pages()
  {
    CarvedApart(live, free, lost, n, b);
    OneMoreApart(live, b);
    hide NoOverlap, Block.Within;
    forall p: nat | p < n
      ensures p in free - b.Pages() || p in lost || exists c <- live + {b} :: c.Covers(p)
    {
      if p in free {
        assert p in b.Pages() ==> b in live + {b} && b.Covers(p);
      } else if p !in lost {
        var c :| c in live && c.Covers(p);
        assert c in live + {b};
      }
    }
  }

  lemma OneMoreApart(live: set<Block>, b: Block)
    requires NoOverlap(live) && forall c <- live, p: nat | c.Covers(p) :: !b.Covers(p)
    ensures NoOverlap(live + {b})
  {
    hide Block.Covers;
  }

  /** A block of free pages has none in common with a live one. */
  lemma CarvedApart(live: set<Block>, free: set<nat>, lost: set<nat>, n: nat, b: Block)
    requires Shared(live, free, lost, n) && b.Pages() <= free
    ensures forall c <- live :: c.Pages() !! b.Pages()
    ensures forall c <- live, p: nat | c.Covers(p) :: !b.Covers(p)
    ensures forall p: nat :: p in b.Pages() <==> b.Covers(p)
  {
    forall c <- live, p: nat | c.Covers(p)
      ensures !b.Covers(p)
    {
      assert p in c.Pages();
    }
  }

  lemma CarvedWasFree(free: set<nat>, b: Block)
    requires b.Pages() <= free
    ensures !forall c: Block | c.order == b.order :: !AllFree(c, free)
  {
    assert AllFree(b, free);
  }

  /** A part of a live block becomes free, and the rest of it is lost. */
  lemma ReturnedIsFree(live: set<Block>, free: set<nat>, lost: set<nat>, n: nat, b: Block, c: Block)
    requires Shared(live, free, lost, n) && b in live && c.Pages() <= b.Pages()
    ensures Shared(live - {b}, free + c.Pages(), lost + (b.Pages() - c.Pages()), n)
    ensures b.Within(n) && c.Pages() !! free
  {
    InsideRegion(b, n);
    LiveApart(live, b);
    hide NoOverlap, Block.Covers, Block.Within, Block.Pages;
    forall p: nat | p < n
      ensures p in free + c.Pages() || p in lost + (b.Pages() - c.Pages()) || exists d <- live - {b} :: d.Covers(p)
    {
      StillCovered(live, free, lost, n, b, p);
    }
    forall d <- live - {b}
      ensures d.Pages() !! free + c.Pages() && d.Pages() !! lost + (b.Pages() - c.Pages())
    {
      assert d in live;
      StillApart(d.Pages(), b.Pages(), c.Pages(), free, lost);
    }
    assert b.Pages() !! free && b.Pages() !! lost;
    LostApart(b.Pages(), c.Pages(), free, lost, n);
    hide *;
    assert NoOverlap(live - {b});
    hide Shared;
    SharedOf(live - {b}, free + c.Pages(), lost + (b.Pages() - c.Pages()), n);
  }

  lemma FirstPartIsFree(base: nat, ptr: nat, cut: nat, k: nat, live: set<Block>, free: set<nat>, lost: set<nat>, n: nat)
    requires Shared(live, free, lost, n) && k <= cut
    requires ptr == Addr(base, BlockAt(base, ptr, cut)) && BlockAt(base, ptr, cut) in live
    ensures var b, c := BlockAt(base, ptr, cut), BlockAt(base, ptr, k);
            && ptr == Addr(base, c) && c.Within(n) && c.Pages() <= b.Pages() && c.Pages() !! free
            && Shared(live - {b}, free + c.Pages(), lost + (b.Pages() - c.Pages()), n)
  {
    hide Shared;
    var b := BlockAt(base, ptr, cut);
    FirstPart(base, b, k);
    ReturnedIsFree(live, free, lost, n, b, BlockAt(base, ptr, k));
  }

  lemma StillApart(d: set<nat>, b: set<nat>, c: set<nat>, free: set<nat>, lost: set<nat>)
    requires c <= b && d !! b && d !! free && d !! lost
    ensures d !! free + c && d !! lost + (b - c)
  {
  }

  lemma LostApart(b: set<nat>, c: set<nat>, free: set<nat>, lost: set<nat>, n: nat)
    requires c <= b && b !! free && b !! lost && lost !! free
    requires (forall p <- b :: p < n) && forall p <- lost :: p < n
    ensures c !! free && forall p <- lost + (b - c) :: p < n && p !in free + c
  {
  }

  lemma SharedOf(live: set<Block>, free: set<nat>, lost: set<nat>, n: nat)
    requires forall b <- live :: b.Within(n) && b.Pages() !! free && b.Pages() !! lost
    requires NoOverlap(live) && forall p <- lost :: p < n && p !in free
    requires forall p: nat | p < n :: p in free || p in lost || exists b <- live :: b.Covers(p)
    ensures Shared(live, free, lost, n)
  {
  }

  lemma StillCovered(live: set<Block>, free: set<nat>, lost: set<nat>, n: nat, b: Block, p: nat)
    requires Shared(live, free, lost, n) && p < n
    ensures p in free || p in lost || p in b.Pages() || exists d <- live - {b} :: d.Covers(p)
  {
    hide NoOverlap, Block.Within;
    if p !in free && p !in lost {
      var d :| d in live && d.Covers(p);
      assert d == b ==> p in b.Pages();
      assert d != b ==> d in live - {b};
    }
  }

  lemma InsideRegion(b: Block, n: nat)
    requires b.Within(n)
    ensures forall p <- b.Pages() :: p < n
  {
    CoversItsRange(b);
  }

  lemma LiveApart(live: set<Block>, b: Block)
    requires NoOverlap(live) && b in live
    ensures NoOverlap(live - {b}) && forall d <- live - {b} :: d.Pages() !! b.Pages()
  {
    hide Span;
    forall d <- live - {b}, p: nat | p in d.Pages()
      ensures p !in b.Pages()
    {
      assert d.Covers(p);
    }
  }

  /** The block of a smaller order at a block's address is the first part of it. */
  lemma {:induction false} FirstPart(base: nat, b: Block, k: nat)
    requires k <= b.order
    ensures var c := BlockAt(base, Addr(base, b), k);
            && Addr(base, c) == Addr(base, b) && c.Pages() <= b.Pages()
            && |b.Pages() - c.Pages()| == b.Size() - c.Size()
            && (forall n: nat | b.Within(n) :: c.Within(n)) && (c.Pages() == b.Pages() <==> k == b.order)
    decreases b.order
  {
    hide Block.Covers, Block.Within, BlockAt;
    BlockAtAddr(base, b);
    if k < b.order {
      hide Addr, Pow2;
      var c := BlockAt(base, Addr(base, b), k);
      FirstHalf(base, b);
      HalvesCover(b);
      FirstPart(base, LeftHalf(b), k);
      PowersGrow(k, b.order);
      PartSizes(b, c);
    }
  }

  lemma PartSizes(b: Block, c: Block)
    requires c.Pages() <= b.Pages()
    ensures |b.Pages() - c.Pages()| == b.Size() - c.Size()
  {
    assert b.Pages() == (b.Pages() - c.Pages()) + c.Pages();
  }

  lemma FirstHalf(base: nat, b: Block)
    requires b.order > 0
    ensures Addr(base, LeftHalf(b)) == Addr(base, b) && forall n: nat | b.Within(n) :: LeftHalf(b).Within(n)
  {
    var k := b.order - 1;
    ShlAdds(b.index, b.index, k);
    ShlAdds(b.index + 1, b.index + 1, k);
    ShlAdds(2 * b.index + 1, 1, k);
    assert b.index + b.index == 2 * b.index && (b.index + 1) + (b.index + 1) == (2 * b.index + 1) + 1;
  }

  /** Release orders by the size alone, which is no larger order than the one that was cut. */
  lemma ReleasesLess(bytes: nat, align: nat)
    ensures SizeToOrder(bytes) <= SizeToOrder(Max(bytes, align))
  {
  }

  /** What is lost between cutting a block and giving back its first part. */
  lemma ThereAndBack(base: nat, ptr: nat, cut: nat, k: nat, free0: set<nat>, free1: set<nat>, free: set<nat>,
      lost0: set<nat>, lost: set<nat>)
    requires var b, c := BlockAt(base, ptr, cut), BlockAt(base, ptr, k);
             && k <= cut && ptr == Addr(base, b) && b.Pages() <= free0 && free1 == free0 - b.Pages()
             && free == free1 + c.Pages() && lost == lost0 + (b.Pages() - c.Pages())
    ensures free + lost == free0 + lost0
    ensures free == free0 <==> k == cut
    ensures k == cut ==> free == free0 - BlockAt(base, ptr, cut).Pages() + BlockAt(base, ptr, cut).Pages()
  {
    var b, c := BlockAt(base, ptr, cut), BlockAt(base, ptr, k);
    FirstPart(base, b, k);
    hide *;
    PartLost(free0, b.Pages(), c.Pages(), lost0);
  }

  lemma PartLost(free: set<nat>, b: set<nat>, c: set<nat>, lost: set<nat>)
    requires c <= b <= free
    ensures (free - b + c) + (lost + (b - c)) == free + lost
    ensures free - b + c == free <==> c == b
    ensures (c == b ==> free - b + c == free - b + b)
  {
    forall p | p in b && p !in c
      ensures p !in free - b + c
    {
    }
  }

  lemma NothingMore(lost: set<nat>, b: Block)
    ensures lost + (b.Pages() - b.Pages()) == lost
  {
  }
}
