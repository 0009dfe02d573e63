/**
 The theory of aligned power-of-two blocks that the buddy allocator rests on, over page numbers:
 which families of free blocks are canonical, why the bitmap alone determines the family, and
 which single steps keep it canonical.
 */
module BuddyBlocks {

  const MAX_ORDER: nat := 10

  /** `i << k` */
  function Shl(i: nat, k: nat): nat {
    if k == 0 then i else 2 * Shl(i, k - 1)
  }

  /** `p >> k` */
  function Shr(p: nat, k: nat): nat {
    if k == 0 then p else Shr(p, k - 1) / 2
  }

  function Pow2(k: nat): nat { Shl(1, k) }

  /** `x ^ (1 << k)` */
  function FlipBit(x: nat, k: nat): nat {
    if k == 0 then (if x % 2 == 0 then x + 1 else x - 1)
    else 2 * FlipBit(x / 2, k - 1) + x % 2
  }

  /** The pages from `index << order` up to, but not including, `(index + 1) << order`. */
  datatype Block = Block(index: nat, order: nat) {
    function Page(): nat { Shl(index, order) }

    function Size(): nat { Pow2(order) }

    predicate Covers(p: nat) { Shr(p, order) == index }

    predicate Within(n: nat) { order < MAX_ORDER && Shl(index + 1, order) <= n }

    /** The sibling whose page number differs in bit `order` only. */
    function Buddy(): Block { Block(FlipBit(index, 0), order) }

    /** The block of the next order, made of this block and its buddy. */
    function Parent(): Block { Block(index / 2, order + 1) }

    ghost function Pages(): (r: set<nat>)
      ensures |r| == Size() && forall p :: p in r <==> Covers(p)
    {
      CoversItsRange(this);
      ShlAdds(index, 1, order);
      Span(Page(), Size())
    }
  }

  ghost function Span(lo: nat, len: nat): (r: set<nat>)
    ensures |r| == len && forall p :: p in r <==> lo <= p < lo + len
  {
    if len == 0 then {} else Span(lo, len - 1) + {lo + len - 1}
  }

  // ----- shifts -----

  lemma {:induction false} ShlAdds(i: nat, j: nat, k: nat)
    ensures Shl(i + j, k) == Shl(i, k) + Shl(j, k)
  {
    if k > 0 { ShlAdds(i, j, k - 1); }
  }

  lemma {:induction false} PowersArePositive(k: nat)
    ensures Pow2(k) > 0
  {
    if k > 0 { PowersArePositive(k - 1); }
  }

  lemma {:induction false} CoversRange(p: nat, i: nat, k: nat)
    ensures Shr(p, k) == i <==> Shl(i, k) <= p < Shl(i + 1, k)
    decreases k
  {
    if k > 0 {
      CoversRange(p, 2 * i, k - 1);
      CoversRange(p, 2 * i + 1, k - 1);
      ShlAdds(i, i, k - 1);
      ShlAdds(i + 1, i + 1, k - 1);
      ShlAdds(2 * i, 1, k - 1);
      ShlAdds(2 * i + 1, 1, k - 1);
      assert i + i == 2 * i && (i + 1) + (i + 1) == (2 * i + 1) + 1;
    }
  }

  lemma CoversItsRange(b: Block)
    ensures forall p: nat :: b.Covers(p) <==> b.Page() <= p < b.Page() + b.Size()
    ensures b.Covers(b.Page()) && b.Size() > 0
    ensures Shl(b.index + 1, b.order) == b.Page() + b.Size()
  {
    ShlAdds(b.index, 1, b.order);
    PowersArePositive(b.order);
    forall p: nat
      ensures b.Covers(p) <==> b.Page() <= p < b.Page() + b.Size()
    {
      CoversRange(p, b.index, b.order);
    }
  }

  lemma {:induction false} SameBlockAbove(p: nat, q: nat, j: nat, k: nat)
    requires j <= k && Shr(p, j) == Shr(q, j)
    ensures Shr(p, k) == Shr(q, k)
  {
    if j < k { SameBlockAbove(p, q, j, k - 1); }
  }

  /** Blocks never overlap partially. */
  lemma Nested(b: Block, c: Block, x: nat)
    requires b.order <= c.order && b.Covers(x) && c.Covers(x)
    ensures forall p: nat | b.Covers(p) :: c.Covers(p)
    ensures b.order < c.order ==> forall p: nat | b.Parent().Covers(p) :: c.Covers(p)
  {
    forall p: nat | b.Covers(p)
      ensures c.Covers(p)
    {
      SameBlockAbove(p, x, b.order, c.order);
    }
    forall p: nat | b.order < c.order && b.Parent().Covers(p)
      ensures c.Covers(p)
    {
      SameBlockAbove(p, x, b.order + 1, c.order);
    }
  }

  // ----- canonical families of free blocks -----

  /**
   `blocks` is the eager-coalescing decomposition of the free pages of a region of n pages:
   blocks inside the region that cover each free page once and no other page, such that no block
   below the top order has its buddy in the family.
   */
  ghost predicate Canonical(blocks: set<Block>, free: set<nat>, n: nat) {
    && (forall b <- blocks :: b.Within(n))
    && NoOverlap(blocks)
    && Covered(blocks, free)
    && NoFreeBuddies(blocks)
  }

  ghost predicate NoOverlap(blocks: set<Block>) {
    forall b <- blocks, c <- blocks, p: nat | b.Covers(p) && c.Covers(p) :: b == c
  }

  ghost predicate Covered(blocks: set<Block>, free: set<nat>) {
    && (forall b <- blocks, p: nat | b.Covers(p) :: p in free)
    && (forall p <- free :: exists b <- blocks :: b.Covers(p))
  }

  ghost predicate NoFreeBuddies(blocks: set<Block>) {
    forall b <- blocks | b.order < MAX_ORDER - 1 :: b.Buddy() !in blocks
  }

  ghost predicate AllFree(b: Block, free: set<nat>) {
    forall p: nat | b.Covers(p) :: p in free
  }

  /** If every page of a block is free, one single free block covers all of it. */
  lemma {:induction false} FullyFreeIsOneBlock(blocks: set<Block>, free: set<nat>, n: nat, b: Block) returns (c: Block)
    requires Canonical(blocks, free, n) && b.order < MAX_ORDER && AllFree(b, free)
    ensures c in blocks && c.order >= b.order && forall p: nat | b.Covers(p) :: c.Covers(p)
    decreases b.order
  {
    CoversItsRange(b);
    var x := b.Page();
    if b.order == 0 {
      c :| c in blocks && c.Covers(x);
      Nested(b, c, x);
    } else {
      var left, right := Block(2 * b.index, b.order - 1), Block(2 * b.index + 1, b.order - 1);
      CoversItsRange(left);
      CoversItsRange(right);
      assert forall p: nat | left.Covers(p) || right.Covers(p) :: b.Covers(p);
      var cl := FullyFreeIsOneBlock(blocks, free, n, left);
      var cr := FullyFreeIsOneBlock(blocks, free, n, right);
      if cl.order > left.order {
        Nested(b, cl, left.Page());
        c := cl;
      } else {
        assert cl == left && left.Buddy() == right;
        Nested(b, cr, right.Page());
        c := cr;
      }
    }
  }

  /** What the free pages alone say of a block: fully free, and not half of a fully free parent. */
  ghost predicate Maximal(b: Block, free: set<nat>, n: nat) {
    && b.Within(n)
    && AllFree(b, free)
    && (b.order < MAX_ORDER - 1 ==> !AllFree(b.Parent(), free))
  }

  lemma CanonicalIsMaximal(blocks: set<Block>, free: set<nat>, n: nat, b: Block)
    requires Canonical(blocks, free, n)
    ensures b in blocks <==> Maximal(b, free, n)
  {
    CoversItsRange(b);
    var x := b.Page();
    if b in blocks {
      if b.order < MAX_ORDER - 1 && AllFree(b.Parent(), free) {
        var c := FullyFreeIsOneBlock(blocks, free, n, b.Parent());
        assert b.Parent().Covers(x);
        assert false;
      }
    }
    if Maximal(b, free, n) {
      var c := FullyFreeIsOneBlock(blocks, free, n, b);
      Nested(b, c, x);
    }
  }

  /** The family of free blocks is a function of the free pages. */
  lemma CanonicalIsUnique(blocks: set<Block>, others: set<Block>, free: set<nat>, n: nat)
    requires Canonical(blocks, free, n) && Canonical(others, free, n)
    ensures blocks == others
  {
    forall b: Block
      ensures b in blocks <==> b in others
    {
      CanonicalIsMaximal(blocks, free, n, b);
      CanonicalIsMaximal(others, free, n, b);
    }
  }

  /** Coalescing is sound from the bitmap: a fully free buddy of a used block is itself a free block. */
  lemma FreeBuddyIsABlock(blocks: set<Block>, free: set<nat>, n: nat, b: Block)
    requires Canonical(blocks, free, n) && b.order < MAX_ORDER - 1
    requires b.Page() !in free && AllFree(b.Buddy(), free)
    ensures b.Buddy() in blocks
  {
    CoversItsRange(b);
    CoversItsRange(b.Buddy());
    var c := FullyFreeIsOneBlock(blocks, free, n, b.Buddy());
    Nested(b.Buddy(), c, b.Buddy().Page());
    assert b.Buddy().Parent() == b.Parent() && b.Parent().Covers(b.Page());
  }

  lemma RemoveBlock(blocks: set<Block>, free: set<nat>, n: nat, b: Block)
    requires Canonical(blocks, free, n) && b in blocks
    ensures Canonical(blocks - {b}, free - b.Pages(), n)
    ensures b.Pages() <= free && b.Within(n)
  {
    forall p <- free - b.Pages()
      ensures exists c <- blocks - {b} :: c.Covers(p)
    {
      var c :| c in blocks && c.Covers(p);
      assert c in blocks - {b};
    }
  }

  lemma AddBlock(blocks: set<Block>, free: set<nat>, n: nat, b: Block)
    requires Canonical(blocks, free, n) && b.Within(n) && b.Pages() !! free
    requires b.order < MAX_ORDER - 1 ==> b.Buddy() !in blocks
    ensures Canonical(blocks + {b}, free + b.Pages(), n)
  {
    AddDisjoint(blocks, free, b);
    AddCoverage(blocks, free, b);
    AddBuddies(blocks, b);
  }

  lemma AddDisjoint(blocks: set<Block>, free: set<nat>, b: Block)
    requires NoOverlap(blocks) && Covered(blocks, free) && b.Pages() !! free
    ensures NoOverlap(blocks + {b})
  {
    forall c <- blocks, p: nat | c.Covers(p)
      ensures !b.Covers(p)
    {
      assert p in free && p !in b.Pages();
    }
  }

  lemma AddBuddies(blocks: set<Block>, b: Block)
    requires NoFreeBuddies(blocks)
    requires b.order < MAX_ORDER - 1 ==> b.Buddy() !in blocks
    ensures NoFreeBuddies(blocks + {b})
  {
    forall c <- blocks | c.order < MAX_ORDER - 1
      ensures c.Buddy() != b
    {
      assert c.Buddy().Buddy() == c;
    }
  }

  lemma AddCoverage(blocks: set<Block>, free: set<nat>, b: Block)
    requires Covered(blocks, free)
    ensures Covered(blocks + {b}, free + b.Pages())
  {
    forall p <- free + b.Pages()
      ensures exists c <- blocks + {b} :: c.Covers(p)
    {
      if p in free {
        var c :| c in blocks && c.Covers(p);
        assert c in blocks + {b};
      } else {
        assert b in blocks + {b} && b.Covers(p);
      }
    }
  }

  /** No block of the family has order `k` or more exactly if no block of order `k` is fully free. */
  lemma NoLargeBlock(blocks: set<Block>, free: set<nat>, n: nat, k: nat)
    requires Canonical(blocks, free, n) && k < MAX_ORDER
    ensures (forall b <- blocks :: b.order < k) <==> (forall b: Block | b.order == k :: !AllFree(b, free))
  {
    if b: Block :| b.order == k && AllFree(b, free) {
      var c := FullyFreeIsOneBlock(blocks, free, n, b);
    }
    if b :| b in blocks && b.order >= k {
      CoversItsRange(b);
      var c := Block(Shr(b.Page(), k), k);
      Nested(c, b, b.Page());
      assert AllFree(c, free);
    }
  }

  function LeftHalf(b: Block): Block
    requires b.order > 0
  {
    Block(2 * b.index, b.order - 1)
  }

  function RightHalf(b: Block): Block
    requires b.order > 0
  {
    Block(2 * b.index + 1, b.order - 1)
  }

  /** The halves of a block are buddies and lie side by side in it. */
  lemma HalvesPlaced(b: Block, n: nat)
    requires b.order > 0 && b.Within(n)
    ensures LeftHalf(b).Buddy() == RightHalf(b) && RightHalf(b).Buddy() == LeftHalf(b)
    ensures LeftHalf(b).Page() == b.Page() && RightHalf(b).Page() == b.Page() + Pow2(b.order - 1)
    ensures LeftHalf(b).Within(n) && RightHalf(b).Within(n)
  {
    var k := b.order - 1;
    ShlAdds(b.index, b.index, k);
    ShlAdds(b.index + 1, b.index + 1, k);
    ShlAdds(2 * b.index, 1, k);
    ShlAdds(2 * b.index + 1, 1, k);
    assert b.index + b.index == 2 * b.index && (b.index + 1) + (b.index + 1) == (2 * b.index + 1) + 1;
  }

  lemma HalvesCover(b: Block)
    requires b.order > 0
    ensures LeftHalf(b).Pages() !! RightHalf(b).Pages()
    ensures b.Pages() == LeftHalf(b).Pages() + RightHalf(b).Pages()
  {
    hide Block.Pages, Span;
    forall p: nat
      ensures b.Covers(p) <==> LeftHalf(b).Covers(p) || RightHalf(b).Covers(p)
    {
      var i := Shr(p, b.order - 1);
      assert Shr(p, b.order) == i / 2;
    }
  }

  /** Giving back the right half of a cut-out block leaves the left half cut out. */
  lemma KeepLeftHalf(free: set<nat>, b: Block)
    requires b.order > 0 && b.Pages() <= free
    ensures LeftHalf(b).Pages() <= free
    ensures (free - b.Pages()) + RightHalf(b).Pages() == free - LeftHalf(b).Pages()
  {
    hide *;
    HalvesCover(b);
  }

  /** A block and its buddy are the halves of their parent. */
  lemma JoinCovers(b: Block)
    ensures b.Buddy().Pages() !! b.Pages() && b.Parent().Pages() == b.Pages() + b.Buddy().Pages()
  {
    var p := b.Parent();
    HalvesCover(p);
    if b.index % 2 == 0 {
      assert b == LeftHalf(p) && b.Buddy() == RightHalf(p);
    } else {
      assert b == RightHalf(p) && b.Buddy() == LeftHalf(p);
    }
  }

  lemma JoinPlaced(b: Block, n: nat)
    requires b.Within(n) && b.Buddy().Within(n) && b.order < MAX_ORDER - 1
    ensures b.Parent().Page() == if b.Buddy().Page() < b.Page() then b.Buddy().Page() else b.Page()
    ensures b.Parent().Within(n)
  {
    PowersArePositive(b.order);
    PairPlaced(b.index / 2, b.order);
    var even, odd := Block(2 * (b.index / 2), b.order), Block(2 * (b.index / 2) + 1, b.order);
    if b.index % 2 == 0 {
      assert b == even && b.Buddy() == odd;
    } else {
      assert b == odd && b.Buddy() == even;
    }
  }

  lemma PairPlaced(i: nat, k: nat)
    ensures Block(2 * i, k).Page() == Block(i, k + 1).Page()
    ensures Block(2 * i + 1, k).Page() == Block(2 * i, k).Page() + Pow2(k)
    ensures Shl(2 * i + 2, k) == Shl(i + 1, k + 1)
  {
    ShlAdds(i, i, k);
    ShlAdds(i + 1, i + 1, k);
    ShlAdds(2 * i, 1, k);
    assert i + i == 2 * i && (i + 1) + (i + 1) == 2 * i + 2;
  }
}
