/**
 The intrusive, doubly linked free lists of the buddy allocator: a node lives at the first byte of
 its free block, 0 is the null pointer, and list `o` holds the blocks of order `o`.
 */
module BuddyLists {
  import opened Sizes
  import opened BuddyBlocks

  datatype FreeNode = FreeNode(next: nat, prev: nat)

  function Addr(base: nat, b: Block): (r: nat)
    ensures base <= r
  {
    base + PAGE_SIZE * b.Page()
  }

  /** The address of entry `i` of a list, or null when the list ends before it. */
  function Link(base: nat, l: seq<nat>, i: nat, o: nat): nat {
    if i < |l| then Addr(base, Block(l[i], o)) else 0
  }

  ghost predicate NodeAt(base: nat, mem: map<nat, FreeNode>, l: seq<nat>, i: nat, o: nat)
    requires i < |l|
  {
    var a := Addr(base, Block(l[i], o));
    && a in mem
    && mem[a].next == Link(base, l, i + 1, o)
    && mem[a].prev == (if i == 0 then 0 else Link(base, l, i - 1, o))
  }

  /** `head` starts a well-linked list of the blocks `l` of order `o`. */
  ghost predicate Chain(base: nat, head: nat, mem: map<nat, FreeNode>, l: seq<nat>, o: nat) {
    && head == Link(base, l, 0, o)
    && forall i: nat | i < |l| :: NodeAt(base, mem, l, i, o)
  }

  /** No two list entries start at the same page. */
  ghost predicate NodesDistinct(lists: seq<seq<nat>>) {
    forall o: nat, i: nat, o': nat, i': nat | o < |lists| && i < |lists[o]| && o' < |lists| && i' < |lists[o']| ::
      Block(lists[o][i], o).Page() == Block(lists[o'][i'], o').Page() ==> o == o' && i == i'
  }

  ghost predicate NoNodeAt(lists: seq<seq<nat>>, p: nat) {
    forall o: nat, i: nat | o < |lists| && i < |lists[o]| :: Block(lists[o][i], o).Page() != p
  }

  ghost function Blocks(lists: seq<seq<nat>>): (r: set<Block>)
    ensures forall b: Block :: b in r <==> b.order < |lists| && b.index in lists[b.order]
  {
    set o: nat, i: nat | o < |lists| && i < |lists[o]| :: Block(lists[o][i], o)
  }

  function Push(lists: seq<seq<nat>>, b: Block): seq<seq<nat>>
    requires b.order < |lists|
  {
    lists[b.order := [b.index] + lists[b.order]]
  }

  function Remove(lists: seq<seq<nat>>, o: nat, k: nat): seq<seq<nat>>
    requires o < |lists| && k < |lists[o]|
  {
    lists[o := lists[o][..k] + lists[o][k + 1..]]
  }

  /** A list is untouched by writes to memory outside its nodes. */
  lemma ChainFrame(base: nat, head: nat, mem: map<nat, FreeNode>, mem': map<nat, FreeNode>, l: seq<nat>, o: nat)
    requires Chain(base, head, mem, l, o)
    requires forall i: nat | i < |l| ::
               var a := Addr(base, Block(l[i], o)); a in mem && a in mem' && mem'[a] == mem[a]
    ensures Chain(base, head, mem', l, o)
  {
    forall i: nat | i < |l|
      ensures NodeAt(base, mem', l, i, o)
    {
      assert NodeAt(base, mem, l, i, o);
    }
  }

  lemma PushKeepsDistinct(lists: seq<seq<nat>>, b: Block)
    requires NodesDistinct(lists) && b.order < |lists| && NoNodeAt(lists, b.Page())
    ensures NodesDistinct(Push(lists, b))
    ensures Blocks(Push(lists, b)) == Blocks(lists) + {b}
  {
    var lists' := Push(lists, b);
    forall o: nat, i: nat, o': nat, i': nat | o < |lists'| && i < |lists'[o]| && o' < |lists'| && i' < |lists'[o']| &&
                                               Block(lists'[o][i], o).Page() == Block(lists'[o'][i'], o').Page()
      ensures o == o' && i == i'
    {
      var j := if o == b.order then i - 1 else i;
      var j' := if o' == b.order then i' - 1 else i';
      if j >= 0 { assert lists[o][j] == lists'[o][i]; }
      if j' >= 0 { assert lists[o'][j'] == lists'[o'][i']; }
    }
  }

  lemma RemoveKeepsDistinct(lists: seq<seq<nat>>, o: nat, k: nat)
    requires NodesDistinct(lists) && o < |lists| && k < |lists[o]|
    ensures NodesDistinct(Remove(lists, o, k))
    ensures Blocks(Remove(lists, o, k)) == Blocks(lists) - {Block(lists[o][k], o)}
    ensures NoNodeAt(Remove(lists, o, k), Block(lists[o][k], o).Page())
  {
    var lists' := Remove(lists, o, k);
    forall p: nat, i: nat | p < |lists'| && i < |lists'[p]|
      ensures lists'[p][i] == lists[p][if p == o && i >= k then i + 1 else i]
    {
    }
    forall b: Block
      ensures b in Blocks(lists') <==> b in Blocks(lists) && b != Block(lists[o][k], o)
    {
      if b in Blocks(lists) && b != Block(lists[o][k], o) {
        var i: nat :| i < |lists[b.order]| && lists[b.order][i] == b.index;
        assert lists'[b.order][if b.order == o && i > k then i - 1 else i] == b.index;
      }
    }
  }

  /** Memory after `free_push` has linked a node at `a` in front of the list at `head`. */
  function PushedMem(mem: map<nat, FreeNode>, head: nat, a: nat): map<nat, FreeNode>
    requires head == 0 || head in mem
  {
    var m := mem[a := FreeNode(head, 0)];
    if head == 0 then m else m[head := m[head].(prev := a)]
  }

  /** Memory after `free_remove` has unlinked the node at `a`. */
  function RemovedMem(mem: map<nat, FreeNode>, a: nat): map<nat, FreeNode>
    requires a in mem && (mem[a].prev == 0 || mem[a].prev in mem) && (mem[a].next == 0 || mem[a].next in mem)
  {
    var n := mem[a];
    var m := if n.prev == 0 then mem else mem[n.prev := mem[n.prev].(next := n.next)];
    if n.next == 0 then m else m[n.next := m[n.next].(prev := n.prev)]
  }

  lemma PushKeepsChains(base: nat, heads: seq<nat>, mem: map<nat, FreeNode>, lists: seq<seq<nat>>, b: Block)
    requires base > 0 && |heads| == |lists| && b.order < |lists|
    requires NodesDistinct(lists) && NoNodeAt(lists, b.Page())
    requires forall o: nat | o < |lists| :: Chain(base, heads[o], mem, lists[o], o)
    ensures heads[b.order] == 0 || heads[b.order] in mem
    ensures var mem' := PushedMem(mem, heads[b.order], Addr(base, b));
            var lists' := Push(lists, b);
            && Chain(base, Addr(base, b), mem', lists'[b.order], b.order)
            && forall o: nat | o < |lists| && o != b.order :: Chain(base, heads[o], mem', lists'[o], o)
  {
    var o, l, a := b.order, lists[b.order], Addr(base, b);
    assert Chain(base, heads[o], mem, l, o);
    if l != [] { assert NodeAt(base, mem, l, 0, o); }
    var mem' := PushedMem(mem, heads[o], a);
    var l' := [b.index] + l;
    forall i: nat | i < |l'|
      ensures NodeAt(base, mem', l', i, o)
    {
      if i > 0 {
        assert NodeAt(base, mem, l, i - 1, o);
        assert l'[i] == l[i - 1];
      }
    }
    forall p: nat | p < |lists| && p != o
      ensures Chain(base, heads[p], mem', lists[p], p)
    {
      forall i: nat | i < |lists[p]|
        ensures var c := Addr(base, Block(lists[p][i], p)); c in mem && c in mem' && mem'[c] == mem[c]
      {
        assert NodeAt(base, mem, lists[p], i, p);
        assert Block(lists[p][i], p).Page() != b.Page();
      }
      ChainFrame(base, heads[p], mem, mem', lists[p], p);
    }
  }

  /** The entry at position `k` is linked to its neighbours; unlinking it leaves every list well linked. */
  lemma RemoveKeepsChains(base: nat, heads: seq<nat>, mem: map<nat, FreeNode>, lists: seq<seq<nat>>, o: nat, k: nat)
    requires base > 0 && |heads| == |lists| && o < |lists| && k < |lists[o]|
    requires NodesDistinct(lists)
    requires forall p: nat | p < |lists| :: Chain(base, heads[p], mem, lists[p], p)
    ensures var a := Addr(base, Block(lists[o][k], o));
            && a in mem && (mem[a].prev == 0 <==> k == 0)
            && (mem[a].prev == 0 || mem[a].prev in mem) && (mem[a].next == 0 || mem[a].next in mem)
            && var head' := if k == 0 then mem[a].next else heads[o];
               Chain(base, head', RemovedMem(mem, a), Remove(lists, o, k)[o], o)
    ensures var a := Addr(base, Block(lists[o][k], o));
            forall p: nat | p < |lists| && p != o :: Chain(base, heads[p], RemovedMem(mem, a), lists[p], p)
  {
    var l, a := lists[o], Addr(base, Block(lists[o][k], o));
    assert Chain(base, heads[o], mem, l, o);
    assert NodeAt(base, mem, l, k, o);
    if k > 0 { assert NodeAt(base, mem, l, k - 1, o); }
    if k + 1 < |l| { assert NodeAt(base, mem, l, k + 1, o); }
    var mem' := RemovedMem(mem, a);
    var l' := l[..k] + l[k + 1..];
    forall i: nat | i < |l'|
      ensures NodeAt(base, mem', l', i, o)
    {
      RemovedNode(base, mem, lists, o, k, i);
    }
    forall p: nat | p < |lists| && p != o
      ensures Chain(base, heads[p], mem', lists[p], p)
    {
      forall i: nat | i < |lists[p]|
        ensures var c := Addr(base, Block(lists[p][i], p)); c in mem && c in mem' && mem'[c] == mem[c]
      {
        assert NodeAt(base, mem, lists[p], i, p);
        if k > 0 { assert Block(lists[p][i], p).Page() != Block(l[k - 1], o).Page(); }
        if k + 1 < |l| { assert Block(lists[p][i], p).Page() != Block(l[k + 1], o).Page(); }
      }
      ChainFrame(base, heads[p], mem, mem', lists[p], p);
    }
  }

  lemma RemovedNode(base: nat, mem: map<nat, FreeNode>, lists: seq<seq<nat>>, o: nat, k: nat, i: nat)
    requires base > 0 && o < |lists| && k < |lists[o]| && i < |lists[o]| - 1
    requires NodesDistinct(lists)
    requires forall j: nat | j < |lists[o]| :: NodeAt(base, mem, lists[o], j, o)
    requires var a := Addr(base, Block(lists[o][k], o));
             a in mem && (mem[a].prev == 0 || mem[a].prev in mem) && (mem[a].next == 0 || mem[a].next in mem)
    ensures NodeAt(base, RemovedMem(mem, Addr(base, Block(lists[o][k], o))), Remove(lists, o, k)[o], i, o)
  {
    var l := lists[o];
    var j := if i < k then i else i + 1;
    assert Remove(lists, o, k)[o][i] == l[j];
    assert NodeAt(base, mem, l, j, o) && NodeAt(base, mem, l, k, o);
    if k > 0 { assert Block(l[j], o).Page() == Block(l[k - 1], o).Page() <==> j == k - 1; }
    if k + 1 < |l| { assert Block(l[j], o).Page() == Block(l[k + 1], o).Page() <==> j == k + 1; }
  }

  /** The list heads, the node memory and the ghost lists agree. */
  ghost predicate Linked(base: nat, heads: seq<nat>, mem: map<nat, FreeNode>, lists: seq<seq<nat>>) {
    && base > 0
    && |heads| == |lists|
    && NodesDistinct(lists)
    && forall o: nat | o < |lists| :: Chain(base, heads[o], mem, lists[o], o)
  }

  lemma LinkedPush(base: nat, heads: seq<nat>, mem: map<nat, FreeNode>, lists: seq<seq<nat>>, b: Block)
    requires Linked(base, heads, mem, lists) && b.order < |lists| && NoNodeAt(lists, b.Page())
    ensures heads[b.order] == 0 || heads[b.order] in mem
    ensures Linked(base, heads[b.order := Addr(base, b)], PushedMem(mem, heads[b.order], Addr(base, b)), Push(lists, b))
    ensures Blocks(Push(lists, b)) == Blocks(lists) + {b}
  {
    PushKeepsChains(base, heads, mem, lists, b);
    PushKeepsDistinct(lists, b);
  }

  lemma LinkedRemove(base: nat, heads: seq<nat>, mem: map<nat, FreeNode>, lists: seq<seq<nat>>, o: nat, k: nat)
    requires Linked(base, heads, mem, lists) && o < |lists| && k < |lists[o]|
    ensures var a := Addr(base, Block(lists[o][k], o));
            && a in mem && (mem[a].prev == 0 <==> k == 0)
            && (mem[a].prev == 0 || mem[a].prev in mem) && (mem[a].next == 0 || mem[a].next in mem)
            && var heads' := if k == 0 then heads[o := mem[a].next] else heads;
               Linked(base, heads', RemovedMem(mem, a), Remove(lists, o, k))
    ensures Blocks(Remove(lists, o, k)) == Blocks(lists) - {Block(lists[o][k], o)}
    ensures NoNodeAt(Remove(lists, o, k), Block(lists[o][k], o).Page())
  {
    RemoveKeepsChains(base, heads, mem, lists, o, k);
    RemoveKeepsDistinct(lists, o, k);
  }
}
