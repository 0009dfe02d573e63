/**
 What copy-on-write relies on: the reference count of every frame that user code maps below a private
 slot is at least the number of page table entries that map it, unless the count is pinned at its top
 value, and an entry that allows writing is the only one for its frame.
 */
module CowState {
  import opened Options
  import opened PageTables
  import opened Pmm
  import opened Vmm

  /** A last-level page table entry by its place. */
  datatype Leaf = Leaf(pt: nat, idx: nat)

  ghost function At(m: Mem, l: Leaf): Pte {
    Entry(m, l.pt, l.idx)
  }

  /** An entry through which user code reaches a page below a private slot. */
  ghost predicate IsUserLeaf(m: Mem, l: Leaf) {
    && l.pt in m.tables && l.pt in m.nodes && m.nodes[l.pt].level == 1 && m.nodes[l.pt].own
    && l.idx < ENTRIES && At(m, l).p && At(m, l).u
  }

  ghost predicate Owns(m: Mem, l: Leaf, f: nat) {
    IsUserLeaf(m, l) && At(m, l).frame == f
  }

  /** The entries that map frame `f`. */
  ghost function Owners(m: Mem, f: nat): set<Leaf> {
    set t, i: nat | t in m.tables.Keys && i < ENTRIES && Owns(m, Leaf(t, i), f) :: Leaf(t, i)
  }

  lemma OwnersAre(m: Mem, f: nat)
    ensures forall l :: l in Owners(m, f) <==> Owns(m, l, f)
  {
    forall l
      ensures l in Owners(m, f) <==> Owns(m, l, f)
    {
      if Owns(m, l, f) { assert Owns(m, Leaf(l.pt, l.idx), f); }
    }
  }

  ghost predicate LeafSound(m: Mem, l: Leaf) {
    var f := At(m, l).frame;
    && f > 0 && m.base <= f < m.base + m.limit && f !in m.free && f !in m.tables
    && (RefAt(m.refs, m.base, f) == REF_MAX || RefAt(m.refs, m.base, f) >= |Owners(m, f)|)
    && (At(m, l).w ==> Owners(m, f) == {l})
  }

  ghost predicate Sound(m: Mem) {
    && VmOk(m.tables, m.nodes, m.free) && NoHugeOwn(m.tables, m.nodes)
    && m.limit <= |m.refs|
    && forall l | IsUserLeaf(m, l) :: LeafSound(m, l)
  }

  /** The count is exact, or pinned. */
  ghost predicate Counted(m: Mem, f: nat) {
    RefAt(m.refs, m.base, f) == REF_MAX || RefAt(m.refs, m.base, f) == |Owners(m, f)|
  }

  /** Every frame that user code maps is counted exactly. */
  ghost predicate AllCounted(m: Mem) {
    forall l | IsUserLeaf(m, l) :: Counted(m, At(m, l).frame)
  }

  /** A frame whose count was exact is still counted exactly, or free. */
  ghost predicate CountsKept(m: Mem, m': Mem) {
    forall f | f !in m.free && Counted(m, f) :: f in m'.free || Counted(m', f)
  }

  /** Nothing happened to the entries that map a frame other than `f0`, nor to those frames. */
  ghost predicate Aside(m: Mem, m': Mem, f0: nat) {
    && m'.base == m.base && m'.limit == m.limit && |m'.refs| == |m.refs|
    && (forall l | IsUserLeaf(m', l) && At(m', l).frame != f0 ::
       IsUserLeaf(m, l) && At(m, l).frame == At(m', l).frame && (At(m', l).w ==> At(m, l).w))
    && (forall l | IsUserLeaf(m, l) && At(m, l).frame != f0 :: IsUserLeaf(m', l) && At(m', l).frame == At(m, l).frame)
    && (forall l | IsUserLeaf(m, l) && At(m, l).frame != f0 ::
          var f := At(m, l).frame;
          f !in m'.free && f !in m'.tables && RefAt(m'.refs, m.base, f) == RefAt(m.refs, m.base, f))
  }

  /** What is sound stays so, if the one frame that was touched is. */
  lemma SoundAfter(m: Mem, m': Mem, f0: nat)
    requires Sound(m) && Aside(m, m', f0)
    requires VmOk(m'.tables, m'.nodes, m'.free) && NoHugeOwn(m'.tables, m'.nodes)
    requires forall l | Owns(m', l, f0) :: LeafSound(m', l)
    ensures Sound(m')
    ensures forall f | f != f0 :: Owners(m', f) == Owners(m, f)
    ensures AllCounted(m) && (Owners(m', f0) != {} ==> Counted(m', f0)) ==> AllCounted(m')
  {
    hide VmOk, NoHugeOwn;
    forall f | f != f0
      ensures Owners(m', f) == Owners(m, f)
    {
      OwnersAre(m, f);
      OwnersAre(m', f);
      assert forall l :: Owns(m, l, f) <==> Owns(m', l, f);
    }
    forall l | IsUserLeaf(m', l)
      ensures LeafSound(m', l)
    {
      var f := At(m', l).frame;
      if f == f0 { assert Owns(m', l, f0); } else { assert LeafSound(m, l); }
    }
    if AllCounted(m) && (Owners(m', f0) != {} ==> Counted(m', f0)) {
      forall l | IsUserLeaf(m', l)
        ensures Counted(m', At(m', l).frame)
      {
        OwnersAre(m', f0);
        assert At(m', l).frame == f0 ==> l in Owners(m', f0);
      }
    }
  }

  lemma NullUnowned(m: Mem)
    requires Sound(m)
    ensures Owners(m, 0) == {}
    ensures forall l :: !Owns(m, l, 0)
  {
    OwnersAre(m, 0);
    forall l
      ensures !Owns(m, l, 0)
    {
      assert IsUserLeaf(m, l) ==> LeafSound(m, l);
    }
  }

  lemma NullMapped(m: Mem)
    requires forall l | IsUserLeaf(m, l) :: At(m, l).frame != 0
    ensures Owners(m, 0) == {}
    ensures forall l :: !Owns(m, l, 0)
  {
    OwnersAre(m, 0);
  }

  lemma GrowSound(m: Mem, m': Mem, p4: nat)
    requires Sound(m) && Grown(p4, m.tables, m.nodes, m.free, m'.tables, m'.nodes, m'.free)
    requires Untouched(m.base, m.free, m.refs, m'.free, m'.refs) && m'.base == m.base && m'.limit == m.limit
    requires VmOk(m'.tables, m'.nodes, m'.free)
    ensures Sound(m') && (AllCounted(m) ==> AllCounted(m'))
    ensures forall f :: Owners(m', f) == Owners(m, f)
    ensures forall l :: IsUserLeaf(m', l) <==> IsUserLeaf(m, l)
    ensures forall l | IsUserLeaf(m, l) :: At(m', l) == At(m, l)
  {
    hide Agree, TreeOk, Owners, Counted;
    forall l
      ensures IsUserLeaf(m', l) <==> IsUserLeaf(m, l)
      ensures IsUserLeaf(m, l) ==> At(m', l) == At(m, l)
    {
      assert l.pt in m'.tables && l.pt in m'.nodes && m'.nodes[l.pt].level == 1 ==>
               m'.nodes[l.pt].own && l.pt !in m.nodes ==> m'.tables[l.pt] == EmptyTable();
    }
    forall l | IsUserLeaf(m, l)
      ensures At(m, l).frame !in m'.free && At(m, l).frame !in m'.tables
      ensures RefAt(m'.refs, m.base, At(m, l).frame) == RefAt(m.refs, m.base, At(m, l).frame)
    {
      assert LeafSound(m, l);
    }
    forall l | IsUserLeaf(m', l)
      ensures At(m', l).frame != 0
    {
      assert LeafSound(m, l);
    }
    NullUnowned(m);
    NullMapped(m');
    SoundAfter(m, m', 0);
  }

  /** A fresh frame gets its first mapping. */
  lemma StoreSound(m: Mem, l: Leaf, e: Pte)
    requires Sound(m) && l.pt in m.tables && l.pt in m.nodes && m.nodes[l.pt].level == 1 && l.idx < ENTRIES
    requires l.idx < |m.tables[l.pt]|
    requires !IsUserLeaf(m, l)
    requires e.p && e.u ==>
             && e.frame > 0 && m.base <= e.frame < m.base + m.limit && e.frame !in m.free
             && e.frame !in m.tables
    requires e.p && e.u ==> RefAt(m.refs, m.base, e.frame) == 1 && Owners(m, e.frame) == {}
    ensures var m' := m.(tables := Store(m.tables, l.pt, l.idx, e));
            && Sound(m') && (AllCounted(m) ==> AllCounted(m'))
            && (forall f | f != e.frame :: Owners(m', f) == Owners(m, f))
            && (IsUserLeaf(m', l) <==> m.nodes[l.pt].own && e.p && e.u)
            && (IsUserLeaf(m', l) ==> Owners(m', e.frame) == {l})
  {
    LeafTree(m.tables, m.nodes, l.pt, l.idx, e);
    var m' := m.(tables := Store(m.tables, l.pt, l.idx, e));
    var f0: nat := if e.p && e.u then e.frame else 0;
    hide TreeOk, Owners;
    OthersKept(m, l, e);
    OwnersAre(m, e.frame);
    OwnersAre(m', e.frame);
    forall x | Owns(m', x, f0)
      ensures LeafSound(m', x)
    {
      assert IsUserLeaf(m, x) ==> LeafSound(m, x);
      assert x != l ==> Owns(m, x, f0);
      assert Owners(m', f0) == {l};
    }
    forall x | IsUserLeaf(m, x)
      ensures At(m, x).frame !in m.free && At(m, x).frame !in m.tables && At(m, x).frame > 0
    {
      assert LeafSound(m, x);
    }
    OwnersAre(m', f0);
    if f0 == 0 { NullUnowned(m); assert forall x :: Owns(m', x, e.frame) <==> Owns(m, x, e.frame); }
    SoundAfter(m, m', f0);
  }

  /** An entry is overwritten and its frame keeps the reference: one owner less than before, but no more counts. */
  lemma ForgetSound(m: Mem, l: Leaf)
    requires Sound(m) && IsUserLeaf(m, l) && l.pt in m.tables && l.idx < |m.tables[l.pt]|
    ensures var m' := m.(tables := Store(m.tables, l.pt, l.idx, ZERO));
            && Sound(m') && !IsUserLeaf(m', l)
            && (forall f :: Owners(m', f) == Owners(m, f) - {l})
  {
    var f0: nat := At(m, l).frame;
    var m' := m.(tables := Store(m.tables, l.pt, l.idx, ZERO));
    LeafTree(m.tables, m.nodes, l.pt, l.idx, ZERO);
    hide TreeOk, Owners;
    OthersKept(m, l, ZERO);
    OwnersAre(m, f0);
    OwnersAre(m', f0);
    assert Owners(m', f0) == Owners(m, f0) - {l};
    forall x | IsUserLeaf(m, x)
      ensures At(m, x).frame !in m.free && At(m, x).frame !in m.tables
    {
      assert LeafSound(m, x);
    }
    forall x | Owns(m', x, f0)
      ensures LeafSound(m', x)
    {
      assert LeafSound(m, x) && x in Owners(m, f0) && l in Owners(m, f0) && x != l;
    }
    SoundAfter(m, m', f0);
    forall f ensures Owners(m', f) == Owners(m, f) - {l} { OwnersAre(m, f); }
  }

  lemma OthersKept(m: Mem, l: Leaf, e: Pte)
    requires l.pt in m.tables && l.pt in m.nodes && m.nodes[l.pt].level == 1 && l.idx < ENTRIES
    requires l.idx < |m.tables[l.pt]|
    ensures var m' := m.(tables := Store(m.tables, l.pt, l.idx, e));
            && (forall x :: x != l ==> At(m', x) == At(m, x) && (IsUserLeaf(m', x) <==> IsUserLeaf(m, x)))
            && At(m', l) == e && (IsUserLeaf(m', l) <==> m.nodes[l.pt].own && e.p && e.u)
            && (NoHugeOwn(m.tables, m.nodes) ==> NoHugeOwn(m'.tables, m'.nodes))
  {
    var m' := m.(tables := Store(m.tables, l.pt, l.idx, e));
    forall x | x != l
      ensures At(m', x) == At(m, x)
    {
      if x.pt == l.pt { assert x.idx != l.idx; }
    }
  }

  /** A fresh frame takes the place of whatever was mapped. */
  lemma ReplaceSound(m: Mem, l: Leaf, e: Pte)
    requires Sound(m) && l.pt in m.tables && l.pt in m.nodes && m.nodes[l.pt].level == 1 && l.idx < ENTRIES
    requires l.idx < |m.tables[l.pt]|
    requires e.p && e.u && m.nodes[l.pt].own
    requires e.frame > 0 && m.base <= e.frame < m.base + m.limit && e.frame !in m.free && e.frame !in m.tables
    requires RefAt(m.refs, m.base, e.frame) == 1 && Owners(m, e.frame) == {}
    ensures var m' := m.(tables := Store(m.tables, l.pt, l.idx, e));
            && Sound(m') && (AllCounted(m) && !IsUserLeaf(m, l) ==> AllCounted(m'))
            && (forall f | f != e.frame :: Owners(m', f) == Owners(m, f) - {l})
            && Owners(m', e.frame) == {l}
  {
    hide Sound, AllCounted, Owners, IsUserLeaf;
    if IsUserLeaf(m, l) {
      ForgetSound(m, l);
      var a := m.(tables := Store(m.tables, l.pt, l.idx, ZERO));
      StoreSound(a, l, e);
      assert a.tables[l.pt][l.idx := e] == m.tables[l.pt][l.idx := e];
      assert Store(a.tables, l.pt, l.idx, e) == Store(m.tables, l.pt, l.idx, e);
    } else {
      StoreSound(m, l, e);
      forall f ensures Owners(m, f) == Owners(m, f) - {l} { OwnersAre(m, f); }
    }
  }

  lemma ClearedLeaves(m: Mem, l: Leaf)
    requires l.pt in m.tables && l.pt in m.nodes && m.nodes[l.pt].level == 1 && l.idx < ENTRIES
    requires l.idx < |m.tables[l.pt]|
    requires At(m, l).p
    ensures var m' := Cleared(m, l.pt, l.idx);
            && m'.tables == Store(m.tables, l.pt, l.idx, ZERO) && m'.nodes == m.nodes
            && (forall x :: x != l ==> At(m', x) == At(m, x) && (IsUserLeaf(m', x) <==> IsUserLeaf(m, x)))
            && !IsUserLeaf(m', l)
            && Owners(m', At(m, l).frame) == Owners(m, At(m, l).frame) - {l}
            && (NoHugeOwn(m.tables, m.nodes) ==> NoHugeOwn(m'.tables, m'.nodes))
  {
    var m' := Cleared(m, l.pt, l.idx);
    var a := m.(tables := Store(m.tables, l.pt, l.idx, ZERO));
    OthersKept(m, l, ZERO);
    SameLeaves(a, m');
    OwnersAre(m, At(m, l).frame);
    OwnersAre(a, At(m, l).frame);
  }

  lemma OneLess(m: Mem, l: Leaf, x: Leaf)
    requires Sound(m) && l.pt in m.tables && l.pt in m.nodes && m.nodes[l.pt].level == 1 && l.idx < ENTRIES
    requires l.idx < |m.tables[l.pt]|
    requires At(m, l).p && (!IsUserLeaf(m, l) ==> Owners(m, At(m, l).frame) == {})
    requires Owns(Cleared(m, l.pt, l.idx), x, At(m, l).frame)
    ensures LeafSound(Cleared(m, l.pt, l.idx), x)
    ensures AllCounted(m) ==> Counted(Cleared(m, l.pt, l.idx), At(m, l).frame)
  {
    var f0: nat := At(m, l).frame;
    ClearedLeaves(m, l);
    OwnersAre(m, f0);
    hide VmOk, NoHugeOwn, Owners;
    assert x in Owners(m, f0) && l in Owners(m, f0) && x != l;
    assert LeafSound(m, l) && LeafSound(m, x);
    assert |Owners(m, f0) - {l}| == |Owners(m, f0)| - 1;
    assert |{l, x}| <= |Owners(m, f0)| by { SubsetSize({l, x}, Owners(m, f0)); }
  }

  lemma {:induction false} SubsetSize(a: set<Leaf>, b: set<Leaf>)
    requires a <= b
    ensures |a| <= |b|
  {
    assert b == a + (b - a);
  }

  /** One mapping less is one owner less, and the frame is free again when it was the last one. */
  lemma ClearSound(m: Mem, l: Leaf)
    requires Sound(m) && l.pt in m.tables && l.pt in m.nodes && m.nodes[l.pt].level == 1 && l.idx < ENTRIES
    requires l.idx < |m.tables[l.pt]|
    requires At(m, l).p && !IsUserLeaf(m, l) ==>
             && At(m, l).frame > 0 && At(m, l).frame !in m.tables
             && Owners(m, At(m, l).frame) == {}
    ensures var m' := Cleared(m, l.pt, l.idx);
            && Sound(m') && !IsUserLeaf(m', l) && (AllCounted(m) ==> AllCounted(m'))
            && (forall f :: Owners(m', f) == Owners(m, f) - {l})
            && (IsUserLeaf(m, l) && Owners(m, At(m, l).frame) == {l} && Counted(m, At(m, l).frame) ==>
                  RefAt(m.refs, m.base, At(m, l).frame) == REF_MAX || At(m, l).frame in m'.free)
  {
    var f0: nat := At(m, l).frame;
    var m' := Cleared(m, l.pt, l.idx);
    LeafTree(m.tables, m.nodes, l.pt, l.idx, ZERO);
    hide TreeOk, Owners, AllCounted;
    OthersKept(m, l, ZERO);
    forall f ensures Owners(m', f) == Owners(m, f) - {l} { ClearedOwners(m, l, f); }
    OwnersAre(m, f0);
    if At(m, l).p {
      ClearedLeaves(m, l);
      forall x | Owns(m', x, f0)
        ensures LeafSound(m', x) && (AllCounted(m) ==> Counted(m', f0))
      {
        OneLess(m, l, x);
      }
      OwnersAre(m', f0);
      ClearedAside(m, l);
      hide Aside, LeafSound, VmOk, NoHugeOwn, Sound;
      ClearedVm(m, l);
      SoundAfter(m, m', f0);
    }
  }

  lemma ClearedOwners(m: Mem, l: Leaf, f: nat)
    requires l.pt in m.tables && l.pt in m.nodes && m.nodes[l.pt].level == 1 && l.idx < ENTRIES
    requires l.idx < |m.tables[l.pt]|
    ensures Owners(Cleared(m, l.pt, l.idx), f) == Owners(m, f) - {l}
  {
    var m' := Cleared(m, l.pt, l.idx);
    OwnersAre(m, f);
    if At(m, l).p { ClearedLeaves(m, l); }
    OwnersAre(m', f);
  }

  lemma ClearedAside(m: Mem, l: Leaf)
    requires Sound(m) && l.pt in m.tables && l.pt in m.nodes && m.nodes[l.pt].level == 1 && l.idx < ENTRIES
    requires l.idx < |m.tables[l.pt]|
    requires At(m, l).p
    ensures Aside(m, Cleared(m, l.pt, l.idx), At(m, l).frame)
  {
    ClearedLeaves(m, l);
    forall x | IsUserLeaf(m, x)
      ensures At(m, x).frame !in m.free && At(m, x).frame !in m.tables
    {
      assert LeafSound(m, x);
    }
    hide VmOk, NoHugeOwn, Owners, LeafSound, Sound, IsUserLeaf;
  }

  lemma ClearedVm(m: Mem, l: Leaf)
    requires Sound(m) && l.pt in m.tables && l.pt in m.nodes && m.nodes[l.pt].level == 1 && l.idx < ENTRIES
    requires l.idx < |m.tables[l.pt]|
    requires At(m, l).p && (!IsUserLeaf(m, l) ==> At(m, l).frame > 0 && At(m, l).frame !in m.tables)
    ensures var m' := Cleared(m, l.pt, l.idx); VmOk(m'.tables, m'.nodes, m'.free) && NoHugeOwn(m'.tables, m'.nodes)
  {
    LeafTree(m.tables, m.nodes, l.pt, l.idx, ZERO);
    ClearedLeaves(m, l);
    hide TreeOk, NoHugeOwn;
    assert IsUserLeaf(m, l) ==> LeafSound(m, l);
  }

  lemma ShrinkSound(m: Mem, m': Mem)
    requires Sound(m) && Shrunk(m, m') && VmOk(m'.tables, m'.nodes, m'.free)
    ensures Sound(m') && (AllCounted(m) ==> AllCounted(m'))
    ensures forall f :: Owners(m', f) == Owners(m, f)
    ensures forall l :: IsUserLeaf(m', l) <==> IsUserLeaf(m, l)
    ensures forall l | IsUserLeaf(m, l) :: At(m', l) == At(m, l)
  {
    hide Agree, TreeOk, Owners;
    forall l
      ensures IsUserLeaf(m', l) <==> IsUserLeaf(m, l)
      ensures IsUserLeaf(m, l) ==> At(m', l) == At(m, l)
    {
    }
    forall l | IsUserLeaf(m, l)
      ensures At(m, l).frame !in m'.free && At(m, l).frame !in m'.tables && At(m, l).frame != 0
    {
      assert LeafSound(m, l);
    }
    NullUnowned(m);
    NullMapped(m');
    SoundAfter(m, m', 0);
  }

  /** The entry as `clone_user_p4` leaves it in both tables. */
  function Shared(e: Pte): Pte {
    Pte(e.p, false, e.u, e.ps, true, e.rest, e.frame)
  }

  /** One more mapping of the same frame, with one more reference, and neither may be written through. */
  ghost function SharedTo(m: Mem, l: Leaf, d: Leaf): Mem
    requires l.pt in m.tables && l.idx < |m.tables[l.pt]| && d.pt in m.tables && d.idx < |m.tables[d.pt]|
  {
    var e := m.tables[l.pt][l.idx];
    m.(tables := Store(Store(m.tables, l.pt, l.idx, Shared(e)), d.pt, d.idx, Shared(e)),
       refs := if m.base <= e.frame < m.base + |m.refs|
           then m.refs[e.frame - m.base := IncRef(m.refs[e.frame - m.base])] else m.refs)
  }

  lemma SharedLeaves(m: Mem, l: Leaf, d: Leaf)
    requires Sound(m) && IsUserLeaf(m, l) && !IsUserLeaf(m, d) && d != l
    requires l.pt in m.tables && l.idx < |m.tables[l.pt]| && d.pt in m.tables && d.idx < |m.tables[d.pt]|
    requires d.pt in m.nodes && m.nodes[d.pt].level == 1 && m.nodes[d.pt].own && d.idx < ENTRIES
    ensures var m' := SharedTo(m, l, d);
            && m'.nodes == m.nodes && m'.tables.Keys == m.tables.Keys
            && VmOk(m'.tables, m'.nodes, m'.free) && NoHugeOwn(m'.tables, m'.nodes)
            && (forall x :: x != l && x != d ==> At(m', x) == At(m, x) && (IsUserLeaf(m', x) <==> IsUserLeaf(m, x)))
            && At(m', l) == At(m', d) == Shared(At(m, l)) && IsUserLeaf(m', d) && IsUserLeaf(m', l)
            && Owners(m', At(m, l).frame) == Owners(m, At(m, l).frame) + {d}
  {
    var e := At(m, l);
    var m' := SharedTo(m, l, d);
    var a := m.(tables := Store(m.tables, l.pt, l.idx, Shared(e)));
    var b := a.(tables := Store(a.tables, d.pt, d.idx, Shared(e)));
    LeafTree(m.tables, m.nodes, l.pt, l.idx, Shared(e));
    LeafTree(a.tables, m.nodes, d.pt, d.idx, Shared(e));
    hide TreeOk, Owners, LeafSound;
    OthersKept(m, l, Shared(e));
    OthersKept(a, d, Shared(e));
    SameLeaves(b, m');
    OwnersAre(m, e.frame);
    OwnersAre(b, e.frame);
    assert Owners(b, e.frame) == Owners(m, e.frame) + {d};
  }

  lemma ShareSound(m: Mem, l: Leaf, d: Leaf)
    requires Sound(m) && IsUserLeaf(m, l) && !IsUserLeaf(m, d) && d != l
    requires l.pt in m.tables && l.idx < |m.tables[l.pt]| && d.pt in m.tables && d.idx < |m.tables[d.pt]|
    requires d.pt in m.nodes && m.nodes[d.pt].level == 1 && m.nodes[d.pt].own && d.idx < ENTRIES
    ensures var m' := SharedTo(m, l, d);
            && Sound(m') && IsUserLeaf(m', d) && IsUserLeaf(m', l) && (AllCounted(m) ==> AllCounted(m'))
            && (forall f :: Owners(m', f) == Owners(m, f) + if f == At(m, l).frame then {d} else {})
  {
    var f0: nat := At(m, l).frame;
    var m' := SharedTo(m, l, d);
    SharedLeaves(m, l, d);
    SharedAside(m, l, d);
    OneMore(m, l, d);
    hide VmOk, NoHugeOwn, Owners, LeafSound, Aside, Counted, AllCounted, IsUserLeaf, At;
    SoundAfter(m, m', f0);
    if AllCounted(m) { CountedAt(m, l); }
  }

  lemma CountedAt(m: Mem, l: Leaf)
    requires AllCounted(m) && IsUserLeaf(m, l)
    ensures Counted(m, At(m, l).frame)
  {
  }

  lemma SharedAside(m: Mem, l: Leaf, d: Leaf)
    requires Sound(m) && IsUserLeaf(m, l) && !IsUserLeaf(m, d) && d != l
    requires l.pt in m.tables && l.idx < |m.tables[l.pt]| && d.pt in m.tables && d.idx < |m.tables[d.pt]|
    requires d.pt in m.nodes && m.nodes[d.pt].level == 1 && m.nodes[d.pt].own && d.idx < ENTRIES
    ensures Aside(m, SharedTo(m, l, d), At(m, l).frame)
  {
    SharedLeaves(m, l, d);
    forall x | IsUserLeaf(m, x)
      ensures At(m, x).frame !in m.free && At(m, x).frame !in m.tables
    {
      assert LeafSound(m, x);
    }
    hide VmOk, NoHugeOwn, Owners, LeafSound, Sound, IsUserLeaf;
  }

  lemma OneMore(m: Mem, l: Leaf, d: Leaf)
    requires Sound(m) && IsUserLeaf(m, l) && !IsUserLeaf(m, d) && d != l
    requires l.pt in m.tables && l.idx < |m.tables[l.pt]| && d.pt in m.tables && d.idx < |m.tables[d.pt]|
    requires d.pt in m.nodes && m.nodes[d.pt].level == 1 && m.nodes[d.pt].own && d.idx < ENTRIES
    ensures forall x | Owns(SharedTo(m, l, d), x, At(m, l).frame) :: LeafSound(SharedTo(m, l, d), x)
    ensures Counted(m, At(m, l).frame) ==> Counted(SharedTo(m, l, d), At(m, l).frame)
  {
    var f0: nat := At(m, l).frame;
    var m' := SharedTo(m, l, d);
    SharedLeaves(m, l, d);
    OwnersAre(m, f0);
    assert LeafSound(m, l);
    hide VmOk, NoHugeOwn, Owners;
    assert d !in Owners(m, f0);
    forall x | Owns(m', x, f0)
      ensures LeafSound(m', x)
    {
      assert x != d && x != l ==> LeafSound(m, x) && l in Owners(m, f0) && x in Owners(m, f0);
    }
  }

  lemma SameLeaves(a: Mem, b: Mem)
    requires a.tables == b.tables && a.nodes == b.nodes
    ensures forall x :: At(a, x) == At(b, x) && (IsUserLeaf(a, x) <==> IsUserLeaf(b, x))
    ensures forall f :: Owners(a, f) == Owners(b, f)
  {
    forall f ensures Owners(a, f) == Owners(b, f) { OwnersAre(a, f); OwnersAre(b, f); }
  }

  /** The only owner may write again. */
  lemma OwnSound(m: Mem, l: Leaf, e: Pte)
    requires Sound(m) && IsUserLeaf(m, l) && Owners(m, At(m, l).frame) == {l} && l.pt in m.tables
    requires l.idx < |m.tables[l.pt]|
    requires e.p && e.u && e.frame == At(m, l).frame
    ensures var m' := m.(tables := Store(m.tables, l.pt, l.idx, e));
            Sound(m') && (AllCounted(m) ==> AllCounted(m')) && forall f :: Owners(m', f) == Owners(m, f)
  {
    var f0 := e.frame;
    var m' := m.(tables := Store(m.tables, l.pt, l.idx, e));
    LeafTree(m.tables, m.nodes, l.pt, l.idx, e);
    hide TreeOk, Owners;
    OthersKept(m, l, e);
    OwnersAre(m, f0);
    OwnersAre(m', f0);
    assert Owners(m', f0) == Owners(m, f0);
    assert LeafSound(m, l);
    forall x | IsUserLeaf(m, x)
      ensures At(m, x).frame !in m.free && At(m, x).frame !in m.tables
    {
      assert LeafSound(m, x);
    }
    forall x | Owns(m', x, f0)
      ensures LeafSound(m', x)
    {
      assert x in Owners(m, f0);
    }
    SoundAfter(m, m', f0);
  }

  /** Frames were only taken. */
  lemma TakeSound(m: Mem, m': Mem)
    requires Sound(m) && m'.tables == m.tables && m'.nodes == m.nodes && m'.base == m.base && m'.limit == m.limit
    requires Untouched(m.base, m.free, m.refs, m'.free, m'.refs)
    ensures Sound(m') && (AllCounted(m) ==> AllCounted(m'))
    ensures forall f :: Owners(m', f) == Owners(m, f)
  {
    hide TreeOk, Owners;
    SameLeaves(m, m');
    NullUnowned(m);
    forall x | IsUserLeaf(m, x)
      ensures At(m, x).frame !in m.free && At(m, x).frame !in m.tables && At(m, x).frame > 0
    {
      assert LeafSound(m, x);
    }
    SoundAfter(m, m', 0);
  }
}
