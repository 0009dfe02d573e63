/**
 Fork by copy-on-write: cloning an address space shares its user pages, and the first write to a
 shared page copies it. What every address space reads is what it would read had all pages been
 copied at the fork.
 */
module CopyOnWrite {
  import opened Sizes
  import opened Options
  import opened PageTables
  import opened Pmm
  import opened Vmm
  import opened CowState

  function ZeroPage(): Page {
    seq(PAGE_SIZE, _ => 0)
  }

  function PageOf(data: map<nat, Page>, f: nat): Page {
    if f in data then data[f] else ZeroPage()
  }

  /** What user code reads at the page `path` of the address space `r`. */
  ghost function View(tables: Tables, data: map<nat, Page>, r: nat, path: seq<nat>): Option<Page> {
    match UserAt(tables, r, 4, path)
    case None => None
    case Some(f) => Some(PageOf(data, f))
  }

  /** A page in the half that `clone_user_p4` clones. */
  ghost predicate IsUpper(path: seq<nat>) {
    IsPath(path, 4) && path[0] >= UPPER
  }

  /** A page below a private slot of `r`. */
  ghost predicate IsPlace(m: Mem, r: nat, path: seq<nat>) {
    IsP4(m, r) && IsUpper(path) && Private(m.tables, m.nodes, r, path[0])
  }

  /** The entry that maps a page, if there is one. */
  ghost function LeafAt(m: Mem, r: nat, path: seq<nat>): Leaf
    requires IsPath(path, 4)
  {
    match PtOf(m.tables, r, 4, path)
    case None => Leaf(0, ENTRIES)
    case Some(pt) => Leaf(pt, path[3])
  }

  lemma {:induction false} LeafFound(tables: Tables, nodes: Nodes, t: nat, level: nat, path: seq<nat>)
    requires TreeOk(tables, nodes) && t in tables && nodes[t].level == level && IsPath(path, level)
    requires if level == 4 then Private(tables, nodes, t, path[0]) else nodes[t].own
    ensures var pt := PtOf(tables, t, level, path);
            && (pt.Some? ==> IsTable(pt.value, tables, nodes) && nodes[pt.value].level == 1 && nodes[pt.value].own)
            && UserAt(tables, t, level, path) ==
               (if pt.Some? && tables[pt.value][path[level - 1]].p && tables[pt.value][path[level - 1]].u
                then Some(tables[pt.value][path[level - 1]].frame) else None)
            && OpenAt(tables, t, level, path) == (pt.Some? && IsOpen(tables[pt.value][path[level - 1]]))
    decreases level
  {
    assert IsTable(t, tables, nodes);
    if level > 1 {
      assert EntryOk(t, path[0], tables, nodes);
      var e := tables[t][path[0]];
      if e.p && !e.ps {
        LeafFound(tables, nodes, e.frame, level - 1, path[1..]);
        assert path[1..][level - 2] == path[level - 1];
      }
    }
  }

  /** A page is user mapped exactly when its entry is one that counts, and it then reads that entry's frame. */
  lemma LeafIs(m: Mem, r: nat, path: seq<nat>)
    requires TreeOk(m.tables, m.nodes) && IsPlace(m, r, path)
    ensures UserAt(m.tables, r, 4, path).Some? <==> IsUserLeaf(m, LeafAt(m, r, path))
    ensures UserAt(m.tables, r, 4, path).Some? ==> UserAt(m.tables, r, 4, path) == Some(At(m, LeafAt(m, r, path)).frame)
    ensures OpenAt(m.tables, r, 4, path) <==> IsUserLeaf(m, LeafAt(m, r, path)) && IsOpen(At(m, LeafAt(m, r, path)))
    ensures PtOf(m.tables, r, 4, path).Some? ==> IsTable(LeafAt(m, r, path).pt, m.tables, m.nodes)
    ensures PtOf(m.tables, r, 4, path).Some? ==>
            && m.nodes[LeafAt(m, r, path).pt].level == 1
            && m.nodes[LeafAt(m, r, path).pt].own
  {
    LeafFound(m.tables, m.nodes, r, 4, path);
  }

  /** One entry serves one page of one address space. */
  lemma LeafServesOne(m: Mem, r: nat, path: seq<nat>, x: nat, q: seq<nat>)
    requires TreeOk(m.tables, m.nodes) && IsPlace(m, r, path) && IsPlace(m, x, q)
    requires PtOf(m.tables, r, 4, path).Some? && LeafAt(m, x, q) == LeafAt(m, r, path)
    ensures x == r && q == path
  {
    Hit(m.tables, m.nodes, r, path, x, q);
    OneTop(m.tables, m.nodes, r, path[0], x, q[0]);
    assert q == [q[0]] + q[1..] && path == [path[0]] + path[1..];
  }

  /** Changing what a frame holds changes only the one page that maps it, when there is only one. */
  lemma WriteSolo(m: Mem, data: map<nat, Page>, r: nat, path: seq<nat>, page: Page, x: nat, q: seq<nat>)
    requires Sound(m) && IsPlace(m, r, path) && IsPlace(m, x, q)
    requires IsUserLeaf(m, LeafAt(m, r, path)) && Owners(m, At(m, LeafAt(m, r, path)).frame) == {LeafAt(m, r, path)}
    ensures View(m.tables, data[At(m, LeafAt(m, r, path)).frame := page], x, q) ==
            if x == r && q == path then Some(page) else View(m.tables, data, x, q)
  {
    var l := LeafAt(m, r, path);
    LeafIs(m, r, path);
    LeafIs(m, x, q);
    OwnersAre(m, At(m, l).frame);
    if UserAt(m.tables, x, 4, q) == Some(At(m, l).frame) {
      assert LeafAt(m, x, q) in Owners(m, At(m, l).frame);
      LeafServesOne(m, r, path, x, q);
    }
  }

  /** Filling a frame that nobody maps changes nothing. */
  lemma WriteUnseen(m: Mem, data: map<nat, Page>, f: nat, page: Page, x: nat, q: seq<nat>)
    requires Sound(m) && IsPlace(m, x, q) && Owners(m, f) == {}
    ensures View(m.tables, data[f := page], x, q) == View(m.tables, data, x, q)
  {
    LeafIs(m, x, q);
    OwnersAre(m, f);
    assert !Owns(m, LeafAt(m, x, q), f);
  }

  /**
   Page `path` of `r` became `page`; every other page of every address space reads as before, and may be written
   as before.
   */
  ghost predicate OneView(m: Mem, data: map<nat, Page>, m': Mem, data': map<nat, Page>, r: nat, path: seq<nat>,
      page: Option<Page>, open: bool) {
    forall x, q | IsPlace(m, x, q) ::
      && IsPlace(m', x, q)
      && View(m'.tables, data', x, q) == (if x == r && q == path then page else View(m.tables, data, x, q))
      && OpenAt(m'.tables, x, 4, q) == (if x == r && q == path then open else OpenAt(m.tables, x, 4, q))
  }

  ghost predicate SameViews(m: Mem, data: map<nat, Page>, m': Mem, data': map<nat, Page>) {
    forall x, q | IsPlace(m, x, q) ::
      IsPlace(m', x, q) && View(m'.tables, data', x, q) == View(m.tables, data, x, q)
          && OpenAt(m'.tables, x, 4, q) == OpenAt(m.tables, x, 4, q)
  }

  /** No other root got a slot that it did not have. */
  ghost predicate RootsKept(m: Mem, m': Mem, r: nat) {
    forall x | IsP4(m, x) && x != r :: IsP4(m', x) && SameSlots(m, m', x)
  }

  ghost predicate SameSlots(m: Mem, m': Mem, x: nat)
    requires IsP4(m, x) && IsP4(m', x)
  {
    && m'.nodes[x] == m.nodes[x] && |m'.tables[x]| == |m.tables[x]|
    && forall j | 0 <= j < |m.tables[x]| && !m.tables[x][j].p :: !m'.tables[x][j].p
  }

  /** Storing an entry of a lower level is nothing to the roots. */
  lemma StoreKeepsRoots(m: Mem, m': Mem, pt: nat, r: nat)
    requires pt in m.nodes && m.nodes[pt].level != 4 && m'.nodes == m.nodes && m'.tables.Keys == m.tables.Keys
    requires forall t <- m.tables :: t != pt ==> m'.tables[t] == m.tables[t]
    ensures RootsKept(m, m', r)
  {
  }

  lemma RootsTwice(a: Mem, b: Mem, c: Mem, r: nat)
    requires RootsKept(a, b, r) && RootsKept(b, c, r)
    ensures RootsKept(a, c, r)
  {
  }

  /** What storing an entry means for the views, given what it means for the frames reached. */
  lemma OnlyUserViews(m: Mem, data: map<nat, Page>, m': Mem, r: nat, path: seq<nat>, f: Option<nat>, open: bool)
    requires TreeOk(m.tables, m.nodes) && IsPlace(m, r, path)
    requires OnlyUserPage(m.tables, m.nodes, m'.tables, r, path, f, open)
    requires forall x, q | IsPlace(m, x, q) :: IsPlace(m', x, q)
    ensures OneView(m, data, m', data, r, path, if f.Some? then Some(PageOf(data, f.value)) else None, open)
  {
    hide UserAt, OpenAt, Sees, TreeOk, Private;
    forall x, q | IsPlace(m, x, q)
      ensures View(m'.tables, data, x, q) ==
              if x == r && q == path then (if f.Some? then Some(PageOf(data, f.value)) else None)
                  else View(m.tables, data, x, q)
      ensures OpenAt(m'.tables, x, 4, q) == if x == r && q == path then open else OpenAt(m.tables, x, 4, q)
    {
      if Sees(m.tables, x, q[0], r, path[0]) { OneTop(m.tables, m.nodes, r, path[0], x, q[0]); }
      assert Sees(m.tables, r, path[0], r, path[0]) by { SeesItself(m.tables, r, path[0]); }
      assert q == [q[0]] + q[1..] && path == [path[0]] + path[1..];
    }
  }

  lemma SeesItself(tables: Tables, r: nat, i: nat)
    ensures Sees(tables, r, i, r, i)
  {
  }

  /** The frame that was just taken has one reference and no owner. */
  ghost predicate FreshFrame(m: Mem, f: nat) {
    && 0 < f < FRAME_LIMIT && m.base <= f < m.base + m.limit && f !in m.free && f !in m.tables
    && RefAt(m.refs, m.base, f) == 1 && Owners(m, f) == {}
  }

  lemma Taken(m: Mem, m': Mem, f: nat)
    requires Sound(m) && f in m.free && m.base <= f < m.base + m.limit && f < m.base + |m.refs|
    requires m' == m.(free := m.free - {f}, refs := m.refs[f - m.base := 1])
    ensures Sound(m') && FreshFrame(m', f) && (AllCounted(m) ==> AllCounted(m'))
    ensures forall g :: Owners(m', g) == Owners(m, g)
  {
    TookOne(m.base, m.free, m.refs, f);
    TakeSound(m, m');
    SameLeaves(m, m');
    OwnersAre(m, f);
    forall l ensures !Owns(m, l, f) { assert IsUserLeaf(m, l) ==> LeafSound(m, l); }
  }

  /** User code has a page there whose count is exact; mapping another one over it leaves the count one too high. */
  ghost predicate Forgets(m: Mem, p4: nat, path: seq<nat>)
    requires IsPath(path, 4)
  {
    match UserAt(m.tables, p4, 4, path)
    case None => false
    case Some(f) => Counted(m, f) && RefAt(m.refs, m.base, f) != REF_MAX
  }

  /** A fresh frame, filled and mapped in place of whatever was mapped. */
  lemma FreshMapped(m: Mem, data: map<nat, Page>, f: nat, page: Page, p4: nat, path: seq<nat>, e: Pte, mid: Mem,
      pt: nat, m': Mem)
    requires Sound(m) && IsPlace(m, p4, path) && FreshFrame(m, f)
    requires e.p && e.u && e.frame == f && EntryStored(m, m', p4, path, e, mid, pt)
    ensures Sound(m') && OneView(m, data, m', data[f := page], p4, path, Some(page), e.w || e.cow)
    ensures AllCounted(m) && UserAt(m.tables, p4, 4, path) == None ==> AllCounted(m')
    ensures RootsKept(m, m', p4) && (CountsKept(m, m') <==> !Forgets(m, p4, path))
  {
    hide Sound, Owners, UserAt, View, OneView, AllCounted, CountsKept, Forgets, RootsKept, Grown, Untouched;
    FreshCounts(m, f, p4, path, e, mid, pt, m');
    FreshViews(m, data, f, page, p4, path, e, mid, pt, m');
  }

  lemma FreshCounts(m: Mem, f: nat, p4: nat, path: seq<nat>, e: Pte, mid: Mem, pt: nat, m': Mem)
    requires Sound(m) && IsPlace(m, p4, path) && FreshFrame(m, f)
    requires e.p && e.u && e.frame == f && EntryStored(m, m', p4, path, e, mid, pt)
    ensures Sound(m')
    ensures AllCounted(m) && UserAt(m.tables, p4, 4, path) == None ==> AllCounted(m')
    ensures CountsKept(m, m') <==> !Forgets(m, p4, path)
  {
    var l := Leaf(pt, path[3]);
    GrowSound(m, mid, p4);
    FromTree(mid.tables, mid.nodes);
    FreshInMid(m, f, p4, path, e, mid, pt, m');
    ReplaceSound(mid, l, e);
    ForgottenCount(m, mid, m', l, f, p4, path);
  }

  lemma FreshViews(m: Mem, data: map<nat, Page>, f: nat, page: Page, p4: nat, path: seq<nat>, e: Pte, mid: Mem, pt: nat,
      m': Mem)
    requires Sound(m) && IsPlace(m, p4, path) && FreshFrame(m, f)
    requires e.p && e.u && e.frame == f && EntryStored(m, m', p4, path, e, mid, pt)
    ensures OneView(m, data, m', data[f := page], p4, path, Some(page), e.w || e.cow) && RootsKept(m, m', p4)
  {
    var data' := data[f := page];
    StoredMeans(m, m', p4, path, e, mid, pt);
    FreshInMid(m, f, p4, path, e, mid, pt, m');
    KeepsPlaces(m, p4, mid, m', pt);
    OnlyUserViews(m, data', m', p4, path, Some(f), e.w || e.cow);
    forall x, q | IsPlace(m, x, q)
      ensures View(m.tables, data', x, q) == View(m.tables, data, x, q)
    {
      WriteUnseen(m, data, f, page, x, q);
    }
    hide View, Sound, TreeOk, Owners, UserAt, OpenAt;
  }

  /** The entry that is overwritten was an owner; no count moved. */
  lemma ForgottenCount(m: Mem, mid: Mem, m': Mem, l: Leaf, f: nat, p4: nat, path: seq<nat>)
    requires Sound(m) && FreshFrame(m, f) && IsPath(path, 4) && m'.refs == mid.refs && m'.base == m.base
    requires m'.free == mid.free
    requires Untouched(m.base, m.free, m.refs, mid.free, mid.refs)
    requires forall g :: Owners(mid, g) == Owners(m, g)
    requires forall g | g != f :: Owners(m', g) == Owners(mid, g) - {l}
    requires UserAt(m.tables, p4, 4, path) == if IsUserLeaf(m, l) then Some(At(m, l).frame) else None
    ensures CountsKept(m, m') <==> !Forgets(m, p4, path)
  {
    hide Owners, Sound, UserAt;
    forall g | g !in m.free && Counted(m, g)
      ensures g !in m'.free
      ensures Counted(m', g) <==> l !in Owners(m, g) || RefAt(m.refs, m.base, g) == REF_MAX
    {
      assert g != f;
      if l in Owners(m, g) {
        assert |Owners(m', g)| == |Owners(m, g)| - 1;
      } else {
        assert Owners(m', g) == Owners(m, g);
      }
    }
    OwnersAre(m, At(m, l).frame);
    forall g | l in Owners(m, g) ensures IsUserLeaf(m, l) && At(m, l).frame == g { OwnersAre(m, g); }
    if IsUserLeaf(m, l) { assert LeafSound(m, l) by { Leaves(m, l); } }
  }

  lemma Leaves(m: Mem, l: Leaf)
    requires Sound(m) && IsUserLeaf(m, l)
    ensures LeafSound(m, l)
  {
  }

  lemma SameStart(m: Mem, m1: Mem, data: map<nat, Page>, m': Mem, data': map<nat, Page>, r: nat, path: seq<nat>,
      page: Option<Page>, open: bool)
    requires m1.tables == m.tables && m1.nodes == m.nodes && OneView(m1, data, m', data', r, path, page, open)
    requires RootsKept(m1, m', r)
    ensures OneView(m, data, m', data', r, path, page, open) && RootsKept(m, m', r)
  {
    hide View, OpenAt, Private, SameSlots;
    forall x | IsP4(m, x) && x != r
      ensures IsP4(m', x) && SameSlots(m, m', x)
    {
      assert IsP4(m1, x) && SameSlots(m1, m', x);
      SlotsFrom(m, m1, m', x);
    }
    forall x, q | IsPlace(m, x, q)
      ensures IsPlace(m1, x, q)
    {
    }
  }

  lemma SlotsFrom(m: Mem, m1: Mem, m': Mem, x: nat)
    requires m1.tables == m.tables && m1.nodes == m.nodes && IsP4(m, x) && IsP4(m', x) && SameSlots(m1, m', x)
    ensures SameSlots(m, m', x)
  {
  }

  lemma KeepsPlaces(m: Mem, p4: nat, mid: Mem, m': Mem, pt: nat)
    requires TreeOk(m.tables, m.nodes) && IsP4(m, p4)
    requires Grown(p4, m.tables, m.nodes, m.free, mid.tables, mid.nodes, mid.free)
    requires m'.nodes == mid.nodes && m'.tables.Keys == mid.tables.Keys
    requires pt in mid.nodes && mid.nodes[pt].level == 1
    requires forall t <- mid.tables :: t != pt ==> m'.tables[t] == mid.tables[t]
    ensures RootsKept(m, m', p4) && forall x, q | IsPlace(m, x, q) :: IsPlace(m', x, q)
  {
    hide Agree;
    forall x, q | IsPlace(m, x, q)
      ensures IsPlace(m', x, q)
    {
      assert IsTable(x, m.tables, m.nodes);
    }
  }

  lemma FreshInMid(m: Mem, f: nat, p4: nat, path: seq<nat>, e: Pte, mid: Mem, pt: nat, m': Mem)
    requires Sound(m) && IsPlace(m, p4, path) && FreshFrame(m, f) && EntryStored(m, m', p4, path, e, mid, pt)
    ensures f !in mid.free && f !in mid.tables && RefAt(mid.refs, mid.base, f) == 1
    ensures IsPlace(mid, p4, path) && LeafAt(mid, p4, path) == Leaf(pt, path[3])
    ensures pt in mid.nodes && mid.nodes[pt].level == 1 && mid.nodes[pt].own
    ensures UserAt(m.tables, p4, 4, path) == if IsUserLeaf(mid, Leaf(pt, path[3]))
            then Some(At(mid, Leaf(pt, path[3])).frame) else None
    ensures |mid.tables[pt]| == ENTRIES
  {
    PtIsTable(mid.tables, mid.nodes, p4, 4, path);
    KeepsPlaces(m, p4, mid, mid, pt);
    LeafIs(mid, p4, path);
    assert SameWalk(m.tables, mid.tables, p4, 4, path);
    assert f in mid.tables ==> f in m.tables || f in m.free;
  }

  /** Taking a frame that is free changes nobody's count. */
  lemma CountsFromTaken(m: Mem, m1: Mem, f: nat, m': Mem, p4: nat, path: seq<nat>)
    requires Sound(m) && FreshFrame(m1, f) && f in m.free && m.base <= f < m.base + |m.refs| && IsPath(path, 4)
    requires m1 == m.(free := m.free - {f}, refs := m.refs[f - m.base := 1]) && m'.base == m.base
    requires forall g :: Owners(m1, g) == Owners(m, g)
    ensures CountsKept(m, m') <==> CountsKept(m1, m')
    ensures IsPlace(m, p4, path) ==> (Forgets(m, p4, path) <==> Forgets(m1, p4, path))
  {
    hide Owners, UserAt, Sound;
    forall g | g != f
      ensures Counted(m1, g) <==> Counted(m, g)
    {
      assert RefAt(m1.refs, m.base, g) == RefAt(m.refs, m.base, g);
    }
    assert !Counted(m1, f);
    if IsPlace(m, p4, path) && UserAt(m.tables, p4, 4, path) == Some(f) {
      UserIsUsed(m, p4, path);
    }
  }

  lemma UserIsUsed(m: Mem, p4: nat, path: seq<nat>)
    requires Sound(m) && IsPlace(m, p4, path)
    ensures UserAt(m.tables, p4, 4, path).Some? ==> UserAt(m.tables, p4, 4, path).value !in m.free
  {
    LeafIs(m, p4, path);
    assert IsUserLeaf(m, LeafAt(m, p4, path)) ==> LeafSound(m, LeafAt(m, p4, path));
  }

  /**
   A user page of zeroes, as the demand fault and the mmap code map them. A page that was mapped there is
   replaced; its frame keeps the reference, so the counts stay exact exactly when there was none.
   */
  method MapFresh(vm: AddressSpaces, p4: nat, v: nat, f: Flags) returns (r: MapResult)
    requires vm.Valid() && Sound(vm.Now()) && IsPlace(vm.Now(), p4, PathOf(v)) && p4 != 0 && v % PAGE_SIZE == 0 && f.u
    modifies vm, vm.pmm`freeFrames, vm.pmm`hint, vm.pmm.bm, vm.pmm.refs
    ensures r == Mapped || r == Exhausted
    ensures r == Exhausted ==> vm.pmm.Free() == {}
    ensures r == Mapped ==>
              && vm.Valid() && Sound(vm.Now()) && RootsKept(old(vm.Now()), vm.Now(), p4)
              && OneView(old(vm.Now()), old(vm.data), vm.Now(), vm.data, p4, PathOf(v), Some(ZeroPage()), f.w || f.cow)
              && (AllCounted(old(vm.Now())) && UserAt(old(vm.tables), p4, 4, PathOf(v)) == None ==>
                 AllCounted(vm.Now()))
              && (CountsKept(old(vm.Now()), vm.Now()) <==> !Forgets(old(vm.Now()), p4, PathOf(v)))
  {
    hide FrameManager.Valid, FrameManager.Free, VmOk, Sound, PtOf, UserAt, OnlyPage, OnlyUserPage, OneView;
    hide EntryStored, PathOf;
    hide IsUpper, IsPath, OpenAt, AllCounted, CountsKept, Forgets, Owners, RootsKept;
    vm.pmm.FromValid();
    vm.pmm.FreeBits();
    ghost var m, data0 := vm.Now(), vm.data;
    var a := vm.pmm.AllocNoLock();
    if a == OutOfMemory { return Exhausted; }
    ghost var m1 := vm.Now();
    assert m.base <= a.frame < m.base + m.limit;
    Taken(m, m1, a.frame);
    vm.data := vm.data[a.frame := ZeroPage()];
    ghost var mid, pt;
    r, mid, pt := vm.Vmap(p4, v, a.frame * PAGE_SIZE, f);
    if r == Mapped {
      StoredBase(m1, vm.Now(), p4, PathOf(v), Make(a.frame, f), mid, pt);
      FreshMapped(m1, data0, a.frame, ZeroPage(), p4, PathOf(v), Make(a.frame, f), mid, pt, vm.Now());
      SameStart(m, m1, data0, vm.Now(), vm.data, p4, PathOf(v), Some(ZeroPage()), f.w || f.cow);
      CountsFromTaken(m, m1, a.frame, vm.Now(), p4, PathOf(v));
    }
  }

  lemma StoredBase(m: Mem, m': Mem, p4: nat, path: seq<nat>, e: Pte, mid: Mem, pt: nat)
    requires EntryStored(m, m', p4, path, e, mid, pt)
    ensures m'.base == m.base
  {
  }

  /** No kernel page is mapped there. */
  ghost predicate OnlyUserThere(m: Mem, r: nat, path: seq<nat>)
    requires IsPath(path, 4)
  {
    At(m, LeafAt(m, r, path)).p ==> At(m, LeafAt(m, r, path)).u
  }

  /** What is mapped there may lose a reference: it is a user page, or no table and nobody's page. */
  ghost predicate MayDrop(m: Mem, r: nat, path: seq<nat>)
    requires IsPath(path, 4)
  {
    var e := At(m, LeafAt(m, r, path));
    e.p && !e.u ==> e.frame > 0 && e.frame !in m.tables && Owners(m, e.frame) == {}
  }

  lemma UpperUnmappable(m: Mem, p4: nat, path: seq<nat>)
    requires Sound(m) && IsPlace(m, p4, path) && MayDrop(m, p4, path)
    ensures Unmappable(m, p4, path)
  {
    LeafIs(m, p4, path);
    WalkPt(m, p4, path);
    var e4 := Entry(m, p4, path[0]);
    var e3 := Entry(m, e4.frame, path[1]);
    var e2 := Entry(m, e3.frame, path[2]);
    assert IsTable(p4, m.tables, m.nodes) && EntryOk(p4, path[0], m.tables, m.nodes);
    if e4.p && e3.p && e2.p {
      assert EntryOk(e4.frame, path[1], m.tables, m.nodes);
      assert m.nodes[e3.frame].level == 2 && m.nodes[e3.frame].own;
      assert !e2.ps;
      assert LeafAt(m, p4, path) == Leaf(e2.frame, path[3]);
      assert IsUserLeaf(m, LeafAt(m, p4, path)) ==> LeafSound(m, LeafAt(m, p4, path));
    }
  }

  /** What unmapping page `path` of `p4` leaves, given what it means for the tables. */
  ghost predicate Unmapped(m: Mem, m': Mem, p4: nat, path: seq<nat>)
    requires IsPath(path, 4)
  {
    match PtOf(m.tables, p4, 4, path)
    case None => m' == m
    case Some(pt) => pt in m.tables && path[3] < |m.tables[pt]| && Shrunk(Cleared(m, pt, path[3]), m')
  }

  lemma UnmappedSound(m: Mem, m': Mem, p4: nat, path: seq<nat>, pt: nat)
    requires Sound(m) && IsPlace(m, p4, path) && MayDrop(m, p4, path) && VmOk(m'.tables, m'.nodes, m'.free)
    requires PtOf(m.tables, p4, 4, path) == Some(pt) && pt in m.tables && path[3] < |m.tables[pt]|
    requires Shrunk(Cleared(m, pt, path[3]), m')
    ensures Sound(m') && (AllCounted(m) ==> AllCounted(m'))
    ensures RootsKept(m, m', p4) && forall x, q | IsPlace(m, x, q) :: IsPlace(m', x, q)
    ensures var l := LeafAt(m, p4, path);
            && (forall f :: Owners(m', f) == Owners(m, f) - {l})
            && (IsUserLeaf(m, l) && Owners(m, At(m, l).frame) == {l} && Counted(m, At(m, l).frame) ==>
                  RefAt(m.refs, m.base, At(m, l).frame) == REF_MAX || At(m, l).frame in m'.free)
  {
    var l := LeafAt(m, p4, path);
    LeafIs(m, p4, path);
    ClearSound(m, l);
    var m1 := Cleared(m, pt, path[3]);
    ClearedNodes(m, pt, path[3]);
    ShrinkSound(m1, m');
    if m.tables[pt][path[3]].p { ClearedLeaves(m, l); }
    hide Owners, IsUserLeaf, Counted, AllCounted, Shrunk;
    PlacesAfter(m, m1, m', pt, p4);
  }

  lemma UnmappedViews(m: Mem, data: map<nat, Page>, m': Mem, p4: nat, path: seq<nat>)
    requires Sound(m) && IsPlace(m, p4, path) && MayDrop(m, p4, path) && VmOk(m'.tables, m'.nodes, m'.free)
    requires OnlyUserPage(m.tables, m.nodes, m'.tables, p4, path, None, false) && Unmapped(m, m', p4, path)
    ensures Sound(m') && OneView(m, data, m', data, p4, path, None, false) && RootsKept(m, m', p4)
    ensures (AllCounted(m) ==> AllCounted(m'))
    ensures var l := LeafAt(m, p4, path);
            && (forall f :: Owners(m', f) == Owners(m, f) - {l})
            && (IsUserLeaf(m, l) && Owners(m, At(m, l).frame) == {l} && Counted(m, At(m, l).frame) ==>
                  RefAt(m.refs, m.base, At(m, l).frame) == REF_MAX || At(m, l).frame in m'.free)
  {
    match PtOf(m.tables, p4, 4, path) {
      case None =>
        forall f ensures Owners(m', f) == Owners(m, f) - {LeafAt(m, p4, path)} { OwnersAre(m, f); }
      case Some(pt) =>
        UnmappedSound(m, m', p4, path, pt);
    }
    hide Sound, Shrunk, Owners, Cleared, AllCounted, Counted;
    TreeNow(m);
    OnlyUserViews(m, data, m', p4, path, None, false);
  }

  lemma TreeNow(m: Mem)
    requires Sound(m)
    ensures TreeOk(m.tables, m.nodes)
  {
  }

  lemma PlacesAfter(m: Mem, m1: Mem, m': Mem, pt: nat, r: nat)
    requires TreeOk(m.tables, m.nodes) && m1.nodes == m.nodes && Shrunk(m1, m') && TreeOk(m'.tables, m'.nodes)
    requires pt in m.nodes && m.nodes[pt].level == 1
    requires m1.tables.Keys == m.tables.Keys && forall t <- m.tables :: t != pt ==> m1.tables[t] == m.tables[t]
    ensures RootsKept(m, m', r) && forall x, q | IsPlace(m, x, q) :: IsPlace(m', x, q)
  {
    hide Agree;
    forall x | IsP4(m, x) && x != r
      ensures IsP4(m', x) && SameSlots(m, m', x)
    {
      assert x in m1.nodes && m1.nodes[x].level == 4;
      forall j | 0 <= j < |m.tables[x]| && !m.tables[x][j].p ensures !m'.tables[x][j].p {
        assert m'.tables[x][j] == m1.tables[x][j] || m'.tables[x][j] == ZERO;
      }
    }
    forall x, q | IsPlace(m, x, q)
      ensures IsPlace(m', x, q)
    {
      assert x in m1.nodes && m1.nodes[x].level == 4;
      assert IsTable(x, m.tables, m.nodes) && EntryOk(x, q[0], m'.tables, m'.nodes);
      assert m'.tables[x][q[0]] == m.tables[x][q[0]] || m'.tables[x][q[0]] == ZERO;
    }
  }

  /**
   Unmapping takes the page out of one address space; a frame whose count was exact is free again when
   nobody else maps it and its count was never pinned.
   */
  method UnmapUser(vm: AddressSpaces, p4: nat, v: nat)
    requires vm.Valid() && Sound(vm.Now()) && IsPlace(vm.Now(), p4, PathOf(v)) && p4 != 0
    requires MayDrop(vm.Now(), p4, PathOf(v))
    modifies vm, vm.pmm`freeFrames, vm.pmm`hint, vm.pmm.bm, vm.pmm.refs
    ensures vm.Valid() && Sound(vm.Now()) && vm.data == old(vm.data) && RootsKept(old(vm.Now()), vm.Now(), p4)
    ensures OneView(old(vm.Now()), old(vm.data), vm.Now(), vm.data, p4, PathOf(v), None, false)
    ensures AllCounted(old(vm.Now())) ==> AllCounted(vm.Now())
    ensures var m := old(vm.Now());
            var l := LeafAt(m, p4, PathOf(v));
            && (forall f :: Owners(vm.Now(), f) == Owners(m, f) - {l})
            && (IsUserLeaf(m, l) && Owners(m, At(m, l).frame) == {l} && Counted(m, At(m, l).frame) ==>
                  RefAt(m.refs, m.base, At(m, l).frame) == REF_MAX || At(m, l).frame in vm.pmm.Free())
  {
    hide FrameManager.Valid, FrameManager.Free, VmOk, Sound, PtOf, UserAt, OnlyPage, OnlyUserPage, OneView, PathOf;
    hide IsUpper, IsPath;
    hide Shrunk, Cleared, TidyWalk, MayDrop, LeafAt, Owners, IsUserLeaf, At, AllCounted, Counted, Private, OpenAt;
    vm.pmm.FromValid();
    ghost var m, data0 := vm.Now(), vm.data;
    UpperUnmappable(m, p4, PathOf(v));
    vm.Vunmap(p4, v);
    UnmappedViews(m, data0, vm.Now(), p4, PathOf(v));
  }

  // ----- write faults -----

  datatype FaultResult = Resolved | Denied | NoMemory

  lemma PageStart(v: nat)
    ensures PathOf(v - v % PAGE_SIZE) == PathOf(v)
  {
    var w := v - v % 0x1000;
    assert w / 0x1000 == v / 0x1000;
    Divisions(v);
    Divisions(w);
  }

  /** The entries on the way to a page of the upper half. */
  lemma UpperWalk(m: Mem, p4: nat, path: seq<nat>)
    requires Sound(m) && IsPlace(m, p4, path)
    ensures |m.tables[p4]| == ENTRIES
    ensures PtOf(m.tables, p4, 4, path) == None ==> At(m, LeafAt(m, p4, path)) == ZERO
    ensures var pt, e4 := PtOf(m.tables, p4, 4, path), m.tables[p4][path[0]];
            if !e4.p then pt == None else
            e4.frame in m.tables && |m.tables[e4.frame]| == ENTRIES && (
              var e3 := m.tables[e4.frame][path[1]];
              if !e3.p then pt == None else
              e3.frame in m.tables && |m.tables[e3.frame]| == ENTRIES && (
                var e2 := m.tables[e3.frame][path[2]];
                if !e2.p then pt == None else
                e2.frame in m.tables && |m.tables[e2.frame]| == ENTRIES && pt == Some(e2.frame)))
  {
    WalkFacts(m, p4, path);
    WalkPt(m, p4, path);
    assert IsTable(p4, m.tables, m.nodes) && EntryOk(p4, path[0], m.tables, m.nodes);
    var e4 := m.tables[p4][path[0]];
    if e4.p {
      assert EntryOk(e4.frame, path[1], m.tables, m.nodes);
      var e3 := m.tables[e4.frame][path[1]];
      if e3.p {
        assert m.nodes[e3.frame].level == 2 && m.nodes[e3.frame].own;
        assert EntryOk(e3.frame, path[2], m.tables, m.nodes);
      }
    }
  }

  /** The entry after the fault: writable, and no longer marked. */
  function Owned(e: Pte, frame: FrameNumber): Pte {
    Pte(true, true, e.u, e.ps, false, e.rest, frame)
  }

  /** Writable and no longer marked, all other flags as they were. */
  ghost predicate Reopened(e: Pte, e': Pte) {
    e'.p && e'.w && !e'.cow && e'.u == e.u && e'.ps == e.ps && e'.rest == e.rest
  }

  /** A sole owner just gets write access back. */
  lemma InPlace(m: Mem, data: map<nat, Page>, p4: nat, path: seq<nat>, pt: nat)
    requires Sound(m) && IsPlace(m, p4, path) && PtOf(m.tables, p4, 4, path) == Some(pt)
    requires IsUserLeaf(m, Leaf(pt, path[3])) && RefAt(m.refs, m.base, At(m, Leaf(pt, path[3])).frame) <= 1
    ensures pt in m.tables && path[3] < |m.tables[pt]|
    ensures var e := m.tables[pt][path[3]];
            var m' := m.(tables := Store(m.tables, pt, path[3], Owned(e, e.frame)));
            && Sound(m') && OneView(m, data, m', data, p4, path, View(m.tables, data, p4, path), true)
               && Writable(m', p4, path)
            && (AllCounted(m) ==> AllCounted(m')) && UserAt(m'.tables, p4, 4, path) == Some(e.frame)
            && Reopened(e, At(m', LeafAt(m', p4, path)))
  {
    var l := Leaf(pt, path[3]);
    LeafIs(m, p4, path);
    var e := m.tables[pt][path[3]];
    var m' := m.(tables := Store(m.tables, pt, path[3], Owned(e, e.frame)));
    LeafStep(m.tables, m.nodes, pt, path[3], Owned(e, e.frame), p4, 4, path);
    assert LeafSound(m, l);
    OwnersAre(m, e.frame);
    OnlyOne(Owners(m, e.frame), l);
    OwnSound(m, l, Owned(e, e.frame));
    StoredNow(m, p4, path, pt, Owned(e, e.frame));
    OnlyUserViews(m, data, m', p4, path, Some(e.frame), true);
    StillThere(m, m', p4, path, pt, Owned(e, e.frame));
  }

  lemma OnlyOne(s: set<Leaf>, l: Leaf)
    requires l in s && |s| <= 1
    ensures s == {l}
  {
    SubsetSize({l}, s);
    assert s - {l} == {} by {
      assert |s - {l}| == |s| - 1;
    }
  }

  /** The page's entry allows user code to write. */
  ghost predicate Writable(m: Mem, p4: nat, path: seq<nat>) {
    IsPath(path, 4) && IsUserLeaf(m, LeafAt(m, p4, path)) && At(m, LeafAt(m, p4, path)).w
  }

  lemma StoredNow(m: Mem, p4: nat, path: seq<nat>, pt: nat, e: Pte)
    requires Sound(m) && IsPlace(m, p4, path) && PtOf(m.tables, p4, 4, path) == Some(pt) && pt in m.tables
    requires path[3] < |m.tables[pt]|
    ensures OnlyUserPage(m.tables, m.nodes, Store(m.tables, pt, path[3], e), p4, path, if e.p && e.u then Some(e.frame)
            else None, IsOpen(e))
  {
    GrownNot(p4, m.tables, m.nodes, m.free);
    TookNone(m.base, m.free, m.refs);
    StoredMeans(m, m.(tables := Store(m.tables, pt, path[3], e)), p4, path, e, m, pt);
  }

  lemma StillThere(m: Mem, m': Mem, p4: nat, path: seq<nat>, pt: nat, e: Pte)
    requires Sound(m) && IsPlace(m, p4, path) && PtOf(m.tables, p4, 4, path) == Some(pt)
    requires IsUserLeaf(m, Leaf(pt, path[3]))
    requires pt in m.tables && path[3] < |m.tables[pt]|
    requires m'.tables == Store(m.tables, pt, path[3], e) && m'.nodes == m.nodes && e.p && e.u
    ensures LeafAt(m', p4, path) == Leaf(pt, path[3]) && IsUserLeaf(m', Leaf(pt, path[3]))
    ensures At(m', Leaf(pt, path[3])) == e
  {
    LeafStep(m.tables, m.nodes, pt, path[3], e, p4, 4, path);
  }

  /** One of several owners gets a copy of its own. */
  lemma Copied(m: Mem, data: map<nat, Page>, p4: nat, path: seq<nat>, pt: nat, g: FrameNumber, m': Mem)
    requires Sound(m) && IsPlace(m, p4, path) && PtOf(m.tables, p4, 4, path) == Some(pt) && pt in m.tables
    requires path[3] < |m.tables[pt]|
    requires IsUserLeaf(m, Leaf(pt, path[3])) && FreshFrame(m, g)
    requires var e := m.tables[pt][path[3]];
             m' == Dropped(m, e.frame).(tables := Store(m.tables, pt, path[3], Owned(e, g)))
    ensures Sound(m') && Writable(m', p4, path) && UserAt(m'.tables, p4, 4, path) == Some(g)
    ensures (AllCounted(m) ==> AllCounted(m')) && Reopened(m.tables[pt][path[3]], At(m', LeafAt(m', p4, path)))
    ensures var f := m.tables[pt][path[3]].frame;
            OneView(m, data, m', data[g := PageOf(data, f)], p4, path, View(m.tables, data, p4, path), true)
  {
    hide Sound, AllCounted, OneView, View, Owners, FreshFrame;
    CopiedSound(m, p4, path, pt, g, m');
    CopiedViews(m, data, p4, path, pt, g, m');
    StillThere(m, m', p4, path, pt, Owned(m.tables[pt][path[3]], g));
  }

  lemma CopiedSound(m: Mem, p4: nat, path: seq<nat>, pt: nat, g: FrameNumber, m': Mem)
    requires Sound(m) && IsPlace(m, p4, path) && PtOf(m.tables, p4, 4, path) == Some(pt) && pt in m.tables
    requires path[3] < |m.tables[pt]|
    requires IsUserLeaf(m, Leaf(pt, path[3])) && FreshFrame(m, g)
    requires m' == Dropped(m, m.tables[pt][path[3]].frame).(tables :=
             Store(m.tables, pt, path[3], Owned(m.tables[pt][path[3]], g)))
    ensures Sound(m') && (AllCounted(m) ==> AllCounted(m'))
  {
    var l, e := Leaf(pt, path[3]), m.tables[pt][path[3]];
    ClearSound(m, l);
    ClearedFresh(m, l, g, m');
    StoreSound(Cleared(m, pt, path[3]), l, Owned(e, g));
  }

  lemma CopiedViews(m: Mem, data: map<nat, Page>, p4: nat, path: seq<nat>, pt: nat, g: FrameNumber, m': Mem)
    requires Sound(m) && IsPlace(m, p4, path) && PtOf(m.tables, p4, 4, path) == Some(pt) && pt in m.tables
    requires path[3] < |m.tables[pt]|
    requires IsUserLeaf(m, Leaf(pt, path[3])) && FreshFrame(m, g)
    requires m' == Dropped(m, m.tables[pt][path[3]].frame).(tables :=
             Store(m.tables, pt, path[3], Owned(m.tables[pt][path[3]], g)))
    ensures UserAt(m'.tables, p4, 4, path) == Some(g)
    ensures OneView(m, data, m', data[g := PageOf(data, m.tables[pt][path[3]].frame)], p4, path,
            View(m.tables, data, p4, path), true)
  {
    var e := m.tables[pt][path[3]];
    var data' := data[g := PageOf(data, e.frame)];
    LeafIs(m, p4, path);
    LeafStep(m.tables, m.nodes, pt, path[3], Owned(e, g), p4, 4, path);
    StoredNow(m, p4, path, pt, Owned(e, g));
    OnlyUserViews(m, data', m', p4, path, Some(g), true);
    forall x, q | IsPlace(m, x, q)
      ensures View(m.tables, data', x, q) == View(m.tables, data, x, q)
    {
      WriteUnseen(m, data, g, PageOf(data, e.frame), x, q);
    }
    hide View, Sound, TreeOk, Owners, UserAt, OpenAt;
  }

  lemma ClearedFresh(m: Mem, l: Leaf, g: FrameNumber, m': Mem)
    requires Sound(m) && IsUserLeaf(m, l) && FreshFrame(m, g) && l.pt in m.tables && l.idx < |m.tables[l.pt]|
    requires m' == Dropped(m, At(m, l).frame).(tables := Store(m.tables, l.pt, l.idx, Owned(At(m, l), g)))
    ensures var c := Cleared(m, l.pt, l.idx);
            && g !in c.free && g !in c.tables && RefAt(c.refs, c.base, g) == 1 && c.base == m.base && c.limit == m.limit
            && l.pt in c.tables && l.pt in c.nodes && c.nodes[l.pt].level == 1 && l.idx < |c.tables[l.pt]|
            && m' == c.(tables := Store(c.tables, l.pt, l.idx, Owned(At(m, l), g)))
  {
    OwnersAre(m, g);
    assert !Owns(m, l, g) && Owns(m, l, At(m, l).frame);
    var c := Cleared(m, l.pt, l.idx);
    assert m.tables[l.pt][l.idx := ZERO][l.idx := Owned(At(m, l), g)] == m.tables[l.pt][l.idx := Owned(At(m, l), g)];
    assert Store(Store(m.tables, l.pt, l.idx, ZERO), l.pt, l.idx, Owned(At(m, l), g)) ==
           Store(m.tables, l.pt, l.idx, Owned(At(m, l), g));
  }

  lemma FreeFrames(m: Mem)
    requires VmOk(m.tables, m.nodes, m.free)
    ensures forall f <- m.free :: 0 < f < FRAME_LIMIT
  {
  }

  lemma SoundIsVm(m: Mem)
    requires Sound(m)
    ensures VmOk(m.tables, m.nodes, m.free)
  {
  }

  /** `frame_dec`, as the whole memory sees it. */
  method DropFrame(vm: AddressSpaces, f: nat)
    requires vm.pmm.Valid()
    modifies vm.pmm`freeFrames, vm.pmm`hint, vm.pmm.bm, vm.pmm.refs
    ensures vm.pmm.Valid() && vm.Now() == Dropped(old(vm.Now()), f)
  {
    hide FrameManager.Valid, FrameManager.Free;
    vm.pmm.FromValid();
    var freed := vm.pmm.FrameDec(f);
  }

  /** `frame_cow_copy`: a fresh frame with the same contents, and one reference less to the old one. */
  method FrameCowCopy(vm: AddressSpaces, oldPhys: nat) returns (a: Allocation)
    requires vm.Valid() && oldPhys !in vm.pmm.Free() && oldPhys !in vm.tables && 0 < oldPhys < FRAME_LIMIT
    modifies vm`data, vm.pmm`freeFrames, vm.pmm`hint, vm.pmm.bm, vm.pmm.refs
    ensures vm.pmm.Valid()
    ensures a == OutOfMemory ==> vm.pmm.Free() == {}
    ensures a.Frame? ==>
              var m, g := old(vm.Now()), a.frame;
              && g in m.free && 0 < g < FRAME_LIMIT && m.base <= g < m.base + m.limit && m.limit <= |m.refs|
              && vm.data == old(vm.data)[g := PageOf(old(vm.data), oldPhys)]
              && vm.Now() == Dropped(m.(free := m.free - {g}, refs := m.refs[g - m.base := 1]), oldPhys)
  {
    hide FrameManager.Valid, FrameManager.Free, VmOk, TreeOk, Dropped;
    vm.pmm.FromValid();
    vm.pmm.FreeBits();
    ghost var m := vm.Now();
    FreeFrames(m);
    a := vm.pmm.AllocNoLock();
    if a == OutOfMemory { return; }
    vm.data := vm.data[a.frame := PageOf(vm.data, oldPhys)];
    vm.pmm.FrameInit(a.frame);
    assert vm.Now() == m.(free := m.free - {a.frame}, refs := m.refs[a.frame - m.base := 1]);
    DropFrame(vm, oldPhys);
  }

  /**
   Resolves a write fault on a copy-on-write page: what anyone reads stays the same, the page may be
   written, and it keeps its frame exactly when nobody else is counted for it.
   */
  method HandleCowFault(vm: AddressSpaces, p4: nat, faultAddr: nat) returns (r: FaultResult)
    requires vm.Valid() && Sound(vm.Now()) && IsPlace(vm.Now(), p4, PathOf(faultAddr))
    requires OnlyUserThere(vm.Now(), p4, PathOf(faultAddr))
    modifies vm, vm.pmm`freeFrames, vm.pmm`hint, vm.pmm.bm, vm.pmm.refs
    ensures r == Denied <==> var e := At(old(vm.Now()), LeafAt(old(vm.Now()), p4, PathOf(faultAddr))); !e.p || !e.cow
    ensures r == Denied ==> vm.Now() == old(vm.Now()) && vm.data == old(vm.data) && vm.Valid()
    ensures r == NoMemory ==> vm.pmm.Free() == {}
    ensures r == Resolved ==>
              && vm.Valid() && Sound(vm.Now()) && Writable(vm.Now(), p4, PathOf(faultAddr))
              && (AllCounted(old(vm.Now())) ==> AllCounted(vm.Now()))
              && SameViews(old(vm.Now()), old(vm.data), vm.Now(), vm.data) && RootsKept(old(vm.Now()), vm.Now(), p4)
              && Reopened(At(old(vm.Now()), LeafAt(old(vm.Now()), p4, PathOf(faultAddr))),
                 At(vm.Now(), LeafAt(vm.Now(), p4, PathOf(faultAddr))))
    ensures r == Resolved ==>
              var f := At(old(vm.Now()), LeafAt(old(vm.Now()), p4, PathOf(faultAddr))).frame;
              UserAt(vm.tables, p4, 4, PathOf(faultAddr)) == Some(f)
              <==> RefAt(old(vm.Now()).refs, old(vm.Now()).base, f) <= 1
  {
    hide FrameManager.Valid, FrameManager.Free, VmOk, Sound, PtOf, UserAt, View, OneView, SameViews, PathOf;
    hide Writable, Owners, Dropped, IsUserLeaf, LeafSound, AllCounted, Reopened, RootsKept, OpenAt;
    vm.pmm.FromValid();
    var v := faultAddr - faultAddr % PAGE_SIZE;
    PageStart(faultAddr);
    ghost var m, data0 := vm.Now(), vm.data;
    var path := PathOf(v);
    UpperWalk(m, p4, path);
    if !vm.tables[p4][path[0]].p { return Denied; }
    var p3 := vm.tables[p4][path[0]].frame;
    if !vm.tables[p3][path[1]].p { return Denied; }
    var p2 := vm.tables[p3][path[1]].frame;
    if !vm.tables[p2][path[2]].p { return Denied; }
    var p1 := vm.tables[p2][path[2]].frame;
    var e := vm.tables[p1][path[3]];
    if !e.p || !e.cow { return Denied; }
    UserThere(m, p4, path, p1);
    MarkedIsOpen(m, p4, path, p1);
    NotRoot(m, p4, path, p1);
    if !vm.pmm.FrameShared(e.frame) {
      vm.tables := Store(vm.tables, p1, path[3], Owned(e, e.frame));
      InPlace(m, data0, p4, path, p1);
      SoundIsVm(vm.Now());
      StoreKeepsRoots(m, vm.Now(), p1, p4);
      NothingSeen(m, data0, vm.Now(), vm.data, p4, path);
    } else {
      var a := FrameCowCopy(vm, e.frame);
      if a == OutOfMemory { return NoMemory; }
      ghost var m1 := m.(free := m.free - {a.frame}, refs := m.refs[a.frame - m.base := 1]);
      vm.tables := Store(vm.tables, p1, path[3], Owned(e, a.frame));
      Taken(m, m1, a.frame);
      DroppedKeeps(m1, e.frame);
      UserThere(m1, p4, path, p1);
      MarkedIsOpen(m1, p4, path, p1);
      Copied(m1, data0, p4, path, p1, a.frame, vm.Now());
      SoundIsVm(vm.Now());
      StoreKeepsRoots(m, vm.Now(), p1, p4);
      NothingSeen(m1, data0, vm.Now(), vm.data, p4, path);
      SameViewsFrom(m, m1, data0, vm.Now(), vm.data);
    }
    return Resolved;
  }

  lemma MarkedIsOpen(m: Mem, p4: nat, path: seq<nat>, pt: nat)
    requires Sound(m) && IsPlace(m, p4, path) && PtOf(m.tables, p4, 4, path) == Some(pt)
    requires IsUserLeaf(m, Leaf(pt, path[3]))
    ensures pt in m.tables && path[3] < |m.tables[pt]|
    ensures m.tables[pt][path[3]].cow ==> OpenAt(m.tables, p4, 4, path)
  {
    LeafIs(m, p4, path);
  }

  lemma NotRoot(m: Mem, p4: nat, path: seq<nat>, pt: nat)
    requires Sound(m) && IsPlace(m, p4, path) && PtOf(m.tables, p4, 4, path) == Some(pt)
    ensures pt in m.nodes && m.nodes[pt].level == 1
  {
    LeafIs(m, p4, path);
  }

  lemma DroppedKeeps(m: Mem, f: nat)
    ensures Dropped(m, f).tables == m.tables && Dropped(m, f).nodes == m.nodes
  {
  }

  /** What the walk to a user page ends in. */
  lemma UserThere(m: Mem, p4: nat, path: seq<nat>, pt: nat)
    requires Sound(m) && IsPlace(m, p4, path) && PtOf(m.tables, p4, 4, path) == Some(pt) && OnlyUserThere(m, p4, path)
    requires pt in m.tables && path[3] < |m.tables[pt]| && m.tables[pt][path[3]].p
    ensures LeafAt(m, p4, path) == Leaf(pt, path[3]) && IsUserLeaf(m, Leaf(pt, path[3]))
    ensures var f := m.tables[pt][path[3]].frame;
            f !in m.free && f !in m.tables && f > 0 && m.base <= f < m.base + |m.refs|
  {
    LeafIs(m, p4, path);
    assert LeafSound(m, Leaf(pt, path[3]));
  }

  lemma NothingSeen(m: Mem, data: map<nat, Page>, m': Mem, data': map<nat, Page>, r: nat, path: seq<nat>)
    requires OneView(m, data, m', data', r, path, View(m.tables, data, r, path), OpenAt(m.tables, r, 4, path))
    ensures SameViews(m, data, m', data')
  {
  }

  lemma SameViewsFrom(m: Mem, m1: Mem, data: map<nat, Page>, m': Mem, data': map<nat, Page>)
    requires m1.tables == m.tables && m1.nodes == m.nodes && SameViews(m1, data, m', data')
    ensures SameViews(m, data, m', data')
  {
    hide View, OpenAt;
    forall x, q | IsPlace(m, x, q)
      ensures IsPlace(m1, x, q)
    {
    }
  }

  datatype StoreResult = Stored | Refused | OutOfFrames

  /**
   A write by user code to a whole page: through a writable entry it goes to the frame, otherwise the
   fault handler is asked first. The writer sees what it wrote, and nobody else sees anything.
   */
  method UserStore(vm: AddressSpaces, p4: nat, v: nat, page: Page) returns (r: StoreResult)
    requires vm.Valid() && Sound(vm.Now()) && IsPlace(vm.Now(), p4, PathOf(v))
    modifies vm, vm.pmm`freeFrames, vm.pmm`hint, vm.pmm.bm, vm.pmm.refs
    ensures r == OutOfFrames ==> vm.pmm.Free() == {}
    ensures r != OutOfFrames ==> vm.Valid() && Sound(vm.Now())
    ensures r == Refused ==> vm.Now() == old(vm.Now()) && vm.data == old(vm.data)
    ensures r == Refused <==> !OpenAt(old(vm.tables), p4, 4, PathOf(v))
    ensures r == Stored ==>
              && OneView(old(vm.Now()), old(vm.data), vm.Now(), vm.data, p4, PathOf(v), Some(page), true)
              && RootsKept(old(vm.Now()), vm.Now(), p4)
    ensures r != OutOfFrames && AllCounted(old(vm.Now())) ==> AllCounted(vm.Now())
  {
    hide FrameManager.Valid, FrameManager.Free, VmOk, Sound, PtOf, UserAt, View, OneView, SameViews, PathOf;
    hide Writable, Owners, AllCounted, RootsKept, OpenAt;
    vm.pmm.FromValid();
    ghost var m, data0 := vm.Now(), vm.data;
    var path := PathOf(v);
    LeafNow(m, p4, path);
    var pt := PtOf(vm.tables, p4, 4, path);
    if pt == None { return Refused; }
    var e := vm.tables[pt.value][path[3]];
    if !e.p || !e.u { return Refused; }
    if !e.w {
      var fault := HandleCowFault(vm, p4, v);
      if fault == Denied { return Refused; }
      if fault == NoMemory { return OutOfFrames; }
    } else {
      SameViewsAtAll(m, data0);
      RootsAsTheyWere(m, p4);
    }
    ghost var m1, data1 := vm.Now(), vm.data;
    StillPlace(m, data0, m1, data1, p4, path);
    LeafNow(m1, p4, path);
    pt := PtOf(vm.tables, p4, 4, path);
    e := vm.tables[pt.value][path[3]];
    vm.data := vm.data[e.frame := page];
    WriteThrough(m, data0, m1, data1, p4, path, page);
    return Stored;
  }

  lemma StillPlace(m: Mem, data: map<nat, Page>, m': Mem, data': map<nat, Page>, r: nat, path: seq<nat>)
    requires SameViews(m, data, m', data') && IsPlace(m, r, path)
    ensures IsPlace(m', r, path)
  {
  }

  lemma RootsAsTheyWere(m: Mem, r: nat)
    ensures RootsKept(m, m, r)
  {
  }

  lemma SameViewsAtAll(m: Mem, data: map<nat, Page>)
    ensures SameViews(m, data, m, data)
  {
  }

  /** How the walk and the entry it finds are seen from the code. */
  lemma LeafNow(m: Mem, p4: nat, path: seq<nat>)
    requires Sound(m) && IsPlace(m, p4, path)
    ensures var pt := PtOf(m.tables, p4, 4, path);
            && (pt.Some? ==>
               && pt.value in m.tables && |m.tables[pt.value]| == ENTRIES
               && LeafAt(m, p4, path) == Leaf(pt.value, path[3]))
            && (IsUserLeaf(m, LeafAt(m, p4, path)) <==>
                  pt.Some? && m.tables[pt.value][path[3]].p && m.tables[pt.value][path[3]].u)
            && (OpenAt(m.tables, p4, 4, path) <==> pt.Some? && IsOpen(m.tables[pt.value][path[3]]))
            && (Writable(m, p4, path) <==>
                  pt.Some? && m.tables[pt.value][path[3]].p && m.tables[pt.value][path[3]].u
                      && m.tables[pt.value][path[3]].w)
  {
    LeafIs(m, p4, path);
  }

  /** A writable page is nobody else's, so a write to its frame is seen there only. */
  lemma WriteThrough(m: Mem, data: map<nat, Page>, m1: Mem, data1: map<nat, Page>, p4: nat, path: seq<nat>, page: Page)
    requires Sound(m1) && IsPlace(m, p4, path) && SameViews(m, data, m1, data1) && Writable(m1, p4, path)
    ensures OneView(m, data, m1, data1[At(m1, LeafAt(m1, p4, path)).frame := page], p4, path, Some(page),
            OpenAt(m1.tables, p4, 4, path))
  {
    assert LeafSound(m1, LeafAt(m1, p4, path));
    forall x, q | IsPlace(m, x, q)
      ensures View(m1.tables, data1[At(m1, LeafAt(m1, p4, path)).frame := page], x, q) ==
              if x == p4 && q == path then Some(page) else View(m.tables, data, x, q)
    {
      WriteSolo(m1, data1, p4, path, page, x, q);
    }
  }
}
