/**
 Ranges of pages of one address space: mapping fresh zeroed pages and unmapping, page by page, with
 what that means for every page of every root.
 */
module UserPages {
  import opened Sizes
  import opened Options
  import opened PageTables
  import opened Pmm
  import opened Vmm
  import opened CopyOnWrite
  import T = VmaTable

  /** The indices of page `k` of a range. */
  function PagePath(base: nat, k: nat): seq<nat> {
    PathOf(base + PAGE_SIZE * k)
  }

  /** Page `q` of the root `x` is one of the first `n` pages of the range, or shows the same as one of them. */
  ghost predicate InRange(tables: Tables, p4: nat, x: nat, q: seq<nat>, base: nat, n: nat)
    requires IsPath(q, 4)
  {
    exists k: nat :: k < n && ShowsPage(tables, p4, x, q, base, k)
  }

  ghost predicate ShowsPage(tables: Tables, p4: nat, x: nat, q: seq<nat>, base: nat, k: nat)
    requires IsPath(q, 4)
  {
    q[1..] == PagePath(base, k)[1..] && Sees(tables, x, q[0], p4, PagePath(base, k)[0])
  }

  /** Which slots lead to the same tables as those of `p4` is as it was. */
  ghost predicate SeesKept(m0: Mem, m: Mem, p4: nat) {
    forall x, j, i | IsP4(m0, x) && 0 <= j < ENTRIES && 0 <= i < ENTRIES :: Sees(m.tables, x, j, p4, i)
        <==> Sees(m0.tables, x, j, p4, i)
  }

  /** Only frames that were free were written, and none became free. */
  ghost predicate OldDataKept(m0: Mem, data0: map<nat, Page>, m: Mem, data: map<nat, Page>) {
    m.free <= m0.free && forall f | f !in m0.free :: PageOf(data, f) == PageOf(data0, f)
  }

  lemma PathOfPage(base: nat, k: nat)
    ensures IsPath(PagePath(base, k), 4)
  {
  }

  lemma StillOk(m: Mem, m': Mem)
    requires VmOk(m.tables, m.nodes, m.free) && m'.tables == m.tables && m'.nodes == m.nodes && m'.free <= m.free
    ensures VmOk(m'.tables, m'.nodes, m'.free)
  {
  }

  lemma StoredKeeps(m: Mem, m': Mem, p4: nat, path: seq<nat>, e: Pte, mid: Mem, pt: nat)
    requires VmOk(m.tables, m.nodes, m.free) && EntryStored(m, m', p4, path, e, mid, pt)
    ensures m'.free <= m.free && (forall x | IsP4(m, x) :: IsP4(m', x)) && SeesKept(m, m', p4)
  {
    PtIsTable(mid.tables, mid.nodes, p4, 4, path);
    hide Agree, TreeOk, PtOf, SlotsKept, Sees;
    forall x, j, i | IsP4(m, x) && 0 <= j < ENTRIES && 0 <= i < ENTRIES
      ensures Sees(m'.tables, x, j, p4, i) <==> Sees(m.tables, x, j, p4, i)
    {
      GrownSees(p4, m.tables, m.nodes, m.free, mid.tables, mid.nodes, mid.free, x, j, i);
      SameSees(mid, m', pt, x, j, p4, i);
    }
  }

  lemma SameSees(m: Mem, m': Mem, pt: nat, x: nat, j: nat, p4: nat, i: nat)
    requires IsP4(m, x) && IsP4(m, p4) && pt in m.tables && pt in m.nodes && m.nodes[pt].level == 1
    requires m'.tables.Keys == m.tables.Keys
    requires forall t <- m.tables :: t != pt ==> m'.tables[t] == m.tables[t]
    ensures Sees(m'.tables, x, j, p4, i) <==> Sees(m.tables, x, j, p4, i)
  {
  }

  // ----- mapping -----

  /** What user code sees of the pages of a range: fresh zeroes. */
  ghost predicate ReadsZero(m: Mem, data: map<nat, Page>, x: nat, q: seq<nat>, open: bool) {
    match UserAt(m.tables, x, 4, q)
    case None => false
    case Some(f) => f !in m.free && PageOf(data, f) == ZeroPage() && OpenAt(m.tables, x, 4, q) == open
  }

  /** The first `n` pages of the range, and those that show the same, read as zeroes; all others are as before. */
  ghost predicate Zeroed(m0: Mem, data0: map<nat, Page>, m: Mem, data: map<nat, Page>, p4: nat, base: nat, n: nat,
      open: bool) {
    && (forall x | IsP4(m0, x) :: IsP4(m, x)) && SeesKept(m0, m, p4) && OldDataKept(m0, data0, m, data)
    && forall x, q | IsP4(m0, x) && IsPath(q, 4) ::
         if InRange(m0.tables, p4, x, q, base, n) then ReadsZero(m, data, x, q, open) else SameUser(m0, m, x, q)
  }

  ghost predicate SameUser(m0: Mem, m: Mem, x: nat, q: seq<nat>) {
    UserAt(m.tables, x, 4, q) == UserAt(m0.tables, x, 4, q) && OpenAt(m.tables, x, 4, q) == OpenAt(m0.tables, x, 4, q)
  }

  lemma ZeroedNone(m: Mem, data: map<nat, Page>, p4: nat, base: nat, open: bool)
    ensures Zeroed(m, data, m, data, p4, base, 0, open)
  {
  }

  /** One page more. */
  lemma ZeroedNext(m0: Mem, data0: map<nat, Page>, m: Mem, data: map<nat, Page>, m': Mem, data': map<nat, Page>,
      p4: nat, base: nat, n: nat, open: bool, g: FrameNumber)
    requires IsP4(m0, p4) && Zeroed(m0, data0, m, data, p4, base, n, open)
    requires g in m.free && data' == data[g := ZeroPage()] && m'.free <= m.free - {g}
    requires (forall x | IsP4(m, x) :: IsP4(m', x)) && SeesKept(m, m', p4) && IsPath(PagePath(base, n), 4)
    requires OnlyUserPage(m.tables, m.nodes, m'.tables, p4, PagePath(base, n), Some(g), open)
    ensures Zeroed(m0, data0, m', data', p4, base, n + 1, open)
  {
    hide UserAt, OpenAt, PagePath, Sees, ZeroPage;
    forall x, q | IsP4(m0, x) && IsPath(q, 4)
      ensures if InRange(m0.tables, p4, x, q, base, n + 1) then ReadsZero(m', data', x, q, open)
              else SameUser(m0, m', x, q)
    {
      assert IsP4(m, x);
      RangeNext(m0.tables, p4, x, q, base, n);
      assert Sees(m.tables, x, q[0], p4, PagePath(base, n)[0]) <==> Sees(m0.tables, x, q[0], p4, PagePath(base, n)[0]);
      assert ShowsPage(m0.tables, p4, x, q, base, n)
             <==> q[1..] == PagePath(base, n)[1..] && Sees(m.tables, x, q[0], p4, PagePath(base, n)[0]);
    }
    forall x, j, i | IsP4(m0, x) && 0 <= j < ENTRIES && 0 <= i < ENTRIES
      ensures Sees(m'.tables, x, j, p4, i) <==> Sees(m0.tables, x, j, p4, i)
    {
      assert IsP4(m, x);
    }
  }

  lemma RangeNext(tables: Tables, p4: nat, x: nat, q: seq<nat>, base: nat, n: nat)
    requires IsPath(q, 4)
    ensures InRange(tables, p4, x, q, base, n + 1)
            <==> InRange(tables, p4, x, q, base, n) || ShowsPage(tables, p4, x, q, base, n)
  {
    hide ShowsPage;
  }

  /** Address arithmetic has 64 bits, and 48 of them count. */
  lemma WrappedPath(base: nat, k: nat)
    ensures PathOf((base + PAGE_SIZE * k) % WORD_LIMIT) == PagePath(base, k)
    ensures ((base + PAGE_SIZE * k) % WORD_LIMIT) % PAGE_SIZE == base % PAGE_SIZE
  {
    var v := base + PAGE_SIZE * k;
    var w, c := v % WORD_LIMIT, v / WORD_LIMIT;
    assert v == w + 0x1_0000_0000_0000_0000 * c;
    WrapDigits(w, c, v);
    assert v % PAGE_SIZE == base % PAGE_SIZE;
  }

  lemma WrapDigits(w: nat, c: nat, v: nat)
    requires v == w + 0x1_0000_0000_0000_0000 * c
    ensures PathOf(v) == PathOf(w) && v % PAGE_SIZE == w % PAGE_SIZE
  {
    assert v == w + 0x1_0000_0000_0000 * (0x1_0000 * c);
    PathAbove(w, 0x1_0000 * c, v);
  }

  /** Only 48 bits of an address count. */
  lemma PathAbove(w: nat, c: nat, v: nat)
    requires v == w + 0x1_0000_0000_0000 * c
    ensures PathOf(v) == PathOf(w) && v % PAGE_SIZE == w % PAGE_SIZE
  {
    Digit39(w, v, c);
    Digit30(w, v, 512 * c);
    Digit21(w, v, 0x4_0000 * c);
    Digit12(w, v, 0x800_0000 * c);
  }

  lemma Digit39(w: nat, v: nat, d: nat)
    requires v == w + 0x80_0000_0000 * (512 * d)
    ensures v / 0x80_0000_0000 % 512 == w / 0x80_0000_0000 % 512
  {
    assert v / 0x80_0000_0000 == w / 0x80_0000_0000 + 512 * d;
  }

  lemma Digit30(w: nat, v: nat, d: nat)
    requires v == w + 0x4000_0000 * (512 * d)
    ensures v / 0x4000_0000 % 512 == w / 0x4000_0000 % 512
  {
    assert v / 0x4000_0000 == w / 0x4000_0000 + 512 * d;
  }

  lemma Digit21(w: nat, v: nat, d: nat)
    requires v == w + 0x20_0000 * (512 * d)
    ensures v / 0x20_0000 % 512 == w / 0x20_0000 % 512
  {
    assert v / 0x20_0000 == w / 0x20_0000 + 512 * d;
  }

  lemma Digit12(w: nat, v: nat, d: nat)
    requires v == w + 0x1000 * (512 * d)
    ensures v / 0x1000 % 512 == w / 0x1000 % 512 && v % 0x1000 == w % 0x1000
  {
    assert v / 0x1000 == w / 0x1000 + 512 * d;
  }

  /**
   Fresh zeroed pages from `base` on. From an address that is not page aligned on, every page costs a frame and
   none is mapped: the refusal of `vmap` is not looked at.
   */
  method MapZeros(vm: AddressSpaces, p4: nat, base: nat, count: nat, f: Flags) returns (ok: bool)
    requires vm.Valid() && IsP4(vm.Now(), p4) && p4 != 0 && f.u
    modifies vm, vm.pmm`freeFrames, vm.pmm`hint, vm.pmm.bm, vm.pmm.refs
    ensures vm.pmm.bm.Length == BM_WORDS
    ensures !ok ==> vm.pmm.Free() == {}
    ensures ok ==> vm.Valid() && IsP4(vm.Now(), p4)
    ensures ok && base % PAGE_SIZE == 0 ==>
              Zeroed(old(vm.Now()), old(vm.data), vm.Now(), vm.data, p4, base, count, f.w || f.cow)
    ensures ok && base % PAGE_SIZE == 0 ==>
              forall x | IsP4(old(vm.Now()), x) :: ShownAfter(old(vm.Now()), vm.Now(), p4, base, count, x)
    ensures ok && base % PAGE_SIZE == 0 ==> AllMapped(vm.Now(), p4, base, count, f)
    ensures ok && base % PAGE_SIZE != 0 ==> vm.tables == old(vm.tables) && vm.nodes == old(vm.nodes)
  {
    hide FrameManager.Valid, FrameManager.Free, VmOk, OnlyPage, OnlyUserPage, EntryStored, PathOf, ZeroPage;
    hide Zeroed, PagePath, ShownAfter, MappedWith, WaysKept;
    vm.pmm.FromValid();
    ghost var m0, data0 := vm.Now(), vm.data;
    ZeroedNone(m0, data0, p4, base, f.w || f.cow);
    for k := 0 to count
      invariant vm.Valid() && IsP4(vm.Now(), p4)
      invariant base % PAGE_SIZE == 0 ==> Zeroed(m0, data0, vm.Now(), vm.data, p4, base, k, f.w || f.cow)
      invariant base % PAGE_SIZE == 0 ==> AllMapped(vm.Now(), p4, base, k, f)
      invariant base % PAGE_SIZE != 0 ==> vm.tables == old(vm.tables) && vm.nodes == old(vm.nodes)
    {
      ghost var m, data := vm.Now(), vm.data;
      WrappedPath(base, k);
      var r;
      ghost var g;
      r, g := MapZero(vm, p4, (base + PAGE_SIZE * k) % WORD_LIMIT, f);
      if r == Exhausted { return false; }
      if base % PAGE_SIZE == 0 {
        PathOfPage(base, k);
        ZeroedNext(m0, data0, m, data, vm.Now(), vm.data, p4, base, k, f.w || f.cow, g);
        MappedNext(m, vm.Now(), p4, base, k, f);
      }
    }
    if base % PAGE_SIZE == 0 {
      forall x | IsP4(m0, x)
        ensures ShownAfter(m0, vm.Now(), p4, base, count, x)
      {
        ShownByOthers(m0, data0, vm.Now(), vm.data, p4, base, count, f.w || f.cow, x);
      }
    }
    return true;
  }

  /** One fresh zeroed page, at `v` if that is page aligned. */
  method MapZero(vm: AddressSpaces, p4: nat, v: nat, f: Flags) returns (r: MapResult, ghost g: FrameNumber)
    requires vm.Valid() && IsP4(vm.Now(), p4) && p4 != 0 && f.u
    modifies vm, vm.pmm`freeFrames, vm.pmm`hint, vm.pmm.bm, vm.pmm.refs
    ensures vm.pmm.bm.Length == BM_WORDS
    ensures r == Exhausted ==> vm.pmm.Free() == {}
    ensures r == Invalid <==> r != Exhausted && v % PAGE_SIZE != 0
    ensures r != Exhausted ==> vm.Valid() && IsP4(vm.Now(), p4)
    ensures r == Invalid ==> vm.tables == old(vm.tables) && vm.nodes == old(vm.nodes)
    ensures r == Mapped ==>
              && g in old(vm.pmm.Free()) && vm.data == old(vm.data)[g := ZeroPage()]
                 && vm.pmm.Free() <= old(vm.pmm.Free()) - {g}
              && (forall x | IsP4(old(vm.Now()), x) :: IsP4(vm.Now(), x)) && SeesKept(old(vm.Now()), vm.Now(), p4)
              && OnlyPage(old(vm.tables), old(vm.nodes), vm.tables, p4, PathOf(v), Some(g))
              && OnlyUserPage(old(vm.tables), old(vm.nodes), vm.tables, p4, PathOf(v), Some(g), f.w || f.cow)
              && MappedWith(vm.Now(), p4, PathOf(v), f) && WaysKept(old(vm.Now()), vm.Now(), p4, PathOf(v))
  {
    hide FrameManager.Valid, FrameManager.Free, VmOk, OnlyPage, OnlyUserPage, EntryStored, PathOf, ZeroPage;
    hide WaysKept, Way;
    vm.pmm.FromValid();
    vm.pmm.FreeBits();
    ghost var m := vm.Now();
    FreeFrames(m);
    g := 0;
    var a := vm.pmm.AllocNoLock();
    if a == OutOfMemory { return Exhausted, g; }
    ghost var m1 := vm.Now();
    StillOk(m, m1);
    g := a.frame;
    vm.data := vm.data[a.frame := ZeroPage()];
    ghost var mid, pt;
    r, mid, pt := vm.Vmap(p4, v, a.frame * PAGE_SIZE, f);
    if r == Mapped {
      StoredKeeps(m1, vm.Now(), p4, PathOf(v), Make(a.frame, f), mid, pt);
      SameWaysKept(m, m1, vm.Now(), p4, PathOf(v));
    }
  }

  /** Every page of the range is mapped with these flags. */
  ghost predicate AllMapped(m: Mem, p4: nat, base: nat, n: nat, f: Flags) {
    forall k: nat | k < n :: IsPath(PagePath(base, k), 4) && MappedWith(m, p4, PagePath(base, k), f)
  }

  lemma MappedNext(m: Mem, m': Mem, p4: nat, base: nat, n: nat, f: Flags)
    requires IsP4(m, p4) && AllMapped(m, p4, base, n, f) && IsPath(PagePath(base, n), 4)
    requires WaysKept(m, m', p4, PagePath(base, n)) && MappedWith(m', p4, PagePath(base, n), f)
    ensures AllMapped(m', p4, base, n + 1, f)
  {
    hide MappedWith, WaysKept, PagePath;
    forall k: nat | k < n
      ensures IsPath(PagePath(base, k), 4) && MappedWith(m', p4, PagePath(base, k), f)
    {
      StaysMapped(m, m', p4, PagePath(base, n), p4, PagePath(base, k), f);
    }
  }

  lemma SameWaysKept(m: Mem, m1: Mem, m': Mem, p4: nat, path: seq<nat>)
    requires IsPath(path, 4) && m1.tables == m.tables && m1.nodes == m.nodes && WaysKept(m1, m', p4, path)
    requires SeesKept(m1, m', p4)
    ensures WaysKept(m, m', p4, path) && SeesKept(m, m', p4)
  {
    hide Sees;
    forall x, q | IsP4(m, x) && IsPath(q, 4) && SmallWay(m, x, q)
      ensures WayKept(m, m', x, q, if q[1..] == path[1..] && Sees(m.tables, x, q[0], p4, path[0])
                                   then Way(m', p4, path).3 else Way(m, x, q).3)
    {
      assert IsP4(m1, x) && SmallWay(m1, x, q) && Way(m1, x, q) == Way(m, x, q);
    }
  }

  // ----- unmapping -----

  /** The way to the page meets no huge page, and what is mapped there is no page table. */
  ghost predicate CanDrop(m: Mem, p4: nat, path: seq<nat>)
    requires IsPath(path, 4)
  {
    var e4 := Entry(m, p4, path[0]);
    var e3 := Entry(m, e4.frame, path[1]);
    var e2 := Entry(m, e3.frame, path[2]);
    var e1 := Entry(m, e2.frame, path[3]);
    e4.p && e3.p && e2.p ==> !e2.ps && (e1.p ==> e1.frame > 0 && e1.frame !in m.tables)
  }

  /** A page of the slot that translates and is none of the range. */
  ghost predicate IsAnchor(m: Mem, p4: nat, i: nat, base: nat, n: nat, q: seq<nat>) {
    IsPath(q, 4) && q[0] == i && Translate(m.tables, p4, 4, q).Some? && forall k: nat | k < n ::
        q[1..] != PagePath(base, k)[1..]
  }

  /** Nobody else has the slot, or it keeps a page of its own. */
  ghost predicate Anchored(m: Mem, p4: nat, i: nat, base: nat, n: nat) {
    i < UPPER ==> SlotOfOne(m, p4, i) || exists q :: IsAnchor(m, p4, i, base, n, q)
  }

  /** The pages of the range may be unmapped one after the other. */
  ghost predicate CanUnmap(m: Mem, p4: nat, base: nat, n: nat) {
    && IsP4(m, p4)
    && forall k: nat | k < n ::
       && IsPath(PagePath(base, k), 4) && CanDrop(m, p4, PagePath(base, k))
       && Anchored(m, p4, PagePath(base, k)[0], base, n)
  }

  lemma ToUnmappable(m: Mem, p4: nat, base: nat, n: nat, k: nat)
    requires VmOk(m.tables, m.nodes, m.free) && CanUnmap(m, p4, base, n) && k < n
    ensures Unmappable(m, p4, PagePath(base, k)) && Reaches(m, p4, PagePath(base, k))
  {
    hide VmOk, Translate, PagePath;
    var path := PagePath(base, k);
    assert CanDrop(m, p4, path) && Anchored(m, p4, path[0], base, n);
    if path[0] < UPPER && !SlotOfOne(m, p4, path[0]) {
      var q :| IsAnchor(m, p4, path[0], base, n, q);
      AnchorHolds(m, p4, path, q);
    }
  }

  /** Where another page translates, the tables on the way hold something else. */
  lemma AnchorHolds(m: Mem, p4: nat, path: seq<nat>, q: seq<nat>)
    requires VmOk(m.tables, m.nodes, m.free) && IsP4(m, p4) && IsPath(path, 4) && IsPath(q, 4) && CanDrop(m, p4, path)
    requires q[0] == path[0] && q[1..] != path[1..] && Translate(m.tables, p4, 4, q).Some?
    ensures var e4 := Entry(m, p4, path[0]);
            var e3 := Entry(m, e4.frame, path[1]);
            var e2 := Entry(m, e3.frame, path[2]);
            e4.p && e3.p && e2.p ==> !NothingElse(m, e4.frame, e3.frame, e2.frame, path)
  {
    WalkFacts(m, p4, q);
    hide VmOk, Translate;
    assert q[1..] == [q[1], q[2], q[3]] && path[1..] == [path[1], path[2], path[3]];
    var p3 := Entry(m, p4, path[0]).frame;
    var p2 := Entry(m, p3, path[1]).frame;
    var p1 := Entry(m, p2, path[2]).frame;
    assert NoneBut(m, p3, path[1]) && q[1] != path[1] ==> Entry(m, p3, q[1]) == ZERO;
    assert NoneBut(m, p2, path[2]) && q[2] != path[2] ==> Entry(m, p2, q[2]) == ZERO;
    assert NoneBut(m, p1, path[3]) && q[3] != path[3] ==> Entry(m, p1, q[3]) == ZERO;
    hide NoneBut;
  }

  /** Unmapping one page of the range leaves the others ready for it. */
  lemma StillCan(m: Mem, m': Mem, p4: nat, base: nat, n: nat, k: nat)
    requires VmOk(m.tables, m.nodes, m.free) && VmOk(m'.tables, m'.nodes, m'.free) && CanUnmap(m, p4, base, n) && k < n
    requires IsPath(PagePath(base, k), 4) && OnlyPage(m.tables, m.nodes, m'.tables, p4, PagePath(base, k), None)
    requires Unmapped(m, m', p4, PagePath(base, k)) && SlotsAfter(m, m', p4, PagePath(base, k)[0])
    ensures CanUnmap(m', p4, base, n)
  {
    UnmappedKeys(m, m', p4, PagePath(base, k));
    hide VmOk, Translate, PagePath, PtOf, Unmapped, OnlyPage;
    forall l: nat | l < n
      ensures IsPath(PagePath(base, l), 4) && CanDrop(m', p4, PagePath(base, l))
      ensures Anchored(m', p4, PagePath(base, l)[0], base, n)
    {
      var path := PagePath(base, l);
      assert CanDrop(m, p4, path) && Anchored(m, p4, path[0], base, n);
      DropStays(m, m', p4, PagePath(base, k), path);
      AnchorStays(m, m', p4, path[0], base, n, k);
    }
  }

  lemma UnmappedKeys(m: Mem, m': Mem, p4: nat, path: seq<nat>)
    requires IsPath(path, 4) && Unmapped(m, m', p4, path)
    ensures m'.tables.Keys <= m.tables.Keys && m'.nodes.Keys <= m.nodes.Keys
    ensures forall t <- m'.nodes :: m'.nodes[t] == m.nodes[t]
  {
    match PtOf(m.tables, p4, 4, path) {
      case None =>
      case Some(pt) =>
        ClearedNodes(m, pt, path[3]);
        ClearedFewer(m, pt, path[3]);
        hide Agree, Cleared, Fewer;
    }
  }

  lemma DropStays(m: Mem, m': Mem, p4: nat, gone: seq<nat>, path: seq<nat>)
    requires VmOk(m.tables, m.nodes, m.free) && VmOk(m'.tables, m'.nodes, m'.free) && IsP4(m, p4) && IsP4(m', p4)
    requires IsPath(gone, 4) && IsPath(path, 4) && Unmapped(m, m', p4, gone) && CanDrop(m, p4, path)
    ensures CanDrop(m', p4, path)
  {
    match PtOf(m.tables, p4, 4, gone) {
      case None =>
      case Some(pt) =>
        var m1 := Cleared(m, pt, gone[3]);
        ClearedNodes(m, pt, gone[3]);
        PtIsTable(m.tables, m.nodes, p4, 4, gone);
        ClearedFewer(m, pt, gone[3]);
        FewerEntries(m, m1, m', pt);
        ShrunkKeys(m1, m');
        hide Shrunk, PtOf, Unmapped, Cleared, IsTable;
        DropFewer(m, m', p4, path);
    }
  }

  /** Every entry that is present was there before. */
  ghost predicate Fewer(m: Mem, m': Mem) {
    forall t, j: nat :: Entry(m', t, j).p ==> Entry(m', t, j) == Entry(m, t, j)
  }

  lemma ClearedFewer(m: Mem, pt: nat, i: nat)
    requires pt in m.tables && i < |m.tables[pt]|
    ensures Fewer(m, Cleared(m, pt, i)) && Cleared(m, pt, i).tables.Keys == m.tables.Keys
  {
  }

  lemma FewerEntries(m: Mem, m1: Mem, m': Mem, pt: nat)
    requires Fewer(m, m1) && Shrunk(m1, m') && VmOk(m.tables, m.nodes, m.free) && m1.nodes == m.nodes
    ensures Fewer(m, m')
  {
    FromTree(m.tables, m.nodes);
    hide Agree;
    forall t, j: nat
      ensures Entry(m', t, j).p ==> Entry(m', t, j) == Entry(m1, t, j)
    {
      if t in m'.tables && j < |m'.tables[t]| {
        assert t in m1.nodes;
        if m1.nodes[t].level == 1 {
          assert m'.tables[t] == m1.tables[t];
        } else {
          assert m'.tables[t][j] == m1.tables[t][j] || m'.tables[t][j] == ZERO;
        }
      }
    }
  }

  lemma DropFewer(m: Mem, m': Mem, p4: nat, path: seq<nat>)
    requires IsPath(path, 4) && Fewer(m, m') && CanDrop(m, p4, path) && m'.tables.Keys <= m.tables.Keys
    ensures CanDrop(m', p4, path)
  {
  }

  lemma AnchorStays(m: Mem, m': Mem, p4: nat, i: nat, base: nat, n: nat, k: nat)
    requires IsP4(m, p4) && Anchored(m, p4, i, base, n) && k < n && IsPath(PagePath(base, k), 4)
    requires OnlyPage(m.tables, m.nodes, m'.tables, p4, PagePath(base, k), None)
    requires SlotsAfter(m, m', p4, PagePath(base, k)[0])
    requires m'.tables.Keys <= m.tables.Keys && m'.nodes.Keys <= m.nodes.Keys
    requires forall t <- m'.nodes :: m'.nodes[t] == m.nodes[t]
    ensures Anchored(m', p4, i, base, n)
  {
    hide Translate, PagePath, Sees;
    if i < UPPER {
      if SlotOfOne(m, p4, i) {
        OneStays(m, m', p4, i, PagePath(base, k)[0]);
      } else {
        var q :| IsAnchor(m, p4, i, base, n, q);
        assert q[1..] != PagePath(base, k)[1..];
        assert IsAnchor(m', p4, i, base, n, q);
      }
    }
  }

  lemma OneStays(m: Mem, m': Mem, p4: nat, i: nat, i0: nat)
    requires IsP4(m, p4) && SlotOfOne(m, p4, i) && SlotsAfter(m, m', p4, i0)
    requires m'.tables.Keys <= m.tables.Keys && m'.nodes.Keys <= m.nodes.Keys
    requires forall t <- m'.nodes :: m'.nodes[t] == m.nodes[t]
    ensures SlotOfOne(m', p4, i)
  {
    forall x, j | IsP4(m', x) && 0 <= j < ENTRIES && (x != p4 || j != i)
      ensures p4 in m'.tables && !SameSlot(m'.tables, x, j, p4, i)
    {
      assert IsP4(m, x) && SlotsLeft(m, m', x, p4, i0) && SlotsLeft(m, m', p4, p4, i0);
      assert !SameSlot(m.tables, x, j, p4, i);
    }
  }

  /** The first `n` pages of the range, and those that show the same, are no longer seen; all others are as before. */
  ghost predicate Emptied(m0: Mem, m: Mem, p4: nat, base: nat, n: nat) {
    && (forall x | IsP4(m0, x) :: IsP4(m, x)) && SeesKept(m0, m, p4)
    && forall x, q | IsP4(m0, x) && IsPath(q, 4) ::
         if InRange(m0.tables, p4, x, q, base, n) then UserAt(m.tables, x, 4, q) == None && !OpenAt(m.tables, x, 4, q)
             else SameUser(m0, m, x, q)
  }

  lemma EmptiedNone(m: Mem, p4: nat, base: nat)
    ensures Emptied(m, m, p4, base, 0)
  {
  }

  lemma EmptiedNext(m0: Mem, m: Mem, m': Mem, p4: nat, base: nat, n: nat)
    requires IsP4(m0, p4) && Emptied(m0, m, p4, base, n) && IsPath(PagePath(base, n), 4)
    requires (forall x | IsP4(m, x) :: IsP4(m', x)) && SeesKept(m, m', p4)
    requires OnlyUserPage(m.tables, m.nodes, m'.tables, p4, PagePath(base, n), None, false)
    ensures Emptied(m0, m', p4, base, n + 1)
  {
    hide UserAt, OpenAt, PagePath, Sees;
    forall x, q | IsP4(m0, x) && IsPath(q, 4)
      ensures if InRange(m0.tables, p4, x, q, base, n + 1)
              then UserAt(m'.tables, x, 4, q) == None && !OpenAt(m'.tables, x, 4, q) else SameUser(m0, m', x, q)
    {
      assert IsP4(m, x);
      RangeNext(m0.tables, p4, x, q, base, n);
      assert Sees(m.tables, x, q[0], p4, PagePath(base, n)[0]) <==> Sees(m0.tables, x, q[0], p4, PagePath(base, n)[0]);
      assert ShowsPage(m0.tables, p4, x, q, base, n)
             <==> q[1..] == PagePath(base, n)[1..] && Sees(m.tables, x, q[0], p4, PagePath(base, n)[0]);
    }
    forall x, j, i | IsP4(m0, x) && 0 <= j < ENTRIES && 0 <= i < ENTRIES
      ensures Sees(m'.tables, x, j, p4, i) <==> Sees(m0.tables, x, j, p4, i)
    {
      assert IsP4(m, x);
    }
  }

  /** A slot that was cleared was seen by nobody else. */
  lemma SlotsSee(m: Mem, m': Mem, p4: nat, i0: nat)
    requires VmOk(m.tables, m.nodes, m.free) && IsP4(m, p4) && SlotsAfter(m, m', p4, i0)
    ensures (forall x | IsP4(m, x) :: IsP4(m', x)) && SeesKept(m, m', p4)
  {
    FromTree(m.tables, m.nodes);
    forall x, j, i | IsP4(m, x) && 0 <= j < ENTRIES && 0 <= i < ENTRIES
      ensures Sees(m'.tables, x, j, p4, i) <==> Sees(m.tables, x, j, p4, i)
    {
      assert SlotsLeft(m, m', x, p4, i0) && SlotsLeft(m, m', p4, p4, i0);
      if SlotOfOne(m, p4, i0) && (x != p4 || j != i0) { assert !SameSlot(m.tables, x, j, p4, i0); }
      if SlotOfOne(m, p4, i0) && i != i0 { assert !SameSlot(m.tables, p4, i, p4, i0); }
    }
  }

  /** `vunmap` on every page of a range. */
  method UnmapRange(vm: AddressSpaces, p4: nat, base: nat, count: nat)
    requires vm.Valid() && p4 != 0 && CanUnmap(vm.Now(), p4, base, count)
    modifies vm, vm.pmm`freeFrames, vm.pmm`hint, vm.pmm.bm, vm.pmm.refs
    ensures vm.Valid() && vm.data == old(vm.data) && IsP4(vm.Now(), p4)
    ensures Emptied(old(vm.Now()), vm.Now(), p4, base, count)
  {
    hide FrameManager.Valid, FrameManager.Free, VmOk, OnlyPage, OnlyUserPage, PathOf, PagePath, Emptied, CanUnmap;
    hide Unmappable, Shrunk, Cleared, TidyWalk, PtOf, SlotsAfter;
    vm.pmm.FromValid();
    ghost var m0 := vm.Now();
    EmptiedNone(m0, p4, base);
    IsRoot(m0, p4, base, count);
    for k := 0 to count
      invariant vm.Valid() && vm.data == old(vm.data) && IsP4(vm.Now(), p4)
      invariant Emptied(m0, vm.Now(), p4, base, k) && CanUnmap(vm.Now(), p4, base, count)
    {
      ghost var m := vm.Now();
      WrappedPath(base, k);
      PathOfPage(base, k);
      ToUnmappable(m, p4, base, count, k);
      vm.Vunmap(p4, (base + PAGE_SIZE * k) % WORD_LIMIT);
      SlotsSee(m, vm.Now(), p4, PagePath(base, k)[0]);
      EmptiedNext(m0, m, vm.Now(), p4, base, k);
      StillCan(m, vm.Now(), p4, base, count, k);
    }
  }

  lemma IsRoot(m: Mem, p4: nat, base: nat, n: nat)
    requires CanUnmap(m, p4, base, n)
    ensures IsP4(m, p4)
  {
  }

  // ----- what a process sees of its lower half -----

  /** The number of pages below slot 256. */
  const LOW_PAGES: nat := 0x8_0000_0000

  /** The pages of the lower half that user code sees, by number. */
  ghost function Shown(tables: Tables, p4: nat): set<nat> {
    set p: nat | p < LOW_PAGES && UserAt(tables, p4, 4, PagePath(0, p)).Some?
  }

  /** No two slots of the lower half lead to the same table. */
  ghost predicate LowDistinct(m: Mem, p4: nat) {
    forall i, j | 0 <= i < UPPER && 0 <= j < UPPER && Sees(m.tables, p4, j, p4, i) :: i == j
  }

  lemma DistinctStays(m0: Mem, m: Mem, p4: nat)
    requires IsP4(m0, p4) && LowDistinct(m0, p4) && SeesKept(m0, m, p4)
    ensures LowDistinct(m, p4)
  {
    hide Sees;
  }

  /** A range of the lower half, seen from the root itself, is its own pages. */
  lemma LowRange(m: Mem, p4: nat, base: nat, n: nat, p: nat)
    requires IsP4(m, p4) && LowDistinct(m, p4) && base % PAGE_SIZE == 0
    requires base + PAGE_SIZE * n <= PAGE_SIZE * LOW_PAGES && p < LOW_PAGES
    ensures IsPath(PagePath(0, p), 4)
    ensures InRange(m.tables, p4, p4, PagePath(0, p), base, n) <==> base / PAGE_SIZE <= p < base / PAGE_SIZE + n
  {
    hide PagePath, Sees;
    PathOfPage(0, p);
    forall k: nat | k < n
      ensures ShowsPage(m.tables, p4, p4, PagePath(0, p), base, k) <==> p == base / PAGE_SIZE + k
    {
      OnePageShown(m, p4, base, k, p);
    }
    if base / PAGE_SIZE <= p < base / PAGE_SIZE + n {
      assert ShowsPage(m.tables, p4, p4, PagePath(0, p), base, p - base / PAGE_SIZE);
    }
  }

  lemma OnePageShown(m: Mem, p4: nat, base: nat, k: nat, p: nat)
    requires IsP4(m, p4) && LowDistinct(m, p4) && base % PAGE_SIZE == 0
    requires base + PAGE_SIZE * k < PAGE_SIZE * LOW_PAGES && p < LOW_PAGES
    requires IsPath(PagePath(0, p), 4)
    ensures ShowsPage(m.tables, p4, p4, PagePath(0, p), base, k) <==> p == base / PAGE_SIZE + k
  {
    hide Sees, PathOf;
    var u, v := PAGE_SIZE * p, base + PAGE_SIZE * k;
    PathIsPage(u, v);
    LowSlot(u);
    LowSlot(v);
    PathOfPage(base, k);
    assert v / PAGE_SIZE == base / PAGE_SIZE + k && u / PAGE_SIZE == p;
    var q, path := PathOf(u), PathOf(v);
    assert q == [q[0]] + q[1..] && path == [path[0]] + path[1..];
    assert PagePath(0, p) == q && PagePath(base, k) == path;
    if q == path { SeesSelf(m.tables, p4, q[0]); }
  }

  lemma SeesSelf(tables: Tables, p4: nat, i: nat)
    ensures Sees(tables, p4, i, p4, i)
  {
  }

  lemma LowSlot(v: nat)
    requires v < PAGE_SIZE * LOW_PAGES
    ensures |PathOf(v)| == 4 && PathOf(v)[0] < UPPER
  {
    assert v / 0x80_0000_0000 < 256;
  }

  lemma ShownZeroed(m0: Mem, data0: map<nat, Page>, m: Mem, data: map<nat, Page>, p4: nat, base: nat, n: nat,
      open: bool)
    requires IsP4(m0, p4) && LowDistinct(m0, p4) && base % PAGE_SIZE == 0
    requires base + PAGE_SIZE * n <= PAGE_SIZE * LOW_PAGES
    requires Zeroed(m0, data0, m, data, p4, base, n, open)
    ensures Shown(m.tables, p4) == Shown(m0.tables, p4) + T.PagesOf(base, PAGE_SIZE * n) && LowDistinct(m, p4)
  {
    hide UserAt, OpenAt, PagePath, InRange;
    DistinctStays(m0, m, p4);
    forall p: nat | p < LOW_PAGES
      ensures UserAt(m.tables, p4, 4, PagePath(0, p)).Some?
              <==> UserAt(m0.tables, p4, 4, PagePath(0, p)).Some? || p in T.PagesOf(base, PAGE_SIZE * n)
    {
      LowRange(m0, p4, base, n, p);
      Numbers(base, n, p);
    }
    forall p | p in T.PagesOf(base, PAGE_SIZE * n)
      ensures p < LOW_PAGES
    {
      Numbers(base, n, p);
    }
  }

  lemma Numbers(base: nat, n: nat, p: nat)
    requires base % PAGE_SIZE == 0
    ensures p in T.PagesOf(base, PAGE_SIZE * n) <==> base / PAGE_SIZE <= p < base / PAGE_SIZE + n
  {
    assert (base + PAGE_SIZE * n) / PAGE_SIZE == base / PAGE_SIZE + n;
    assert T.IsPageOf(p, base, PAGE_SIZE * n) <==> base / PAGE_SIZE <= p < base / PAGE_SIZE + n;
  }

  lemma ShownEmptied(m0: Mem, m: Mem, p4: nat, base: nat, n: nat)
    requires IsP4(m0, p4) && LowDistinct(m0, p4) && base % PAGE_SIZE == 0
    requires base + PAGE_SIZE * n <= PAGE_SIZE * LOW_PAGES
    requires Emptied(m0, m, p4, base, n)
    ensures Shown(m.tables, p4) == Shown(m0.tables, p4) - T.PagesOf(base, PAGE_SIZE * n) && LowDistinct(m, p4)
  {
    hide UserAt, OpenAt, PagePath, InRange;
    DistinctStays(m0, m, p4);
    forall p: nat | p < LOW_PAGES
      ensures UserAt(m.tables, p4, 4, PagePath(0, p)).Some?
              <==> UserAt(m0.tables, p4, 4, PagePath(0, p)).Some? && p !in T.PagesOf(base, PAGE_SIZE * n)
    {
      LowRange(m0, p4, base, n, p);
      Numbers(base, n, p);
    }
  }

  /** Whatever is unmapped, and wherever, nothing more is seen. */
  lemma ShownFewer(m0: Mem, m: Mem, p4: nat, base: nat, n: nat)
    requires IsP4(m0, p4) && Emptied(m0, m, p4, base, n) && LowDistinct(m0, p4)
    ensures Shown(m.tables, p4) <= Shown(m0.tables, p4) && LowDistinct(m, p4)
  {
    hide UserAt, OpenAt, PagePath, InRange;
    DistinctStays(m0, m, p4);
    forall p: nat | p < LOW_PAGES
      ensures UserAt(m.tables, p4, 4, PagePath(0, p)).Some? ==> UserAt(m0.tables, p4, 4, PagePath(0, p)).Some?
    {
      PathOfPage(0, p);
    }
  }

  /** Of the lower half a root sees the pages that it saw before, and those that are or show a page of the range. */
  ghost predicate ShownAfter(m: Mem, m': Mem, p4: nat, base: nat, n: nat, x: nat) {
    forall p: nat | p < LOW_PAGES ::
      p in Shown(m'.tables, x) <==> p in Shown(m.tables, x) || Shows(m, p4, base, n, x, p)
  }

  /** Page `p` of the root `x` is or shows a page of the range of `p4`. */
  ghost predicate Shows(m: Mem, p4: nat, base: nat, n: nat, x: nat, p: nat) {
    IsPath(PagePath(0, p), 4) && InRange(m.tables, p4, x, PagePath(0, p), base, n)
  }

  /** When a range is mapped through any root, other roots see it exactly where they have its slots, too. */
  lemma ShownByOthers(m: Mem, data: map<nat, Page>, m': Mem, data': map<nat, Page>, p4: nat, base: nat, n: nat,
      open: bool, x: nat)
    requires Zeroed(m, data, m', data', p4, base, n, open) && IsP4(m, x)
    ensures ShownAfter(m, m', p4, base, n, x)
  {
    hide UserAt, OpenAt, PagePath, InRange;
    forall p: nat | p < LOW_PAGES
      ensures p in Shown(m'.tables, x) <==> p in Shown(m.tables, x) || Shows(m, p4, base, n, x, p)
    {
      PathOfPage(0, p);
    }
  }
}
