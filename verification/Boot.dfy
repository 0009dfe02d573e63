/**
 The page tables that the kernel boots with. Top-level slots 0 and 256 lead to one table, which maps
 the first gigabyte by huge pages; every root made later has these slots, too.
 */
module Boot {
  import opened Sizes
  import opened Options
  import opened PageTables
  import opened Pmm
  import opened Vmm
  import opened CowState
  import opened FrameUses
  import opened CopyOnWrite
  import opened Fork
  import opened Teardown
  import E = EagerCopy

  const BOOT_P4: nat := 1
  const P3_LOW: nat := 2
  const P3_HIGH: nat := 3
  const P2_LOW: nat := 4
  const P2_HIGH: nat := 5

  /** The frames of one gigabyte. */
  const GIGABYTE: nat := 0x4_0000

  /** Present and writable. */
  function Link(frame: FrameNumber): Pte {
    Pte(true, true, false, false, false, 0, frame)
  }

  function Huge(frame: FrameNumber): Pte {
    Pte(true, true, false, true, false, 0, frame)
  }

  function TopEntry(i: nat): Pte {
    if i == 0 || i == UPPER then Link(P3_LOW) else if i == 1 then Link(P3_HIGH) else ZERO
  }

  function BootTables(): Tables {
    map[BOOT_P4 := seq(ENTRIES, i requires 0 <= i => TopEntry(i)),
        P3_LOW := seq(ENTRIES, i requires 0 <= i => if i == 0 then Link(P2_LOW) else ZERO),
        P3_HIGH := seq(ENTRIES, i requires 0 <= i => if i == 0 then Link(P2_HIGH) else ZERO),
        P2_LOW := seq(ENTRIES, i requires 0 <= i < ENTRIES => Huge(ENTRIES * i)),
        P2_HIGH := seq(ENTRIES, i requires 0 <= i < ENTRIES => Huge(GIGABYTE + ENTRIES * i))]
  }

  function BootNodes(): Nodes {
    map[BOOT_P4 := Node(4, BOOT_P4, 0, false),
        P3_LOW := Node(3, BOOT_P4, 0, false), P3_HIGH := Node(3, BOOT_P4, 1, false),
        P2_LOW := Node(2, P3_LOW, 0, false), P2_HIGH := Node(2, P3_HIGH, 0, false)]
  }

  /** The state that the kernel boots in, with frames above the boot tables to hand out. */
  ghost predicate IsBoot(m: Mem) {
    && m.tables == BootTables() && m.nodes == BootNodes() && m.limit <= |m.refs|
    && forall f <- m.free :: 5 < f < FRAME_LIMIT
  }

  /**
   The boot tables meet what everything else asks of page tables, and the kernel's upper half has the one slot
   256.
   */
  lemma BootIsOk(m: Mem)
    requires IsBoot(m)
    ensures VmOk(m.tables, m.nodes, m.free) && Sound(m) && AllCounted(m) && IsP4(m, BOOT_P4) && !m.nodes[BOOT_P4].own
    ensures SharesLow(m, BOOT_P4)
    ensures forall i | UPPER <= i < ENTRIES :: Entry(m, BOOT_P4, i).p <==> i == UPPER
  {
    BootTree();
    NoLeaves(m);
    hide TreeOk;
  }

  lemma BootTree()
    ensures TreeOk(BootTables(), BootNodes())
  {
    var tables, nodes := BootTables(), BootNodes();
    forall t | t in tables ensures IsTable(t, tables, nodes) {}
    forall t, i | t in tables && 0 <= i < ENTRIES
      ensures EntryOk(t, i, tables, nodes)
    {
    }
  }

  lemma NoLeaves(m: Mem)
    requires m.nodes == BootNodes()
    ensures forall l :: !IsUserLeaf(m, l)
    ensures NoHugeOwn(m.tables, m.nodes)
  {
  }

  /** The root has the slots that the kernel booted with, and what hangs below them is as it was. */
  ghost predicate HasBootSlots(m: Mem, r: nat) {
    && VmOk(m.tables, m.nodes, m.free) && IsP4(m, r) && m.tables[r] == BootTables()[BOOT_P4]
    && forall t | t in {P3_LOW, P3_HIGH, P2_LOW, P2_HIGH} :: t in m.tables && m.tables[t] == BootTables()[t]
  }

  lemma BootHasSlots(m: Mem)
    requires IsBoot(m)
    ensures HasBootSlots(m, BOOT_P4)
  {
    BootIsOk(m);
    hide VmOk;
  }

  /** Every root that is copied from such a one is such a one. */
  lemma BootSlotsKept(m: Mem, m': Mem, k: nat, n: nat, own: bool)
    requires HasBootSlots(m, k) && IsMirror(m, m', k, n, own)
    ensures HasBootSlots(m', n) && HasBootSlots(m', k)
  {
    FromTree(m.tables, m.nodes);
    hide TreeOk;
  }

  /**
   What the boot tables map: the first gigabyte to itself, also 2^47 above, and the second one 2^39 above the first;
   by huge pages that no user code may use.
   */
  lemma BootMaps(m: Mem, r: nat, v: nat)
    requires HasBootSlots(m, r) && v < 0x1_0000_0000_0000
    ensures Phys(m.tables, r, v) ==
            if v < 0x4000_0000 then Some(v)
            else if 0x80_0000_0000 <= v < 0x80_4000_0000 then Some(v - 0x80_0000_0000 + 0x4000_0000)
            else if 0x8000_0000_0000 <= v < 0x8000_4000_0000 then Some(v - 0x8000_0000_0000) else None
    ensures var (e4, e3, e2, e1) := Way(m, r, PathOf(v));
            !(e4.p && e4.u && e3.p && e3.u && e2.p && e2.u && (e2.ps || (e1.p && e1.u)))
    ensures !UserOk(m.tables, r, 4, PathOf(v))
    ensures var (e4, e3, e2, e1) := Way(m, r, PathOf(v));
            && (e4.p ==> e4.w && !e4.u && !e4.cow) && (e4.p && e3.p ==> e3.w && !e3.u && !e3.cow)
            && (e4.p && e3.p ==> e2.p && e2.ps && e2.w && !e2.u && !e2.cow)
  {
    var path := PathOf(v);
    PageFromPath(v);
    WalkFacts(m, r, path);
    WayUsable(m, r, path);
    BootWay(m, r, path);
    hide HasBootSlots, PathOf, VmOk, Translate, UserOk;
    BootNumbers(v, path[0], path[1], path[2], path[3]);
  }

  /** Which page of the first or second gigabyte the indices stand for. */
  lemma BootNumbers(v: nat, i4: nat, i3: nat, i2: nat, i1: nat)
    requires v < 0x1_0000_0000_0000 && i4 < 512 && i3 < 512 && i2 < 512 && i1 < 512
    requires v / PAGE_SIZE == ((i4 * 512 + i3) * 512 + i2) * 512 + i1
    ensures v < 0x4000_0000 <==> i4 == 0 && i3 == 0
    ensures 0x80_0000_0000 <= v < 0x80_4000_0000 <==> i4 == 1 && i3 == 0
    ensures 0x8000_0000_0000 <= v < 0x8000_4000_0000 <==> i4 == 256 && i3 == 0
    ensures i3 == 0 ==> v == (i4 * 512 * 512 * 512 + i2 * 512 + i1) * PAGE_SIZE + v % PAGE_SIZE
  {
    var n := v / PAGE_SIZE;
    assert v == n * PAGE_SIZE + v % PAGE_SIZE;
  }

  lemma BootWay(m: Mem, r: nat, path: seq<nat>)
    requires HasBootSlots(m, r) && IsPath(path, 4)
    ensures var (e4, e3, e2, e1) := Way(m, r, path);
            && e4 == TopEntry(path[0])
            && (e4.p ==> e3 == if path[1] == 0 then Link(if path[0] == 1 then P2_HIGH else P2_LOW) else ZERO)
            && (e4.p && e3.p ==> e2 == Huge((if path[0] == 1 then GIGABYTE else 0) + ENTRIES * path[2]))
    ensures r in m.tables && |m.tables[r]| == ENTRIES && m.tables[r][path[0]] == TopEntry(path[0])
  {
    hide VmOk;
  }

  /** Slots 0 and 256 of the root lead to the table that maps the first gigabyte. */
  ghost predicate SharesLow(m: Mem, r: nat) {
    && IsP4(m, r) && Leads(m, r, 0, P3_LOW) && Leads(m, r, UPPER, P3_LOW) && Leads(m, P3_LOW, 0, P2_LOW)
    && P2_LOW in m.tables && |m.tables[P2_LOW]| == ENTRIES
  }

  /** A page of the first gigabyte, seen through slot 0 or 256, that is still part of a huge page. */
  ghost predicate InLowHuge(m: Mem, q: seq<nat>) {
    && IsPath(q, 4) && (q[0] == 0 || q[0] == UPPER) && q[1] == 0
    && Entry(m, P2_LOW, q[2]).p && Entry(m, P2_LOW, q[2]).ps
  }

  /** Roots copied from one that has these slots have them, too. */
  lemma MirrorSharesLow(m: Mem, m': Mem, k: nat, n: nat, own: bool)
    requires VmOk(m.tables, m.nodes, m.free) && SharesLow(m, k) && IsMirror(m, m', k, n, own)
    ensures SharesLow(m', k) && SharesLow(m', n)
  {
  }

  /** The kernel's own root, copied from the one it booted with, shares slot 256 and has no other upper slot. */
  lemma KernelRoot(m: Mem, m': Mem, k: nat)
    requires IsBoot(m) && IsMirror(m, m', BOOT_P4, k, false)
    ensures E.KernelOk(m', k, {UPPER})
  {
    BootIsOk(m);
    hide VmOk, Sound, AllCounted;
    assert m'.tables[k] == BootTables()[BOOT_P4];
  }

  /** From boot to the state that runs of processes begin in: no process, exact counts, slot 256 shared by all. */
  method Start(vm: AddressSpaces) returns (a: Allocation)
    requires vm.Valid() && IsBoot(vm.Now())
    modifies vm, vm.pmm`freeFrames, vm.pmm`hint, vm.pmm.bm, vm.pmm.refs
    ensures a == OutOfMemory ==> vm.pmm.Free() == {}
    ensures a.Frame? ==> E.Running(vm, [], [], a.frame, {UPPER}) && AllCounted(vm.Now())
    ensures a.Frame? ==> HasBootSlots(vm.Now(), a.frame)
  {
    hide Sound, AllCounted, VmOk;
    BootIsOk(vm.Now());
    ghost var m := vm.Now();
    a := VmmInit(vm, BOOT_P4);
    if a.Frame? {
      KernelRoot(m, vm.Now(), a.frame);
      BootHasSlots(m);
      BootSlotsKept(m, vm.Now(), BOOT_P4, a.frame, false);
    }
  }

  /** Mapping a page through slot 0 maps it at its alias in slot 256, too, of every root that has these slots. */
  lemma AliasChanges(m: Mem, tables: Tables, p4: nat, path: seq<nat>, f: Option<nat>, x: nat)
    requires VmOk(m.tables, m.nodes, m.free) && SharesLow(m, p4) && SharesLow(m, x) && IsPath(path, 4) && path[0] == 0
    requires OnlyPage(m.tables, m.nodes, tables, p4, path, f) && f != Translate(m.tables, p4, 4, path)
    ensures Translate(tables, x, 4, path[0 := UPPER]) == f != Translate(m.tables, x, 4, path[0 := UPPER])
    ensures !OthersSame(m.tables, m.nodes, tables, x, p4, path)
  {
    hide Translate, VmOk;
    VmTree(m);
    assert Aliased(m.tables, m.nodes, x, UPPER, p4, 0);
    OnePageExactly(m.tables, m.nodes, tables, p4, path, f, x);
    var q := path[0 := UPPER];
    assert q[1..] == path[1..] && Sees(m.tables, x, q[0], p4, path[0]);
    AtTop(m.tables, m.nodes, p4, path);
    AtTop(m.tables, m.nodes, x, q);
  }

  /** Where the walk to such a page ends. */
  lemma LowEnds(m: Mem, r: nat, q: seq<nat>)
    requires SharesLow(m, r) && InLowHuge(m, q)
    ensures EndOfWalk(m.tables, r, 4, q) == End(m.tables[P2_LOW][q[2]], 2)
  {
    assert q[1..][0] == q[1] && q[1..][1..][0] == q[2];
    assert EndOfWalk(m.tables, P2_LOW, 2, q[1..][1..]) == End(m.tables[P2_LOW][q[2]], 2);
    assert EndOfWalk(m.tables, P3_LOW, 3, q[1..]) == End(m.tables[P2_LOW][q[2]], 2);
  }

  /**
   A fork of a process that has these slots takes the write access to the first gigabyte from every root, the
   kernel's included.
   */
  lemma ForkTakesKernelWrites(m: Mem, m': Mem, src: nat, dst: nat, x: nat, q: seq<nat>)
    requires VmOk(m.tables, m.nodes, m.free) && SharesLow(m, src) && SharesLow(m, x) && IsFork(m, m', src, dst)
    requires InLowHuge(m, q)
    ensures Marked(EndOfWalk(m'.tables, x, 4, q).e)
    ensures q[0] == 0 && m.tables[P2_LOW][q[2]].w ==> !OthersKeepRights(m, m', src)
  {
    LowEnds(m, x, q);
    LowEnds(m, src, q);
    hide EndOfWalk, VmOk, IsFork;
    assert SameSlot(m.tables, x, q[0], src, UPPER);
    assert SameSlot(m.tables, src, q[0], src, UPPER);
    ForkRights(m, m', src, dst, x, q);
    ForkRights(m, m', src, dst, src, q);
  }

  /**
   A teardown of a process that has these slots frees every frame of the first gigabyte with count 1 that a huge
   page still maps.
   */
  lemma TeardownFreesUsed(m: Mem, m': Mem, p4: nat, f: nat)
    requires TreeOk(m.tables, m.nodes) && m.limit <= |m.refs| && SharesLow(m, p4) && TornDown(m, m', p4)
    requires m.base <= f < m.base + m.limit && RefAt(m.refs, m.base, f) == 1 && f < GIGABYTE
    requires StillHuge(m, f / ENTRIES)
    ensures f in m'.free
  {
    hide EndOfWalk, TornDown, TreeOk, SharesLow;
    var q := LowCovers(m, p4, f);
    HugeFrees(m, m', p4, q, f);
  }

  lemma PieceOf(f: nat)
    requires f < GIGABYTE
    ensures f / ENTRIES < ENTRIES && ENTRIES * (f / ENTRIES) <= f < ENTRIES * (f / ENTRIES) + ENTRIES
  {
  }

  ghost predicate StillHuge(m: Mem, i: nat) {
    var e := Entry(m, P2_LOW, i);
    e.p && e.ps && e.frame == ENTRIES * i
  }

  /** So the teardown hurts the kernel itself, whose root is such a frame. */
  lemma TeardownHurtsKernel(m: Mem, m': Mem, p4: nat, kernelP4: nat)
    requires TreeOk(m.tables, m.nodes) && m.limit <= |m.refs| && SharesLow(m, p4) && TornDown(m, m', p4)
    requires IsP4(m, kernelP4) && kernelP4 != p4
    requires m.base <= kernelP4 < m.base + m.limit && RefAt(m.refs, m.base, kernelP4) == 1
    requires kernelP4 < GIGABYTE && StillHuge(m, kernelP4 / ENTRIES)
    ensures kernelP4 in m'.free && !Private(m.tables, m.nodes, p4, UPPER) && !OthersStand(m, m', p4)
  {
    hide EndOfWalk, TornDown, SharesLow;
    var q := LowCovers(m, p4, kernelP4);
    HugeFrees(m, m', p4, q, kernelP4);
    assert !WalkStands(m.tables, m'.free, kernelP4, 4, q);
    LowIsNotPrivate(m, p4);
  }

  /**
   A process that has these slots forks, another one is made in the first gigabyte, and the child ends: nobody else
   leads to what the child gives back, and still the new root is freed.
   */
  lemma ChildEndFreesRoot(m: Mem, m1: Mem, m2: Mem, m3: Mem, src: nat, dst: nat, k: nat, n: nat)
    requires VmOk(m.tables, m.nodes, m.free) && SharesLow(m, src) && IsFork(m, m1, src, dst)
    requires n < GIGABYTE && StillHuge(m, n / ENTRIES)
    requires IsMirror(m1, m2, k, n, true) && m2.limit <= |m2.refs| && TornDown(m2, m3, dst)
    ensures Alone(m1, dst) && n in m3.free && !OthersStand(m2, m3, dst)
  {
    hide *;
    var q := LowCovers(m, src, n);
    ForkSpawnExit(m, m1, m2, m3, src, dst, k, n, q);
  }

  /** The walk to a frame of the first gigabyte. */
  lemma LowCovers(m: Mem, r: nat, f: nat) returns (q: seq<nat>)
    requires SharesLow(m, r) && f < GIGABYTE && StillHuge(m, f / ENTRIES)
    ensures IsP4(m, r) && IsUpper(q) && q[0] == UPPER
    ensures EndOfWalk(m.tables, r, 4, q).level == 2 && MapsFrame(EndOfWalk(m.tables, r, 4, q), f)
  {
    PieceOf(f);
    q := [UPPER, 0, f / ENTRIES, 0];
    LowEnds(m, r, q);
    hide EndOfWalk;
  }

  /** A fork of such a process leaves the counts of user pages in the first gigabyte too high. */
  lemma ForkOvercounts(m: Mem, src: nat, f: nat)
    requires TreeOk(m.tables, m.nodes) && SharesLow(m, src) && HasTable(m, src, 4)
    requires Owners(m, f) != {} && f < GIGABYTE && StillHuge(m, f / ENTRIES)
    requires RefAt(m.refs, m.base, f) + Uses(m.tables, src, 4, UPPER, ENTRIES, f) < REF_MAX
    ensures Overcounts(m, src)
  {
    var q := LowCovers(m, src, f);
    LowIsNotPrivate(m, src);
    OwnSlotIsPrivate(m, src, UPPER);
    hide EndOfWalk, Uses, Owners, SharesLow, OwnBelow, TreeOk;
    assert MapsFrame(EndOfWalk(m.tables, src, 4, q), f);
    assert Foreign(m, src, f);
    assert Overcounted(m, src, f);
  }

  lemma LowIsNotPrivate(m: Mem, p4: nat)
    requires TreeOk(m.tables, m.nodes) && SharesLow(m, p4)
    ensures !Private(m.tables, m.nodes, p4, UPPER)
  {
    assert IsTable(p4, m.tables, m.nodes) && EntryOk(p4, 0, m.tables, m.nodes);
  }
}
