/**
 The point of copy-on-write: whatever is created, mapped, forked, written, unmapped and given up, and
 in whatever order, every process reads what it would read if a fork copied all pages at once.
 */
module EagerCopy {
  import opened Sizes
  import opened Options
  import opened PageTables
  import opened Pmm
  import opened Vmm
  import opened CowState
  import opened CopyOnWrite
  import opened FrameUses
  import F = Fork
  import T = Teardown

  /** What a page holds, and whether user code may write it. */
  datatype Cell = Cell(page: Page, open: bool)

  /** What a process maps below its private slots, page by page. */
  type Space = map<seq<nat>, Cell>

  /** The processes by number; a process that ended has no space. */
  type Spaces = seq<Option<Space>>

  datatype Op =
    | Spawn
    | MapZero(p: nat, v: nat, f: Flags)
    | Clone(p: nat)
    | Write(p: nat, v: nat, page: Page)
    | Unmap(p: nat, v: nat)
    | Exit(p: nat)

  /** A page of the half that a fork clones, not below a slot that all processes share with the kernel. */
  ghost predicate IsOwn(path: seq<nat>, shared: set<nat>) {
    IsUpper(path) && path[0] !in shared
  }

  /** The operations meant here: user pages below slots that are not shared. */
  ghost predicate OpOk(op: Op, shared: set<nat>) {
    match op
    case Spawn => true
    case MapZero(p, v, f) => IsOwn(PathOf(v), shared) && v % PAGE_SIZE == 0 && f.u
    case Write(p, v, page) => IsOwn(PathOf(v), shared)
    case Unmap(p, v) => IsOwn(PathOf(v), shared)
    case Clone(p) => true
    case Exit(p) => true
  }

  /** A process that ends takes from nobody else what they need. */
  ghost predicate Harmless(m: Mem, roots: seq<Option<nat>>, op: Op) {
    op.Exit? && IsLive(roots, op.p) ==> T.Spares(m, roots[op.p].value)
  }

  predicate IsLive<T>(xs: seq<Option<T>>, p: nat) {
    p < |xs| && xs[p].Some?
  }

  /** All pages of a space may be written. */
  ghost function Opened(space: Space): Space {
    map q | q in space :: Cell(space[q].page, true)
  }

  /** One operation on spaces that are simply copied; a fork opens all pages of parent and child. */
  ghost function Eager(spaces: Spaces, op: Op): Spaces {
    match op
    case Spawn => spaces + [Some(map[])]
    case MapZero(p, v, f) =>
      if IsLive(spaces, p) then spaces[p := Some(spaces[p].value[PathOf(v) := Cell(ZeroPage(), f.w || f.cow)])]
          else spaces
    case Clone(p) =>
      if IsLive(spaces, p) then spaces[p := Some(Opened(spaces[p].value))] + [Some(Opened(spaces[p].value))] else spaces
    case Write(p, v, page) =>
      if IsLive(spaces, p) && PathOf(v) in spaces[p].value && spaces[p].value[PathOf(v)].open
      then spaces[p := Some(spaces[p].value[PathOf(v) := Cell(page, true)])] else spaces
    case Unmap(p, v) => if IsLive(spaces, p) then spaces[p := Some(spaces[p].value - {PathOf(v)})] else spaces
    case Exit(p) => if IsLive(spaces, p) then spaces[p := None] else spaces
  }

  ghost function EagerRun(spaces: Spaces, ops: seq<Op>): Spaces {
    if ops == [] then spaces else Eager(EagerRun(spaces, ops[..|ops| - 1]), ops[|ops| - 1])
  }

  /** The operation maps a page over one that is mapped already. */
  ghost predicate Remaps(spaces: Spaces, op: Op) {
    op.MapZero? && IsLive(spaces, op.p) && PathOf(op.v) in spaces[op.p].value
  }

  ghost predicate Remapped(spaces: Spaces, ops: seq<Op>) {
    exists k: nat :: k < |ops| && Remaps(EagerRun(spaces, ops[..k]), ops[k])
  }

  ghost predicate HasCell(m: Mem, data: map<nat, Page>, r: nat, q: seq<nat>, space: Space) {
    && IsPlace(m, r, q)
    && View(m.tables, data, r, q) == (if q in space then Some(space[q].page) else None)
    && OpenAt(m.tables, r, 4, q) == (q in space && space[q].open)
  }

  ghost predicate ReadsAs(m: Mem, data: map<nat, Page>, r: nat, space: Space, shared: set<nat>) {
    IsP4(m, r) && 0 < r < FRAME_LIMIT && forall q | IsOwn(q, shared) :: HasCell(m, data, r, q, space)
  }

  /** In the upper half the kernel's root has at most the shared slots. */
  ghost predicate KernelOk(m: Mem, kernelP4: nat, shared: set<nat>) {
    && IsP4(m, kernelP4) && !m.nodes[kernelP4].own
    && forall i | UPPER <= i < |m.tables[kernelP4]| && i !in shared :: !m.tables[kernelP4][i].p
  }

  /** Every process that lives has its own top-level table, through which it reads its space. */
  ghost predicate Represents(m: Mem, data: map<nat, Page>, roots: seq<Option<nat>>, spaces: Spaces, kernelP4: nat,
      shared: set<nat>) {
    && |roots| == |spaces| && KernelOk(m, kernelP4, shared)
    && (forall k | 0 <= k < |roots| :: roots[k].Some? == spaces[k].Some?)
    && (forall k | 0 <= k < |roots| && roots[k].Some? ::
       roots[k].value != kernelP4 && ReadsAs(m, data, roots[k].value, spaces[k].value, shared))
    && (forall j, k | 0 <= j < k < |roots| && roots[j].Some? :: roots[j] != roots[k])
  }

  /** Where runs begin: without user pages below private slots the counts are right, and no process is there. */
  lemma InitialState(m: Mem, data: map<nat, Page>, kernelP4: nat, shared: set<nat>)
    requires VmOk(m.tables, m.nodes, m.free) && NoHugeOwn(m.tables, m.nodes) && m.limit <= |m.refs|
    requires KernelOk(m, kernelP4, shared)
    requires forall l :: !IsUserLeaf(m, l)
    ensures Sound(m) && AllCounted(m) && Represents(m, data, [], [], kernelP4, shared)
  {
  }

  lemma KernelStays(m: Mem, m': Mem, kernelP4: nat, shared: set<nat>, r: nat)
    requires KernelOk(m, kernelP4, shared) && RootsKept(m, m', r) && r != kernelP4
    ensures KernelOk(m', kernelP4, shared)
  {
    assert SameSlots(m, m', kernelP4);
  }

  ghost function With(space: Space, path: seq<nat>, page: Option<Page>, open: bool): Space {
    if page.Some? then space[path := Cell(page.value, open)] else space - {path}
  }

  lemma OneChanged(m: Mem, data: map<nat, Page>, m': Mem, data': map<nat, Page>, roots: seq<Option<nat>>,
      spaces: Spaces, kernelP4: nat, shared: set<nat>, p: nat, path: seq<nat>, page: Option<Page>, open: bool)
    requires Represents(m, data, roots, spaces, kernelP4, shared) && IsLive(roots, p)
    requires IsPlace(m, roots[p].value, path)
    requires OneView(m, data, m', data', roots[p].value, path, page, open) && RootsKept(m, m', roots[p].value)
    requires (page == None ==> !open)
    ensures Represents(m', data', roots, spaces[p := Some(With(spaces[p].value, path, page, open))], kernelP4, shared)
  {
    hide View, OpenAt, Private, RootsKept, KernelOk;
    var r := roots[p].value;
    KernelStays(m, m', kernelP4, shared, r);
    forall k | 0 <= k < |roots| && roots[k].Some?
      ensures ReadsAs(m', data', roots[k].value, if k == p then With(spaces[p].value, path, page, open)
              else spaces[k].value, shared)
    {
      if k == p {
        CellsAfter(m, data, m', data', r, spaces[p].value, shared, path, page, open);
      } else {
        assert roots[k] != roots[p];
        CellsBeside(m, data, m', data', roots[k].value, spaces[k].value, shared, r, path, page, open);
      }
    }
  }

  lemma CellsAfter(m: Mem, data: map<nat, Page>, m': Mem, data': map<nat, Page>, r: nat, space: Space, shared: set<nat>,
                   path: seq<nat>, page: Option<Page>, open: bool)
    requires ReadsAs(m, data, r, space, shared) && OneView(m, data, m', data', r, path, page, open)
    requires (page == None ==> !open) && IsPlace(m, r, path)
    ensures ReadsAs(m', data', r, With(space, path, page, open), shared)
  {
    hide View, OpenAt, Private;
    assert IsPlace(m', r, path);
    forall q | IsOwn(q, shared)
      ensures HasCell(m', data', r, q, With(space, path, page, open))
    {
      assert HasCell(m, data, r, q, space);
    }
  }

  lemma CellsBeside(m: Mem, data: map<nat, Page>, m': Mem, data': map<nat, Page>, x: nat, space: Space,
      shared: set<nat>, r: nat, path: seq<nat>, page: Option<Page>, open: bool)
    requires ReadsAs(m, data, x, space, shared) && OneView(m, data, m', data', r, path, page, open) && x != r
    requires RootsKept(m, m', r)
    ensures ReadsAs(m', data', x, space, shared)
  {
    hide View, OpenAt, Private;
    forall q | IsOwn(q, shared)
      ensures HasCell(m', data', x, q, space)
    {
      assert HasCell(m, data, x, q, space);
    }
  }

  /** A root came or went beside the others, which read as before. */
  lemma AllBeside(m: Mem, data: map<nat, Page>, m': Mem, roots: seq<Option<nat>>, spaces: Spaces, kernelP4: nat,
      shared: set<nat>, k: nat)
    requires Represents(m, data, roots, spaces, kernelP4, shared) && IsLive(roots, k) && IsP4(m', roots[k].value)
    requires forall q | IsPlace(m, roots[k].value, q) ::
               && IsPlace(m', roots[k].value, q)
               && View(m'.tables, data, roots[k].value, q) == View(m.tables, data, roots[k].value, q)
               && OpenAt(m'.tables, roots[k].value, 4, q) == OpenAt(m.tables, roots[k].value, 4, q)
    ensures ReadsAs(m', data, roots[k].value, spaces[k].value, shared)
  {
    hide View, OpenAt, Private, KernelOk;
    var r, space := roots[k].value, spaces[k].value;
    assert ReadsAs(m, data, r, space, shared);
    forall q | IsOwn(q, shared)
      ensures HasCell(m', data, r, q, space)
    {
      assert HasCell(m, data, r, q, space);
    }
  }

  lemma Spawned(m: Mem, m': Mem, data: map<nat, Page>, roots: seq<Option<nat>>, spaces: Spaces, kernelP4: nat,
      shared: set<nat>, n: nat)
    requires VmOk(m.tables, m.nodes, m.free) && Represents(m, data, roots, spaces, kernelP4, shared)
    requires F.IsMirror(m, m', kernelP4, n, true)
    ensures Represents(m', data, roots + [Some(n)], spaces + [Some(map[])], kernelP4, shared)
  {
    F.MirrorReads(m, m', data, kernelP4, n, true);
    KernelStays(m, m', kernelP4, shared, n);
    hide View, OpenAt, Private, VmOk, RootsKept;
    var roots' := roots + [Some(n)];
    assert ReadsAs(m', data, n, map[], shared) by {
      forall q | IsOwn(q, shared)
        ensures HasCell(m', data, n, q, map[])
      {
        NothingSeenYet(m, m', data, kernelP4, shared, n, q);
      }
    }
    forall k | 0 <= k < |roots| && roots[k].Some?
      ensures roots[k].value != n && ReadsAs(m', data, roots[k].value, spaces[k].value, shared)
    {
      assert ReadsAs(m, data, roots[k].value, spaces[k].value, shared);
      StillRoot(m, m', n, roots[k].value);
      AllBeside(m, data, m', roots, spaces, kernelP4, shared, k);
    }
  }

  lemma StillRoot(m: Mem, m': Mem, r: nat, x: nat)
    requires RootsKept(m, m', r) && IsP4(m, x) && x != r
    ensures IsP4(m', x)
  {
  }

  lemma NothingSeenYet(m: Mem, m': Mem, data: map<nat, Page>, kernelP4: nat, shared: set<nat>, n: nat, q: seq<nat>)
    requires KernelOk(m, kernelP4, shared) && IsOwn(q, shared)
    requires !Entry(m, kernelP4, q[0]).p ==>
             && IsPlace(m', n, q) && UserAt(m'.tables, n, 4, q) == None
             && !OpenAt(m'.tables, n, 4, q)
    ensures HasCell(m', data, n, q, map[])
  {
  }

  lemma Cloned(m: Mem, m': Mem, data: map<nat, Page>, roots: seq<Option<nat>>, spaces: Spaces, kernelP4: nat,
      shared: set<nat>, p: nat, dst: nat)
    requires Represents(m, data, roots, spaces, kernelP4, shared) && IsLive(roots, p) && VmOk(m.tables, m.nodes, m.free)
    requires F.IsFork(m, m', roots[p].value, dst)
    ensures var copy := Some(Opened(spaces[p].value));
            Represents(m', data, roots + [Some(dst)], spaces[p := copy] + [copy], kernelP4, shared)
  {
    hide ReadsAs, KernelOk, F.IsFork, VmOk, Opened;
    var src, space := roots[p].value, spaces[p].value;
    assert ReadsAs(m, data, src, space, shared);
    RootIs(m, data, src, space, shared);
    ForkedSpaces(m, m', data, src, dst, space, shared);
    ForkedKernel(m, m', kernelP4, shared, src, dst);
    forall k | 0 <= k < |roots| && roots[k].Some?
      ensures roots[k].value != dst
      ensures ReadsAs(m', data, roots[k].value, if k == p then Opened(space) else spaces[k].value, shared)
    {
      BesideFork(m, m', data, roots, spaces, kernelP4, shared, p, dst, k);
    }
  }

  lemma RootIs(m: Mem, data: map<nat, Page>, r: nat, space: Space, shared: set<nat>)
    requires ReadsAs(m, data, r, space, shared)
    ensures IsP4(m, r)
  {
  }

  lemma ForkedKernel(m: Mem, m': Mem, kernelP4: nat, shared: set<nat>, src: nat, dst: nat)
    requires VmOk(m.tables, m.nodes, m.free) && IsP4(m, src) && F.IsFork(m, m', src, dst)
    requires KernelOk(m, kernelP4, shared)
    ensures KernelOk(m', kernelP4, shared) && kernelP4 != dst
  {
    F.ForkIsCopy(m, m', map[], src, dst);
    F.ForkFrame(m, m', src, dst);
    hide View, OpenAt, Private, F.IsFork, RootsKept, VmOk, Translate, UserAt;
    KernelStays(m, m', kernelP4, shared, dst);
  }

  lemma BesideFork(m: Mem, m': Mem, data: map<nat, Page>, roots: seq<Option<nat>>, spaces: Spaces, kernelP4: nat,
      shared: set<nat>, p: nat, dst: nat, k: nat)
    requires Represents(m, data, roots, spaces, kernelP4, shared) && IsLive(roots, p) && IsLive(roots, k)
    requires VmOk(m.tables, m.nodes, m.free)
    requires F.IsFork(m, m', roots[p].value, dst)
    ensures roots[k].value != dst && (k != p ==> ReadsAs(m', data, roots[k].value, spaces[k].value, shared))
  {
    assert ReadsAs(m, data, roots[k].value, spaces[k].value, shared)
           && ReadsAs(m, data, roots[p].value, spaces[p].value, shared);
    F.ForkIsCopy(m, m', data, roots[p].value, dst);
    F.ForkFrame(m, m', roots[p].value, dst);
    StillRoot(m, m', dst, roots[k].value);
    if k != p {
      assert roots[k] != roots[p];
      hide View, OpenAt, Private, F.IsFork, RootsKept, VmOk, Translate, UserAt, KernelOk;
      AllBeside(m, data, m', roots, spaces, kernelP4, shared, k);
    }
  }

  /** Parent and child both read what the parent read, and may write all of it. */
  lemma ForkedSpaces(m: Mem, m': Mem, data: map<nat, Page>, src: nat, dst: nat, space: Space, shared: set<nat>)
    requires VmOk(m.tables, m.nodes, m.free) && F.IsFork(m, m', src, dst) && ReadsAs(m, data, src, space, shared)
    ensures ReadsAs(m', data, src, Opened(space), shared) && ReadsAs(m', data, dst, Opened(space), shared)
  {
    F.ForkIsCopy(m, m', data, src, dst);
    F.ForkFrame(m, m', src, dst);
    hide View, OpenAt, Private, F.IsFork, VmOk, Translate, UserAt;
    StillRoot(m, m', dst, src);
    hide RootsKept;
    forall q | IsOwn(q, shared)
      ensures HasCell(m', data, src, q, Opened(space)) && HasCell(m', data, dst, q, Opened(space))
    {
      assert HasCell(m, data, src, q, space);
      SeenIsMapped(m, data, src, q);
    }
  }

  lemma SeenIsMapped(m: Mem, data: map<nat, Page>, r: nat, q: seq<nat>)
    ensures View(m.tables, data, r, q).Some? <==> UserAt(m.tables, r, 4, q).Some?
  {
  }

  lemma Ended(m: Mem, m': Mem, data: map<nat, Page>, roots: seq<Option<nat>>, spaces: Spaces, kernelP4: nat,
      shared: set<nat>, p: nat)
    requires Represents(m, data, roots, spaces, kernelP4, shared) && IsLive(roots, p)
    requires T.GivenUp(m, m', roots[p].value)
    ensures Represents(m', data, roots[p := None], spaces[p := None], kernelP4, shared)
  {
    hide Translate, UserAt, OpenAt, Private, RootsKept;
    var r := roots[p].value;
    KernelStays(m, m', kernelP4, shared, r);
    forall k | 0 <= k < |roots| && k != p && roots[k].Some?
      ensures ReadsAs(m', data, roots[k].value, spaces[k].value, shared)
    {
      assert ReadsAs(m, data, roots[k].value, spaces[k].value, shared) && roots[k] != roots[p];
      StillRoot(m, m', r, roots[k].value);
      forall q | IsPlace(m, roots[k].value, q)
        ensures SameWalk(m.tables, m'.tables, roots[k].value, 4, q) && IsPlace(m', roots[k].value, q)
      {
      }
      AllBeside(m, data, m', roots, spaces, kernelP4, shared, k);
    }
  }

  /** The state of a run: the invariant of the memory, and what the processes read. */
  ghost predicate Running(vm: AddressSpaces, roots: seq<Option<nat>>, spaces: Spaces, kernelP4: nat, shared: set<nat>)
    reads vm, vm.pmm, vm.pmm.bm, vm.pmm.refs
  {
    vm.Valid() && Sound(vm.Now()) && Represents(vm.Now(), vm.data, roots, spaces, kernelP4, shared)
  }

  /** What the state says about one live process. */
  lemma LiveFacts(m: Mem, data: map<nat, Page>, roots: seq<Option<nat>>, spaces: Spaces, kernelP4: nat,
      shared: set<nat>, p: nat)
    requires Represents(m, data, roots, spaces, kernelP4, shared) && IsLive(roots, p)
    ensures IsLive(spaces, p) && roots[p].value != kernelP4 && IsP4(m, roots[p].value)
    ensures 0 < roots[p].value < FRAME_LIMIT
    ensures forall q | IsOwn(q, shared) ::
              && IsPlace(m, roots[p].value, q) && (UserAt(m.tables, roots[p].value, 4, q).Some?
                 <==> q in spaces[p].value)
              && (OpenAt(m.tables, roots[p].value, 4, q) <==> q in spaces[p].value && spaces[p].value[q].open)
    ensures shared == {} ==> F.OwnsUpper(m, roots[p].value)
  {
    var r := roots[p].value;
    assert ReadsAs(m, data, r, spaces[p].value, shared);
    hide OpenAt, Private;
    forall q | IsOwn(q, shared)
      ensures IsPlace(m, r, q) && (UserAt(m.tables, r, 4, q).Some? <==> q in spaces[p].value)
      ensures OpenAt(m.tables, r, 4, q) <==> q in spaces[p].value && spaces[p].value[q].open
    {
      assert HasCell(m, data, r, q, spaces[p].value);
    }
    if shared == {} {
      forall i | UPPER <= i < ENTRIES
        ensures Private(m.tables, m.nodes, r, i)
      {
        assert IsOwn([i, 0, 0, 0], shared);
        assert IsPlace(m, r, [i, 0, 0, 0]);
      }
    }
  }

  lemma RootsFit(m: Mem, data: map<nat, Page>, roots: seq<Option<nat>>, spaces: Spaces, kernelP4: nat, shared: set<nat>)
    requires Represents(m, data, roots, spaces, kernelP4, shared)
    ensures |roots| == |spaces| && KernelOk(m, kernelP4, shared)
    ensures forall p: nat :: IsLive(roots, p) <==> IsLive(spaces, p)
  {
  }

  method DoSpawn(vm: AddressSpaces, kernelP4: nat, roots: seq<Option<nat>>, ghost spaces: Spaces,
      ghost shared: set<nat>)
    returns (ok: bool, roots': seq<Option<nat>>)
    requires Running(vm, roots, spaces, kernelP4, shared)
    modifies vm, vm.pmm`freeFrames, vm.pmm`hint, vm.pmm.bm, vm.pmm.refs
    ensures !ok ==> vm.pmm.bm.Length == BM_WORDS && vm.pmm.Free() == {}
    ensures ok ==> Running(vm, roots', spaces + [Some(map[])], kernelP4, shared)
    ensures ok && AllCounted(old(vm.Now())) ==> AllCounted(vm.Now())
  {
    hide FrameManager.Valid, FrameManager.Free, VmOk, Sound, AllCounted, Represents, F.IsMirror;
    vm.pmm.FromValid();
    ghost var m, data := vm.Now(), vm.data;
    RootsFit(m, data, roots, spaces, kernelP4, shared);
    SoundIsVm(m);
    var a := F.NewUserP4(vm, kernelP4);
    if a == OutOfMemory { return false, roots; }
    Spawned(m, vm.Now(), data, roots, spaces, kernelP4, shared, a.frame);
    return true, roots + [Some(a.frame)];
  }

  method DoClone(vm: AddressSpaces, kernelP4: nat, roots: seq<Option<nat>>, p: nat, ghost spaces: Spaces,
      ghost shared: set<nat>)
    returns (ok: bool, roots': seq<Option<nat>>)
    requires Running(vm, roots, spaces, kernelP4, shared) && IsLive(roots, p) && IsLive(spaces, p)
    modifies vm, vm.pmm`freeFrames, vm.pmm`hint, vm.pmm.bm, vm.pmm.refs
    ensures !ok ==> vm.pmm.bm.Length == BM_WORDS && vm.pmm.Free() == {}
    ensures ok ==>
              var both := Some(Opened(spaces[p].value));
              Running(vm, roots', spaces[p := both] + [both], kernelP4, shared)
    ensures ok && AllCounted(old(vm.Now())) ==> (AllCounted(vm.Now()) <==> !Overcounting(old(vm.Now()), roots[p].value))
    ensures Overcounting(old(vm.Now()), roots[p].value) ==> shared != {}
  {
    hide FrameManager.Valid, FrameManager.Free, VmOk, Sound, AllCounted, Represents, F.IsFork, F.OwnsUpper, UserAt;
    hide OpenAt, IsPlace, F.MoreOwners, F.Overcounts;
    vm.pmm.FromValid();
    ghost var m, data := vm.Now(), vm.data;
    LiveFacts(m, data, roots, spaces, kernelP4, shared, p);
    SoundIsVm(m);
    var src := roots[p].value;
    RootTable(m, src);
    if shared == {} { NothingForeign(m, src); }
    var a := F.CloneUserP4(vm, src);
    if a == OutOfMemory { return false, roots; }
    Cloned(m, vm.Now(), data, roots, spaces, kernelP4, shared, p, a.frame);
    if AllCounted(m) { F.ForkCountsExactly(m, vm.Now(), src, a.frame); }
    return true, roots + [Some(a.frame)];
  }

  /** A fork of the process leaves a count too high. */
  ghost predicate Overcounting(m: Mem, r: nat) {
    HasTable(m, r, 4) && F.Overcounts(m, r)
  }

  lemma RootTable(m: Mem, r: nat)
    requires VmOk(m.tables, m.nodes, m.free) && IsP4(m, r)
    ensures HasTable(m, r, 4)
  {
    FromTree(m.tables, m.nodes);
  }

  lemma NothingForeign(m: Mem, r: nat)
    requires Sound(m) && HasTable(m, r, 4) && F.OwnsUpper(m, r)
    ensures !F.Overcounts(m, r)
  {
    hide Sound, F.OwnsUpper, Foreign;
    forall f: nat ensures !Foreign(m, r, f) { F.OwnIsNotForeign(m, r, f); }
  }

  /** Unmapping for user code leaves a kernel page alone. */
  method DoUnmap(vm: AddressSpaces, kernelP4: nat, roots: seq<Option<nat>>, p: nat, v: nat, ghost spaces: Spaces,
      ghost shared: set<nat>)
    requires Running(vm, roots, spaces, kernelP4, shared) && IsLive(roots, p) && IsLive(spaces, p)
    requires IsOwn(PathOf(v), shared)
    modifies vm, vm.pmm`freeFrames, vm.pmm`hint, vm.pmm.bm, vm.pmm.refs
    ensures Running(vm, roots, spaces[p := Some(spaces[p].value - {PathOf(v)})], kernelP4, shared)
    ensures AllCounted(old(vm.Now())) ==> AllCounted(vm.Now())
  {
    hide FrameManager.Valid, FrameManager.Free, VmOk, Sound, AllCounted, Represents, UserAt, OpenAt, IsPlace, PtOf;
    hide OneView, RootsKept;
    hide Owners, IsUserLeaf, LeafAt, At, MayDrop, Counted, PathOf, IsUpper;
    vm.pmm.FromValid();
    ghost var m, data := vm.Now(), vm.data;
    var r, path := roots[p].value, PathOf(v);
    LiveFacts(m, data, roots, spaces, kernelP4, shared, p);
    LeafNow(m, r, path);
    Unmapping(m, r, path);
    var pt := PtOf(vm.tables, r, 4, path);
    if pt.Some? && vm.tables[pt.value][path[3]].p && !vm.tables[pt.value][path[3]].u {
      assert spaces[p].value - {path} == spaces[p].value;
      assert spaces[p := Some(spaces[p].value)] == spaces;
      return;
    }
    UnmapUser(vm, r, v);
    OneChanged(m, data, vm.Now(), vm.data, roots, spaces, kernelP4, shared, p, path, None, false);
  }

  lemma Unmapping(m: Mem, r: nat, path: seq<nat>)
    requires Sound(m) && IsPlace(m, r, path)
    ensures var pt := PtOf(m.tables, r, 4, path);
            if pt.Some? && Entry(m, pt.value, path[3]).p && !Entry(m, pt.value, path[3]).u
            then UserAt(m.tables, r, 4, path) == None
            else MayDrop(m, r, path)
  {
    LeafIs(m, r, path);
  }

  /** One operation of the kernel, on the process tables as they are. A process only ends if that spares the others. */
  method Step(vm: AddressSpaces, kernelP4: nat, roots: seq<Option<nat>>, op: Op, ghost spaces: Spaces,
      ghost shared: set<nat>)
    returns (ok: bool, roots': seq<Option<nat>>)
    requires Running(vm, roots, spaces, kernelP4, shared) && OpOk(op, shared) && Harmless(vm.Now(), roots, op)
    modifies vm, vm.pmm`freeFrames, vm.pmm`hint, vm.pmm.bm, vm.pmm.refs
    ensures !ok ==> vm.pmm.bm.Length == BM_WORDS && vm.pmm.Free() == {}
    ensures ok ==> Running(vm, roots', Eager(spaces, op), kernelP4, shared)
    ensures ok && AllCounted(old(vm.Now())) && !Remaps(spaces, op) ==>
              (AllCounted(vm.Now()) <==>
                 !(op.Clone? && IsLive(roots, op.p) && Overcounting(old(vm.Now()), roots[op.p].value)))
    ensures op.Clone? && IsLive(roots, op.p) && Overcounting(old(vm.Now()), roots[op.p].value) ==> shared != {}
  {
    hide FrameManager.Valid, FrameManager.Free, VmOk, Sound, PtOf, UserAt, OpenAt, View, OneView, PathOf, Owners;
    hide AllCounted, Represents, Overcounting, T.Spares;
    hide F.IsFork, F.IsMirror, F.StaysSound, T.GivenUp, IsUserLeaf, At, LeafAt, MayDrop, IsUpper, IsPlace;
    hide KernelOk, F.OwnsUpper, RootsKept;
    vm.pmm.FromValid();
    ghost var m, data := vm.Now(), vm.data;
    roots' := roots;
    ok := true;
    RootsFit(m, data, roots, spaces, kernelP4, shared);
    if op.Spawn? {
      ok, roots' := DoSpawn(vm, kernelP4, roots, spaces, shared);
      return;
    }
    var p := op.p;
    if p >= |roots| || roots[p] == None { return; }
    var r := roots[p].value;
    LiveFacts(m, data, roots, spaces, kernelP4, shared, p);
    match op {
      case Spawn =>
      case MapZero(_, v, f) =>
        var mapped := MapFresh(vm, r, v, f);
        if mapped == Exhausted { ok := false; return; }
        OneChanged(m, data, vm.Now(), vm.data, roots, spaces, kernelP4, shared, p, PathOf(v), Some(ZeroPage()), f.w
            || f.cow);
      case Clone(_) =>
        ok, roots' := DoClone(vm, kernelP4, roots, p, spaces, shared);
      case Write(_, v, page) =>
        var stored := UserStore(vm, r, v, page);
        if stored == OutOfFrames { ok := false; return; }
        if stored == Stored {
          OneChanged(m, data, vm.Now(), vm.data, roots, spaces, kernelP4, shared, p, PathOf(v), Some(page), true);
        }
      case Unmap(_, v) =>
        DoUnmap(vm, kernelP4, roots, p, v, spaces, shared);
      case Exit(_) =>
        T.GiveUp(vm, r, kernelP4);
        StillSound(m, vm.Now());
        Ended(m, vm.Now(), data, roots, spaces, kernelP4, shared, p);
        roots' := roots[p := None];
    }
  }

  lemma StillSound(m: Mem, m': Mem)
    ensures F.StaysSound(m, m') ==> Sound(m') && (AllCounted(m) ==> AllCounted(m'))
  {
  }

  /**
   The refinement: after any operations in any order, every live process reads what it would read
   with eager copying, and may write what it could there. The run ends early only when no frame is left, or before
   the end of a process while upper slots are shared; whether that end would spare the others is for the state to
   tell. Counts stay exact unless a page is mapped over another one, or a fork meets shared slots.
   */
  method Run(vm: AddressSpaces, kernelP4: nat, roots0: seq<Option<nat>>, ops: seq<Op>, ghost spaces0: Spaces,
      shared: set<nat>)
    returns (done: nat, roots: seq<Option<nat>>)
    requires Running(vm, roots0, spaces0, kernelP4, shared) && forall op <- ops :: OpOk(op, shared)
    modifies vm, vm.pmm`freeFrames, vm.pmm`hint, vm.pmm.bm, vm.pmm.refs
    ensures done <= |ops| && vm.pmm.bm.Length == BM_WORDS
    ensures done < |ops| && vm.pmm.Free() != {} ==> ops[done].Exit? && shared != {}
    ensures done == |ops| || vm.pmm.Free() != {} ==>
              Running(vm, roots, EagerRun(spaces0, ops[..done]), kernelP4, shared)
    ensures done == |ops| && AllCounted(old(vm.Now())) && !Remapped(spaces0, ops) ==>
              shared == {} || (forall op <- ops :: !op.Clone?) ==> AllCounted(vm.Now())
  {
    hide Running, Eager, AllCounted, Remaps, OpOk, Harmless, Overcounting;
    Bitmap(vm, roots0, spaces0, kernelP4, shared);
    roots := roots0;
    done := 0;
    while done < |ops|
      invariant done <= |ops| && Running(vm, roots, EagerRun(spaces0, ops[..done]), kernelP4, shared)
      invariant vm.pmm.bm.Length == BM_WORDS
      invariant && AllCounted(old(vm.Now())) && !Remapped(spaces0, ops)
                && (shared == {} || (forall op <- ops :: !op.Clone?)) ==>
                  AllCounted(vm.Now())
    {
      if ops[done].Exit? && shared != {} { return; }
      if ops[done].Exit? { EndsAreHarmless(vm, roots, EagerRun(spaces0, ops[..done]), kernelP4, shared, ops[done]); }
      NoExit(vm.Now(), roots, ops[done]);
      var ok;
      ok, roots := Step(vm, kernelP4, roots, ops[done], EagerRun(spaces0, ops[..done]), shared);
      if !ok { return; }
      assert ops[..done + 1][..done] == ops[..done];
      done := done + 1;
      Bitmap(vm, roots, EagerRun(spaces0, ops[..done]), kernelP4, shared);
    }
    assert ops[..done] == ops;
  }

  lemma NoExit(m: Mem, roots: seq<Option<nat>>, op: Op)
    ensures !op.Exit? ==> Harmless(m, roots, op)
  {
  }

  lemma EndsAreHarmless(vm: AddressSpaces, roots: seq<Option<nat>>, spaces: Spaces, kernelP4: nat, shared: set<nat>,
      op: Op)
    requires Running(vm, roots, spaces, kernelP4, shared) && shared == {} && op.Exit?
    ensures Harmless(vm.Now(), roots, op)
  {
    hide Sound, Represents, T.Spares, F.OwnsUpper;
    if IsLive(roots, op.p) {
      LiveFacts(vm.Now(), vm.data, roots, spaces, kernelP4, shared, op.p);
      T.OwnSpares(vm.Now(), roots[op.p].value);
    }
  }

  lemma Bitmap(vm: AddressSpaces, roots: seq<Option<nat>>, spaces: Spaces, kernelP4: nat, shared: set<nat>)
    requires Running(vm, roots, spaces, kernelP4, shared)
    ensures vm.pmm.bm.Length == BM_WORDS
  {
  }
}
