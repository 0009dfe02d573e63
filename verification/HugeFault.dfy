/**
 The other branch of `handle_cow_fault`: a write fault on a huge page that a fork has marked. Whether
 the page is copied is decided by the count of the first of its 512 frames alone.
 */
module HugeFault {
  import opened Sizes
  import opened Options
  import opened PageTables
  import opened Pmm
  import opened Vmm
  import opened CowState
  import opened FrameUses
  import opened CopyOnWrite
  import T = Teardown

  /** The walk ends in a huge page. */
  ghost predicate IsHugeAt(m: Mem, p4: nat, path: seq<nat>) {
    IsP4(m, p4) && IsPath(path, 4) && var (e4, e3, e2, e1) := Way(m, p4, path); e4.p && e3.p && e2.p && e2.ps
  }

  // ----- moving the counts -----

  ghost function WithOne(m: Mem, f: nat): Mem {
    if m.base <= f < m.base + |m.refs| then m.(refs := m.refs[f - m.base := 1]) else m
  }

  /** One by one a frame of the old page loses a reference and one of the new page gets its first. */
  ghost function Moved(m: Mem, src: nat, dst: nat, n: nat): Mem {
    if n == 0 then m else WithOne(Dropped(Moved(m, src, dst, n - 1), src + n - 1), dst + n - 1)
  }

  /** What that makes of a frame. */
  ghost predicate MovedFrame(m: Mem, m': Mem, src: nat, dst: nat, n: nat, f: nat) {
    && (f in m'.free <==> f in m.free || T.Freed(m, f, {}, SpanUses(src, n)))
    && (m.base <= f < m.base + |m.refs| && !(dst <= f < dst + ENTRIES) ==>
          RefAt(m'.refs, m.base, f) == T.DecTimes(m.refs[f - m.base], SpanUses(src, n)(f)))
    && (m.base <= f < m.base + |m.refs| && dst <= f < dst + ENTRIES && !(src <= f < src + n) ==>
          RefAt(m'.refs, m.base, f) == 1)
  }

  lemma {:induction false} MovedKeeps(m: Mem, src: nat, dst: nat, n: nat)
    ensures var m' := Moved(m, src, dst, n);
            && m'.tables == m.tables && m'.nodes == m.nodes && m'.base == m.base && m'.limit == m.limit
            && |m'.refs| == |m.refs|
  {
    if n > 0 { MovedKeeps(m, src, dst, n - 1); }
  }

  lemma MovedStep(m: Mem, a: Mem, src: nat, dst: nat, n: nat, f: nat)
    requires n < ENTRIES && m.limit <= |m.refs| && RefAt(m.refs, m.base, f) <= REF_MAX
    requires a.base == m.base && a.limit == m.limit && |a.refs| == |m.refs|
    requires dst <= f < dst + ENTRIES ==> RefAt(m.refs, m.base, f) == 1
    requires MovedFrame(m, a, src, dst, n, f)
    ensures MovedFrame(m, WithOne(Dropped(a, src + n), dst + n), src, dst, n + 1, f)
  {
    var d := Dropped(a, src + n);
    var b := WithOne(d, dst + n);
    StepRefs(m, a, src + n, dst + n, f);
    if f == src + n {
      assert RefAt(a.refs, m.base, f) == RefAt(m.refs, m.base, f);
      assert f in d.free <==> f in a.free || (RefAt(m.refs, m.base, f) == 1 && m.base <= f < m.base + m.limit);
    } else {
      assert f in d.free <==> f in a.free;
      assert SpanUses(src, n + 1)(f) == SpanUses(src, n)(f);
    }
    hide Dropped, WithOne;
  }

  lemma StepRefs(m: Mem, a: Mem, x: nat, y: nat, f: nat)
    requires a.base == m.base && |a.refs| == |m.refs|
    ensures var d, b := Dropped(a, x), WithOne(Dropped(a, x), y);
            && b.free == d.free && |b.refs| == |d.refs| == |m.refs|
            && RefAt(d.refs, m.base, f) ==
               (if f == x && m.base <= f < m.base + |m.refs| then DecRef(RefAt(a.refs, m.base, f))
                else RefAt(a.refs, m.base, f))
            && RefAt(b.refs, m.base, f) ==
               (if f == y && m.base <= f < m.base + |m.refs| then 1 else RefAt(d.refs, m.base, f))
  {
  }

  /** A frame of both pages is freed although it has just been taken. */
  lemma {:induction false} MovedMeans(m: Mem, src: nat, dst: nat, n: nat, f: nat)
    requires n <= ENTRIES && m.limit <= |m.refs| && RefAt(m.refs, m.base, f) <= REF_MAX
    requires dst <= f < dst + ENTRIES ==> RefAt(m.refs, m.base, f) == 1
    ensures MovedFrame(m, Moved(m, src, dst, n), src, dst, n, f)
  {
    hide *;
    if n == 0 {
      MovedNone(m, src, dst, f);
    } else {
      MovedKeeps(m, src, dst, n - 1);
      MovedMeans(m, src, dst, n - 1, f);
      MovedStep(m, Moved(m, src, dst, n - 1), src, dst, n - 1, f);
      MovedNext(m, src, dst, n - 1);
    }
  }

  lemma MovedNone(m: Mem, src: nat, dst: nat, f: nat)
    requires RefAt(m.refs, m.base, f) <= REF_MAX && (dst <= f < dst + ENTRIES ==> RefAt(m.refs, m.base, f) == 1)
    ensures Moved(m, src, dst, 0) == m && MovedFrame(m, m, src, dst, 0, f)
  {
  }

  lemma MovedNext(m: Mem, src: nat, dst: nat, n: nat)
    ensures Moved(m, src, dst, n + 1) == WithOne(Dropped(Moved(m, src, dst, n), src + n), dst + n)
  {
  }

  // ----- one huge entry is stored -----

  ghost function Stored(m: Mem, t: nat, i: nat, e: Pte): Mem
    requires t in m.tables && i < |m.tables[t]|
  {
    m.(tables := Store(m.tables, t, i, e))
  }

  lemma HugeTree(tables: Tables, nodes: Nodes, t: nat, i: nat, e: Pte)
    requires TreeOk(tables, nodes) && t in tables && nodes[t].level == 2 && i < ENTRIES && e.p && e.ps
    ensures IsTable(t, tables, nodes) && TreeOk(Store(tables, t, i, e), nodes)
  {
    assert IsTable(t, tables, nodes);
    var tables' := Store(tables, t, i, e);
    assert forall x <- tables :: IsTable(x, tables, nodes) ==> IsTable(x, tables', nodes);
    forall x, j | x in tables' && 0 <= j < ENTRIES
      ensures EntryOk(x, j, tables', nodes)
    {
      assert EntryOk(x, j, tables, nodes);
    }
  }

  /** The walk comes to entry `i` of the second-level table `t`. */
  ghost predicate Meets(tables: Tables, x: nat, level: nat, path: seq<nat>, t: nat, i: nat)
    decreases level
  {
    && level >= 2 && x in tables && |path| == level && path[0] < |tables[x]|
    && if level == 2 then x == t && path[0] == i
       else tables[x][path[0]].p && !tables[x][path[0]].ps && Meets(tables, tables[x][path[0]].frame, level - 1,
           path[1..], t, i)
  }

  lemma {:induction false} HugeStep(tables: Tables, nodes: Nodes, t: nat, i: nat, e: Pte, x: nat, level: nat,
      path: seq<nat>)
    requires TreeOk(tables, nodes) && t in tables && nodes[t].level == 2 && i < ENTRIES && i < |tables[t]|
    requires tables[t][i].p && tables[t][i].ps && e.p && e.ps
    requires x in tables && nodes[x].level == level && IsPath(path, level)
    ensures EndOfWalk(Store(tables, t, i, e), x, level, path) ==
            if Meets(tables, x, level, path, t, i) then End(e, 2) else EndOfWalk(tables, x, level, path)
    decreases level
  {
    assert IsTable(x, tables, nodes) && EntryOk(x, path[0], tables, nodes);
    var d := tables[x][path[0]];
    if level >= 2 && d.p && !d.ps { HugeStep(tables, nodes, t, i, e, d.frame, level - 1, path[1..]); }
  }

  /** The page `q` of root `x` lies in the huge page that `p4` has at `path`, or in one that is the same. */
  ghost predicate InHuge(tables: Tables, x: nat, q: seq<nat>, p4: nat, path: seq<nat>)
    requires IsPath(q, 4) && IsPath(path, 4)
  {
    q[1] == path[1] && q[2] == path[2] && Sees(tables, x, q[0], p4, path[0])
  }

  lemma MeetsFour(m: Mem, x: nat, q: seq<nat>, t: nat, i: nat)
    requires TreeOk(m.tables, m.nodes) && IsP4(m, x) && IsPath(q, 4)
    ensures var (e4, e3, e2, e1) := Way(m, x, q);
            Meets(m.tables, x, 4, q, t, i) <==> e4.p && e3.p && e3.frame == t && q[2] == i
  {
    assert IsTable(x, m.tables, m.nodes) && EntryOk(x, q[0], m.tables, m.nodes);
    var e4 := m.tables[x][q[0]];
    assert q[1..][0] == q[1] && q[1..][1..][0] == q[2];
    if e4.p {
      assert EntryOk(e4.frame, q[1], m.tables, m.nodes);
    }
  }

  lemma MeetsIfSame(m: Mem, p4: nat, path: seq<nat>, x: nat, q: seq<nat>)
    requires TreeOk(m.tables, m.nodes) && IsHugeAt(m, p4, path) && IsP4(m, x) && IsPath(q, 4)
    ensures Meets(m.tables, x, 4, q, Way(m, p4, path).1.frame, path[2]) <==> InHuge(m.tables, x, q, p4, path)
  {
    MeetsFour(m, x, q, Way(m, p4, path).1.frame, path[2]);
    assert IsTable(p4, m.tables, m.nodes) && EntryOk(p4, path[0], m.tables, m.nodes);
    assert IsTable(x, m.tables, m.nodes) && EntryOk(x, q[0], m.tables, m.nodes);
    var (e4, e3, e2, e1) := Way(m, p4, path);
    var (d4, d3, d2, d1) := Way(m, x, q);
    assert EntryOk(e4.frame, path[1], m.tables, m.nodes);
    if d4.p { assert EntryOk(d4.frame, q[1], m.tables, m.nodes); }
  }

  /** A huge page got another entry, at every slot that sees it; every other walk ends where it did. */
  ghost predicate OnlyHuge(m: Mem, m': Mem, p4: nat, path: seq<nat>, e: Pte)
    requires IsPath(path, 4)
  {
    forall x, q | IsP4(m, x) && IsPath(q, 4) ::
      EndOfWalk(m'.tables, x, 4, q) ==
      if InHuge(m.tables, x, q, p4, path) then End(e, 2) else EndOfWalk(m.tables, x, 4, q)
  }

  lemma StoredOnly(m: Mem, p4: nat, path: seq<nat>, e: Pte)
    requires TreeOk(m.tables, m.nodes) && IsHugeAt(m, p4, path) && e.p && e.ps
    ensures var t := Way(m, p4, path).1.frame;
            && t in m.tables && t in m.nodes && m.nodes[t].level == 2 && |m.tables[t]| == ENTRIES
            && TreeOk(Store(m.tables, t, path[2], e), m.nodes)
            && OnlyHuge(m, Stored(m, t, path[2], e), p4, path, e)
  {
    var (e4, e3, e2, e1) := Way(m, p4, path);
    var t := e3.frame;
    HugeThere(m, p4, path);
    HugeTree(m.tables, m.nodes, t, path[2], e);
    hide TreeOk, EndOfWalk, Meets, InHuge;
    forall x, q | IsP4(m, x) && IsPath(q, 4)
      ensures EndOfWalk(Stored(m, t, path[2], e).tables, x, 4, q) ==
              if InHuge(m.tables, x, q, p4, path) then End(e, 2) else EndOfWalk(m.tables, x, 4, q)
    {
      HugeStep(m.tables, m.nodes, t, path[2], e, x, 4, q);
      MeetsIfSame(m, p4, path, x, q);
    }
  }

  lemma HugeThere(m: Mem, p4: nat, path: seq<nat>)
    requires TreeOk(m.tables, m.nodes) && IsHugeAt(m, p4, path)
    ensures p4 in m.tables && |m.tables[p4]| == ENTRIES
    ensures var (e4, e3, e2, e1) := Way(m, p4, path);
            && e4.frame in m.tables && |m.tables[e4.frame]| == ENTRIES && !e4.ps && !e3.ps
            && e3.frame in m.tables && |m.tables[e3.frame]| == ENTRIES
            && e3.frame in m.nodes && m.nodes[e3.frame].level == 2
            && m.tables[p4][path[0]] == e4 && m.tables[e4.frame][path[1]] == e3 && m.tables[e3.frame][path[2]] == e2
  {
    assert IsTable(p4, m.tables, m.nodes) && EntryOk(p4, path[0], m.tables, m.nodes);
    var (e4, e3, e2, e1) := Way(m, p4, path);
    assert EntryOk(e4.frame, path[1], m.tables, m.nodes);
  }

  // ----- the fault -----

  ghost function Took(m: Mem, k: nat): Mem
    requires HUGE_FRAMES * k + HUGE_FRAMES <= |m.refs|
  {
    m.(free := m.free - Run(m.base, k), refs := CountedOnce(m.refs, HUGE_FRAMES * k, HUGE_FRAMES))
  }

  /** The page was copied to the `k`-th run of 512 frames. */
  ghost function AfterCopy(m: Mem, p4: nat, path: seq<nat>, k: nat): Mem
    requires IsPath(path, 4) && HUGE_FRAMES * k + HUGE_FRAMES <= |m.refs|
  {
    var (e4, e3, e2, e1) := Way(m, p4, path);
    var b := m.base + HUGE_FRAMES * k;
    var c := Moved(Took(m, k), e2.frame, b, ENTRIES);
    if e3.frame in c.tables && path[2] < |c.tables[e3.frame]|
    then Stored(c, e3.frame, path[2], Owned(e2, b % FRAME_LIMIT)) else c
  }

  function CopiedPages(data: map<nat, Page>, src: nat, dst: nat): map<nat, Page> {
    data + map f: nat | dst <= f < dst + ENTRIES && InSpan(f, dst, ENTRIES) :: PageOf(data, src + (f - dst))
  }

  /**
   Exactly what a write fault on a huge page does, whoever shares its table: if the first of its frames is counted
   once at most the page is opened where it is; otherwise it is copied to the first free run, if there is one.
   */
  method HandleHugeFault(vm: AddressSpaces, p4: nat, faultAddr: nat) returns (r: FaultResult, ghost k: nat)
    requires vm.Valid() && IsHugeAt(vm.Now(), p4, PathOf(faultAddr))
    modifies vm, vm.pmm`freeFrames, vm.pmm.bm, vm.pmm`hint, vm.pmm.refs
    ensures vm.pmm.Valid()
    ensures var m, e := old(vm.Now()), Way(old(vm.Now()), p4, PathOf(faultAddr)).2;
            && (r == Denied <==> !e.cow)
            && (r == NoMemory <==> e.cow && RefAt(m.refs, m.base, e.frame) > 1
                                   && NoRunBelow(m.free, m.base, m.limit, m.limit))
            && (r != Resolved ==> vm.Now() == m && vm.data == old(vm.data))
    ensures var m, path := old(vm.Now()), PathOf(faultAddr);
            r == Resolved ==>
              if RefAt(m.refs, m.base, Way(m, p4, path).2.frame) <= 1
              then vm.Now() == OpenedInPlace(m, p4, path) && vm.data == old(vm.data)
              else IsCopied(m, old(vm.data), vm.Now(), vm.data, p4, path, k)
  {
    hide FrameManager.Valid, FrameManager.Free, VmOk, PathOf, IsCopied, NoRunBelow;
    vm.pmm.FromValid();
    k := 0;
    var v := faultAddr - faultAddr % PAGE_SIZE;
    PageStart(faultAddr);
    var path := PathOf(v);
    ghost var m := vm.Now();
    FromOk(m);
    HugeThere(m, p4, path);
    var t := vm.tables[vm.tables[p4][path[0]].frame][path[1]].frame;
    var e := vm.tables[t][path[2]];
    if !e.cow { return Denied, k; }
    if !vm.pmm.FrameShared(e.frame) {
      vm.tables := Store(vm.tables, t, path[2], Owned(e, e.frame));
      return Resolved, k;
    }
    r, k := CopyHuge(vm, t, path[2], p4, path);
  }

  ghost function OpenedInPlace(m: Mem, p4: nat, path: seq<nat>): Mem
    requires IsPath(path, 4)
  {
    var (e4, e3, e2, e1) := Way(m, p4, path);
    if e3.frame in m.tables && path[2] < |m.tables[e3.frame]|
    then Stored(m, e3.frame, path[2], Owned(e2, e2.frame)) else m
  }

  ghost predicate IsCopied(m: Mem, data: map<nat, Page>, m': Mem, data': map<nat, Page>, p4: nat, path: seq<nat>,
      k: nat)
    requires IsPath(path, 4)
  {
    && IsRun(m.free, m.base, m.limit, k) && NoRunBelow(m.free, m.base, m.limit, k)
    && HUGE_FRAMES * k + HUGE_FRAMES <= |m.refs| && m' == AfterCopy(m, p4, path, k)
    && data' == CopiedPages(data, Way(m, p4, path).2.frame, m.base + HUGE_FRAMES * k)
  }

  method CopyHuge(vm: AddressSpaces, t: nat, i: nat, ghost p4: nat, ghost path: seq<nat>)
    returns (r: FaultResult, ghost k: nat)
    requires vm.pmm.Valid() && IsPath(path, 4) && i == path[2]
    requires t in vm.tables && i < |vm.tables[t]|
    requires Way(vm.Now(), p4, path).1.frame == t && Way(vm.Now(), p4, path).2 == vm.tables[t][i]
    modifies vm, vm.pmm`freeFrames, vm.pmm.bm, vm.pmm`hint, vm.pmm.refs
    ensures vm.pmm.Valid() && r != Denied
    ensures var m := old(vm.Now()); r == NoMemory <==> NoRunBelow(m.free, m.base, m.limit, m.limit)
    ensures r == NoMemory ==> vm.Now() == old(vm.Now()) && vm.data == old(vm.data)
    ensures r == Resolved ==> IsCopied(old(vm.Now()), old(vm.data), vm.Now(), vm.data, p4, path, k)
  {
    hide FrameManager.Valid, FrameManager.Free, Moved, CountedOnce, Run, IsRun, NoRunBelow, RunIndex, Dropped;
    hide WithOne, CopiedPages, Way;
    vm.pmm.FromValid();
    ghost var m := vm.Now();
    k := 0;
    var e := vm.tables[t][i];
    var b := vm.pmm.AllocHuge();
    if b == 0 { return NoMemory, k; }
    k := RunIndex(m.base, b);
    ghost var a := vm.Now();
    assert a == Took(m, k);
    vm.data := CopiedPages(vm.data, e.frame, b);
    MoveCounts(vm, e.frame, b);
    MovedKeeps(a, e.frame, b, ENTRIES);
    vm.tables := Store(vm.tables, t, i, Owned(e, b % FRAME_LIMIT));
    return Resolved, k;
  }

  method MoveCounts(vm: AddressSpaces, src: nat, dst: nat)
    requires vm.pmm.Valid()
    modifies vm.pmm`freeFrames, vm.pmm.bm, vm.pmm`hint, vm.pmm.refs
    ensures vm.pmm.Valid() && vm.Now() == Moved(old(vm.Now()), src, dst, ENTRIES)
  {
    hide FrameManager.Valid, FrameManager.Free, Moved, Dropped, WithOne;
    vm.pmm.FromValid();
    MovedStart(vm.Now(), src, dst);
    for j := 0 to ENTRIES
      invariant vm.pmm.Valid() && vm.Now() == Moved(old(vm.Now()), src, dst, j)
    {
      MovedNext(old(vm.Now()), src, dst, j);
      DropFrame(vm, src + j);
      InitFrame(vm, dst + j);
    }
  }

  lemma MovedStart(m: Mem, src: nat, dst: nat)
    ensures Moved(m, src, dst, 0) == m
  {
  }

  method InitFrame(vm: AddressSpaces, f: nat)
    requires vm.pmm.Valid()
    modifies vm.pmm.refs
    ensures vm.pmm.Valid() && vm.Now() == WithOne(old(vm.Now()), f)
  {
    hide FrameManager.Valid, FrameManager.Free;
    vm.pmm.FromValid();
    vm.pmm.FrameInit(f);
  }

  // ----- what the copy means -----

  lemma RunIsThere(m: Mem, k: nat, f: nat)
    requires IsRun(m.free, m.base, m.limit, k) && HUGE_FRAMES * k + HUGE_FRAMES <= |m.refs|
    ensures var b := m.base + HUGE_FRAMES * k;
            && |Took(m, k).refs| == |m.refs|
            && (f in Run(m.base, k) <==> b <= f < b + ENTRIES) && (f in Run(m.base, k) ==> f in m.free)
            && RefAt(Took(m, k).refs, m.base, f) == (if f in Run(m.base, k) then 1 else RefAt(m.refs, m.base, f))
  {
    assert InSpan(f, m.base + HUGE_FRAMES * k, HUGE_FRAMES) <==>
           m.base + HUGE_FRAMES * k <= f < m.base + HUGE_FRAMES * k + ENTRIES;
  }

  /** What the copy makes of a frame: one that it took is free again exactly if it is one of the old ones. */
  lemma CopiedFrame(m: Mem, p4: nat, path: seq<nat>, k: nat, f: nat)
    requires VmOk(m.tables, m.nodes, m.free) && IsHugeAt(m, p4, path) && m.limit <= |m.refs|
    requires IsRun(m.free, m.base, m.limit, k) && HUGE_FRAMES * k + HUGE_FRAMES <= |m.refs|
    requires RefAt(m.refs, m.base, f) <= REF_MAX
    ensures var m', src := AfterCopy(m, p4, path, k), Way(m, p4, path).2.frame;
            && m'.base == m.base && m'.limit == m.limit && m'.nodes == m.nodes && |m'.refs| == |m.refs|
            && (if f in Run(m.base, k) then f in m.free && (f in m'.free <==> src <= f < src + ENTRIES)
                else
                  && (f in m'.free <==> f in m.free || T.Freed(m, f, {}, SpanUses(src, ENTRIES)))
                  && (m.base <= f < m.base + |m.refs| ==>
                        RefAt(m'.refs, m.base, f) == T.DecTimes(RefAt(m.refs, m.base, f), SpanUses(src, ENTRIES)(f))))
  {
    hide VmOk, Moved, IsRun, CountedOnce, Dropped, WithOne;
    var a, b, src := Took(m, k), m.base + HUGE_FRAMES * k, Way(m, p4, path).2.frame;
    RunIsThere(m, k, f);
    RunManaged(m, k, f);
    MovedKeeps(a, src, b, ENTRIES);
    MovedMeans(a, src, b, ENTRIES, f);
  }

  lemma RunManaged(m: Mem, k: nat, f: nat)
    requires IsRun(m.free, m.base, m.limit, k)
    ensures f in Run(m.base, k) ==> m.base <= f < m.base + m.limit
  {
  }

  /** The tables after the copy: one entry was stored. */
  lemma CopiedTables(m: Mem, p4: nat, path: seq<nat>, k: nat)
    requires VmOk(m.tables, m.nodes, m.free) && IsHugeAt(m, p4, path)
    requires IsRun(m.free, m.base, m.limit, k) && HUGE_FRAMES * k + HUGE_FRAMES <= |m.refs|
    ensures var m', t, e := AfterCopy(m, p4, path, k), Way(m, p4, path).1.frame, Way(m, p4, path).2;
            var b := m.base + HUGE_FRAMES * k;
            && b < FRAME_LIMIT && t in m.tables && t in m.nodes && m.nodes[t].level == 2 && path[2] < |m.tables[t]|
            && m.tables[t][path[2]] == e && e.p && e.ps && m'.nodes == m.nodes
            && m'.tables == Store(m.tables, t, path[2], Owned(e, b))
            && TreeOk(m'.tables, m'.nodes) && OnlyHuge(m, m', p4, path, Owned(e, b))
  {
    var b := m.base + HUGE_FRAMES * k;
    RunInReach(m, k);
    FromOk(m);
    HugeThere(m, p4, path);
    HugeIs(m, p4, path);
    hide *;
    var t, e: Pte := Way(m, p4, path).1.frame, Way(m, p4, path).2;
    OwnedIsHuge(e, b);
    CopyIsStored(m, p4, path, k, t, e);
    StoredOnly(m, p4, path, Owned(e, b));
    OnlyByTables(m, Stored(m, t, path[2], Owned(e, b)), AfterCopy(m, p4, path, k), p4, path, Owned(e, b));
  }

  lemma RunInReach(m: Mem, k: nat)
    requires VmOk(m.tables, m.nodes, m.free) && IsRun(m.free, m.base, m.limit, k)
    requires HUGE_FRAMES * k + HUGE_FRAMES <= |m.refs|
    ensures m.base + HUGE_FRAMES * k < FRAME_LIMIT
  {
    RunIsThere(m, k, m.base + HUGE_FRAMES * k);
    hide TreeOk, IsRun, Run;
  }

  lemma CopyIsStored(m: Mem, p4: nat, path: seq<nat>, k: nat, t: nat, e: Pte)
    requires IsPath(path, 4) && Way(m, p4, path).1.frame == t && Way(m, p4, path).2 == e
    requires HUGE_FRAMES * k + HUGE_FRAMES <= |m.refs| && m.base + HUGE_FRAMES * k < FRAME_LIMIT
    requires t in m.tables && path[2] < |m.tables[t]|
    ensures var m', a := AfterCopy(m, p4, path, k), Stored(m, t, path[2], Owned(e, m.base + HUGE_FRAMES * k));
            m'.tables == a.tables == Store(m.tables, t, path[2], Owned(e, m.base + HUGE_FRAMES * k))
            && m'.nodes == a.nodes == m.nodes
  {
    hide Moved, CountedOnce, Way;
    MovedKeeps(Took(m, k), e.frame, m.base + HUGE_FRAMES * k, ENTRIES);
  }

  lemma HugeIs(m: Mem, p4: nat, path: seq<nat>)
    requires IsHugeAt(m, p4, path)
    ensures Way(m, p4, path).2.p && Way(m, p4, path).2.ps
  {
  }

  lemma OwnedIsHuge(e: Pte, b: nat)
    requires b < FRAME_LIMIT
    ensures Owned(e, b).p && Owned(e, b).ps == e.ps && b % FRAME_LIMIT == b
  {
  }

  lemma OnlyByTables(m: Mem, a: Mem, b: Mem, p4: nat, path: seq<nat>, e: Pte)
    requires IsPath(path, 4) && OnlyHuge(m, a, p4, path, e) && b.tables == a.tables
    ensures OnlyHuge(m, b, p4, path, e)
  {
  }

  // ----- the invariant -----

  /** Every frame of the page that somebody needs has references enough to lose one. */
  ghost predicate HugeSpared(m: Mem, src: nat) {
    forall f: nat | src <= f < src + ENTRIES && m.base <= f < m.base + m.limit :: FrameSpared(m, f)
  }

  ghost predicate FrameSpared(m: Mem, f: nat) {
    && (RefAt(m.refs, m.base, f) == 1 ==> 0 < f < FRAME_LIMIT && f !in m.tables)
    && (Owners(m, f) != {} ==> RefAt(m.refs, m.base, f) == REF_MAX || RefAt(m.refs, m.base, f) >= |Owners(m, f)| + 1)
  }

  /** A huge entry is nobody's owner. */
  lemma SameOwners(m: Mem, m': Mem, t: nat)
    requires t in m.tables && t in m.nodes && m.nodes[t].level == 2 && m'.nodes == m.nodes
    requires m'.tables.Keys == m.tables.Keys && forall x <- m.tables :: x != t ==> m'.tables[x] == m.tables[x]
    ensures forall l :: IsUserLeaf(m', l) <==> IsUserLeaf(m, l)
    ensures forall l | IsUserLeaf(m, l) :: At(m', l) == At(m, l)
    ensures forall f :: Owners(m', f) == Owners(m, f)
  {
    forall f
      ensures Owners(m', f) == Owners(m, f)
    {
      OwnersAre(m, f);
      OwnersAre(m', f);
      assert forall l :: Owns(m', l, f) <==> Owns(m, l, f);
    }
  }

  /** The copy keeps the invariant exactly if every frame of the old page can spare a reference. */
  lemma CopySoundExactly(m: Mem, p4: nat, path: seq<nat>, k: nat)
    requires Sound(m) && IsHugeAt(m, p4, path) && forall i | 0 <= i < |m.refs| :: m.refs[i] <= REF_MAX
    requires IsRun(m.free, m.base, m.limit, k) && HUGE_FRAMES * k + HUGE_FRAMES <= |m.refs|
    ensures var m', src := AfterCopy(m, p4, path, k), Way(m, p4, path).2.frame;
            && (Sound(m') <==> HugeSpared(m, src))
            && (HugeSpared(m, src) && AllCounted(m) ==> AllCounted(m'))
  {
    hide AfterCopy, Owners, FrameSpared, OnlyHuge, IsRun, Run, TreeOk, Way;
    var m', src := AfterCopy(m, p4, path, k), Way(m, p4, path).2.frame;
    CopiedTables(m, p4, path, k);
    SameOwners(m, m', Way(m, p4, path).1.frame);
    if HugeSpared(m, src) { CopyKeepsSound(m, p4, path, k); }
    if Sound(m') {
      forall f: nat | src <= f < src + ENTRIES && m.base <= f < m.base + m.limit
        ensures FrameSpared(m, f)
      {
        CopyTook(m, p4, path, k, f);
      }
    }
  }

  lemma CopyKeepsSound(m: Mem, p4: nat, path: seq<nat>, k: nat)
    requires Sound(m) && IsHugeAt(m, p4, path) && forall i | 0 <= i < |m.refs| :: m.refs[i] <= REF_MAX
    requires IsRun(m.free, m.base, m.limit, k) && HUGE_FRAMES * k + HUGE_FRAMES <= |m.refs|
    requires HugeSpared(m, Way(m, p4, path).2.frame)
    ensures var m' := AfterCopy(m, p4, path, k); Sound(m') && (AllCounted(m) ==> AllCounted(m'))
  {
    hide AfterCopy, Owners, FrameSpared, OnlyHuge, IsRun, Run, TreeOk, Way;
    var m', src := AfterCopy(m, p4, path, k), Way(m, p4, path).2.frame;
    CopiedTables(m, p4, path, k);
    SameOwners(m, m', Way(m, p4, path).1.frame);
    CopiedFrame(m, p4, path, k, 0);
    forall f <- m'.free
      ensures 0 < f < FRAME_LIMIT && f !in m'.tables
    {
      FreeAfterCopy(m, p4, path, k, f);
    }
    forall l | IsUserLeaf(m', l)
      ensures LeafSound(m', l) && (AllCounted(m) ==> Counted(m', At(m', l).frame))
    {
      LeafAfterCopy(m, p4, path, k, l);
    }
  }

  lemma RefBound(m: Mem, f: nat)
    requires forall i | 0 <= i < |m.refs| :: m.refs[i] <= REF_MAX
    ensures RefAt(m.refs, m.base, f) <= REF_MAX
  {
  }

  lemma FreeAfterCopy(m: Mem, p4: nat, path: seq<nat>, k: nat, f: nat)
    requires Sound(m) && IsHugeAt(m, p4, path) && forall i | 0 <= i < |m.refs| :: m.refs[i] <= REF_MAX
    requires IsRun(m.free, m.base, m.limit, k) && HUGE_FRAMES * k + HUGE_FRAMES <= |m.refs|
    requires HugeSpared(m, Way(m, p4, path).2.frame) && f in AfterCopy(m, p4, path, k).free
    ensures 0 < f < FRAME_LIMIT && f !in m.tables
  {
    hide AfterCopy, Owners, IsRun, Run, TreeOk, Way;
    RefBound(m, f);
    CopiedFrame(m, p4, path, k, f);
    if f !in m.free { assert FrameSpared(m, f); }
  }

  lemma LeafAfterCopy(m: Mem, p4: nat, path: seq<nat>, k: nat, l: Leaf)
    requires Sound(m) && IsHugeAt(m, p4, path) && forall i | 0 <= i < |m.refs| :: m.refs[i] <= REF_MAX
    requires IsRun(m.free, m.base, m.limit, k) && HUGE_FRAMES * k + HUGE_FRAMES <= |m.refs|
    requires HugeSpared(m, Way(m, p4, path).2.frame) && IsUserLeaf(m, l)
    ensures var m' := AfterCopy(m, p4, path, k);
            && At(m', l) == At(m, l) && LeafSound(m', l) && (AllCounted(m) ==> Counted(m', At(m', l).frame))
  {
    hide AfterCopy, Owners, IsRun, Run, TreeOk, Way, OnlyHuge, AllCounted;
    var m' := AfterCopy(m, p4, path, k);
    var f: nat := At(m, l).frame;
    RefBound(m, f);
    CopiedFrame(m, p4, path, k, f);
    CopiedTables(m, p4, path, k);
    SameOwners(m, m', Way(m, p4, path).1.frame);
    assert LeafSound(m, l);
    OwnersAre(m, f);
    assert l in Owners(m, f);
    assert AllCounted(m) ==> Counted(m, f) by { hide *; AllAre(m, l); }
    var src := Way(m, p4, path).2.frame;
    if src <= f < src + ENTRIES { assert FrameSpared(m, f); }
  }

  lemma AllAre(m: Mem, l: Leaf)
    requires IsUserLeaf(m, l)
    ensures AllCounted(m) ==> Counted(m, At(m, l).frame)
  {
  }

  lemma CopyTook(m: Mem, p4: nat, path: seq<nat>, k: nat, f: nat)
    requires Sound(m) && IsHugeAt(m, p4, path) && forall i | 0 <= i < |m.refs| :: m.refs[i] <= REF_MAX
    requires IsRun(m.free, m.base, m.limit, k) && HUGE_FRAMES * k + HUGE_FRAMES <= |m.refs|
    requires Sound(AfterCopy(m, p4, path, k))
    requires var src := Way(m, p4, path).2.frame; src <= f < src + ENTRIES && m.base <= f < m.base + m.limit
    ensures FrameSpared(m, f)
  {
    hide AfterCopy, Owners, IsRun, Run, TreeOk, Way, OnlyHuge, NoHugeOwn;
    var m' := AfterCopy(m, p4, path, k);
    RefBound(m, f);
    CopiedFrame(m, p4, path, k, f);
    CopiedTables(m, p4, path, k);
    SameOwners(m, m', Way(m, p4, path).1.frame);
    if Owners(m, f) != {} {
      var l :| l in Owners(m, f);
      OwnersAre(m, f);
      assert LeafSound(m, l) && LeafSound(m', l) && |Owners(m, f)| > 0;
    }
  }

  /** Opening the page where it is is nothing to the invariant. */
  lemma InPlaceSound(m: Mem, p4: nat, path: seq<nat>)
    requires VmOk(m.tables, m.nodes, m.free) && IsHugeAt(m, p4, path)
    ensures var m', e := OpenedInPlace(m, p4, path), Way(m, p4, path).2;
            OnlyHuge(m, m', p4, path, Owned(e, e.frame)) && (Sound(m') <==> Sound(m))
            && (AllCounted(m') <==> AllCounted(m))
  {
    var (e4, e3, e2, e1) := Way(m, p4, path);
    FromOk(m);
    HugeThere(m, p4, path);
    StoredOnly(m, p4, path, Owned(e2, e2.frame));
    SameOwners(m, OpenedInPlace(m, p4, path), e3.frame);
    hide OnlyHuge, Owners, TreeOk, Way;
    var m' := OpenedInPlace(m, p4, path);
    assert forall f :: Counted(m', f) <==> Counted(m, f);
    assert forall l | IsUserLeaf(m, l) :: LeafSound(m', l) <==> LeafSound(m, l);
  }

  // ----- what is read -----

  /** What a walk translates to can be read off its end. */
  lemma {:induction false} EndTranslates(tables: Tables, t: nat, level: nat, path: seq<nat>)
    requires IsPath(path, level) && level >= 1
    ensures var w := EndOfWalk(tables, t, level, path);
            Translate(tables, t, level, path) ==
            if !w.e.p then None else if w.level <= 1 then Some(w.e.frame)
            else Some(w.e.frame - w.e.frame % ENTRIES + path[level - 1])
    decreases level
  {
    if level > 1 && t in tables && path[0] < |tables[t]| {
      var e := tables[t][path[0]];
      if e.p && !e.ps { EndTranslates(tables, e.frame, level - 1, path[1..]); }
    }
  }

  /** What is read at a page, by anyone. */
  ghost function Read(tables: Tables, data: map<nat, Page>, x: nat, q: seq<nat>): Option<Page> {
    match Translate(tables, x, 4, q)
    case None => None
    case Some(f) => Some(PageOf(data, f))
  }

  lemma CopiedPage(data: map<nat, Page>, src: nat, dst: nat, f: nat)
    ensures PageOf(CopiedPages(data, src, dst), f) ==
            PageOf(data, if dst <= f < dst + ENTRIES then src + (f - dst) else f)
  {
    assert InSpan(f, dst, ENTRIES) <==> dst <= f < dst + ENTRIES;
  }

  /**
   On frames at 2 MB boundaries the copy reads as the page did, at every slot of every root that shows it. Everything
   else reads as before, but what is mapped to the frames of the run that was taken: that reads as the page, too.
   */
  lemma CopyReads(m: Mem, data: map<nat, Page>, m': Mem, data': map<nat, Page>, p4: nat, path: seq<nat>, k: nat, x: nat,
      q: seq<nat>)
    requires VmOk(m.tables, m.nodes, m.free) && IsHugeAt(m, p4, path) && IsCopied(m, data, m', data', p4, path, k)
    requires Way(m, p4, path).2.frame % ENTRIES == 0 && m.base % ENTRIES == 0 && IsP4(m, x) && IsPath(q, 4)
    ensures var src, b := Way(m, p4, path).2.frame, m.base + HUGE_FRAMES * k;
            Read(m'.tables, data', x, q) ==
            match Translate(m.tables, x, 4, q)
            case None => None
            case Some(f) =>
              Some(PageOf(data, if !InHuge(m.tables, x, q, p4, path) && b <= f < b + ENTRIES then src + (f - b) else f))
  {
    hide VmOk, EndOfWalk, Translate, Run, IsRun, NoRunBelow, AfterCopy, InHuge, PageOf, CopiedPages, Way, TreeOk;
    var src, b := Way(m, p4, path).2.frame, m.base + HUGE_FRAMES * k;
    CopiedTables(m, p4, path, k);
    EndTranslates(m.tables, x, 4, q);
    EndTranslates(m'.tables, x, 4, q);
    FromOk(m);
    if InHuge(m.tables, x, q, p4, path) {
      WalkInHuge(m, p4, path, x, q);
      assert Translate(m'.tables, x, 4, q) == Some(b + q[3]);
      CopiedPage(data, src, b, b + q[3]);
    } else {
      var f := Translate(m.tables, x, 4, q);
      if f.Some? { CopiedPage(data, src, b, f.value); }
    }
  }

  lemma WalkInHuge(m: Mem, p4: nat, path: seq<nat>, x: nat, q: seq<nat>)
    requires TreeOk(m.tables, m.nodes) && IsHugeAt(m, p4, path) && IsP4(m, x) && IsPath(q, 4)
    requires InHuge(m.tables, x, q, p4, path)
    ensures EndOfWalk(m.tables, x, 4, q) == End(Way(m, p4, path).2, 2)
  {
    HugeThere(m, p4, path);
    MeetsIfSame(m, p4, path, x, q);
    var (e4, e3, e2, e1) := Way(m, p4, path);
    HugeStep(m.tables, m.nodes, e3.frame, path[2], e2, x, 4, q);
    var es := m.tables[e3.frame];
    assert es[path[2] := e2] == es;
    assert m.tables[e3.frame := es] == m.tables;
  }

  /** User code below private slots sees nothing of it. */
  lemma CopyKeepsViews(m: Mem, data: map<nat, Page>, m': Mem, data': map<nat, Page>, p4: nat, path: seq<nat>, k: nat)
    requires Sound(m) && IsHugeAt(m, p4, path) && IsCopied(m, data, m', data', p4, path, k)
    ensures SameViews(m, data, m', data')
  {
    hide EndOfWalk, UserAt, OpenAt, Run, IsRun, NoRunBelow, AfterCopy, InHuge, PageOf, CopiedPages, TreeOk, Way, Owners;
    hide NoHugeOwn, IsUserLeaf;
    CopiedTables(m, p4, path, k);
    forall x, q | IsPlace(m, x, q)
      ensures IsPlace(m', x, q) && View(m'.tables, data', x, q) == View(m.tables, data, x, q)
      ensures OpenAt(m'.tables, x, 4, q) == OpenAt(m.tables, x, 4, q)
    {
      UserOfEnd(m.tables, x, q);
      UserOfEnd(m'.tables, x, q);
      if InHuge(m.tables, x, q, p4, path) {
        WalkInHuge(m, p4, path, x, q);
      } else if UserAt(m.tables, x, 4, q).Some? {
        LeafIs(m, x, q);
        assert LeafSound(m, LeafAt(m, x, q));
        var f: nat := UserAt(m.tables, x, 4, q).value;
        RunIsThere(m, k, f);
        CopiedPage(data, Way(m, p4, path).2.frame, m.base + HUGE_FRAMES * k, f);
      }
    }
  }

  lemma UserOfEnd(tables: Tables, x: nat, q: seq<nat>)
    requires IsPath(q, 4)
    ensures var w := EndOfWalk(tables, x, 4, q);
            && UserAt(tables, x, 4, q) == (if w.level == 1 && w.e.p && w.e.u then Some(w.e.frame) else None)
            && (OpenAt(tables, x, 4, q) <==> w.level == 1 && w.e.p && w.e.u && (w.e.w || w.e.cow))
  {
    EndTells(tables, x, 4, q);
    EndTranslates(tables, x, 4, q);
    UserTranslates(tables, x, 4, q);
    hide EndOfWalk, UserAt, OpenAt, Translate;
  }

  // ----- a run in the page itself -----

  /**
   A frame that lies in the page and in the run that was taken is mapped by the new entry and free at once: free
   frames count once, so that after a fork the page of a free run is shared by its count.
   */
  lemma OverlapFrees(m: Mem, data: map<nat, Page>, m': Mem, data': map<nat, Page>, p4: nat, path: seq<nat>, k: nat,
      f: nat)
    requires VmOk(m.tables, m.nodes, m.free) && IsHugeAt(m, p4, path) && IsCopied(m, data, m', data', p4, path, k)
    requires m.limit <= |m.refs| && RefAt(m.refs, m.base, f) <= REF_MAX && f in Run(m.base, k)
    ensures MapsFrame(EndOfWalk(m'.tables, p4, 4, path), f)
    ensures var src := Way(m, p4, path).2.frame; f in m'.free <==> src <= f < src + ENTRIES
  {
    hide VmOk, EndOfWalk, AfterCopy, Run, IsRun, NoRunBelow, CopiedPages, Way, TreeOk;
    CopiedTables(m, p4, path, k);
    CopiedFrame(m, p4, path, k, f);
    RunIsThere(m, k, f);
    assert InHuge(m.tables, p4, path, p4, path);
  }
}
