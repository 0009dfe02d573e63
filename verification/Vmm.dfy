/**
 The virtual memory manager: the page tables live in frames handed out by the frame manager, and
 mapping or unmapping a page changes what exactly that page translates to.
 Physical addresses of tables are frame numbers; virtual addresses and the address that gets
 mapped are byte addresses.
 */
module Vmm {
  import opened Sizes
  import opened Options
  import opened PageTables
  import opened Pmm

  type Byte = bv8
  type Page = p: seq<Byte> | |p| == PAGE_SIZE witness seq(PAGE_SIZE, _ => 0)

  /** `Exhausted` stands for the panic of a kernel out of frames, after which nothing runs. */
  datatype MapResult = Mapped | Invalid | Exhausted

  /** The four 9-bit indices of a virtual address. */
  function PathOf(v: nat): (path: seq<nat>)
    ensures IsPath(path, 4)
  {
    [(v / 0x80_0000_0000) % ENTRIES, (v / 0x4000_0000) % ENTRIES, (v / 0x20_0000) % ENTRIES, (v / 0x1000) % ENTRIES]
  }

  /** Within 48 bits, two addresses have the same indices exactly when they lie on the same page. */
  lemma PathIsPage(u: nat, v: nat)
    requires u < 0x1_0000_0000_0000 && v < 0x1_0000_0000_0000
    ensures PathOf(u) == PathOf(v) <==> u / PAGE_SIZE == v / PAGE_SIZE
  {
    PageFromPath(u);
    PageFromPath(v);
    hide *;
    var p, q := PathOf(u), PathOf(v);
    assert |p| == |q| == 4 by { PathLength(u); PathLength(v); }
    assert p == q <==> p[0] == q[0] && p[1] == q[1] && p[2] == q[2] && p[3] == q[3];
  }

  lemma PathLength(u: nat)
    ensures |PathOf(u)| == 4
  {
  }

  /** The indices can be read off the page number, and the page number off the indices. */
  lemma PageFromPath(u: nat)
    requires u < 0x1_0000_0000_0000
    ensures var p, a := PathOf(u), u / PAGE_SIZE;
            p[3] == a % 512 && p[2] == a / 512 % 512 && p[1] == a / 512 / 512 % 512 && p[0] == a / 512 / 512 / 512
    ensures var p := PathOf(u); u / PAGE_SIZE == ((p[0] * 512 + p[1]) * 512 + p[2]) * 512 + p[3]
  {
    var a := u / 0x1000;
    var b := a / 512;
    var c := b / 512;
    assert u / 0x20_0000 == b && u / 0x4000_0000 == c && u / 0x80_0000_0000 == c / 512;
    assert a == b * 512 + a % 512 && b == c * 512 + b % 512;
    assert c / 512 < 512 && c == c / 512 * 512 + c % 512;
  }

  /** The address that an access to `v` through the top-level table `p4` goes to. */
  ghost function Phys(tables: Tables, p4: nat, v: nat): Option<nat> {
    match Translate(tables, p4, 4, PathOf(v))
    case None => None
    case Some(f) => Some(f * PAGE_SIZE + v % PAGE_SIZE)
  }

  ghost predicate VmOk(tables: Tables, nodes: Nodes, free: set<nat>) {
    && TreeOk(tables, nodes)
    && (forall t <- tables :: t !in free && t > 0)
    && (forall f <- free :: 0 < f < FRAME_LIMIT)
  }

  /** What `goc` leaves behind: the entry got its missing flags, or a new table took its place. */
  ghost predicate Descended(tables: Tables, nodes: Nodes, t: nat, i: nat, f: Flags, tables': Tables, nodes': Nodes,
      child: nat)
    requires t in tables && t in nodes && nodes[t].level >= 2 && i < |tables[t]|
  {
    if tables[t][i].p && !tables[t][i].ps then
      child == tables[t][i].frame && nodes' == nodes && tables' == Store(tables, t, i, Merged(tables[t][i], f))
    else
      && child !in tables && 0 < child < FRAME_LIMIT
      && nodes' == nodes[child := ChildOf(t, i, nodes[t])]
      && tables' == Grow(tables, t, i, Make(child, f), FillFor(tables[t][i]))
  }

  function Merged(e: Pte, f: Flags): Pte {
    Pte(e.p, e.w || f.w, e.u || f.u, e.ps, e.cow, e.rest, e.frame)
  }

  /** What the new table is filled with: nothing, or the pieces of a huge page. */
  function FillFor(e: Pte): seq<Pte> {
    if e.p then SplitTable(e.frame) else EmptyTable()
  }

  /** The 512 entries that take the place of one huge page. */
  function SplitTable(frame: FrameNumber): seq<Pte> {
    SplitPart(frame, ENTRIES)
  }

  function SplitPart(frame: FrameNumber, n: nat): seq<Pte>
    requires n <= ENTRIES
  {
    seq(ENTRIES, j requires 0 <= j =>
          if j < n then Make(frame - frame % ENTRIES + j, Flags(true, false, false, false, 0)) else ZERO)
  }

  /** No huge page is mapped below a private slot. */
  ghost predicate NoHugeOwn(tables: Tables, nodes: Nodes) {
    forall t, i | t in tables && t in nodes && nodes[t].level == 2 && nodes[t].own && 0 <= i < |tables[t]| ::
      !(tables[t][i].p && tables[t][i].ps)
  }

  /** Tables were added below `p4` out of free frames, and whatever was there translates as before. */
  ghost predicate Grown(p4: nat, tables: Tables, nodes: Nodes, free: set<nat>, tables': Tables, nodes': Nodes,
      free': set<nat>) {
    && Agree(tables, nodes, tables')
    && free' <= free
    && (forall t <- nodes :: t in tables && t in nodes' && t in tables' && nodes'[t] == nodes[t])
    && (forall t <- nodes | nodes[t].level == 1 || (nodes[t].level == 4 && t != p4) :: tables'[t] == tables[t])
    && (forall t <- tables' :: t in nodes' && (t in tables || t in free))
    && (p4 in tables && p4 in tables' ==> SlotsKept(tables, tables[p4], tables'[p4], p4, nodes'))
    && (forall t, i | t in nodes && nodes[t].level >= 2 && 0 <= i < |tables[t]| ::
       i < |tables'[t]| && LinkKept(tables[t][i], tables'[t][i]))
    && (NoHugeOwn(tables, nodes) ==>
          && NoHugeOwn(tables', nodes')
          && forall t <- nodes' | t !in nodes && nodes'[t].level == 1 && nodes'[t].own ::
             t in tables' && tables'[t] == EmptyTable())
  }

  /** An entry that leads to a table still does, and has not lost the write or the user bit. */
  predicate LinkKept(e: Pte, e': Pte) {
    e.p && !e.ps ==> e'.p && !e'.ps && e'.frame == e.frame && (e.w ==> e'.w) && (e.u ==> e'.u)
  }

  /** A slot that was taken leads where it did; one that was empty leads nowhere or to a new table of its own. */
  ghost predicate SlotsKept(tables: Tables, es: seq<Pte>, es': seq<Pte>, p4: nat, nodes': Nodes) {
    && |es| == |es'|
    && forall i | 0 <= i < |es| ::
         if es[i].p then es'[i].p && es'[i].frame == es[i].frame
         else es'[i].p ==> var c := es'[i].frame;
             && c !in tables && c in nodes' && p4 in nodes' && nodes'[p4].level == 4
             && nodes'[c] == ChildOf(p4, i, nodes'[p4])
  }

  lemma GrownSees(p4: nat, tables: Tables, nodes: Nodes, free: set<nat>, tables': Tables, nodes': Nodes,
      free': set<nat>, x: nat, j: nat, i: nat)
    requires TreeOk(tables, nodes) && Grown(p4, tables, nodes, free, tables', nodes', free')
    requires x in nodes && p4 in nodes && nodes[x].level == 4 == nodes[p4].level && i < ENTRIES && j < ENTRIES
    ensures Sees(tables', x, j, p4, i) <==> Sees(tables, x, j, p4, i)
  {
    assert IsTable(x, tables, nodes) && IsTable(p4, tables, nodes) && EntryOk(x, j, tables, nodes)
           && EntryOk(p4, i, tables, nodes);
  }

  lemma GrownTwice(p4: nat, tables: Tables, nodes: Nodes, free: set<nat>, tables': Tables, nodes': Nodes,
      free': set<nat>, tables'': Tables, nodes'': Nodes, free'': set<nat>)
    requires tables.Keys == nodes.Keys && tables'.Keys == nodes'.Keys && p4 in tables
    requires Grown(p4, tables, nodes, free, tables', nodes', free')
    requires Grown(p4, tables', nodes', free', tables'', nodes'', free'')
    ensures Grown(p4, tables, nodes, free, tables'', nodes'', free'')
  {
    forall t, i | t in nodes && nodes[t].level >= 2 && 0 <= i < |tables[t]|
      ensures i < |tables''[t]| && LinkKept(tables[t][i], tables''[t][i])
    {
      assert LinkKept(tables[t][i], tables'[t][i]) && LinkKept(tables'[t][i], tables''[t][i]);
    }
  }

  /** The pieces of a huge page stand for it, and an empty table stands for an absent entry. */
  lemma FillStands(e: Pte, level: nat)
    requires e.p ==> e.ps && level == 2
    ensures StandsFor(FillFor(e), e, level)
  {
    if e.p {
      forall j: nat | j < ENTRIES
        ensures SplitTable(e.frame)[j] == Make(e.frame - e.frame % ENTRIES + j, Flags(true, false, false, false, 0))
        ensures SplitTable(e.frame)[j].frame == e.frame - e.frame % ENTRIES + j
      {
        PieceFits(e.frame, j);
      }
    }
  }

  lemma PieceFits(frame: FrameNumber, j: nat)
    requires j < ENTRIES
    ensures frame - frame % ENTRIES + j < FRAME_LIMIT
  {
    assert FRAME_LIMIT % ENTRIES == 0;
  }

  /** Changing only flags of an upper-level entry. */
  lemma ReflagGrows(tables: Tables, nodes: Nodes, free: set<nat>, p4: nat, t: nat, i: nat, e: Pte)
    requires VmOk(tables, nodes, free) && t in tables && nodes[t].level >= 2 && IsTable(t, tables, nodes) && i < ENTRIES
    requires p4 in tables && nodes[p4].level == 4 && (nodes[t].level == 4 ==> t == p4)
    requires e.p && e.p == tables[t][i].p && e.ps == tables[t][i].ps && e.frame == tables[t][i].frame
    requires LinkKept(tables[t][i], e)
    ensures VmOk(Store(tables, t, i, e), nodes, free)
    ensures Grown(p4, tables, nodes, free, Store(tables, t, i, e), nodes, free)
  {
    hide EntryOk, Translate, IsPath, Agree;
    ReflagTree(tables, nodes, t, i, e);
    ReflagAgrees(tables, nodes, t, i, e);
    FromTree(tables, nodes);
    hide IsTable, TreeOk;
  }

  lemma FromTree(tables: Tables, nodes: Nodes)
    requires TreeOk(tables, nodes)
    ensures tables.Keys == nodes.Keys
    ensures forall t <- tables :: |tables[t]| == ENTRIES && 1 <= nodes[t].level <= 4
  {
    forall t <- tables ensures |tables[t]| == ENTRIES && 1 <= nodes[t].level <= 4 { assert IsTable(t, tables, nodes); }
  }

  lemma ReflagAgrees(tables: Tables, nodes: Nodes, t: nat, i: nat, e: Pte)
    requires TreeOk(tables, nodes) && t in tables && nodes[t].level >= 2 && i < ENTRIES && IsTable(t, tables, nodes)
    requires e.p == tables[t][i].p && e.ps == tables[t][i].ps && e.frame == tables[t][i].frame
    ensures Agree(tables, nodes, Store(tables, t, i, e))
  {
    var tables' := Store(tables, t, i, e);
    hide Translate, IsTable, EntryOk;
    forall x, path | x in nodes && x in tables' && IsPath(path, nodes[x].level)
      ensures SameWalk(tables, tables', x, nodes[x].level, path)
    {
      ReflagStep(tables, nodes, t, i, e, x, nodes[x].level, path);
    }
  }

  lemma FillGrows(tables: Tables, nodes: Nodes, free: set<nat>, p4: nat, t: nat, i: nat, f: Flags, child: nat)
    requires VmOk(tables, nodes, free) && t in tables && nodes[t].level >= 2 && IsTable(t, tables, nodes) && i < ENTRIES
    requires p4 in tables && nodes[p4].level == 4 && (nodes[t].level == 4 ==> t == p4)
    requires child in free && !f.ps
    requires tables[t][i].p ==> nodes[t].level == 2 && tables[t][i].ps
    ensures var tables', nodes' := Grow(tables, t, i, Make(child, f), FillFor(tables[t][i])),
            nodes[child := ChildOf(t, i, nodes[t])];
            VmOk(tables', nodes', free - {child}) && Grown(p4, tables, nodes, free, tables', nodes', free - {child})
  {
    var e := tables[t][i];
    var tables', nodes' := Grow(tables, t, i, Make(child, f), FillFor(e)), nodes[child := ChildOf(t, i, nodes[t])];
    FillStands(e, nodes[t].level);
    GrowTree(tables, nodes, t, i, Make(child, f), FillFor(e));
    FromTree(tables, nodes);
    FillNoHuge(tables, nodes, t, i, f, child);
    hide IsTable, EntryOk, Translate, IsPath, Agree, TreeOk, SplitTable, StandsFor, NoHugeOwn, FillFor;
    if nodes[t].level == 4 {
      assert tables'[p4] == tables[p4][i := Make(child, f)];
      assert SlotsKept(tables, tables[p4], tables'[p4], p4, nodes');
    } else if p4 in tables && p4 != t {
      assert tables'[p4] == tables[p4];
    }
  }

  /** Below a private slot there is no huge page to split, so that new tables there are empty. */
  lemma FillNoHuge(tables: Tables, nodes: Nodes, t: nat, i: nat, f: Flags, child: nat)
    requires TreeOk(tables, nodes) && t in tables && nodes[t].level >= 2 && IsTable(t, tables, nodes) && i < ENTRIES
    requires !f.ps
    requires child !in tables && child < FRAME_LIMIT
    requires tables[t][i].p ==> nodes[t].level == 2 && tables[t][i].ps
    ensures var tables', nodes' := Grow(tables, t, i, Make(child, f), FillFor(tables[t][i])),
            nodes[child := ChildOf(t, i, nodes[t])];
            NoHugeOwn(tables, nodes) ==>
              NoHugeOwn(tables', nodes') && child in tables'
                  && (nodes'[child].own && nodes'[child].level == 1 ==> tables'[child] == EmptyTable())
  {
    hide EntryOk, SplitTable, EmptyTable, TreeOk;
    if NoHugeOwn(tables, nodes) {
      assert nodes[t].own && nodes[t].level == 2 ==> !tables[t][i].p;
      NoPieces();
    }
  }

  lemma NoPieces()
    ensures forall j | 0 <= j < |EmptyTable()| :: !EmptyTable()[j].p
  {
  }

  lemma Descends(tables: Tables, nodes: Nodes, free: set<nat>, p4: nat, t: nat, i: nat, f: Flags, tables': Tables,
      nodes': Nodes, child: nat)
    requires VmOk(tables, nodes, free) && t in tables && nodes[t].level >= 2 && IsTable(t, tables, nodes) && i < ENTRIES
    requires !f.ps
    requires p4 in tables && nodes[p4].level == 4 && (nodes[t].level == 4 ==> t == p4)
    requires Descended(tables, nodes, t, i, f, tables', nodes', child)
    requires child in tables || child in free
    ensures var free' := if child in tables then free else free - {child};
            VmOk(tables', nodes', free') && Grown(p4, tables, nodes, free, tables', nodes', free')
    ensures IsTable(child, tables', nodes') && nodes'[child].level == nodes[t].level - 1
    ensures t in tables' && i < |tables'[t]| && tables'[t][i].p && !tables'[t][i].ps && tables'[t][i].frame == child
  {
    var e := tables[t][i];
    assert EntryOk(t, i, tables, nodes);
    if e.p && !e.ps {
      ReflagGrows(tables, nodes, free, p4, t, i, Merged(tables[t][i], f));
    } else {
      FillStands(e, nodes[t].level);
      FillGrows(tables, nodes, free, p4, t, i, f, child);
    }
  }

  /** The reference count that `refs` holds for frame `f`. */
  ghost function RefAt(refs: seq<nat>, base: nat, f: nat): nat {
    if base <= f < base + |refs| then refs[f - base] else 0
  }

  /** Frames were only taken from the free ones, and no other frame's count moved. */
  ghost predicate Untouched(base: nat, free: set<nat>, refs: seq<nat>, free': set<nat>, refs': seq<nat>) {
    && free' <= free && |refs| == |refs'|
    && forall f | f !in free :: RefAt(refs', base, f) == RefAt(refs, base, f)
  }

  lemma UntouchedTwice(base: nat, free: set<nat>, refs: seq<nat>, free': set<nat>, refs': seq<nat>, free'': set<nat>,
      refs'': seq<nat>)
    requires Untouched(base, free, refs, free', refs') && Untouched(base, free', refs', free'', refs'')
    ensures Untouched(base, free, refs, free'', refs'')
  {
  }

  lemma TookOne(base: nat, free: set<nat>, refs: seq<nat>, f: nat)
    requires f in free && base <= f < base + |refs|
    ensures Untouched(base, free, refs, free - {f}, refs[f - base := 1])
  {
  }

  lemma TookNone(base: nat, free: set<nat>, refs: seq<nat>)
    ensures Untouched(base, free, refs, free, refs)
  {
  }

  /** The page tables with the frame manager's view of the frames. */
  datatype Mem = Mem(tables: Tables, nodes: Nodes, base: nat, limit: nat, free: set<nat>, refs: seq<nat>)

  ghost predicate IsP4(m: Mem, p4: nat) {
    p4 in m.tables && p4 in m.nodes && m.nodes[p4].level == 4
  }

  /** An entry that `goc` may be asked to go through on the way down from `p4`. */
  ghost predicate OnTheWay(m: Mem, p4: nat, t: nat, i: nat) {
    && IsP4(m, p4) && t in m.tables && t in m.nodes && m.nodes[t].level >= 2
    && (m.nodes[t].level == 4 ==> t == p4) && i < ENTRIES && i < |m.tables[t]|
  }

  /** What `goc` promises: tables grew out of free frames, and the entry leads to the child. */
  ghost predicate WentDown(m: Mem, m': Mem, p4: nat, t: nat, i: nat, f: Flags, r: Allocation)
    requires OnTheWay(m, p4, t, i)
  {
    && m'.base == m.base && m'.limit == m.limit && Untouched(m.base, m.free, m.refs, m'.free, m'.refs)
    && Grown(p4, m.tables, m.nodes, m.free, m'.tables, m'.nodes, m'.free)
    && (r == OutOfMemory ==> m'.free == {})
    && (r.Frame? ==> Descended(m.tables, m.nodes, t, i, f, m'.tables, m'.nodes, r.frame))
  }

  /** A new table was filled and linked in, whatever the entry held meanwhile. */
  ghost function Filled(m: Mem, tables: Tables, t: nat, i: nat, f: Flags, child: nat): Mem
    requires t in tables && i < |tables[t]| && t in m.nodes && m.nodes[t].level >= 2
    requires m.base <= child < m.base + |m.refs|
  {
    Mem(Store(tables, t, i, Make(child, f)), m.nodes[child := ChildOf(t, i, m.nodes[t])], m.base, m.limit,
        m.free - {child}, m.refs[child - m.base := 1])
  }

  /** The tables with the flags of an entry added. */
  ghost function Reflagged(m: Mem, t: nat, i: nat, f: Flags): Mem
    requires t in m.tables && i < |m.tables[t]|
  {
    m.(tables := Store(m.tables, t, i, Merged(m.tables[t][i], f)))
  }

  lemma FilledIn(m: Mem, p4: nat, t: nat, i: nat, f: Flags, child: nat, merged: bool)
    requires VmOk(m.tables, m.nodes, m.free) && OnTheWay(m, p4, t, i) && !f.ps
    requires child in m.free && m.base <= child < m.base + |m.refs|
    requires !(m.tables[t][i].p && !m.tables[t][i].ps)
    ensures t != child && child !in m.tables
    ensures var tables := (if merged then Reflagged(m, t, i, f).tables else m.tables)[child := FillFor(m.tables[t][i])];
            var m' := Filled(m, tables, t, i, f, child);
            VmOk(m'.tables, m'.nodes, m'.free) && WentDown(m, m', p4, t, i, f, Frame(child))
  {
    assert IsTable(t, m.tables, m.nodes) && EntryOk(t, i, m.tables, m.nodes);
    hide VmOk, Grown, Descended, Untouched, IsTable, EntryOk, FillFor;
    FillGrows(m.tables, m.nodes, m.free, p4, t, i, f, child);
    FillDescends(m.tables, m.nodes, m.free, t, i, f, child);
    TookOne(m.base, m.free, m.refs, child);
    FromDescended(m.tables, m.nodes, m.free, t, i, f, child);
  }

  lemma FromDescended(tables: Tables, nodes: Nodes, free: set<nat>, t: nat, i: nat, f: Flags, child: nat)
    requires VmOk(tables, nodes, free) && t in tables && nodes[t].level >= 2 && IsTable(t, tables, nodes) && i < ENTRIES
    requires child in free && !(tables[t][i].p && !tables[t][i].ps)
    ensures forall tables', nodes' :: Descended(tables, nodes, t, i, f, tables', nodes', child) ==>
              tables' == Grow(tables, t, i, Make(child, f), FillFor(tables[t][i]))
  {
  }

  /** No table is added when the entry already leads to one, or when there is no frame for it. */
  lemma NothingAdded(m: Mem, p4: nat, t: nat, i: nat, f: Flags)
    requires VmOk(m.tables, m.nodes, m.free) && OnTheWay(m, p4, t, i) && !f.ps
    ensures m.free == {} ==> WentDown(m, m, p4, t, i, f, OutOfMemory)
    ensures m.tables[t][i].p ==>
              var m' := Reflagged(m, t, i, f);
              && VmOk(m'.tables, m'.nodes, m'.free)
              && (m.free == {} ==> WentDown(m, m', p4, t, i, f, OutOfMemory))
              && (!m.tables[t][i].ps ==> WentDown(m, m', p4, t, i, f, Frame(m.tables[t][i].frame)))
              && m'.tables[t][i].frame == m.tables[t][i].frame && m'.tables[t][i].ps == m.tables[t][i].ps
  {
    assert IsTable(t, m.tables, m.nodes);
    TookNone(m.base, m.free, m.refs);
    GrownNot(p4, m.tables, m.nodes, m.free);
    if m.tables[t][i].p { MergedKeeps(m.tables, m.nodes, m.free, p4, t, i, f); }
    hide VmOk, Grown, Descended, Untouched, IsTable, EntryOk;
  }

  /** The entry at the end of the walk was stored in tables that had only grown. */
  ghost predicate EntryStored(m: Mem, m': Mem, p4: nat, path: seq<nat>, e: Pte, mid: Mem, pt: nat) {
    && IsP4(m, p4) && IsPath(path, 4) && VmOk(mid.tables, mid.nodes, mid.free)
    && mid.base == m.base && mid.limit == m.limit && Untouched(m.base, m.free, m.refs, mid.free, mid.refs)
    && Grown(p4, m.tables, m.nodes, m.free, mid.tables, mid.nodes, mid.free)
    && PtOf(mid.tables, p4, 4, path) == Some(pt) && pt in mid.tables && path[3] < |mid.tables[pt]|
    && m' == mid.(tables := Store(mid.tables, pt, path[3], e))
  }

  /** One page got a new translation, at every slot that sees it; every other page kept its own. */
  ghost predicate OnlyPage(tables: Tables, nodes: Nodes, tables': Tables, p4: nat, path: seq<nat>, f: Option<nat>)
    requires IsPath(path, 4)
  {
    forall x, q | x in nodes && nodes[x].level == 4 && IsPath(q, 4) ::
      Translate(tables', x, 4, q) ==
      if q[1..] == path[1..] && Sees(tables, x, q[0], p4, path[0]) then f else Translate(tables, x, 4, q)
  }

  /** The same for what user code gets to. */
  ghost predicate OnlyUserPage(tables: Tables, nodes: Nodes, tables': Tables, p4: nat, path: seq<nat>, f: Option<nat>,
      open: bool)
    requires IsPath(path, 4)
  {
    forall x, q | x in nodes && nodes[x].level == 4 && IsPath(q, 4) ::
      if q[1..] == path[1..] && Sees(tables, x, q[0], p4, path[0])
      then UserAt(tables', x, 4, q) == f && OpenAt(tables', x, 4, q) == open
      else UserAt(tables', x, 4, q) == UserAt(tables, x, 4, q) && OpenAt(tables', x, 4, q) == OpenAt(tables, x, 4, q)
  }

  /** User code may write through the entry, at once or after a fault. */
  predicate IsOpen(e: Pte) {
    e.p && e.u && (e.w || e.cow)
  }

  lemma StoredMeans(m: Mem, m': Mem, p4: nat, path: seq<nat>, e: Pte, mid: Mem, pt: nat)
    requires VmOk(m.tables, m.nodes, m.free) && EntryStored(m, m', p4, path, e, mid, pt)
    ensures VmOk(m'.tables, m'.nodes, m'.free)
    ensures OnlyPage(m.tables, m.nodes, m'.tables, p4, path, if e.p then Some(e.frame) else None)
    ensures OnlyUserPage(m.tables, m.nodes, m'.tables, p4, path, if e.p && e.u then Some(e.frame) else None, IsOpen(e))
  {
    FromTree(m.tables, m.nodes);
    PtIsTable(mid.tables, mid.nodes, p4, 4, path);
    LeafTree(mid.tables, mid.nodes, pt, path[3], e);
    assert m'.tables == Store(mid.tables, pt, path[3], e);
    forall x, q | x in m.nodes && m.nodes[x].level == 4 && IsPath(q, 4)
      ensures Translate(m'.tables, x, 4, q) ==
              if q[1..] == path[1..] && Sees(m.tables, x, q[0], p4, path[0]) then (if e.p then Some(e.frame) else None)
                  else Translate(m.tables, x, 4, q)
      ensures UserAt(m'.tables, x, 4, q) ==
              if q[1..] == path[1..] && Sees(m.tables, x, q[0], p4, path[0])
                  then (if e.p && e.u then Some(e.frame) else None) else UserAt(m.tables, x, 4, q)
      ensures OpenAt(m'.tables, x, 4, q) ==
              if q[1..] == path[1..] && Sees(m.tables, x, q[0], p4, path[0]) then IsOpen(e)
                  else OpenAt(m.tables, x, 4, q)
    {
      StoredAt(m, m', p4, path, e, mid, pt, x, q);
    }
  }

  lemma StoredAt(m: Mem, m': Mem, p4: nat, path: seq<nat>, e: Pte, mid: Mem, pt: nat, x: nat, q: seq<nat>)
    requires VmOk(m.tables, m.nodes, m.free) && EntryStored(m, m', p4, path, e, mid, pt) && mid.nodes[pt].level == 1
    requires x in m.nodes && m.nodes[x].level == 4 && IsPath(q, 4)
    ensures Translate(m'.tables, x, 4, q) ==
            if q[1..] == path[1..] && Sees(m.tables, x, q[0], p4, path[0]) then (if e.p then Some(e.frame) else None)
                else Translate(m.tables, x, 4, q)
    ensures UserAt(m'.tables, x, 4, q) ==
            if q[1..] == path[1..] && Sees(m.tables, x, q[0], p4, path[0])
                then (if e.p && e.u then Some(e.frame) else None) else UserAt(m.tables, x, 4, q)
    ensures OpenAt(m'.tables, x, 4, q) ==
            if q[1..] == path[1..] && Sees(m.tables, x, q[0], p4, path[0]) then IsOpen(e) else OpenAt(m.tables, x, 4, q)
  {
    hide Translate, UserAt, OpenAt, IsTable, EntryOk, PtOf, Sees;
    GrownSees(p4, m.tables, m.nodes, m.free, mid.tables, mid.nodes, mid.free, x, q[0], path[0]);
    Hit(mid.tables, mid.nodes, p4, path, x, q);
    LeafStep(mid.tables, mid.nodes, pt, path[3], e, x, 4, q);
    assert IsPath(q, 4) && q[4 - 1] == q[3];
  }

  /** The entry points to the table `c`. */
  ghost predicate Leads(m: Mem, t: nat, i: nat, c: nat) {
    t in m.tables && i < |m.tables[t]| && m.tables[t][i].p && !m.tables[t][i].ps && m.tables[t][i].frame == c
  }

  /** Where a step down led. */
  lemma WentTo(m: Mem, m': Mem, p4: nat, t: nat, i: nat, f: Flags, c: nat)
    requires VmOk(m.tables, m.nodes, m.free) && OnTheWay(m, p4, t, i) && !f.ps && WentDown(m, m', p4, t, i, f, Frame(c))
    ensures c in m'.tables && c in m'.nodes && |m'.tables[c]| == ENTRIES && m'.nodes[c].level == m.nodes[t].level - 1
    ensures Leads(m', t, i, c) && IsP4(m', p4)
  {
    assert IsTable(t, m.tables, m.nodes);
    WentFrom(m, m', p4, t, i, f, c);
    hide VmOk, Descended, Grown, Untouched;
    Descends(m.tables, m.nodes, m.free, p4, t, i, f, m'.tables, m'.nodes, c);
  }

  lemma WentFrom(m: Mem, m': Mem, p4: nat, t: nat, i: nat, f: Flags, c: nat)
    requires VmOk(m.tables, m.nodes, m.free) && OnTheWay(m, p4, t, i) && WentDown(m, m', p4, t, i, f, Frame(c))
    ensures c in m.tables || c in m.free
    ensures IsP4(m', p4) && Descended(m.tables, m.nodes, t, i, f, m'.tables, m'.nodes, c)
  {
    hide Grown, Untouched, Descended;
    FromGrown(p4, m, m');
    ChildFrom(m, m', t, i, f, c);
  }

  /** The `j`-th of the small pages that a huge one is made of: the kernel's to write, and nobody else's. */
  predicate IsPiece(e: Pte, frame: nat, j: nat) {
    e.p && e.w && !e.u && !e.ps && !e.cow && e.rest == 0 && e.frame == frame - frame % ENTRIES + j
  }

  /** What a step down made of the entry, and what it put into a new table. */
  lemma WentFields(m: Mem, m': Mem, p4: nat, t: nat, i: nat, f: Flags, c: nat)
    requires VmOk(m.tables, m.nodes, m.free) && OnTheWay(m, p4, t, i) && !f.ps && WentDown(m, m', p4, t, i, f, Frame(c))
    requires IsTable(t, m.tables, m.nodes)
    ensures var e, e' := m.tables[t][i], Entry(m', t, i);
            && e'.p && !e'.ps && e'.frame == c && e'.w == (f.w || (e.p && !e.ps && e.w))
            && e'.u == (f.u || (e.p && !e.ps && e.u))
            && (if e.p && !e.ps then c == e.frame && e'.cow == e.cow && e'.rest == e.rest
                else c in m.free && e'.cow == f.cow && e'.rest == f.rest)
    ensures !m.tables[t][i].p ==> forall j: nat | j < ENTRIES :: !Entry(m', c, j).p
    ensures m.tables[t][i].p && m.tables[t][i].ps ==>
              forall j: nat | j < ENTRIES :: IsPiece(Entry(m', c, j), m.tables[t][i].frame, j)
  {
    WentFrom(m, m', p4, t, i, f, c);
    ChildIsFree(m, m', t, i, f, c);
    hide *;
    DescentFields(m.tables, m.nodes, t, i, f, m'.tables, m'.nodes, c);
    EntriesAre(m, m', t, i, c);
  }

  lemma ChildIsFree(m: Mem, m': Mem, t: nat, i: nat, f: Flags, c: nat)
    requires t in m.tables && t in m.nodes && m.nodes[t].level >= 2 && i < |m.tables[t]|
    requires Descended(m.tables, m.nodes, t, i, f, m'.tables, m'.nodes, c) && (c in m.tables || c in m.free)
    ensures !(m.tables[t][i].p && !m.tables[t][i].ps) ==> c in m.free
  {
    hide FillFor, Merged, ChildOf, Make, Grow;
  }

  lemma EntriesAre(m: Mem, m': Mem, t: nat, i: nat, c: nat)
    ensures t in m.tables && i < |m.tables[t]| ==> Entry(m, t, i) == m.tables[t][i]
    ensures t in m'.tables && i < |m'.tables[t]| ==> Entry(m', t, i) == m'.tables[t][i]
    ensures forall j: nat | c in m'.tables && j < |m'.tables[c]| :: Entry(m', c, j) == m'.tables[c][j]
  {
  }

  lemma DescentFields(tables: Tables, nodes: Nodes, t: nat, i: nat, f: Flags, tables': Tables, nodes': Nodes, c: nat)
    requires t in tables && t in nodes && nodes[t].level >= 2 && i < |tables[t]| && !f.ps && i < ENTRIES
    requires Descended(tables, nodes, t, i, f, tables', nodes', c)
    ensures t in tables' && i < |tables'[t]|
    ensures var e, e' := tables[t][i], tables'[t][i];
            && e'.p && !e'.ps && e'.frame == c && e'.w == (f.w || (e.p && !e.ps && e.w))
            && e'.u == (f.u || (e.p && !e.ps && e.u))
            && (if e.p && !e.ps then c == e.frame && e'.cow == e.cow && e'.rest == e.rest
                else e'.cow == f.cow && e'.rest == f.rest)
    ensures !(tables[t][i].p && !tables[t][i].ps) ==> c in tables' && |tables'[c]| == ENTRIES
    ensures !tables[t][i].p ==> forall j: nat | j < ENTRIES :: !tables'[c][j].p
    ensures tables[t][i].p && tables[t][i].ps ==>
              forall j: nat | j < ENTRIES :: IsPiece(tables'[c][j], tables[t][i].frame, j)
  {
    hide SplitTable, IsPiece, ChildOf;
    var e := tables[t][i];
    if e.p && e.ps {
      forall j: nat | j < ENTRIES
        ensures |SplitTable(e.frame)| == ENTRIES && IsPiece(SplitTable(e.frame)[j], e.frame, j)
      {
        PieceIs(e.frame, j);
      }
      PieceIs(e.frame, 0);
    }
  }

  lemma PieceIs(frame: FrameNumber, j: nat)
    requires j < ENTRIES
    ensures |SplitTable(frame)| == ENTRIES && IsPiece(SplitTable(frame)[j], frame, j)
  {
    PieceFits(frame, j);
    assert SplitTable(frame)[j] == Make(frame - frame % ENTRIES + j, Flags(true, false, false, false, 0));
  }

  lemma EntryOfTable(m: Mem, t: nat, i: nat)
    requires TreeOk(m.tables, m.nodes) && t in m.tables
    ensures IsTable(t, m.tables, m.nodes)
  {
  }

  lemma ChildFrom(m: Mem, m': Mem, t: nat, i: nat, f: Flags, c: nat)
    requires TreeOk(m.tables, m.nodes) && t in m.tables && m.nodes[t].level >= 2 && i < ENTRIES && i < |m.tables[t]|
    requires Descended(m.tables, m.nodes, t, i, f, m'.tables, m'.nodes, c)
    ensures c in m.tables || c in m'.tables
  {
    assert IsTable(t, m.tables, m.nodes) && EntryOk(t, i, m.tables, m.nodes);
  }

  lemma FromGrown(p4: nat, m: Mem, m': Mem)
    requires Grown(p4, m.tables, m.nodes, m.free, m'.tables, m'.nodes, m'.free)
    ensures forall t <- m'.tables :: t in m.tables || t in m.free
    ensures forall t <- m.nodes :: t in m.tables && t in m'.nodes && t in m'.tables && m'.nodes[t] == m.nodes[t]
  {
    hide Agree, SlotsKept, NoHugeOwn;
  }

  /** Every other entry is as before. */
  lemma DescendedKeeps(m: Mem, m': Mem, t: nat, i: nat, f: Flags, c: nat)
    requires t in m.tables && t in m.nodes && m.nodes[t].level >= 2 && i < |m.tables[t]|
    requires Descended(m.tables, m.nodes, t, i, f, m'.tables, m'.nodes, c)
    ensures forall x, j | x in m.tables && 0 <= j < |m.tables[x]| && (x != t || j != i) ::
              x in m'.tables && j < |m'.tables[x]| && m'.tables[x][j] == m.tables[x][j]
  {
  }

  lemma WalkOf(m: Mem, path: seq<nat>, p4: nat, p3: nat, p2: nat, p1: nat)
    requires TreeOk(m.tables, m.nodes) && IsPath(path, 4)
    requires Leads(m, p4, path[0], p3) && Leads(m, p3, path[1], p2) && Leads(m, p2, path[2], p1) && p1 in m.tables
    ensures PtOf(m.tables, p4, 4, path) == Some(p1) && |m.tables[p1]| == ENTRIES
  {
    FromTree(m.tables, m.nodes);
    assert path[1..][0] == path[1] && path[1..][1..][0] == path[2] && path[1..][1..][1..][0] == path[3];
    var q := path[1..][1..];
    assert PtOf(m.tables, p1, 1, q[1..]) == Some(p1);
    assert PtOf(m.tables, p2, 2, q) == Some(p1);
    assert PtOf(m.tables, p3, 3, path[1..]) == Some(p1);
  }

  /** What one step down establishes for the next. */
  lemma StepDown(m: Mem, m': Mem, p4: nat, t: nat, i: nat, f: Flags, r: Allocation)
    requires VmOk(m.tables, m.nodes, m.free) && OnTheWay(m, p4, t, i) && !f.ps && WentDown(m, m', p4, t, i, f, r)
    ensures Untouched(m.base, m.free, m.refs, m'.free, m'.refs) && m'.base == m.base && m'.limit == m.limit
    ensures Grown(p4, m.tables, m.nodes, m.free, m'.tables, m'.nodes, m'.free) && Agree(m.tables, m.nodes, m'.tables)
    ensures r == OutOfMemory ==> m'.free == {}
    ensures r.Frame? ==> r.frame in m'.tables && r.frame in m'.nodes && Leads(m', t, i, r.frame)
    ensures r.Frame? ==> m'.nodes[r.frame].level == m.nodes[t].level - 1
    ensures r.Frame? && m.nodes[t].level >= 3 ==> forall j | 0 <= j < ENTRIES :: OnTheWay(m', p4, r.frame, j)
  {
    if r.Frame? { WentTo(m, m', p4, t, i, f, r.frame); }
  }

  lemma KeptLead(m: Mem, m': Mem, p4: nat, t: nat, i: nat, f: Flags, c: nat, x: nat, j: nat, y: nat)
    requires VmOk(m.tables, m.nodes, m.free) && OnTheWay(m, p4, t, i) && !f.ps && WentDown(m, m', p4, t, i, f, Frame(c))
    requires Leads(m, x, j, y) && x != t
    ensures Leads(m', x, j, y)
  {
    DescendedKeeps(m, m', t, i, f, c);
  }

  lemma Distinct(m: Mem, p4: nat, path: seq<nat>, a: Mem, p3: nat, b: Mem, p2: nat, f: Flags)
    requires |path| == 4 && !f.ps
    requires VmOk(m.tables, m.nodes, m.free) && OnTheWay(m, p4, p4, path[0])
    requires WentDown(m, a, p4, p4, path[0], f, Frame(p3))
    requires VmOk(a.tables, a.nodes, a.free) && OnTheWay(a, p4, p3, path[1])
    requires WentDown(a, b, p4, p3, path[1], f, Frame(p2))
    ensures p4 != p3 && p3 != p2 && p4 != p2
  {
    WentTo(m, a, p4, p4, path[0], f, p3);
    WentTo(a, b, p4, p3, path[1], f, p2);
  }

  lemma Descent(m: Mem, a: Mem, b: Mem, c: Mem, p4: nat, path: seq<nat>, f: Flags, p3: nat, p2: nat, p1: nat)
    requires VmOk(m.tables, m.nodes, m.free) && VmOk(a.tables, a.nodes, a.free)
    requires VmOk(b.tables, b.nodes, b.free) && VmOk(c.tables, c.nodes, c.free)
    requires IsPath(path, 4) && !f.ps
    requires OnTheWay(m, p4, p4, path[0]) && WentDown(m, a, p4, p4, path[0], f, Frame(p3))
    requires OnTheWay(a, p4, p3, path[1]) && WentDown(a, b, p4, p3, path[1], f, Frame(p2))
    requires OnTheWay(b, p4, p2, path[2]) && WentDown(b, c, p4, p2, path[2], f, Frame(p1))
    ensures PtOf(c.tables, p4, 4, path) == Some(p1) && p1 in c.tables && |c.tables[p1]| == ENTRIES
    ensures Untouched(m.base, m.free, m.refs, c.free, c.refs) && c.base == m.base && c.limit == m.limit
    ensures Grown(p4, m.tables, m.nodes, m.free, c.tables, c.nodes, c.free)
  {
    Distinct(m, p4, path, a, p3, b, p2, f);
    StepDown(m, a, p4, p4, path[0], f, Frame(p3));
    StepDown(a, b, p4, p3, path[1], f, Frame(p2));
    StepDown(b, c, p4, p2, path[2], f, Frame(p1));
    KeptLead(a, b, p4, p3, path[1], f, p2, p4, path[0], p3);
    KeptLead(b, c, p4, p2, path[2], f, p1, p4, path[0], p3);
    KeptLead(b, c, p4, p2, path[2], f, p1, p3, path[1], p2);
    WalkOf(c, path, p4, p3, p2, p1);
    Grew(m, a, b, p4);
    Grew(m, b, c, p4);
  }

  /** Of one step down where there was no table: the new one is empty and the others are as they were. */
  lemma FreshStep(m: Mem, m': Mem, p4: nat, t: nat, i: nat, f: Flags, c: nat)
    requires VmOk(m.tables, m.nodes, m.free)
    requires OnTheWay(m, p4, t, i) && WentDown(m, m', p4, t, i, f, Frame(c)) && !m.tables[t][i].p
    ensures c !in m.tables && c in m'.tables && m'.tables[c] == EmptyTable()
    ensures t in m'.tables && m'.tables[t] == m.tables[t][i := Make(c, f)] && Make(c, f).frame == c
    ensures forall x | x in m.tables && x != t :: x in m'.tables && m'.tables[x] == m.tables[x]
  {
    hide Grown, Untouched, TreeOk, EntryOk;
  }

  /** Below a slot that was empty the new tables hold nothing but the way. */
  lemma FreshWay(m: Mem, a: Mem, b: Mem, c: Mem, p4: nat, path: seq<nat>, f: Flags, p3: nat, p2: nat, p1: nat)
    requires VmOk(m.tables, m.nodes, m.free) && VmOk(a.tables, a.nodes, a.free) && VmOk(b.tables, b.nodes, b.free)
    requires IsPath(path, 4)
    requires OnTheWay(m, p4, p4, path[0]) && WentDown(m, a, p4, p4, path[0], f, Frame(p3))
    requires OnTheWay(a, p4, p3, path[1]) && WentDown(a, b, p4, p3, path[1], f, Frame(p2))
    requires OnTheWay(b, p4, p2, path[2]) && WentDown(b, c, p4, p2, path[2], f, Frame(p1))
    ensures p4 in m.tables && path[0] < |m.tables[p4]| && (!m.tables[p4][path[0]].p ==> OnlyWay(c, p4, path))
  {
    TopThere(m, p4, path[0]);
    hide *;
    if !m.tables[p4][path[0]].p {
      FreshStep(m, a, p4, p4, path[0], f, p3);
      EmptyEntry(a, p3, path[1]);
      FreshStep(a, b, p4, p3, path[1], f, p2);
      EmptyEntry(b, p2, path[2]);
      FreshStep(b, c, p4, p2, path[2], f, p1);
      WayIsOnly(c, p4, path, Make(p3, f), Make(p2, f), Make(p1, f));
    }
  }

  lemma WayIsOnly(m: Mem, p4: nat, path: seq<nat>, e4: Pte, e3: Pte, e2: Pte)
    requires IsPath(path, 4) && e4.p && e3.p && e2.p
    requires p4 in m.tables && path[0] < |m.tables[p4]| && m.tables[p4][path[0]] == e4
    requires e4.frame in m.tables && m.tables[e4.frame] == EmptyTable()[path[1] := e3]
    requires e3.frame in m.tables && m.tables[e3.frame] == EmptyTable()[path[2] := e2]
    requires e2.frame in m.tables && m.tables[e2.frame] == EmptyTable()
    ensures OnlyWay(m, p4, path)
  {
  }

  lemma EmptyEntry(m: Mem, t: nat, i: nat)
    requires t in m.tables && m.tables[t] == EmptyTable() && i < ENTRIES
    ensures |m.tables[t]| == ENTRIES && m.tables[t][i] == ZERO && !ZERO.p
  {
  }

  lemma TopThere(m: Mem, p4: nat, i: nat)
    requires OnTheWay(m, p4, p4, i)
    ensures p4 in m.tables && i < |m.tables[p4]|
  {
  }

  /** The first page below an empty slot of the lower half is the last one there, too. */
  lemma FirstIsLast(m: Mem, m': Mem, p4: nat, path: seq<nat>, e: Pte)
    requires TreeOk(m.tables, m.nodes) && IsP4(m, p4) && IsPath(path, 4) && OnlyWay(m, p4, path) && path[0] < UPPER
    requires var pt := Way(m, p4, path).2.frame;
             && PtOf(m.tables, p4, 4, path) == Some(pt) && pt in m.tables && path[3] < |m.tables[pt]|
             && m' == m.(tables := Store(m.tables, pt, path[3], e)) && e.p
    ensures Reaches(m', p4, path) && LastOfSlot(m', p4, path)
  {
    WalkPt(m, p4, path);
    var (e4, e3, e2, e1) := Way(m, p4, path);
    WayIsChain(m, p4, path);
    ChainFacts(m, p4, e4.frame, e3.frame, e2.frame, path);
    hide TreeOk, NoneBut;
    assert Way(m', p4, path) == (e4, e3, e2, e);
    NoneStill(m, m', e2.frame, path[3]);
    NoneStill(m, m', e3.frame, path[2]);
    NoneStill(m, m', e4.frame, path[1]);
  }

  lemma StoredIsLast(m: Mem, m': Mem, p4: nat, path: seq<nat>, e: Pte, mid: Mem, pt: nat)
    requires VmOk(m.tables, m.nodes, m.free) && EntryStored(m, m', p4, path, e, mid, pt)
    requires path[0] < UPPER && OnlyWay(mid, p4, path) && e.p
    ensures Reaches(m', p4, path) && LastOfSlot(m', p4, path)
  {
    assert IsP4(mid, p4);
    WalkPt(mid, p4, path);
    FirstIsLast(mid, m', p4, path, e);
  }

  lemma NoneStill(m: Mem, m': Mem, t: nat, i: nat)
    requires NoneBut(m, t, i) && t in m.tables && t in m'.tables && |m'.tables[t]| == |m.tables[t]|
    requires forall j | 0 <= j < |m.tables[t]| && j != i :: m'.tables[t][j] == m.tables[t][j]
    ensures NoneBut(m', t, i)
  {
    forall j: nat | j != i ensures Entry(m', t, j) == ZERO { assert Entry(m, t, j) == ZERO; }
  }

  /** The way that was just made may be written, and be used by user code, as far as the flags ask for that. */
  lemma WayMade(m: Mem, a: Mem, b: Mem, c: Mem, p4: nat, path: seq<nat>, f: Flags, p3: nat, p2: nat, p1: nat)
    requires VmOk(m.tables, m.nodes, m.free) && VmOk(a.tables, a.nodes, a.free)
    requires VmOk(b.tables, b.nodes, b.free) && VmOk(c.tables, c.nodes, c.free)
    requires IsPath(path, 4) && !f.ps
    requires OnTheWay(m, p4, p4, path[0]) && WentDown(m, a, p4, p4, path[0], f, Frame(p3))
    requires OnTheWay(a, p4, p3, path[1]) && WentDown(a, b, p4, p3, path[1], f, Frame(p2))
    requires OnTheWay(b, p4, p2, path[2]) && WentDown(b, c, p4, p2, path[2], f, Frame(p1))
    ensures WayLed(c, p4, path, f.w, f.u) && Way(c, p4, path).2.frame == p1
  {
    hide VmOk;
    Distinct(m, p4, path, a, p3, b, p2, f);
    OpenEntry(m, a, p4, p4, path[0], f, p3);
    OpenEntry(a, b, p4, p3, path[1], f, p2);
    OpenEntry(b, c, p4, p2, path[2], f, p1);
    StillOpen(a, b, p4, p3, path[1], f, p2, p4, path[0], p3);
    StillOpen(b, c, p4, p2, path[2], f, p1, p4, path[0], p3);
    StillOpen(b, c, p4, p2, path[2], f, p1, p3, path[1], p2);
  }

  /** There are tables all the way, and the entries that lead to them have the bits asked for. */
  ghost predicate WayLed(m: Mem, p4: nat, path: seq<nat>, w: bool, u: bool)
    requires IsPath(path, 4)
  {
    var (e4, e3, e2, e1) := Way(m, p4, path);
    IsLink(e4, w, u) && IsLink(e3, w, u) && IsLink(e2, w, u)
  }

  /** The entry leads to a table, and has the bits asked for. */
  predicate IsLink(e: Pte, w: bool, u: bool) {
    e.p && !e.ps && (w ==> e.w) && (u ==> e.u)
  }

  /** The flags of an entry that leads to a table: those it had, if it did before, with those asked for. */
  predicate LinkFrom(e: Pte, had: bool, o: Pte, f: Flags) {
    && e.w == (f.w || (had && o.w)) && e.u == (f.u || (had && o.u))
    && e.cow == (if had then o.cow else f.cow) && e.rest == if had then o.rest else f.rest
  }

  /** The entries on the way have got the flags asked for and no other. */
  ghost predicate WayFrom(m: Mem, m': Mem, p4: nat, path: seq<nat>, f: Flags)
    requires IsPath(path, 4)
  {
    var (o4, o3, o2, o1) := Way(m, p4, path);
    var (e4, e3, e2, e1) := Way(m', p4, path);
    && LinkFrom(e4, o4.p, o4, f) && LinkFrom(e3, o4.p && o3.p, o3, f)
    && LinkFrom(e2, o4.p && o3.p && o2.p && !o2.ps, o2, f)
  }

  lemma WayExact(m: Mem, a: Mem, b: Mem, c: Mem, p4: nat, path: seq<nat>, f: Flags, p3: nat, p2: nat, p1: nat)
    requires VmOk(m.tables, m.nodes, m.free) && VmOk(a.tables, a.nodes, a.free)
    requires VmOk(b.tables, b.nodes, b.free) && VmOk(c.tables, c.nodes, c.free)
    requires IsPath(path, 4) && !f.ps
    requires OnTheWay(m, p4, p4, path[0]) && WentDown(m, a, p4, p4, path[0], f, Frame(p3))
    requires OnTheWay(a, p4, p3, path[1]) && WentDown(a, b, p4, p3, path[1], f, Frame(p2))
    requires OnTheWay(b, p4, p2, path[2]) && WentDown(b, c, p4, p2, path[2], f, Frame(p1))
    ensures WayFrom(m, c, p4, path, f)
  {
    Distinct(m, p4, path, a, p3, b, p2, f);
    StepExact(m, a, p4, p4, path[0], f, p3);
    StepExact(a, b, p4, p3, path[1], f, p2);
    StepExact(b, c, p4, p2, path[2], f, p1);
    StepNext(m, a, p4, p4, path[0], f, p3, path[1]);
    StepNext(a, b, p4, p3, path[1], f, p2, path[2]);
    TwoDown(m, a, p4, path, f, p3);
    hide *;
    WayThrough(m, a, b, c, p4, path, f, p3, p2);
  }

  lemma StepExact(m: Mem, m': Mem, p4: nat, t: nat, i: nat, f: Flags, c: nat)
    requires VmOk(m.tables, m.nodes, m.free) && OnTheWay(m, p4, t, i) && !f.ps && WentDown(m, m', p4, t, i, f, Frame(c))
    ensures t in m.tables && t in m'.tables && c in m'.tables && p4 in m.tables && IsP4(m, p4) && IsP4(m', p4)
    ensures t in m.nodes && c in m'.nodes && m'.nodes[c].level == m.nodes[t].level - 1
    ensures forall x | x in m.tables && x != t :: x in m'.tables && m'.tables[x] == m.tables[x]
    ensures var o, e := Entry(m, t, i), Entry(m', t, i); LinkFrom(e, o.p && !o.ps, o, f) && e.frame == c
  {
    EntryThere(m, t, i);
    SameElsewhere(m, m', p4, t, i, f, c);
    WentFields(m, m', p4, t, i, f, c);
    WentTo(m, m', p4, t, i, f, c);
    hide VmOk, WentDown, IsPiece;
  }

  lemma StepNext(m: Mem, m': Mem, p4: nat, t: nat, i: nat, f: Flags, c: nat, j: nat)
    requires VmOk(m.tables, m.nodes, m.free) && OnTheWay(m, p4, t, i) && !f.ps && WentDown(m, m', p4, t, i, f, Frame(c))
    requires m.nodes[t].level >= 3 && j < ENTRIES
    ensures var o := Entry(m, t, i);
            if o.p then !o.ps && c == o.frame && Entry(m', c, j) == Entry(m, c, j) else !Entry(m', c, j).p
  {
    NextTable(m, m', p4, t, i, f, c, j);
    hide VmOk, WentDown;
  }

  /** What hangs two levels below is not touched by the first step. */
  lemma TwoDown(m: Mem, a: Mem, p4: nat, path: seq<nat>, f: Flags, p3: nat)
    requires VmOk(m.tables, m.nodes, m.free) && IsPath(path, 4) && !f.ps
    requires OnTheWay(m, p4, p4, path[0]) && WentDown(m, a, p4, p4, path[0], f, Frame(p3))
    ensures var (o4, o3, o2, o1) := Way(m, p4, path);
            o4.p && o3.p ==> Entry(a, o3.frame, path[2]) == Entry(m, o3.frame, path[2])
  {
    SameElsewhere(m, a, p4, p4, path[0], f, p3);
    assert IsTable(p4, m.tables, m.nodes) && EntryOk(p4, path[0], m.tables, m.nodes);
    var (o4, o3, o2, o1) := Way(m, p4, path);
    if o4.p && o3.p { assert EntryOk(o4.frame, path[1], m.tables, m.nodes); }
    hide WentDown, TreeOk;
  }

  /** Three steps, each of which changes one entry of one table. */
  lemma WayThrough(m: Mem, a: Mem, b: Mem, c: Mem, p4: nat, path: seq<nat>, f: Flags, p3: nat, p2: nat)
    requires IsPath(path, 4) && p4 != p3 && p3 != p2 && p4 != p2
    requires p4 in m.tables && p4 in a.tables && p3 in a.tables && p4 in b.tables && p3 in b.tables && p2 in b.tables
    requires b.tables[p4] == a.tables[p4] && p4 in c.tables && c.tables[p4] == b.tables[p4]
    requires p3 in c.tables && c.tables[p3] == b.tables[p3]
    requires var o4, e4 := Entry(m, p4, path[0]), Entry(a, p4, path[0]);
             LinkFrom(e4, o4.p, o4, f) && e4.frame == p3
             && (if o4.p then p3 == o4.frame && Entry(a, p3, path[1]) == Entry(m, p3, path[1])
                 else !Entry(a, p3, path[1]).p)
    requires var o3, e3 := Entry(a, p3, path[1]), Entry(b, p3, path[1]);
             LinkFrom(e3, o3.p, o3, f) && e3.frame == p2
             && (if o3.p then p2 == o3.frame && Entry(b, p2, path[2]) == Entry(a, p2, path[2])
                 else !Entry(b, p2, path[2]).p)
    requires Entry(m, p4, path[0]).p && Entry(m, p3, path[1]).p ==> Entry(a, p2, path[2]) == Entry(m, p2, path[2])
    requires var o2 := Entry(b, p2, path[2]); LinkFrom(Entry(c, p2, path[2]), o2.p && !o2.ps, o2, f)
    ensures WayFrom(m, c, p4, path, f)
  {
    hide Entry;
    assert Entry(c, p4, path[0]) == Entry(a, p4, path[0]) && Entry(c, p3, path[1]) == Entry(b, p3, path[1]) by {
      SameEntry(a, c, p4, path[0]);
      SameEntry(b, c, p3, path[1]);
    }
  }

  lemma SameEntry(m: Mem, m': Mem, t: nat, i: nat)
    requires t in m.tables && t in m'.tables && m'.tables[t] == m.tables[t]
    ensures Entry(m', t, i) == Entry(m, t, i)
  {
  }

  /** Every table but the one with the entry is as it was. */
  lemma SameElsewhere(m: Mem, m': Mem, p4: nat, t: nat, i: nat, f: Flags, c: nat)
    requires VmOk(m.tables, m.nodes, m.free) && OnTheWay(m, p4, t, i) && !f.ps && WentDown(m, m', p4, t, i, f, Frame(c))
    ensures forall x | x in m.tables && x != t :: x in m'.tables && m'.tables[x] == m.tables[x]
    ensures c in m'.tables && t in m'.tables
  {
    EntryThere(m, t, i);
    FromDescent(m, m', p4, t, i, f, c);
    hide *;
    DescentKeeps(m.tables, m.nodes, t, i, f, m'.tables, m'.nodes, c);
  }

  lemma FromDescent(m: Mem, m': Mem, p4: nat, t: nat, i: nat, f: Flags, c: nat)
    requires OnTheWay(m, p4, t, i) && WentDown(m, m', p4, t, i, f, Frame(c))
    ensures t in m.tables && t in m.nodes && m.nodes[t].level >= 2 && i < |m.tables[t]|
    ensures Descended(m.tables, m.nodes, t, i, f, m'.tables, m'.nodes, c)
  {
    hide Grown, Untouched, Descended;
  }

  lemma DescentKeeps(tables: Tables, nodes: Nodes, t: nat, i: nat, f: Flags, tables': Tables, nodes': Nodes, c: nat)
    requires t in tables && t in nodes && nodes[t].level >= 2 && i < |tables[t]|
    requires Descended(tables, nodes, t, i, f, tables', nodes', c)
    requires tables[t][i].p && !tables[t][i].ps ==> tables[t][i].frame in tables
    ensures forall x | x in tables && x != t :: x in tables' && tables'[x] == tables[x]
    ensures c in tables' && t in tables'
  {
    hide FillFor, Merged, ChildOf;
  }

  lemma EntryThere(m: Mem, t: nat, i: nat)
    requires TreeOk(m.tables, m.nodes) && t in m.tables && i < ENTRIES && m.nodes[t].level >= 2
    ensures IsTable(t, m.tables, m.nodes)
    ensures m.tables[t][i].p && !m.tables[t][i].ps ==> m.tables[t][i].frame in m.tables
  {
    assert IsTable(t, m.tables, m.nodes) && EntryOk(t, i, m.tables, m.nodes);
  }

  /** An entry of the table that was come to is what it was, or nothing if the table is new. */
  lemma NextTable(m: Mem, m': Mem, p4: nat, t: nat, i: nat, f: Flags, c: nat, j: nat)
    requires VmOk(m.tables, m.nodes, m.free) && OnTheWay(m, p4, t, i) && !f.ps && WentDown(m, m', p4, t, i, f, Frame(c))
    requires m.nodes[t].level >= 3 && j < ENTRIES
    ensures var e := m.tables[t][i];
            if e.p then !e.ps && c == e.frame && c in m.tables && c != t && Entry(m', c, j) == Entry(m, c, j)
            else !Entry(m', c, j).p
  {
    EntryThere(m, t, i);
    SameElsewhere(m, m', p4, t, i, f, c);
    WentFields(m, m', p4, t, i, f, c);
    WentTo(m, m', p4, t, i, f, c);
    assert EntryOk(t, i, m.tables, m.nodes);
    hide TreeOk, WentDown, IsPiece, EmptyTable;
  }

  ghost predicate LeadsOpen(m: Mem, t: nat, i: nat, c: nat, w: bool, u: bool) {
    Leads(m, t, i, c) && IsLink(m.tables[t][i], w, u)
  }

  lemma OpenEntry(m: Mem, m': Mem, p4: nat, t: nat, i: nat, f: Flags, c: nat)
    requires VmOk(m.tables, m.nodes, m.free) && OnTheWay(m, p4, t, i) && !f.ps
    requires WentDown(m, m', p4, t, i, f, Frame(c))
    ensures LeadsOpen(m', t, i, c, f.w, f.u) && c in m'.tables && |m'.tables[c]| == ENTRIES
  {
    WentTo(m, m', p4, t, i, f, c);
    FromTree(m.tables, m.nodes);
    hide VmOk, Grown, Untouched;
  }

  lemma StillOpen(m: Mem, m': Mem, p4: nat, t: nat, i: nat, f: Flags, c: nat, x: nat, j: nat, y: nat)
    requires VmOk(m.tables, m.nodes, m.free) && OnTheWay(m, p4, t, i) && !f.ps && WentDown(m, m', p4, t, i, f, Frame(c))
    requires LeadsOpen(m, x, j, y, f.w, f.u) && x != t
    ensures LeadsOpen(m', x, j, y, f.w, f.u)
  {
    DescendedKeeps(m, m', t, i, f, c);
  }

  lemma Grew(m: Mem, a: Mem, b: Mem, p4: nat)
    requires VmOk(m.tables, m.nodes, m.free) && VmOk(a.tables, a.nodes, a.free) && p4 in m.tables
    requires Grown(p4, m.tables, m.nodes, m.free, a.tables, a.nodes, a.free)
    requires Grown(p4, a.tables, a.nodes, a.free, b.tables, b.nodes, b.free)
    requires Untouched(m.base, m.free, m.refs, a.free, a.refs) && Untouched(m.base, a.free, a.refs, b.free, b.refs)
    ensures Grown(p4, m.tables, m.nodes, m.free, b.tables, b.nodes, b.free)
    ensures Untouched(m.base, m.free, m.refs, b.free, b.refs)
  {
    GrownTwice(p4, m.tables, m.nodes, m.free, a.tables, a.nodes, a.free, b.tables, b.nodes, b.free);
    UntouchedTwice(m.base, m.free, m.refs, a.free, a.refs, b.free, b.refs);
  }

  // ----- unmapping -----

  /** One reference to frame `f` less; the frame is free again when that was the last one. */
  ghost function Dropped(m: Mem, f: nat): Mem {
    m.(refs := if m.base <= f < m.base + |m.refs| then m.refs[f - m.base := DecRef(m.refs[f - m.base])] else m.refs,
       free := if RefAt(m.refs, m.base, f) == 1 && m.base <= f < m.base + m.limit then m.free + {f} else m.free)
  }

  /** A last-level entry was cleared, and what it mapped has lost a reference. */
  ghost function Cleared(m: Mem, pt: nat, i: nat): Mem
    requires pt in m.tables && i < |m.tables[pt]|
  {
    var e := m.tables[pt][i];
    if e.p then Dropped(m, e.frame).(tables := Store(m.tables, pt, i, ZERO)) else m
  }

  /** Empty tables were given back. */
  ghost predicate Shrunk(m: Mem, m': Mem) {
    && m'.base == m.base && m'.limit == m.limit && m'.refs == m.refs
    && Agree(m.tables, m.nodes, m'.tables)
    && m'.tables.Keys == m'.nodes.Keys
    && (forall t <- m'.nodes ::
       && t in m.nodes && t in m.tables && m'.nodes[t] == m.nodes[t]
       && |m'.tables[t]| == |m.tables[t]|)
    && (forall t <- m.nodes | m.nodes[t].level == 4 :: t in m'.nodes && t in m.tables)
    && (forall t <- m'.nodes | m.nodes[t].level == 1 :: m'.tables[t] == m.tables[t])
    && (forall t <- m.nodes | m.nodes[t].level == 1 && t !in m'.nodes ::
       t in m.tables && forall j | 0 <= j < |m.tables[t]| :: !m.tables[t][j].p)
    && (forall t, j | t in m'.nodes && m.nodes[t].level >= 2 && 0 <= j < |m.tables[t]| ::
       m'.tables[t][j] == m.tables[t][j] || m'.tables[t][j] == ZERO)
    && m.free <= m'.free && (forall f <- m'.free | f !in m.free :: f in m.tables && f !in m'.tables)
    && (forall t <- m.tables | t !in m'.tables && m.base <= t < m.base + m.limit :: t in m'.free)
  }

  lemma ShrunkNot(m: Mem)
    requires VmOk(m.tables, m.nodes, m.free)
    ensures Shrunk(m, m)
  {
    FromTree(m.tables, m.nodes);
  }

  lemma ShrunkTwice(a: Mem, b: Mem, c: Mem)
    requires Shrunk(a, b) && Shrunk(b, c)
    ensures Shrunk(a, c)
  {
    hide Translate, UserAt, OpenAt, IsPath;
    forall t, j | t in c.nodes && a.nodes[t].level >= 2 && 0 <= j < |a.tables[t]|
      ensures c.tables[t][j] == a.tables[t][j] || c.tables[t][j] == ZERO
    {
      assert t in b.nodes && t in a.nodes;
      assert c.tables[t][j] == b.tables[t][j] || c.tables[t][j] == ZERO;
    }
  }

  ghost function Reclaimed(m: Mem, t: nat, i: nat): Mem
    requires t in m.tables && i < |m.tables[t]|
  {
    var c := m.tables[t][i].frame;
    m.(tables := Prune(m.tables, t, i), nodes := m.nodes - {c},
       free := if m.base <= c < m.base + m.limit then m.free + {c} else m.free)
  }

  lemma ReclaimShrinks(m: Mem, t: nat, i: nat)
    requires VmOk(m.tables, m.nodes, m.free) && t in m.tables && IsTable(t, m.tables, m.nodes) && m.nodes[t].level >= 2
    requires i < ENTRIES
    requires Prunable(m.tables, m.nodes, t, i)
    ensures var m' := Reclaimed(m, t, i); VmOk(m'.tables, m'.nodes, m'.free) && Shrunk(m, m')
    ensures t in Reclaimed(m, t, i).tables && Reclaimed(m, t, i).tables[t] == m.tables[t][i := ZERO]
  {
    PruneTree(m.tables, m.nodes, t, i);
    FromTree(m.tables, m.nodes);
    var c := m.tables[t][i].frame;
    assert EntryOk(t, i, m.tables, m.nodes);
    assert forall j | 0 <= j < ENTRIES :: !m.tables[c][j].p;
    hide TreeOk, EntryOk, IsTable, Agree, Prunable;
  }

  /** The entry, or an absent one where there is no table. */
  ghost function Entry(m: Mem, t: nat, i: nat): Pte {
    if t in m.tables && i < |m.tables[t]| then m.tables[t][i] else ZERO
  }

  ghost predicate NoneBut(m: Mem, t: nat, i: nat) {
    forall j: nat | j != i :: Entry(m, t, j) == ZERO
  }

  /** The entries that a walk along the path meets. */
  ghost function Way(m: Mem, p4: nat, path: seq<nat>): (Pte, Pte, Pte, Pte)
    requires IsPath(path, 4)
  {
    var e4 := Entry(m, p4, path[0]);
    var e3 := Entry(m, e4.frame, path[1]);
    var e2 := Entry(m, e3.frame, path[2]);
    (e4, e3, e2, Entry(m, e2.frame, path[3]))
  }

  /** The page is not part of a huge one. */
  ghost predicate Reaches(m: Mem, p4: nat, path: seq<nat>) {
    IsP4(m, p4) && IsPath(path, 4) && var (e4, e3, e2, e1) := Way(m, p4, path); e4.p && e3.p && e2.p ==> !e2.ps
  }

  /** Nothing else is mapped below the slot, which lies in the lower half. */
  ghost predicate LastOfSlot(m: Mem, p4: nat, path: seq<nat>)
    requires IsPath(path, 4)
  {
    var (e4, e3, e2, e1) := Way(m, p4, path);
    && path[0] < UPPER && e4.p && e3.p && e2.p && (e1.p || e1 == ZERO)
    && NothingElse(m, e4.frame, e3.frame, e2.frame, path)
  }

  /**
   When `vunmap` keeps the tree in order: the page is not part of a huge one, what it maps is not itself a page
   table, and a table that other address spaces see does not become empty.
   */
  ghost predicate Unmappable(m: Mem, p4: nat, path: seq<nat>) {
    && Reaches(m, p4, path)
    && (var (e4, e3, e2, e1) := Way(m, p4, path);
        e4.p && e3.p && e2.p && e1.p ==> e1.frame > 0 && e1.frame !in m.tables)
    && (LastOfSlot(m, p4, path) ==> SlotOfOne(m, p4, path[0]))
  }

  /** The tables on the way hold nothing but the way. */
  ghost predicate NothingElse(m: Mem, p3: nat, p2: nat, p1: nat, path: seq<nat>)
    requires IsPath(path, 4)
  {
    NoneBut(m, p1, path[3]) && NoneBut(m, p2, path[2]) && NoneBut(m, p3, path[1])
  }

  /** Tables all the way, with no other entries and no page. */
  ghost predicate OnlyWay(m: Mem, p4: nat, path: seq<nat>)
    requires IsPath(path, 4)
  {
    var (e4, e3, e2, e1) := Way(m, p4, path);
    e4.p && e3.p && e2.p && e1 == ZERO && NothingElse(m, e4.frame, e3.frame, e2.frame, path)
  }

  /** The third-level table on the way is about to become empty. */
  ghost predicate BecomesEmpty(m: Mem, p3: nat, p2: nat, p1: nat, path: seq<nat>)
    requires IsPath(path, 4)
  {
    p1 in m.tables && m.tables[p1] == EmptyTable() && NoneBut(m, p2, path[2]) && NoneBut(m, p3, path[1])
  }

  /** No other slot leads to the same table. */
  ghost predicate SlotOfOne(m: Mem, p4: nat, i: nat) {
    forall x, j | IsP4(m, x) && 0 <= j < ENTRIES && (x != p4 || j != i) ::
        p4 in m.tables && !SameSlot(m.tables, x, j, p4, i)
  }

  /** Some slot of some root leads to the frame. */
  ghost predicate LedTo(m: Mem, f: nat) {
    exists x: nat, j: nat :: IsP4(m, x) && j < ENTRIES && Entry(m, x, j).p && Entry(m, x, j).frame == f
  }

  ghost predicate IsEmpty(m: Mem, t: nat) {
    t in m.tables && m.tables[t] == EmptyTable()
  }

  ghost function TableBack(m: Mem, t: nat, i: nat): Mem {
    if t in m.tables && i < |m.tables[t]| then Reclaimed(m, t, i) else m
  }

  /** The tables that became empty were given back from the last level up, the third one below the lower half. */
  ghost function WayReclaimed(m: Mem, p4: nat, p3: nat, p2: nat, p1: nat, path: seq<nat>): Mem
    requires IsPath(path, 4)
  {
    if !IsEmpty(m, p1) then m else
    var a := TableBack(m, p2, path[2]);
    if !IsEmpty(a, p2) then a else
    var b := TableBack(a, p3, path[1]);
    if !IsEmpty(b, p3) || path[0] >= UPPER then b else TableBack(b, p4, path[0])
  }

  /** The state after `vunmap`, whoever shares the tables on the way. */
  ghost function AfterUnmap(m: Mem, p4: nat, path: seq<nat>): Mem
    requires IsPath(path, 4)
  {
    var (e4, e3, e2, e1) := Way(m, p4, path);
    if !(e4.p && e3.p && e2.p) || e2.frame !in m.tables || path[3] >= |m.tables[e2.frame]| then m
    else WayReclaimed(Cleared(m, e2.frame, path[3]), p4, e4.frame, e3.frame, e2.frame, path)
  }

  /** Of the tables on the way, none that lost its last entry is left; below the upper half the third one goes too. */
  ghost predicate Tidy(m: Mem, p3: nat, p2: nat, p1: nat, top: nat) {
    && (p1 in m.tables ==> m.tables[p1] != EmptyTable())
    && (p1 !in m.tables && p2 in m.tables ==> m.tables[p2] != EmptyTable())
    && (p2 !in m.tables && p3 in m.tables && top < UPPER ==> m.tables[p3] != EmptyTable())
  }

  ghost predicate Chain(m: Mem, p4: nat, p3: nat, p2: nat, p1: nat, path: seq<nat>) {
    && IsP4(m, p4) && IsPath(path, 4) && Leads(m, p4, path[0], p3) && Leads(m, p3, path[1], p2)
       && Leads(m, p2, path[2], p1)
  }

  lemma ChainFacts(m: Mem, p4: nat, p3: nat, p2: nat, p1: nat, path: seq<nat>)
    requires TreeOk(m.tables, m.nodes) && Chain(m, p4, p3, p2, p1, path)
    ensures IsTable(p3, m.tables, m.nodes) && IsTable(p2, m.tables, m.nodes) && IsTable(p1, m.tables, m.nodes)
    ensures IsTable(p4, m.tables, m.nodes)
    ensures m.nodes[p3].level == 3 && m.nodes[p2].level == 2 && m.nodes[p1].level == 1
    ensures m.nodes[p1].own == m.nodes[p2].own == m.nodes[p3].own
    ensures p1 != p2 && p2 != p3 && p1 != p3 && p4 != p3 && p4 != p2 && p4 != p1
    ensures PtOf(m.tables, p4, 4, path) == Some(p1)
  {
    assert EntryOk(p4, path[0], m.tables, m.nodes) && EntryOk(p3, path[1], m.tables, m.nodes)
           && EntryOk(p2, path[2], m.tables, m.nodes);
    WalkOf(m, path, p4, p3, p2, p1);
  }

  lemma CanReclaim(m: Mem, t: nat, i: nat, c: nat)
    requires VmOk(m.tables, m.nodes, m.free) && Leads(m, t, i, c) && t in m.nodes && m.nodes[t].level >= 2
    requires i < ENTRIES
    requires c in m.tables && m.tables[c] == EmptyTable()
    requires m.nodes[t].level == 4 ==> SlotOfOne(m, t, i)
    ensures IsTable(t, m.tables, m.nodes) && Prunable(m.tables, m.nodes, t, i)
  {
    assert IsTable(t, m.tables, m.nodes) && EntryOk(t, i, m.tables, m.nodes);
    forall x, j | x in m.tables && m.nodes[x].level == 4 == m.nodes[t].level && 0 <= j < ENTRIES && (x != t || j != i)
      ensures !SameSlot(m.tables, x, j, t, i)
    {
      assert IsP4(m, x);
    }
  }

  lemma ChainSizes(m: Mem, p4: nat, p3: nat, p2: nat, p1: nat, path: seq<nat>)
    requires TreeOk(m.tables, m.nodes) && Chain(m, p4, p3, p2, p1, path)
    ensures {p4, p3, p2, p1} <= m.tables.Keys && {p4, p3, p2, p1} <= m.nodes.Keys
    ensures |m.tables[p4]| == ENTRIES && |m.tables[p3]| == ENTRIES && |m.tables[p2]| == ENTRIES
    ensures |m.tables[p1]| == ENTRIES
  {
    ChainFacts(m, p4, p3, p2, p1, path);
  }

  /** After one table was given back, the next one up is still linked. */
  lemma AfterReclaim(m: Mem, m': Mem, t: nat, i: nat)
    requires VmOk(m.tables, m.nodes, m.free) && t in m.tables && IsTable(t, m.tables, m.nodes) && m.nodes[t].level >= 2
    requires i < ENTRIES
    requires Prunable(m.tables, m.nodes, t, i) && m' == Reclaimed(m, t, i)
    ensures VmOk(m'.tables, m'.nodes, m'.free) && Shrunk(m, m')
    ensures m.tables[t][i].frame !in m'.tables
    ensures t in m'.tables && t in m'.nodes && m'.nodes[t] == m.nodes[t] && m'.tables[t] == m.tables[t][i := ZERO]
    ensures forall x | x in m.tables && x != t && x != m.tables[t][i].frame ::
              x in m'.tables && x in m'.nodes && m'.tables[x] == m.tables[x] && m'.nodes[x] == m.nodes[x]
  {
    ReclaimShrinks(m, t, i);
    hide Translate, Agree, EntryOk;
  }

  /** All roots are as they were, but that slot `i` of `p4` may have been cleared if nobody else had it. */
  ghost predicate SlotsAfter(m: Mem, m': Mem, p4: nat, i: nat) {
    forall x | IsP4(m, x) :: IsP4(m', x) && SlotsLeft(m, m', x, p4, i)
  }

  ghost predicate SlotsLeft(m: Mem, m': Mem, x: nat, p4: nat, i: nat)
    requires IsP4(m, x) && IsP4(m', x)
  {
    m'.tables[x] == m.tables[x] || (x == p4 && i < |m.tables[p4]| && m'.tables[p4] == m.tables[p4][i := ZERO]
        && SlotOfOne(m, p4, i))
  }

  /** All roots are as they were. */
  ghost predicate RootsSame(m: Mem, m': Mem) {
    forall x | IsP4(m, x) :: IsP4(m', x) && m'.tables[x] == m.tables[x]
  }

  lemma OfOneBefore(a: Mem, b: Mem, p4: nat, i: nat)
    requires RootsSame(a, b) && IsP4(a, p4) && SlotOfOne(b, p4, i)
    ensures SlotOfOne(a, p4, i)
  {
    forall y, j | IsP4(a, y) && 0 <= j < ENTRIES && (y != p4 || j != i)
      ensures p4 in a.tables && !SameSlot(a.tables, y, j, p4, i)
    {
      assert IsP4(b, y) && !SameSlot(b.tables, y, j, p4, i);
    }
  }

  lemma SlotsSame(m: Mem, m': Mem, p4: nat, i: nat)
    requires RootsSame(m, m')
    ensures SlotsAfter(m, m', p4, i)
  {
  }

  lemma SlotCleared(m: Mem, m': Mem, p4: nat, i: nat)
    requires VmOk(m.tables, m.nodes, m.free) && IsP4(m, p4) && i < ENTRIES && i < |m.tables[p4]| && m.tables[p4][i].p
    requires SlotOfOne(m, p4, i)
    requires p4 in m'.tables && p4 in m'.nodes && m'.nodes[p4] == m.nodes[p4]
    requires m'.tables[p4] == m.tables[p4][i := ZERO]
    requires forall x | x in m.tables && x != p4 && x != m.tables[p4][i].frame ::
               x in m'.tables && x in m'.nodes && m'.tables[x] == m.tables[x] && m'.nodes[x] == m.nodes[x]
    ensures SlotsAfter(m, m', p4, i)
  {
    assert IsTable(p4, m.tables, m.nodes) && EntryOk(p4, i, m.tables, m.nodes);
  }

  lemma SlotsJoin(a: Mem, b: Mem, c: Mem, p4: nat, i: nat)
    requires RootsSame(a, b) && SlotsAfter(b, c, p4, i) && b.nodes.Keys <= a.nodes.Keys
    requires b.tables.Keys <= a.tables.Keys
    requires forall t <- b.nodes :: b.nodes[t] == a.nodes[t]
    ensures SlotsAfter(a, c, p4, i)
  {
    forall x | IsP4(a, x)
      ensures IsP4(c, x) && SlotsLeft(a, c, x, p4, i)
    {
      assert IsP4(b, x) && SlotsLeft(b, c, x, p4, i);
      if x == p4 && SlotOfOne(b, p4, i) { OfOneBefore(a, b, p4, i); }
    }
  }

  lemma RootsBeside(m: Mem, m': Mem, p4: nat, p3: nat, p2: nat, p1: nat, path: seq<nat>)
    requires TreeOk(m.tables, m.nodes) && Chain(m, p4, p3, p2, p1, path)
    requires forall x | x in m.tables && x != p3 && x != p2 && x != p1 ::
             x in m'.tables && x in m'.nodes && m'.tables[x] == m.tables[x] && m'.nodes[x] == m.nodes[x]
    ensures RootsSame(m, m')
  {
    ChainFacts(m, p4, p3, p2, p1, path);
  }

  /** What two tables given back one after the other leave. */
  lemma TwoReclaimed(m: Mem, a: Mem, b: Mem, p3: nat, i3: nat, p2: nat, i2: nat, p1: nat)
    requires Leads(m, p2, i2, p1) && a == Reclaimed(m, p2, i2)
    requires Leads(a, p3, i3, p2) && b == Reclaimed(a, p3, i3)
    requires p3 in m.tables && p3 in m.nodes && p3 != p2 && p3 != p1 && a.tables[p3] == m.tables[p3]
    ensures b.tables.Keys == m.tables.Keys - {p1, p2} && b.nodes == m.nodes - {p1} - {p2}
    ensures forall x | x in b.tables && x != p3 :: x in m.tables && b.tables[x] == m.tables[x]
    ensures p3 in b.tables && i3 < |m.tables[p3]| && b.tables[p3] == m.tables[p3][i3 := ZERO]
  {
  }

  lemma ShrunkKeys(m: Mem, m': Mem)
    requires Shrunk(m, m')
    ensures m'.tables.Keys <= m.tables.Keys
  {
  }

  /** The top-level entries are the same, so the slot is still seen by nobody else. */
  lemma StillOfOne(m: Mem, m': Mem, p4: nat, p3: nat, p2: nat, p1: nat, path: seq<nat>)
    requires TreeOk(m.tables, m.nodes) && Chain(m, p4, p3, p2, p1, path)
    requires m'.tables.Keys == m.tables.Keys - {p1, p2} && m'.nodes == m.nodes - {p1} - {p2}
    requires forall x | x in m'.tables && x != p3 :: m'.tables[x] == m.tables[x]
    requires p3 in m'.tables && p3 in m.tables && path[1] < |m.tables[p3]|
    requires m'.tables[p3] == m.tables[p3][path[1] := ZERO] == EmptyTable()
    requires p2 in m.tables && path[2] < |m.tables[p2]| && m.tables[p2][path[2] := ZERO] == EmptyTable()
    requires p1 in m.tables && m.tables[p1] == EmptyTable()
    requires path[0] < UPPER && (BecomesEmpty(m, p3, p2, p1, path) ==> SlotOfOne(m, p4, path[0]))
    ensures SlotOfOne(m', p4, path[0])
  {
    ChainFacts(m, p4, p3, p2, p1, path);
    OnlyOnTheWay(m, p3, path[1]);
    OnlyOnTheWay(m, p2, path[2]);
    hide NoneBut;
    forall x, j | IsP4(m', x) && 0 <= j < ENTRIES && (x != p4 || j != path[0])
      ensures p4 in m'.tables && !SameSlot(m'.tables, x, j, p4, path[0])
    {
      assert IsP4(m, x) && m'.tables[x] == m.tables[x] && m'.tables[p4] == m.tables[p4];
      assert !SameSlot(m.tables, x, j, p4, path[0]);
    }
  }

  lemma OnlyOnTheWay(m: Mem, t: nat, i: nat)
    requires t in m.tables && i < |m.tables[t]| && m.tables[t][i := ZERO] == EmptyTable()
    ensures NoneBut(m, t, i)
  {
    forall j: nat | j != i
      ensures Entry(m, t, j) == ZERO
    {
      if j < |m.tables[t]| { assert m.tables[t][j] == m.tables[t][i := ZERO][j]; }
    }
  }

  /** The same about the tables a walk passes, as they were linked in `m`. */
  ghost predicate TidyWalk(m: Mem, m': Mem, p4: nat, path: seq<nat>)
    requires IsPath(path, 4)
  {
    var p3 := Entry(m, p4, path[0]).frame;
    var p2 := Entry(m, p3, path[1]).frame;
    Tidy(m', p3, p2, Entry(m, p2, path[2]).frame, path[0])
  }

  /** Where a walk that stops early, or that goes all the way, leads. */
  lemma WalkCases(m: Mem, p4: nat, path: seq<nat>)
    requires VmOk(m.tables, m.nodes, m.free) && Reaches(m, p4, path)
    ensures |m.tables[p4]| == ENTRIES
    ensures var e4 := m.tables[p4][path[0]];
            if !e4.p then PtOf(m.tables, p4, 4, path) == None && NotThere(m, p4, path) else
            e4.frame in m.tables && |m.tables[e4.frame]| == ENTRIES && (
              var e3 := m.tables[e4.frame][path[1]];
              if !e3.p then PtOf(m.tables, p4, 4, path) == None && NotThere(m, p4, path) else
              e3.frame in m.tables && |m.tables[e3.frame]| == ENTRIES && (
                var e2 := m.tables[e3.frame][path[2]];
                if !e2.p then PtOf(m.tables, p4, 4, path) == None && NotThere(m, p4, path) else
                e2.frame in m.tables && |m.tables[e2.frame]| == ENTRIES
                    && Chain(m, p4, e4.frame, e3.frame, e2.frame, path)))
  {
    WalkFacts(m, p4, path);
    WalkPt(m, p4, path);
    if Translate(m.tables, p4, 4, path) == None { NothingThere(m, p4, path); }
    hide PtOf, Translate, NotThere;
  }

  lemma WalkPt(m: Mem, p4: nat, path: seq<nat>)
    requires TreeOk(m.tables, m.nodes) && IsP4(m, p4) && IsPath(path, 4)
    ensures var e4 := Entry(m, p4, path[0]);
            var e3 := Entry(m, e4.frame, path[1]);
            var e2 := Entry(m, e3.frame, path[2]);
            PtOf(m.tables, p4, 4, path) == if e4.p && e3.p && e2.p && !e2.ps then Some(e2.frame) else None
  {
    assert IsTable(p4, m.tables, m.nodes) && EntryOk(p4, path[0], m.tables, m.nodes);
    var e4 := m.tables[p4][path[0]];
    if e4.p {
      assert EntryOk(e4.frame, path[1], m.tables, m.nodes);
      assert path[1..][0] == path[1];
      var e3 := m.tables[e4.frame][path[1]];
      if e3.p {
        assert EntryOk(e3.frame, path[2], m.tables, m.nodes);
        assert path[1..][1..][0] == path[2] && path[1..][1..][1..][0] == path[3];
      }
    }
  }

  ghost predicate NotThere(m: Mem, p4: nat, path: seq<nat>)
    requires IsPath(path, 4)
  {
    OnlyPage(m.tables, m.nodes, m.tables, p4, path, None)
        && OnlyUserPage(m.tables, m.nodes, m.tables, p4, path, None, false)
  }

  /** What user code gets to translates, and what it may write it gets to. */
  lemma {:induction false} UserTranslates(tables: Tables, t: nat, level: nat, path: seq<nat>)
    requires IsPath(path, level) && level >= 1
    ensures UserAt(tables, t, level, path).Some? ==> Translate(tables, t, level, path) == UserAt(tables, t, level, path)
    ensures OpenAt(tables, t, level, path) ==> UserAt(tables, t, level, path).Some?
    decreases level
  {
    if level > 1 && t in tables && path[0] < |tables[t]| {
      UserTranslates(tables, tables[t][path[0]].frame, level - 1, path[1..]);
    }
  }

  /** A page that does not translate does so nowhere it is seen. */
  lemma NothingThere(m: Mem, p4: nat, path: seq<nat>)
    requires VmOk(m.tables, m.nodes, m.free) && IsP4(m, p4) && IsPath(path, 4)
    requires Translate(m.tables, p4, 4, path) == None
    ensures NotThere(m, p4, path)
  {
    hide Translate, TreeOk, UserAt, OpenAt;
    forall x, q | x in m.nodes && m.nodes[x].level == 4 && IsPath(q, 4) && q[1..] == path[1..]
        && Sees(m.tables, x, q[0], p4, path[0])
      ensures Translate(m.tables, x, 4, q) == None && UserAt(m.tables, x, 4, q) == None && !OpenAt(m.tables, x, 4, q)
    {
      if x != p4 || q[0] != path[0] {
        AtTop(m.tables, m.nodes, p4, path);
        AtTop(m.tables, m.nodes, x, q);
      } else {
        assert q == [q[0]] + q[1..] && path == [path[0]] + path[1..];
      }
      UserTranslates(m.tables, x, 4, q);
    }
  }

  lemma ClearedMeans(m: Mem, p4: nat, path: seq<nat>, pt: nat)
    requires VmOk(m.tables, m.nodes, m.free) && IsP4(m, p4) && IsPath(path, 4)
    requires PtOf(m.tables, p4, 4, path) == Some(pt) && pt in m.tables && path[3] < |m.tables[pt]|
    ensures OnlyPage(m.tables, m.nodes, Cleared(m, pt, path[3]).tables, p4, path, None)
    ensures OnlyUserPage(m.tables, m.nodes, Cleared(m, pt, path[3]).tables, p4, path, None, false)
  {
    PtIsTable(m.tables, m.nodes, p4, 4, path);
    if m.tables[pt][path[3]].p {
      GrownNot(p4, m.tables, m.nodes, m.free);
      TookNone(m.base, m.free, m.refs);
      StoredMeans(m, m.(tables := Store(m.tables, pt, path[3], ZERO)), p4, path, ZERO, m, pt);
    } else {
      WalkPt(m, p4, path);
      WalkFacts(m, p4, path);
      NothingThere(m, p4, path);
    }
  }

  lemma ClearedNodes(m: Mem, pt: nat, i: nat)
    requires pt in m.tables && i < |m.tables[pt]|
    ensures Cleared(m, pt, i).nodes == m.nodes
  {
  }

  lemma ClearedTables(m: Mem, pt: nat, i: nat)
    requires pt in m.tables && i < |m.tables[pt]|
    ensures Cleared(m, pt, i).tables.Keys == m.tables.Keys
    ensures forall x | x in m.tables && x != pt :: Cleared(m, pt, i).tables[x] == m.tables[x]
  {
  }

  lemma ShrunkOnly(m: Mem, m1: Mem, m2: Mem, p4: nat, path: seq<nat>, f: Option<nat>, open: bool)
    requires IsPath(path, 4) && OnlyPage(m.tables, m.nodes, m1.tables, p4, path, f) && m1.nodes == m.nodes
    requires Shrunk(m1, m2)
    requires OnlyUserPage(m.tables, m.nodes, m1.tables, p4, path, f, open)
    ensures OnlyPage(m.tables, m.nodes, m2.tables, p4, path, f)
    ensures OnlyUserPage(m.tables, m.nodes, m2.tables, p4, path, f, open)
  {
    hide Translate, Sees, UserAt, OpenAt;
  }

  /** Clearing a last-level entry leaves the way to it, and who sees it, as they were. */
  lemma ClearedChain(m: Mem, p4: nat, p3: nat, p2: nat, p1: nat, path: seq<nat>)
    requires VmOk(m.tables, m.nodes, m.free) && Chain(m, p4, p3, p2, p1, path) && Unmappable(m, p4, path)
    requires p1 in m.tables && path[3] < |m.tables[p1]|
    ensures var m' := Cleared(m, p1, path[3]);
            && Chain(m', p4, p3, p2, p1, path)
            && (path[0] < UPPER && BecomesEmpty(m', p3, p2, p1, path) ==> SlotOfOne(m', p4, path[0]))
    ensures m.tables[p1][path[3]].p ==> m.tables[p1][path[3]].frame > 0 && m.tables[p1][path[3]].frame !in m.tables
    ensures p1 in m.nodes && m.nodes[p1].level == 1
  {
    ChainFacts(m, p4, p3, p2, p1, path);
    var m' := Cleared(m, p1, path[3]);
    assert forall x <- m.tables :: x != p1 ==> m'.tables[x] == m.tables[x];
    assert m'.tables.Keys == m.tables.Keys && m'.nodes == m.nodes;
    if path[0] < UPPER && BecomesEmpty(m', p3, p2, p1, path) {
      NoneLikewise(m, m', p2, path[2]);
      NoneLikewise(m, m', p3, path[1]);
      EmptyBut(m, m', p1, path[3]);
      hide NoneBut;
      forall x, j | IsP4(m', x) && 0 <= j < ENTRIES && (x != p4 || j != path[0])
        ensures p4 in m'.tables && !SameSlot(m'.tables, x, j, p4, path[0])
      {
        assert IsP4(m, x) && !SameSlot(m.tables, x, j, p4, path[0]);
      }
    }
  }

  lemma NoneLikewise(m: Mem, m': Mem, t: nat, i: nat)
    requires NoneBut(m', t, i) && t in m.tables && t in m'.tables && m'.tables[t] == m.tables[t]
    ensures NoneBut(m, t, i)
  {
    forall j: nat | j != i ensures Entry(m, t, j) == ZERO { assert Entry(m', t, j) == ZERO; }
  }

  lemma EmptyBut(m: Mem, m': Mem, pt: nat, i: nat)
    requires pt in m.tables && i < |m.tables[pt]| && pt in m'.tables && m'.tables[pt] == EmptyTable()
    requires if m.tables[pt][i].p then m'.tables[pt] == m.tables[pt][i := ZERO] else m'.tables[pt] == m.tables[pt]
    ensures NoneBut(m, pt, i) && (m.tables[pt][i].p || m.tables[pt][i] == ZERO)
  {
    assert m.tables[pt][i].p || m.tables[pt][i] == m'.tables[pt][i];
    forall j: nat | j != i
      ensures Entry(m, pt, j) == ZERO
    {
      if j < |m.tables[pt]| { assert m.tables[pt][j] == m'.tables[pt][j]; }
    }
  }

  lemma FromOk(m: Mem)
    requires VmOk(m.tables, m.nodes, m.free)
    ensures TreeOk(m.tables, m.nodes)
  {
  }

  lemma ClearedTree(m: Mem, p4: nat, p3: nat, p2: nat, p1: nat, path: seq<nat>)
    requires TreeOk(m.tables, m.nodes) && Chain(m, p4, p3, p2, p1, path)
    ensures p1 in m.tables && path[3] < |m.tables[p1]|
    ensures var m' := Cleared(m, p1, path[3]); TreeOk(m'.tables, m'.nodes) && Chain(m', p4, p3, p2, p1, path)
  {
    ChainFacts(m, p4, p3, p2, p1, path);
    LeafTree(m.tables, m.nodes, p1, path[3], ZERO);
  }

  lemma WayMeans(m: Mem, p4: nat, p3: nat, p2: nat, p1: nat, path: seq<nat>)
    requires VmOk(m.tables, m.nodes, m.free) && Chain(m, p4, p3, p2, p1, path)
    requires path[0] < UPPER && BecomesEmpty(m, p3, p2, p1, path) ==> SlotOfOne(m, p4, path[0])
    ensures var m' := WayReclaimed(m, p4, p3, p2, p1, path);
            && VmOk(m'.tables, m'.nodes, m'.free) && Shrunk(m, m') && Tidy(m', p3, p2, p1, path[0])
            && SlotsAfter(m, m', p4, path[0])
  {
    hide VmOk, IsTable, Prunable, EntryOk, Shrunk, EmptyTable, BecomesEmpty, SlotOfOne, PtOf, TreeOk, Prune, SlotsAfter;
    FromOk(m);
    ChainFacts(m, p4, p3, p2, p1, path);
    ChainSizes(m, p4, p3, p2, p1, path);
    ShrunkNot(m);
    SlotsSame(m, m, p4, path[0]);
    if IsEmpty(m, p1) {
      CanReclaim(m, p2, path[2], p1);
      var a := Reclaimed(m, p2, path[2]);
      AfterReclaim(m, a, p2, path[2]);
      RootsBeside(m, a, p4, p3, p2, p1, path);
      SlotsSame(m, a, p4, path[0]);
      if IsEmpty(a, p2) {
        CanReclaim(a, p3, path[1], p2);
        var b := Reclaimed(a, p3, path[1]);
        AfterReclaim(a, b, p3, path[1]);
        ShrunkTwice(m, a, b);
        TwoReclaimed(m, a, b, p3, path[1], p2, path[2], p1);
        if b.tables[p3] == EmptyTable() && path[0] < UPPER { StillOfOne(m, b, p4, p3, p2, p1, path); }
        TopMeans(b, p4, p3, path[0]);
        var m' := WayReclaimed(m, p4, p3, p2, p1, path);
        ShrunkTwice(m, b, m');
        ShrunkKeys(b, m');
        RootsBeside(m, b, p4, p3, p2, p1, path);
        SlotsJoin(m, b, m', p4, path[0]);
      }
    }
  }

  lemma TopMeans(b: Mem, p4: nat, p3: nat, i: nat)
    requires VmOk(b.tables, b.nodes, b.free) && IsP4(b, p4) && i < ENTRIES && Leads(b, p4, i, p3) && p3 in b.tables
    requires IsEmpty(b, p3) && i < UPPER ==> SlotOfOne(b, p4, i)
    ensures i < |b.tables[p4]|
    ensures var m' := if IsEmpty(b, p3) && i < UPPER then Reclaimed(b, p4, i) else b;
            && VmOk(m'.tables, m'.nodes, m'.free) && Shrunk(b, m') && SlotsAfter(b, m', p4, i)
            && (p3 in m'.tables && i < UPPER ==> !IsEmpty(m', p3))
  {
    hide VmOk, IsTable, Prunable, EntryOk, Shrunk, EmptyTable, SlotOfOne, Prune, SlotsAfter;
    ShrunkNot(b);
    if IsEmpty(b, p3) && i < UPPER {
      CanReclaim(b, p4, i, p3);
      AfterReclaim(b, Reclaimed(b, p4, i), p4, i);
      SlotCleared(b, Reclaimed(b, p4, i), p4, i);
    } else {
      SlotsSame(b, b, p4, i);
    }
  }

  /** What unmapping means where the tree stays in order. */
  ghost predicate IsUnmapped(m: Mem, m': Mem, p4: nat, path: seq<nat>) {
    && IsPath(path, 4)
    && OnlyPage(m.tables, m.nodes, m'.tables, p4, path, None)
    && OnlyUserPage(m.tables, m.nodes, m'.tables, p4, path, None, false)
    && SlotsAfter(m, m', p4, path[0])
    && match PtOf(m.tables, p4, 4, path)
       case None => m' == m
       case Some(pt) =>
         pt in m.tables && path[3] < |m.tables[pt]| && Shrunk(Cleared(m, pt, path[3]), m') && TidyWalk(m, m', p4, path)
  }

  lemma ClearedOk(m: Mem, pt: nat, i: nat)
    requires VmOk(m.tables, m.nodes, m.free) && pt in m.tables && m.nodes[pt].level == 1 && i < |m.tables[pt]|
    requires i < ENTRIES && (m.tables[pt][i].p ==> m.tables[pt][i].frame > 0 && m.tables[pt][i].frame !in m.tables)
    ensures var m' := Cleared(m, pt, i); VmOk(m'.tables, m'.nodes, m'.free)
  {
    LeafTree(m.tables, m.nodes, pt, i, ZERO);
  }

  lemma UnmapMeans(m: Mem, p4: nat, path: seq<nat>)
    requires VmOk(m.tables, m.nodes, m.free) && Unmappable(m, p4, path)
    ensures var m' := AfterUnmap(m, p4, path); VmOk(m'.tables, m'.nodes, m'.free) && IsUnmapped(m, m', p4, path)
  {
    hide VmOk, PtOf, OnlyPage, OnlyUserPage, Shrunk, Tidy, TreeOk, BecomesEmpty, NothingElse, SlotOfOne, Cleared;
    hide SlotsAfter, LastOfSlot, WayReclaimed;
    FromOk(m);
    WalkCases(m, p4, path);
    WalkPt(m, p4, path);
    SlotsSame(m, m, p4, path[0]);
    var (e4, e3, e2, e1) := Way(m, p4, path);
    if e4.p && e3.p && e2.p {
      var p3, p2, p1 := e4.frame, e3.frame, e2.frame;
      ClearedChain(m, p4, p3, p2, p1, path);
      ClearedMeans(m, p4, path, p1);
      ClearedOk(m, p1, path[3]);
      ClearedNodes(m, p1, path[3]);
      ClearedTables(m, p1, path[3]);
      var m1 := Cleared(m, p1, path[3]);
      WayMeans(m1, p4, p3, p2, p1, path);
      var m' := AfterUnmap(m, p4, path);
      RootsBeside(m, m1, p4, p3, p2, p1, path);
      SlotsJoin(m, m1, m', p4, path[0]);
      ShrunkOnly(m, m1, m', p4, path, None, false);
    }
  }

  /** All top-level entries are as they were, but that one slot was cleared. */
  ghost predicate SlotGone(m: Mem, m': Mem, p4: nat, i: nat) {
    && (forall x | IsP4(m, x) :: IsP4(m', x))
    && forall x: nat, j: nat | IsP4(m, x) && j < ENTRIES ::
      Entry(m', x, j) == if x == p4 && j == i then ZERO else Entry(m, x, j)
  }

  /** What top-level entries lead to is there. */
  ghost predicate TopsLead(m: Mem) {
    forall x: nat, j: nat | IsP4(m, x) && j < ENTRIES && Entry(m, x, j).p :: Entry(m, x, j).frame in m.tables
  }

  /** What is left of the tables around the way, whoever shares them. */
  lemma WayTables(m: Mem, p4: nat, p3: nat, p2: nat, p1: nat, path: seq<nat>)
    requires TreeOk(m.tables, m.nodes) && Chain(m, p4, p3, p2, p1, path)
    ensures var m', last := WayReclaimed(m, p4, p3, p2, p1, path),
                            path[0] < UPPER && BecomesEmpty(m, p3, p2, p1, path);
            && p4 in m'.tables && p4 in m'.nodes && m'.nodes[p4] == m.nodes[p4] && path[0] < |m.tables[p4]|
            && (p3 in m'.tables <==> !last)
            && m'.tables[p4] == (if last then m.tables[p4][path[0] := ZERO] else m.tables[p4])
            && (last && m.base <= p3 < m.base + m.limit ==> p3 in m'.free)
            && forall x <- m.tables | x !in {p1, p2, p3, p4} ::
                 x in m'.tables && x in m'.nodes && m'.tables[x] == m.tables[x] && m'.nodes[x] == m.nodes[x]
  {
    ChainFacts(m, p4, p3, p2, p1, path);
    ChainSizes(m, p4, p3, p2, p1, path);
    EmptyIsNoneBut(m, p2, path[2]);
    EmptyIsNoneBut(m, p3, path[1]);
    assert m.tables.Keys == m.nodes.Keys;
    hide IsTable, EntryOk, EmptyTable, PtOf, TreeOk, NoneBut, TableBack;
    var m' := WayReclaimed(m, p4, p3, p2, p1, path);
    if IsEmpty(m, p1) {
      BackLeaves(m, p2, path[2], p1);
      var a := TableBack(m, p2, path[2]);
      if IsEmpty(a, p2) {
        BackLeaves(a, p3, path[1], p2);
        var b := TableBack(a, p3, path[1]);
        if IsEmpty(b, p3) && path[0] < UPPER { BackLeaves(b, p4, path[0], p3); }
      }
    }
  }

  /** What is left when the table `c` was given back. */
  lemma BackLeaves(m: Mem, t: nat, i: nat, c: nat)
    requires Leads(m, t, i, c) && t != c && m.tables.Keys == m.nodes.Keys
    ensures var m' := TableBack(m, t, i);
            && m'.base == m.base && m'.limit == m.limit && m'.tables.Keys == m'.nodes.Keys
            && m'.tables.Keys == m.tables.Keys - {c} && m'.nodes == m.nodes - {c} && t in m.tables && i < |m.tables[t]|
            && m'.tables[t] == m.tables[t][i := ZERO] && (m.base <= c < m.base + m.limit ==> c in m'.free)
            && forall x <- m.tables | x != t && x != c :: m'.tables[x] == m.tables[x]
  {
  }

  lemma EmptyIsNoneBut(m: Mem, t: nat, i: nat)
    requires t in m.tables && |m.tables[t]| == ENTRIES && i < ENTRIES
    ensures m.tables[t][i := ZERO] == EmptyTable() <==> NoneBut(m, t, i)
  {
    if m.tables[t][i := ZERO] == EmptyTable() { OnlyOnTheWay(m, t, i); }
    if NoneBut(m, t, i) {
      var es := m.tables[t][i := ZERO];
      forall j: nat | j < ENTRIES
        ensures es[j] == ZERO
      {
        if j != i { assert Entry(m, t, j) == ZERO; }
      }
      assert es == EmptyTable();
    }
  }

  /** Clearing the entry empties the slot exactly if nothing else was mapped below it. */
  lemma LastIsEmpty(m: Mem, p4: nat, path: seq<nat>)
    requires TreeOk(m.tables, m.nodes) && Reaches(m, p4, path)
    requires var (e4, e3, e2, e1) := Way(m, p4, path);
             Chain(m, p4, e4.frame, e3.frame, e2.frame, path) && e2.frame in m.tables
             && path[3] < |m.tables[e2.frame]|
    ensures var (e4, e3, e2, e1) := Way(m, p4, path);
            path[0] < UPPER && BecomesEmpty(Cleared(m, e2.frame, path[3]), e4.frame, e3.frame, e2.frame, path)
            <==> LastOfSlot(m, p4, path)
  {
    var (e4, e3, e2, e1) := Way(m, p4, path);
    var p3, p2, p1 := e4.frame, e3.frame, e2.frame;
    ChainFacts(m, p4, p3, p2, p1, path);
    ChainSizes(m, p4, p3, p2, p1, path);
    var m' := Cleared(m, p1, path[3]);
    ClearedTables(m, p1, path[3]);
    EmptyIsNoneBut(m, p2, path[2]);
    EmptyIsNoneBut(m, p3, path[1]);
    EmptyIsNoneBut(m', p2, path[2]);
    EmptyIsNoneBut(m', p3, path[1]);
    EmptyIsNoneBut(m, p1, path[3]);
    assert m.tables[p1][path[3]] == e1;
    assert m.tables[p1][path[3] := m.tables[p1][path[3]]] == m.tables[p1];
    assert EmptyTable()[path[3]] == ZERO;
    hide NoneBut, EmptyTable, TreeOk;
  }

  lemma NotLast(m: Mem, p4: nat, path: seq<nat>)
    requires IsPath(path, 4) && var (e4, e3, e2, e1) := Way(m, p4, path); !(e4.p && e3.p && e2.p)
    ensures !LastOfSlot(m, p4, path)
  {
  }

  lemma WayIsChain(m: Mem, p4: nat, path: seq<nat>)
    requires TreeOk(m.tables, m.nodes) && Reaches(m, p4, path)
    requires var (e4, e3, e2, e1) := Way(m, p4, path); e4.p && e3.p && e2.p
    ensures var (e4, e3, e2, e1) := Way(m, p4, path); Chain(m, p4, e4.frame, e3.frame, e2.frame, path)
  {
    var (e4, e3, e2, e1) := Way(m, p4, path);
    assert IsTable(p4, m.tables, m.nodes) && EntryOk(p4, path[0], m.tables, m.nodes);
    assert EntryOk(e4.frame, path[1], m.tables, m.nodes) && EntryOk(e3.frame, path[2], m.tables, m.nodes);
  }

  lemma TopEntries(m: Mem)
    requires TreeOk(m.tables, m.nodes)
    ensures TopsLead(m)
    ensures forall x | IsP4(m, x) :: |m.tables[x]| == ENTRIES
    ensures forall x: nat, j: nat | IsP4(m, x) && j < ENTRIES && Entry(m, x, j).p ::
              Entry(m, x, j).frame in m.nodes && m.nodes[Entry(m, x, j).frame].level == 3 && !Entry(m, x, j).ps
  {
    forall x: nat, j: nat | IsP4(m, x) && j < ENTRIES && Entry(m, x, j).p
      ensures Entry(m, x, j).frame in m.tables
      ensures Entry(m, x, j).frame in m.nodes && m.nodes[Entry(m, x, j).frame].level == 3 && !Entry(m, x, j).ps
    {
      assert IsTable(x, m.tables, m.nodes) && EntryOk(x, j, m.tables, m.nodes);
    }
  }

  /** Only roots of `m` are roots of `m'`. */
  ghost predicate NoNewRoot(m: Mem, m': Mem) {
    forall x | IsP4(m', x) :: IsP4(m, x)
  }

  lemma RootsCleared(m: Mem, p4: nat, p3: nat, p2: nat, p1: nat, path: seq<nat>)
    requires TreeOk(m.tables, m.nodes) && Chain(m, p4, p3, p2, p1, path) && p1 in m.tables
    requires path[3] < |m.tables[p1]|
    ensures var a := Cleared(m, p1, path[3]);
            RootsSame(m, a) && NoNewRoot(m, a) && a.base == m.base && a.limit == m.limit
  {
    ChainFacts(m, p4, p3, p2, p1, path);
    ClearedTables(m, p1, path[3]);
  }

  lemma RootsOfWay(m: Mem, p4: nat, p3: nat, p2: nat, p1: nat, path: seq<nat>)
    requires TreeOk(m.tables, m.nodes) && Chain(m, p4, p3, p2, p1, path)
    ensures var m' := WayReclaimed(m, p4, p3, p2, p1, path);
            && NoNewRoot(m, m')
            && if path[0] < UPPER && BecomesEmpty(m, p3, p2, p1, path) then
                 && SlotGone(m, m', p4, path[0]) && p3 !in m'.tables
                 && (m.base <= p3 < m.base + m.limit ==> p3 in m'.free)
               else RootsSame(m, m') && TopsLead(m')
  {
    ChainFacts(m, p4, p3, p2, p1, path);
    ChainSizes(m, p4, p3, p2, p1, path);
    WayTables(m, p4, p3, p2, p1, path);
    TopEntries(m);
    WayNodes(m, p4, p3, p2, p1, path);
    hide TreeOk, IsTable, EntryOk, WayReclaimed, BecomesEmpty, PtOf, Chain;
    var m' := WayReclaimed(m, p4, p3, p2, p1, path);
    if !(path[0] < UPPER && BecomesEmpty(m, p3, p2, p1, path)) {
      assert RootsSame(m, m');
      forall x: nat, j: nat | IsP4(m', x) && j < ENTRIES && Entry(m', x, j).p
        ensures Entry(m', x, j).frame in m'.tables
      {
        assert IsP4(m, x) && Entry(m, x, j) == Entry(m', x, j);
        var c := Entry(m, x, j).frame;
        assert m.nodes[c].level == 3 && c != p4 && c != p2 && c != p1;
      }
    }
  }

  lemma WayNodes(m: Mem, p4: nat, p3: nat, p2: nat, p1: nat, path: seq<nat>)
    requires IsPath(path, 4)
    ensures var m' := WayReclaimed(m, p4, p3, p2, p1, path);
            m'.nodes.Keys <= m.nodes.Keys && m'.tables.Keys <= m.tables.Keys
            && forall x <- m'.nodes :: m'.nodes[x] == m.nodes[x]
  {
    hide IsEmpty;
  }

  lemma SameThenGone(m: Mem, a: Mem, m': Mem, p4: nat, i: nat)
    requires RootsSame(m, a) && SlotGone(a, m', p4, i)
    ensures SlotGone(m, m', p4, i)
  {
    forall x: nat, j: nat | IsP4(m, x) && j < ENTRIES
      ensures Entry(m', x, j) == if x == p4 && j == i then ZERO else Entry(m, x, j)
    {
      assert IsP4(a, x) && Entry(a, x, j) == Entry(m, x, j);
    }
  }

  lemma LeftInSlots(m: Mem, m': Mem, p4: nat, i: nat)
    requires TreeOk(m.tables, m.nodes) && IsP4(m, p4) && i < ENTRIES && Entry(m, p4, i).p
    requires SlotGone(m, m', p4, i) && NoNewRoot(m, m')
    ensures LedTo(m', Entry(m, p4, i).frame) <==> !SlotOfOne(m, p4, i)
  {
    TopEntries(m);
    var c := Entry(m, p4, i).frame;
    hide TreeOk;
    if !SlotOfOne(m, p4, i) {
      var x, j :| IsP4(m, x) && 0 <= j < ENTRIES && (x != p4 || j != i) && SameSlot(m.tables, x, j, p4, i);
      assert Entry(m', x, j).p && Entry(m', x, j).frame == c;
    }
    if LedTo(m', c) {
      var x: nat, j: nat :| IsP4(m', x) && j < ENTRIES && Entry(m', x, j).p && Entry(m', x, j).frame == c;
      assert SameSlot(m.tables, x, j, p4, i);
    }
  }

  /**
   Unmapping a page changes no top-level entry, and each leads where it did, unless it was the last page below a
   slot of the lower half. Then that slot is cleared and its table is freed, and a slot of some root still leads to
   the freed table exactly if the slot was shared.
   */
  lemma UnmapExactly(m: Mem, p4: nat, path: seq<nat>)
    requires TreeOk(m.tables, m.nodes) && Reaches(m, p4, path)
    ensures var m', c := AfterUnmap(m, p4, path), Entry(m, p4, path[0]).frame;
            if LastOfSlot(m, p4, path) then
              && SlotGone(m, m', p4, path[0]) && c !in m'.tables
              && (m.base <= c < m.base + m.limit ==> c in m'.free)
              && (LedTo(m', c) <==> !SlotOfOne(m, p4, path[0]))
            else RootsSame(m, m') && TopsLead(m')
  {
    hide PtOf, NothingElse, SlotOfOne, Cleared, LastOfSlot, WayReclaimed, BecomesEmpty, EmptyTable, Chain;
    var m' := AfterUnmap(m, p4, path);
    var (e4, e3, e2, e1) := Way(m, p4, path);
    TopEntries(m);
    if !(e4.p && e3.p && e2.p) {
      NotLast(m, p4, path);
    } else {
      var p3, p2, p1 := e4.frame, e3.frame, e2.frame;
      WayIsChain(m, p4, path);
      ClearedTree(m, p4, p3, p2, p1, path);
      LastIsEmpty(m, p4, path);
      var a := Cleared(m, p1, path[3]);
      RootsCleared(m, p4, p3, p2, p1, path);
      RootsOfWay(a, p4, p3, p2, p1, path);
      if LastOfSlot(m, p4, path) {
        SameThenGone(m, a, m', p4, path[0]);
        LeftInSlots(m, m', p4, path[0]);
      }
    }
  }

  class AddressSpaces {
    const pmm: FrameManager
    var tables: Tables
    var data: map<nat, Page>
    ghost var nodes: Nodes

    constructor (pmm: FrameManager, tables: Tables, ghost nodes: Nodes)
      requires pmm.Valid() && VmOk(tables, nodes, pmm.Free())
      ensures this.pmm == pmm && this.tables == tables && this.nodes == nodes && Valid()
    {
      this.pmm, this.tables, this.nodes, this.data := pmm, tables, nodes, map[];
    }

    ghost predicate Valid()
      reads this, pmm, pmm.bm, pmm.refs
    {
      pmm.Valid() && VmOk(tables, nodes, pmm.Free())
    }

    ghost function Now(): Mem
      requires pmm.bm.Length == BM_WORDS
      reads this, pmm, pmm.bm, pmm.refs
    {
      Mem(tables, nodes, pmm.memBase, pmm.Limit(), pmm.Free(), pmm.refs[..])
    }

    /** The table below entry `idx`, made on the way if there is none. */
    method Goc(tab: nat, idx: nat, f: Flags, ghost p4: nat) returns (r: Allocation)
      requires Valid() && OnTheWay(Now(), p4, tab, idx) && !f.ps
      modifies this, pmm`freeFrames, pmm`hint, pmm.bm, pmm.refs
      ensures Valid() && data == old(data)
      ensures WentDown(old(Now()), Now(), p4, tab, idx, f, r)
      ensures r.Frame? ==>
                var e, e' := old(tables[tab][idx]), Entry(Now(), tab, idx);
                && e'.p && !e'.ps && e'.frame == r.frame && e'.w == (f.w || (e.p && !e.ps && e.w))
                && e'.u == (f.u || (e.p && !e.ps && e.u))
                && (if e.p && !e.ps then r.frame == e.frame && e'.cow == e.cow && e'.rest == e.rest
                    else r.frame in old(pmm.Free()) && e'.cow == f.cow && e'.rest == f.rest)
      ensures r.Frame? && !old(tables[tab][idx].p) ==> forall j: nat | j < ENTRIES :: !Entry(Now(), r.frame, j).p
      ensures r.Frame? && old(tables[tab][idx].p && tables[tab][idx].ps) ==>
                forall j: nat | j < ENTRIES :: IsPiece(Entry(Now(), r.frame, j), old(tables[tab][idx].frame), j)
    {
      ghost var m := Now();
      FromOk(m);
      EntryOfTable(m, tab, idx);
      hide VmOk, WentDown, Merged, FrameManager.Free, FrameManager.Valid, Entry, IsPiece;
      if !tables[tab][idx].p {
        r := LinkFresh(tab, idx, f, p4);
        if r.Frame? { WentFields(m, Now(), p4, tab, idx, f, r.frame); }
        return;
      }
      r := Refine(tab, idx, f, p4);
      if r.Frame? { WentFields(m, Now(), p4, tab, idx, f, r.frame); }
    }

    /** A zeroed table goes where there was none. */
    method LinkFresh(tab: nat, idx: nat, f: Flags, ghost p4: nat) returns (r: Allocation)
      requires Valid() && OnTheWay(Now(), p4, tab, idx) && !f.ps && !tables[tab][idx].p
      modifies this, pmm`freeFrames, pmm`hint, pmm.bm, pmm.refs
      ensures Valid() && data == old(data)
      ensures WentDown(old(Now()), Now(), p4, tab, idx, f, r)
    {
      hide VmOk, WentDown, Merged, FrameManager.Free, FrameManager.Valid, EmptyTable, SplitTable;
      pmm.FromValid();
      ghost var m := Now();
      NothingAdded(m, p4, tab, idx, f);
      r := pmm.AllocNoLock();
      if r == OutOfMemory { return; }
      var child := r.frame;
      FilledIn(m, p4, tab, idx, f, child, false);
      tables := tables[child := EmptyTable()];
      tables := Store(tables, tab, idx, Make(child, f));
      nodes := nodes[child := ChildOf(tab, idx, nodes[tab])];
    }

    /** Flags are added to the entry, and a huge page is split into a table of its pieces. */
    method Refine(tab: nat, idx: nat, f: Flags, ghost p4: nat) returns (r: Allocation)
      requires Valid() && OnTheWay(Now(), p4, tab, idx) && !f.ps && tables[tab][idx].p
      modifies this, pmm`freeFrames, pmm`hint, pmm.bm, pmm.refs
      ensures Valid() && data == old(data)
      ensures WentDown(old(Now()), Now(), p4, tab, idx, f, r)
    {
      hide VmOk, WentDown, Merged, FrameManager.Free, FrameManager.Valid, EmptyTable, SplitTable;
      pmm.FromValid();
      ghost var m := Now();
      NothingAdded(m, p4, tab, idx, f);
      tables := Store(tables, tab, idx, Merged(tables[tab][idx], f));
      if !tables[tab][idx].ps { return Frame(tables[tab][idx].frame); }
      r := pmm.AllocNoLock();
      if r == OutOfMemory { return; }
      var child := r.frame;
      FilledIn(m, p4, tab, idx, f, child, true);
      ghost var merged := tables;
      tables := tables[child := EmptyTable()];
      SplitHuge(child, tables[tab][idx].frame);
      assert tables == merged[child := FillFor(m.tables[tab][idx])];
      tables := Store(tables, tab, idx, Make(child, f));
      nodes := nodes[child := ChildOf(tab, idx, nodes[tab])];
    }

    /** The last-level table on the way of `path`, made with all that is missing above it. */
    method Descend(p4: nat, path: seq<nat>, inter: Flags) returns (r: Allocation)
      requires Valid() && IsP4(Now(), p4) && IsPath(path, 4) && !inter.ps
      modifies this, pmm`freeFrames, pmm`hint, pmm.bm, pmm.refs
      ensures Valid() && data == old(data) && Now().base == old(Now()).base && Now().limit == old(Now()).limit
      ensures Untouched(old(Now()).base, old(pmm.Free()), old(pmm.refs[..]), pmm.Free(), pmm.refs[..])
      ensures Grown(p4, old(tables), old(nodes), old(pmm.Free()), tables, nodes, pmm.Free())
      ensures r == OutOfMemory ==> pmm.Free() == {}
      ensures r.Frame? ==>
              && PtOf(tables, p4, 4, path) == Some(r.frame) && r.frame in tables
              && |tables[r.frame]| == ENTRIES
      ensures r.Frame? ==> WayLed(Now(), p4, path, inter.w, inter.u) && Way(Now(), p4, path).2.frame == r.frame
      ensures r.Frame? ==> WayFrom(old(Now()), Now(), p4, path, inter)
      ensures r.Frame? && !Entry(old(Now()), p4, path[0]).p ==> OnlyWay(Now(), p4, path)
    {
      hide OnlyWay, WayLed, Way, WayFrom;
      hide VmOk, OnTheWay, WentDown, Untouched, Grown, Agree, Leads, FrameManager.Free, FrameManager.Valid, PtOf;
      pmm.FromValid();
      ghost var m := Now();
      TopOnTheWay(m, p4);
      r := Goc(p4, path[0], inter, p4);
      ghost var a := Now();
      StepDown(m, a, p4, p4, path[0], inter, r);
      if r == OutOfMemory { return; }
      var p3 := r.frame;
      r := Goc(p3, path[1], inter, p4);
      ghost var b := Now();
      StepDown(a, b, p4, p3, path[1], inter, r);
      Grew(m, a, b, p4);
      if r == OutOfMemory { return; }
      var p2 := r.frame;
      r := Goc(p2, path[2], inter, p4);
      StepDown(b, Now(), p4, p2, path[2], inter, r);
      Grew(m, b, Now(), p4);
      if r == OutOfMemory { return; }
      Descent(m, a, b, Now(), p4, path, inter, p3, p2, r.frame);
      FreshWay(m, a, b, Now(), p4, path, inter, p3, p2, r.frame);
      WayMade(m, a, b, Now(), p4, path, inter, p3, p2, r.frame);
      WayExact(m, a, b, Now(), p4, path, inter, p3, p2, r.frame);
    }

    /** The page of `v` now translates to `p`, everywhere it is seen, and no other page changed. */
    method Vmap(p4: nat, v: nat, p: nat, f: Flags) returns (r: MapResult, ghost mid: Mem, ghost pt: nat)
      requires Valid() && (p4 == 0 || IsP4(Now(), p4))
      modifies this, pmm`freeFrames, pmm`hint, pmm.bm, pmm.refs
      ensures Valid() && data == old(data)
      ensures r == Invalid <==> v % PAGE_SIZE != 0 || p % PAGE_SIZE != 0 || p4 == 0
      ensures r == Invalid ==> Now() == old(Now())
      ensures r == Exhausted ==> pmm.Free() == {} && Agree(old(tables), old(nodes), tables)
      ensures r == Mapped ==> EntryStored(old(Now()), Now(), p4, PathOf(v), Make(p / PAGE_SIZE, f), mid, pt)
      ensures r == Mapped ==>
                && OnlyPage(old(tables), old(nodes), tables, p4, PathOf(v), Some(p / PAGE_SIZE % FRAME_LIMIT))
                && OnlyUserPage(old(tables), old(nodes), tables, p4, PathOf(v), if f.u
                   then Some(p / PAGE_SIZE % FRAME_LIMIT) else None, f.u && (f.w || f.cow))
                && (f.u ==> UserOk(tables, p4, 4, PathOf(v)))
      ensures r == Mapped ==>
                var (e4, e3, e2, e1) := Way(Now(), p4, PathOf(v));
                && e4.p && e4.w && !e4.ps && e3.p && e3.w && !e3.ps && e2.p && e2.w && !e2.ps
                && (f.u ==> e4.u && e3.u && e2.u)
                && e1.p && e1.w == f.w && e1.u == f.u && e1.ps == f.ps && e1.cow == f.cow && e1.rest == f.rest
                && e1.frame == p / PAGE_SIZE % FRAME_LIMIT
      ensures r == Mapped ==>
                var (o4, o3, o2, o1) := Way(old(Now()), p4, PathOf(v));
                var (e4, e3, e2, e1) := Way(Now(), p4, PathOf(v));
                && (e4.u <==> f.u || (o4.p && o4.u)) && (e3.u <==> f.u || (o4.p && o3.p && o3.u))
                && (e2.u <==> f.u || (o4.p && o3.p && o2.p && !o2.ps && o2.u))
                && LinkFrom(e4, o4.p, o4, Flags(true, f.u, false, false, 0))
                && LinkFrom(e3, o4.p && o3.p, o3, Flags(true, f.u, false, false, 0))
                && LinkFrom(e2, o4.p && o3.p && o2.p && !o2.ps, o2, Flags(true, f.u, false, false, 0))
      ensures r == Mapped ==> WaysKept(old(Now()), Now(), p4, PathOf(v))
      ensures r == Mapped && PathOf(v)[0] < UPPER && !Entry(old(Now()), p4, PathOf(v)[0]).p ==>
                Reaches(Now(), p4, PathOf(v)) && LastOfSlot(Now(), p4, PathOf(v))
    {
      hide Reaches, LastOfSlot, OnlyWay;
      hide VmOk, Untouched, Grown, Agree, FrameManager.Free, FrameManager.Valid, PtOf, OnlyPage, OnlyUserPage;
      hide PathOf, UserOk, WaysKept;
      pmm.FromValid();
      mid, pt := Now(), 0;
      if v % PAGE_SIZE != 0 || p % PAGE_SIZE != 0 || p4 == 0 { return Invalid, mid, pt; }
      ghost var m := Now();
      var path := PathOf(v);
      var p1 := Descend(p4, path, Flags(true, f.u, false, false, 0));
      GrownAgrees(p4, m, Now());
      if p1 == OutOfMemory { return Exhausted, mid, pt; }
      mid, pt := Now(), p1.frame;
      tables := Store(tables, p1.frame, path[3], Make(p / PAGE_SIZE, f));
      StoredMeans(m, Now(), p4, path, Make(p / PAGE_SIZE, f), mid, pt);
      if path[0] < UPPER && OnlyWay(mid, p4, path) {
        StoredIsLast(m, Now(), p4, path, Make(p / PAGE_SIZE, f), mid, pt);
      }
      WayStored(m, mid, Now(), p4, path, Make(p / PAGE_SIZE, f), pt, f.u);
      WayUsable(Now(), p4, path);
      WaysStay(m, Now(), p4, path, Make(p / PAGE_SIZE, f), mid, pt);
      return Mapped, mid, pt;
    }

    /** The walk of `virt_to_phys`, which looks for the huge bit at every upper level. */
    method VirtToPhys(p4: nat, v: nat) returns (r: Option<nat>)
      requires Valid() && (p4 == 0 || IsP4(Now(), p4))
      ensures p4 == 0 ==> r == None
      ensures p4 != 0 ==> r == Phys(tables, p4, v)
      ensures p4 != 0 ==>
                var (e4, e3, e2, e1) := Way(Now(), p4, PathOf(v));
                r == if !e4.p || !e3.p || !e2.p then None
                     else if e2.ps then Some((e2.frame - e2.frame % ENTRIES) * PAGE_SIZE + v % 0x20_0000)
                     else if e1.p then Some(e1.frame * PAGE_SIZE + v % PAGE_SIZE) else None
    {
      if p4 == 0 { return None; }
      hide VmOk, FrameManager.Free, FrameManager.Valid, Translate, PathOf;
      var path := PathOf(v);
      WalkFacts(Now(), p4, path);
      OffsetParts(v);
      var w := WalkEntry(tables[p4][path[0]], v);
      if w.Answer? { return w.address; }
      var p3 := w.table;
      w := WalkEntry(tables[p3][path[1]], v);
      if w.Answer? { return w.address; }
      var p2 := w.table;
      w := WalkEntry(tables[p2][path[2]], v);
      if w.Answer? { return w.address; }
      var p1 := w.table;
      var e := tables[p1][path[3]];
      if !e.p { return None; }
      return Some(e.frame * PAGE_SIZE + v % PAGE_SIZE);
    }

    method PtEmpty(p: nat) returns (empty: bool)
      requires p in tables && |tables[p]| == ENTRIES
      ensures empty <==> tables[p] == EmptyTable()
    {
      for i := 0 to ENTRIES
        invariant forall j | 0 <= j < i :: tables[p][j] == ZERO
      {
        if tables[p][i] != ZERO { return false; }
      }
      assert tables[p] == EmptyTable();
      return true;
    }

    /** Gives the table below the entry back and clears the entry. */
    method Reclaim(t: nat, i: nat)
      requires pmm.Valid() && t in tables && i < |tables[t]|
      modifies this, pmm`freeFrames, pmm`hint, pmm.bm
      ensures pmm.Valid() && data == old(data)
      ensures Now() == Reclaimed(old(Now()), t, i)
    {
      hide FrameManager.Free, FrameManager.Valid;
      pmm.FromValid();
      var c := tables[t][i].frame;
      pmm.FreeNoLock(c);
      tables := Store(tables, t, i, ZERO) - {c};
      nodes := nodes - {c};
    }

    /** `frame_dec` on what the entry maps, and the entry is zeroed. */
    method ClearLeaf(pt: nat, i: nat)
      requires pmm.Valid() && pt in tables && i < |tables[pt]|
      modifies this, pmm`freeFrames, pmm`hint, pmm.bm, pmm.refs
      ensures pmm.Valid() && data == old(data)
      ensures Now() == Cleared(old(Now()), pt, i)
    {
      hide FrameManager.Free, FrameManager.Valid;
      pmm.FromValid();
      var e := tables[pt][i];
      if e.p {
        var freed := pmm.FrameDec(e.frame);
        tables := Store(tables, pt, i, ZERO);
      }
    }

    /** The part of `vunmap` that gives back the tables that became empty, from the last level up. */
    method ReclaimEmpty(p4: nat, p3: nat, p2: nat, p1: nat, path: seq<nat>)
      requires pmm.Valid() && TreeOk(tables, nodes) && Chain(Now(), p4, p3, p2, p1, path)
      modifies this, pmm`freeFrames, pmm`hint, pmm.bm
      ensures pmm.Valid() && data == old(data)
      ensures Now() == WayReclaimed(old(Now()), p4, p3, p2, p1, path)
    {
      hide FrameManager.Free, FrameManager.Valid, IsTable, EntryOk, EmptyTable, PtOf, TreeOk;
      pmm.FromValid();
      ghost var m := Now();
      ChainFacts(m, p4, p3, p2, p1, path);
      ChainSizes(m, p4, p3, p2, p1, path);
      var empty := PtEmpty(p1);
      if empty {
        Reclaim(p2, path[2]);
        empty := PtEmpty(p2);
        if empty {
          Reclaim(p3, path[1]);
          empty := PtEmpty(p3);
          if empty && path[0] < UPPER { Reclaim(p4, path[0]); }
        }
      }
    }

    /**
     `vunmap` as it is for any root, whoever shares its slots. If it keeps the tree in order, the page of `v` no
     longer translates, wherever it was seen, and every other page does as before.
     */
    method Vunmap(p4: nat, v: nat)
      requires Valid() && (p4 == 0 || Reaches(Now(), p4, PathOf(v)))
      modifies this, pmm`freeFrames, pmm`hint, pmm.bm, pmm.refs
      ensures pmm.Valid() && data == old(data)
      ensures Now() == if p4 == 0 then old(Now()) else AfterUnmap(old(Now()), p4, PathOf(v))
      ensures p4 != 0 && old(Unmappable(Now(), p4, PathOf(v))) ==>
                && Valid() && IsUnmapped(old(Now()), Now(), p4, PathOf(v))
    {
      if p4 == 0 { return; }
      hide VmOk, FrameManager.Free, FrameManager.Valid, PtOf, PathOf, TreeOk, Cleared, IsUnmapped, LastOfSlot;
      hide SlotOfOne, WayReclaimed;
      pmm.FromValid();
      var path := PathOf(v);
      ghost var m := Now();
      FromOk(m);
      WalkCases(m, p4, path);
      if Unmappable(m, p4, path) { UnmapMeans(m, p4, path); }
      if !tables[p4][path[0]].p { return; }
      var p3 := tables[p4][path[0]].frame;
      if !tables[p3][path[1]].p { return; }
      var p2 := tables[p3][path[1]].frame;
      if !tables[p2][path[2]].p { return; }
      var p1 := tables[p2][path[2]].frame;
      ClearedTree(m, p4, p3, p2, p1, path);
      ClearLeaf(p1, path[3]);
      ReclaimEmpty(p4, p3, p2, p1, path);
    }

    /** The walk of `valid_user`, which looks for the huge bit at every upper level. */
    method ValidUser(p4: nat, v: nat) returns (r: bool)
      requires Valid() && (p4 == 0 || IsP4(Now(), p4))
      ensures r <==> p4 != 0 && UserOk(tables, p4, 4, PathOf(v))
      ensures r <==>
                && p4 != 0
                && var (e4, e3, e2, e1) := Way(Now(), p4, PathOf(v));
                   e4.p && e4.u && e3.p && e3.u && e2.p && e2.u && (e2.ps || (e1.p && e1.u))
    {
      if p4 == 0 { return false; }
      WayUsable(Now(), p4, PathOf(v));
      hide VmOk, FrameManager.Free, FrameManager.Valid, UserOk, PathOf;
      var path := PathOf(v);
      CheckFacts(Now(), p4, path);
      var c := CheckEntry(tables[p4][path[0]]);
      if c.Known? { return c.answer; }
      var p3 := c.table;
      c := CheckEntry(tables[p3][path[1]]);
      if c.Known? { return c.answer; }
      var p2 := c.table;
      c := CheckEntry(tables[p2][path[2]]);
      if c.Known? { return c.answer; }
      var p1 := c.table;
      return tables[p1][path[3]].p && tables[p1][path[3]].u;
    }

    /**
     Whether user code may use every byte of a buffer. The sum that gives its end has 64 bits, so that a buffer that
     runs over the end of memory is accepted unless its end comes to lie beyond its own first page. A buffer that
     ends inside the last page is refused, for the page counter wraps there: the loop goes on until it finds a page
     that user code may not use, and without one for ever, which is what `hung` says.
     */
    method ValidBuf(p4: nat, ptr: nat, len: nat) returns (r: bool, hung: bool)
      requires Valid() && (p4 == 0 || IsP4(Now(), p4)) && ptr < WORD_LIMIT && len < WORD_LIMIT
      ensures len == 0 ==> r && !hung
      ensures hung <==> 0 < len && EndsLate(ptr, len) && p4 != 0 && AllUsable(tables, p4, 0, WORD_LIMIT)
      ensures 0 < len && EndsLate(ptr, len) ==> !r
      ensures 0 < len && !EndsLate(ptr, len) ==>
                var first, end := ptr - ptr % PAGE_SIZE, (ptr + len) % WORD_LIMIT;
                r <==> end <= first || (p4 != 0 && AllUsable(tables, p4, first, end))
      ensures 0 < len && ptr + len < WORD_LIMIT && !EndsLate(ptr, len) ==>
                (r <==> p4 != 0 && AllUsable(tables, p4, ptr, ptr + len))
    {
      if len == 0 { return true, false; }
      hide UserOk, PathOf, VmOk, FrameManager.Free, FrameManager.Valid;
      var end := (ptr + len) % WORD_LIMIT;
      WrappedEnd(ptr, len);
      PageOfPtr(ptr);
      SamePath(ptr - ptr % PAGE_SIZE);
      var pg := ptr - ptr % PAGE_SIZE;
      var wrapped := false;
      ghost var from: nat := pg;
      while pg < end
        invariant pg % PAGE_SIZE == 0 && from <= pg < WORD_LIMIT && (pg > from ==> p4 != 0)
        invariant AllUsable(tables, p4, from, pg)
        invariant from == if wrapped then 0 else ptr - ptr % PAGE_SIZE
        invariant wrapped ==> end > WORD_LIMIT - PAGE_SIZE
        decreases !wrapped, WORD_LIMIT - pg
      {
        var ok := ValidUser(p4, pg);
        SamePath(pg);
        PageEnds(pg);
        assert PathOf(pg) == PathOf(if pg == ptr - ptr % PAGE_SIZE then ptr else pg);
        if !ok { return false, false; }
        pg := pg + PAGE_SIZE;
        if pg == WORD_LIMIT {
          if wrapped { return false, true; }
          pg, wrapped := 0, true;
          from := 0;
        }
      }
      return true, false;
    }

    /** The 512 small mappings that replace the huge one. */
    method SplitHuge(child: nat, frame: FrameNumber)
      requires child in tables && tables[child] == EmptyTable()
      modifies `tables
      ensures tables == old(tables)[child := SplitTable(frame)]
      ensures forall j | 0 <= j < ENTRIES ::
                var e := tables[child][j];
                && e.p && e.w && !e.u && !e.ps && !e.cow && e.rest == 0
                && e.frame == frame - frame % ENTRIES + j
    {
      SplitNone(frame);
      for j := 0 to ENTRIES
        invariant tables == old(tables)[child := SplitPart(frame, j)]
      {
        PieceFits(frame, j);
        tables := Store(tables, child, j, Make(frame - frame % ENTRIES + j, Flags(true, false, false, false, 0)));
        SplitNext(frame, j);
      }
      forall j | 0 <= j < ENTRIES
        ensures IsPiece(tables[child][j], frame, j)
      {
        PieceIs(frame, j);
      }
    }
  }

  lemma SplitNone(frame: FrameNumber)
    ensures SplitPart(frame, 0) == EmptyTable()
  {
  }

  lemma SplitNext(frame: FrameNumber, j: nat)
    requires j < ENTRIES
    ensures SplitPart(frame, j)[j := Make(frame - frame % ENTRIES + j, Flags(true, false, false, false, 0))] ==
            SplitPart(frame, j + 1)
  {
  }

  /** In whichever order the new table and the entry are written, and whatever the entry held meanwhile. */
  lemma FillDescends(tables: Tables, nodes: Nodes, free: set<nat>, t: nat, i: nat, f: Flags, child: nat)
    requires VmOk(tables, nodes, free) && t in tables && nodes[t].level >= 2 && IsTable(t, tables, nodes) && i < ENTRIES
    requires child in free && !(tables[t][i].p && !tables[t][i].ps)
    ensures t != child && child !in tables
    ensures var filled := tables[child := FillFor(tables[t][i])];
            Descended(tables, nodes, t, i, f, Store(filled, t, i, Make(child, f)),
                nodes[child := ChildOf(t, i, nodes[t])], child)
    ensures var filled := Store(tables, t, i, Merged(tables[t][i], f))[child := FillFor(tables[t][i])];
            Descended(tables, nodes, t, i, f, Store(filled, t, i, Make(child, f)),
                nodes[child := ChildOf(t, i, nodes[t])], child)
  {
    var g := Grow(tables, t, i, Make(child, f), FillFor(tables[t][i]));
    assert Store(tables[child := FillFor(tables[t][i])], t, i, Make(child, f)) == g;
    var merged := Store(tables, t, i, Merged(tables[t][i], f));
    assert merged[t][i := Make(child, f)] == tables[t][i := Make(child, f)];
    assert Store(merged[child := FillFor(tables[t][i])], t, i, Make(child, f)) == g;
  }

  /** Adding flags to an entry, huge or not. */
  lemma MergedKeeps(tables: Tables, nodes: Nodes, free: set<nat>, p4: nat, t: nat, i: nat, f: Flags)
    requires VmOk(tables, nodes, free) && t in tables && nodes[t].level >= 2 && IsTable(t, tables, nodes) && i < ENTRIES
    requires p4 in tables && nodes[p4].level == 4 && (nodes[t].level == 4 ==> t == p4)
    requires tables[t][i].p
    ensures var e, tables' := tables[t][i], Store(tables, t, i, Merged(tables[t][i], f));
            && VmOk(tables', nodes, free) && Grown(p4, tables, nodes, free, tables', nodes, free)
            && t in tables' && i < |tables'[t]| && tables'[t][i].frame == e.frame && tables'[t][i].ps == e.ps
            && (!e.ps ==> Descended(tables, nodes, t, i, f, tables', nodes, e.frame))
            && (e.ps ==> nodes[t].level == 2)
  {
    assert EntryOk(t, i, tables, nodes);
    ReflagGrows(tables, nodes, free, p4, t, i, Merged(tables[t][i], f));
  }

  /** One step of the check: the answer is known, or it goes on in the next table. */
  datatype Checked = Known(answer: bool) | Further(table: nat)

  function CheckEntry(e: Pte): Checked {
    if !e.p || !e.u then Known(false) else if e.ps then Known(true) else Further(e.frame)
  }

  lemma CheckFacts(m: Mem, p4: nat, path: seq<nat>)
    requires VmOk(m.tables, m.nodes, m.free) && IsP4(m, p4) && IsPath(path, 4)
    ensures |m.tables[p4]| == ENTRIES
    ensures var r, c4 := UserOk(m.tables, p4, 4, path), CheckEntry(m.tables[p4][path[0]]);
            if c4.Known? then r == c4.answer else
            c4.table in m.tables && |m.tables[c4.table]| == ENTRIES && (
              var c3 := CheckEntry(m.tables[c4.table][path[1]]);
              if c3.Known? then r == c3.answer else
              c3.table in m.tables && |m.tables[c3.table]| == ENTRIES && (
                var c2 := CheckEntry(m.tables[c3.table][path[2]]);
                if c2.Known? then r == c2.answer else
                c2.table in m.tables && |m.tables[c2.table]| == ENTRIES && (
                  var e1 := m.tables[c2.table][path[3]];
                  r == (e1.p && e1.u))))
  {
    assert IsTable(p4, m.tables, m.nodes) && EntryOk(p4, path[0], m.tables, m.nodes);
    var e4 := m.tables[p4][path[0]];
    if e4.p {
      assert EntryOk(e4.frame, path[1], m.tables, m.nodes);
      assert path[1..][0] == path[1];
      var e3 := m.tables[e4.frame][path[1]];
      if e3.p {
        assert EntryOk(e3.frame, path[2], m.tables, m.nodes);
        assert path[1..][1..][0] == path[2] && path[1..][1..][1..][0] == path[3];
      }
    }
  }

  /** What user code may use: every entry on the way has the user bit, up to the page's own or a huge one. */
  lemma WayUsable(m: Mem, p4: nat, path: seq<nat>)
    requires VmOk(m.tables, m.nodes, m.free) && IsP4(m, p4) && IsPath(path, 4)
    ensures var (e4, e3, e2, e1) := Way(m, p4, path);
            UserOk(m.tables, p4, 4, path) <==>
            e4.p && e4.u && e3.p && e3.u && e2.p && e2.u && (e2.ps || (e1.p && e1.u))
  {
    CheckFacts(m, p4, path);
    assert IsTable(p4, m.tables, m.nodes) && EntryOk(p4, path[0], m.tables, m.nodes);
    var (e4, e3, e2, e1) := Way(m, p4, path);
    if e4.p { assert EntryOk(e4.frame, path[1], m.tables, m.nodes); }
    hide UserOk, TreeOk;
  }

  lemma WrappedEnd(ptr: nat, len: nat)
    requires ptr < WORD_LIMIT && len < WORD_LIMIT
    ensures (ptr + len) % WORD_LIMIT == if ptr + len < WORD_LIMIT then ptr + len else ptr + len - WORD_LIMIT
  {
  }

  lemma PageOfPtr(ptr: nat)
    ensures 0 <= ptr - ptr % PAGE_SIZE <= ptr < ptr - ptr % PAGE_SIZE + PAGE_SIZE
    ensures (ptr - ptr % PAGE_SIZE) % PAGE_SIZE == 0
  {
  }

  lemma PageEnds(pg: nat)
    requires pg % PAGE_SIZE == 0 && pg < WORD_LIMIT
    ensures pg + PAGE_SIZE <= WORD_LIMIT && (pg + PAGE_SIZE) % PAGE_SIZE == 0
  {
  }

  /** The buffer ends inside the last page of the address space. */
  predicate EndsLate(ptr: nat, len: nat) {
    (ptr + len) % WORD_LIMIT > WORD_LIMIT - PAGE_SIZE
  }

  ghost predicate AllUsable(tables: Tables, p4: nat, from: nat, to: nat) {
    forall a | from <= a < to :: UserOk(tables, p4, 4, PathOf(a))
  }

  /** Addresses on one page have the same indices. */
  lemma SamePath(pg: nat)
    requires pg % PAGE_SIZE == 0
    ensures forall a | pg <= a < pg + PAGE_SIZE :: PathOf(a) == PathOf(pg)
  {
    forall a | pg <= a < pg + PAGE_SIZE
      ensures PathOf(a) == PathOf(pg)
    {
      assert a / 0x1000 == pg / 0x1000;
      Divisions(a);
      Divisions(pg);
    }
  }

  lemma Divisions(v: nat)
    ensures v / 0x20_0000 == v / 0x1000 / 512
    ensures v / 0x4000_0000 == v / 0x1000 / 512 / 512
    ensures v / 0x80_0000_0000 == v / 0x1000 / 512 / 512 / 512
  {
  }

  /** One step of a walk: the answer is known, or it goes on in the next table. */
  datatype Walked = Answer(address: Option<nat>) | Next(table: nat)

  function WalkEntry(e: Pte, v: nat): Walked {
    if !e.p then Answer(None)
    else if e.ps then Answer(Some((e.frame - e.frame % ENTRIES) * PAGE_SIZE + v % 0x20_0000))
    else Next(e.frame)
  }

  /** An offset into a huge page is an offset into one of its pieces. */
  lemma OffsetParts(v: nat)
    ensures |PathOf(v)| == 4 && v % 0x20_0000 == PathOf(v)[3] * PAGE_SIZE + v % PAGE_SIZE
  {
    var a := v / 0x1000;
    assert v / 0x20_0000 == a / 512;
    assert a == a / 512 * 512 + a % 512;
  }

  /** What each entry on the way tells about the translation. */
  lemma WalkFacts(m: Mem, p4: nat, path: seq<nat>)
    requires VmOk(m.tables, m.nodes, m.free) && IsP4(m, p4) && IsPath(path, 4)
    ensures |m.tables[p4]| == ENTRIES
    ensures var r, e4 := Translate(m.tables, p4, 4, path), m.tables[p4][path[0]];
            if !e4.p then r == None else
            !e4.ps && e4.frame in m.tables && |m.tables[e4.frame]| == ENTRIES && (
              var e3 := m.tables[e4.frame][path[1]];
              if !e3.p then r == None else
              !e3.ps && e3.frame in m.tables && |m.tables[e3.frame]| == ENTRIES && (
                var e2 := m.tables[e3.frame][path[2]];
                if !e2.p then r == None else
                if e2.ps then r == Some(e2.frame - e2.frame % ENTRIES + path[3]) else
                e2.frame in m.tables && |m.tables[e2.frame]| == ENTRIES && (
                  var e1 := m.tables[e2.frame][path[3]];
                  r == if e1.p then Some(e1.frame) else None)))
  {
    assert IsTable(p4, m.tables, m.nodes) && EntryOk(p4, path[0], m.tables, m.nodes);
    var e4 := m.tables[p4][path[0]];
    if e4.p {
      assert EntryOk(e4.frame, path[1], m.tables, m.nodes);
      assert path[1..][0] == path[1];
      var e3 := m.tables[e4.frame][path[1]];
      if e3.p {
        assert EntryOk(e3.frame, path[2], m.tables, m.nodes);
        assert path[1..][1..][0] == path[2] && path[1..][1..][1] == path[3];
      }
    }
  }

  /** The same in terms of addresses. */
  lemma OnlyPageAddresses(tables: Tables, nodes: Nodes, tables': Tables, p4: nat, v: nat, f: Option<nat>, x: nat,
      u: nat)
    requires OnlyPage(tables, nodes, tables', p4, PathOf(v), f) && x in nodes && nodes[x].level == 4
    ensures Phys(tables', x, u) ==
            if PathOf(u)[1..] == PathOf(v)[1..] && Sees(tables, x, PathOf(u)[0], p4, PathOf(v)[0])
            then (if f.Some? then Some(f.value * PAGE_SIZE + u % PAGE_SIZE) else None)
            else Phys(tables, x, u)
  {
    hide PathOf, Translate, Sees;
  }

  /** Slots other than slot `i` of `p4` through which the root `x` shows the same table. */
  ghost predicate SeenElsewhere(tables: Tables, nodes: Nodes, x: nat, p4: nat, i: nat) {
    exists j: nat :: j < ENTRIES && (x != p4 || j != i) && Aliased(tables, nodes, x, j, p4, i)
  }

  ghost predicate Aliased(tables: Tables, nodes: Nodes, x: nat, j: nat, p4: nat, i: nat) {
    x in tables && x in nodes && nodes[x].level == 4 && p4 in tables && SameSlot(tables, x, j, p4, i)
  }

  /** Pages of a root, except the one that was to be changed, translate as before. */
  ghost predicate OthersSame(tables: Tables, nodes: Nodes, tables': Tables, x: nat, p4: nat, path: seq<nat>) {
    forall q | IsPath(q, 4) && (x != p4 || q != path) :: Translate(tables', x, 4, q) == Translate(tables, x, 4, q)
  }

  /**
   A page that gets a new translation is the only one of a root to change exactly when no other slot of that
   root leads to the same table.
   */
  lemma OnePageExactly(tables: Tables, nodes: Nodes, tables': Tables, p4: nat, path: seq<nat>, f: Option<nat>, x: nat)
    requires TreeOk(tables, nodes) && p4 in tables && x in tables && nodes[p4].level == 4 == nodes[x].level
    requires IsPath(path, 4)
    requires OnlyPage(tables, nodes, tables', p4, path, f) && f != Translate(tables, p4, 4, path)
    ensures OthersSame(tables, nodes, tables', x, p4, path) <==> !SeenElsewhere(tables, nodes, x, p4, path[0])
  {
    hide Translate;
    if j: nat :| j < ENTRIES && (x != p4 || j != path[0]) && Aliased(tables, nodes, x, j, p4, path[0]) {
      var q := path[0 := j];
      assert q[1..] == path[1..] && Sees(tables, x, j, p4, path[0]);
      AtTop(tables, nodes, p4, path);
      AtTop(tables, nodes, x, q);
      assert Translate(tables', x, 4, q) != Translate(tables, x, 4, q);
    } else {
      forall q | IsPath(q, 4) && (x != p4 || q != path)
        ensures Translate(tables', x, 4, q) == Translate(tables, x, 4, q)
      {
        var seen := Aliased(tables, nodes, x, q[0], p4, path[0]);
        assert q == [q[0]] + q[1..] && path == [path[0]] + path[1..];
      }
    }
  }

  /** A private slot is seen nowhere else. */
  lemma PrivateIsAlone(tables: Tables, nodes: Nodes, p4: nat, i: nat, x: nat)
    requires TreeOk(tables, nodes) && p4 in tables && x in tables && nodes[p4].level == 4 == nodes[x].level
    requires i < ENTRIES && Private(tables, nodes, p4, i)
    ensures !SeenElsewhere(tables, nodes, x, p4, i)
  {
    if j: nat :| j < ENTRIES && (x != p4 || j != i) && Aliased(tables, nodes, x, j, p4, i) {
      OneTop(tables, nodes, p4, i, x, j);
    }
  }

  /** The entry where the walk ends was stored, and those on the way are as they were. */
  lemma WayStored(m0: Mem, m: Mem, m': Mem, p4: nat, path: seq<nat>, e: Pte, pt: nat, u: bool)
    requires IsP4(m0, p4) && Grown(p4, m0.tables, m0.nodes, m0.free, m.tables, m.nodes, m.free)
    requires VmOk(m.tables, m.nodes, m.free) && IsPath(path, 4) && WayLed(m, p4, path, true, u)
    requires Way(m, p4, path).2.frame == pt && pt in m.tables && path[3] < |m.tables[pt]|
    requires m' == m.(tables := Store(m.tables, pt, path[3], e))
    ensures IsP4(m', p4) && VmOk(m'.tables, m'.nodes, m'.free) && WayLed(m', p4, path, true, u)
    ensures Way(m', p4, path) == (Way(m, p4, path).0, Way(m, p4, path).1, Way(m, p4, path).2, e)
  {
    var (e4, e3, e2, e1) := Way(m, p4, path);
    WayIsChain(m, p4, path);
    ChainFacts(m, p4, e4.frame, e3.frame, e2.frame, path);
    LeafTree(m.tables, m.nodes, pt, path[3], e);
    hide TreeOk;
    assert Way(m', p4, path) == (e4, e3, e2, e);
  }

  /** A small page is mapped with these flags, whatever its frame, and the way to it has the bits that it needs. */
  ghost predicate MappedWith(m: Mem, p4: nat, path: seq<nat>, f: Flags)
    requires IsPath(path, 4)
  {
    var (e4, e3, e2, e1) := Way(m, p4, path);
    && e4.p && e4.w && e3.p && e3.w && e2.p && e2.w && !e2.ps && (f.u ==> e4.u && e3.u && e2.u)
    && e1.p && e1.w == f.w && e1.u == f.u && e1.ps == f.ps && e1.cow == f.cow && e1.rest == f.rest
  }

  /** It stays so when another page is mapped, or the same one with the same flags. */
  lemma StaysMapped(m: Mem, m': Mem, p4: nat, path: seq<nat>, x: nat, q: seq<nat>, f: Flags)
    requires IsPath(path, 4) && IsPath(q, 4) && IsP4(m, x) && MappedWith(m, x, q, f)
    requires WaysKept(m, m', p4, path) && MappedWith(m', p4, path, f)
    ensures MappedWith(m', x, q, f)
  {
    hide Way, Sees;
    assert SmallWay(m, x, q);
  }

  /** The walk comes to a last-level table. */
  ghost predicate SmallWay(m: Mem, p4: nat, path: seq<nat>)
    requires IsPath(path, 4)
  {
    var (e4, e3, e2, e1) := Way(m, p4, path);
    e4.p && e3.p && e2.p && !e2.ps
  }

  /** The walk takes the same way, whose entries have lost neither write nor user bit, to the entry `e`. */
  ghost predicate WayKept(m: Mem, m': Mem, x: nat, q: seq<nat>, e: Pte)
    requires IsPath(q, 4)
  {
    var (e4, e3, e2, e1) := Way(m, x, q);
    var (d4, d3, d2, d1) := Way(m', x, q);
    && d4.p && d3.p && d2.p && !d2.ps && d4.frame == e4.frame && d3.frame == e3.frame && d2.frame == e2.frame
    && (e4.w ==> d4.w) && (e4.u ==> d4.u) && (e3.w ==> d3.w) && (e3.u ==> d3.u) && (e2.w ==> d2.w) && (e2.u ==> d2.u)
    && d1 == e
  }

  /** Whatever is mapped by small pages is left alone, flags and all, but the page that is mapped now. */
  ghost predicate WaysKept(m: Mem, m': Mem, p4: nat, path: seq<nat>)
    requires IsPath(path, 4)
  {
    forall x, q | IsP4(m, x) && IsPath(q, 4) && SmallWay(m, x, q) ::
      WayKept(m, m', x, q, if q[1..] == path[1..] && Sees(m.tables, x, q[0], p4, path[0]) then Way(m', p4, path).3
                           else Way(m, x, q).3)
  }

  lemma WaysStay(m: Mem, m': Mem, p4: nat, path: seq<nat>, e: Pte, mid: Mem, pt: nat)
    requires VmOk(m.tables, m.nodes, m.free) && EntryStored(m, m', p4, path, e, mid, pt) && Way(m', p4, path).3 == e
    ensures WaysKept(m, m', p4, path)
  {
    assert IsPath(path, 4);
    hide VmOk, EntryStored, Way;
    forall x, q | IsP4(m, x) && IsPath(q, 4) && SmallWay(m, x, q)
      ensures WayKept(m, m', x, q, if q[1..] == path[1..] && Sees(m.tables, x, q[0], p4, path[0]) then e
                                   else Way(m, x, q).3)
    {
      WayStays(m, m', p4, path, e, mid, pt, x, q);
    }
  }

  lemma WayStays(m: Mem, m': Mem, p4: nat, path: seq<nat>, e: Pte, mid: Mem, pt: nat, x: nat, q: seq<nat>)
    requires VmOk(m.tables, m.nodes, m.free) && EntryStored(m, m', p4, path, e, mid, pt)
    requires IsP4(m, x) && IsPath(q, 4) && SmallWay(m, x, q)
    ensures WayKept(m, m', x, q, if q[1..] == path[1..] && Sees(m.tables, x, q[0], p4, path[0]) then e
                                 else Way(m, x, q).3)
  {
    FromOk(m);
    FromOk(mid);
    var (e4, e3, e2, e1) := Way(m, x, q);
    SmallIsChain(m, x, q);
    ChainFacts(m, x, e4.frame, e3.frame, e2.frame, q);
    ChainSizes(m, x, e4.frame, e3.frame, e2.frame, q);
    GrownWay(m, mid, p4, x, q);
    SmallIsChain(mid, x, q);
    ChainFacts(mid, x, e4.frame, e3.frame, e2.frame, q);
    ChainSizes(mid, x, e4.frame, e3.frame, e2.frame, q);
    GrownSees(p4, m.tables, m.nodes, m.free, mid.tables, mid.nodes, mid.free, x, q[0], path[0]);
    Hit(mid.tables, mid.nodes, p4, path, x, q);
    PtIsTable(mid.tables, mid.nodes, p4, 4, path);
    hide TreeOk, Grown, PtOf, Sees, Agree, Untouched;
    var (c4, c3, c2, c1) := Way(mid, x, q);
    assert Way(m', x, q) == (c4, c3, c2, if c2.frame == pt && q[3] == path[3] then e else c1);
  }

  lemma SmallIsChain(m: Mem, p4: nat, path: seq<nat>)
    requires TreeOk(m.tables, m.nodes) && IsP4(m, p4) && IsPath(path, 4) && SmallWay(m, p4, path)
    ensures var (e4, e3, e2, e1) := Way(m, p4, path); Chain(m, p4, e4.frame, e3.frame, e2.frame, path)
  {
    assert Reaches(m, p4, path);
    WayIsChain(m, p4, path);
  }

  lemma GrownWay(m: Mem, mid: Mem, p4: nat, x: nat, q: seq<nat>)
    requires TreeOk(m.tables, m.nodes) && Grown(p4, m.tables, m.nodes, m.free, mid.tables, mid.nodes, mid.free)
    requires IsP4(m, x) && IsPath(q, 4) && SmallWay(m, x, q)
    requires var (e4, e3, e2, e1) := Way(m, x, q); Chain(m, x, e4.frame, e3.frame, e2.frame, q)
    ensures IsP4(mid, x) && SmallWay(mid, x, q) && WayKept(m, mid, x, q, Way(m, x, q).3)
  {
    var (e4, e3, e2, e1) := Way(m, x, q);
    ChainFacts(m, x, e4.frame, e3.frame, e2.frame, q);
    ChainSizes(m, x, e4.frame, e3.frame, e2.frame, q);
    hide TreeOk, PtOf, Agree, SlotsKept, NoHugeOwn;
    assert LinkKept(e4, mid.tables[x][q[0]]) && LinkKept(e3, mid.tables[e4.frame][q[1]])
           && LinkKept(e2, mid.tables[e3.frame][q[2]]);
  }

  lemma TopOnTheWay(m: Mem, p4: nat)
    requires VmOk(m.tables, m.nodes, m.free) && IsP4(m, p4)
    ensures forall i | 0 <= i < ENTRIES :: OnTheWay(m, p4, p4, i)
  {
    FromTree(m.tables, m.nodes);
  }

  lemma GrownAgrees(p4: nat, m: Mem, m': Mem)
    requires Grown(p4, m.tables, m.nodes, m.free, m'.tables, m'.nodes, m'.free)
    ensures Agree(m.tables, m.nodes, m'.tables)
  {
  }

  lemma GrownNot(p4: nat, tables: Tables, nodes: Nodes, free: set<nat>)
    requires TreeOk(tables, nodes)
    ensures Grown(p4, tables, nodes, free, tables, nodes, free)
  {
    FromTree(tables, nodes);
  }
}
