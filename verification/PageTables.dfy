/**
 Four-level page tables as values: a map from table frames to their 512 entries, the walk that
 translates an address, and the single steps that the mapping code is made of.

 Every table carries a node: its level and the entry that points to it. Below the third level each
 table has one parent. A third-level table may hang below any number of top-level slots, of one root
 or of several, unless its node says that it belongs to one slot of the upper half alone.
 */
module PageTables {
  import opened Options

  const ENTRIES: nat := 512
  /** The first of the top-level entries that a fork clones. */
  const UPPER: nat := 256
  /** Frame numbers have 40 bits. */
  const FRAME_LIMIT: nat := 0x100_0000_0000

  /** The flag bits an entry is made with; `rest` stands for all the other ones. */
  datatype Flags = Flags(w: bool, u: bool, ps: bool, cow: bool, rest: nat)

  type FrameNumber = f: nat | f < FRAME_LIMIT witness 0

  /** A page table entry: present, writable, user, page size, copy-on-write, the other bits, the frame. */
  datatype Pte = Pte(p: bool, w: bool, u: bool, ps: bool, cow: bool, rest: nat, frame: FrameNumber)

  const ZERO := Pte(false, false, false, false, false, 0, 0)

  /** `pte_make` */
  function Make(frame: nat, f: Flags): Pte {
    Pte(true, f.w, f.u, f.ps, f.cow, f.rest, frame % FRAME_LIMIT)
  }

  type Tables = map<nat, seq<Pte>>

  /**
   The level of a table, an entry that points to it, and whether it hangs below a slot of one root alone; for a
   root, whether new slots of its upper half will be its own, as they are for a process but not for the kernel.
   */
  datatype Node = Node(level: nat, parent: nat, idx: nat, own: bool)

  function ChildOf(t: nat, i: nat, n: Node): Node
    requires n.level >= 2
  {
    Node(n.level - 1, t, i, n.own && (n.level == 4 ==> i >= UPPER))
  }

  type Nodes = map<nat, Node>

  /** The indices that a walk from a table of level `level` follows. */
  ghost predicate IsPath(path: seq<nat>, level: nat) {
    |path| == level && forall k | 0 <= k < level :: path[k] < ENTRIES
  }

  ghost predicate IsTable(t: nat, tables: Tables, nodes: Nodes) {
    t in tables && t in nodes && |tables[t]| == ENTRIES && 1 <= nodes[t].level <= 4
  }

  /** A top-level slot may lead to any third-level table but to one that belongs to another slot. */
  predicate FromTop(t: nat, i: nat, n: Node, c: Node) {
    c.level == 3 && (c.own ==> n.own && i >= UPPER && c.parent == t && c.idx == i)
  }

  /**
   A present entry above the last level points to a table of the next level; below the top that table names it
   as parent.
   */
  ghost predicate EntryOk(t: nat, i: nat, tables: Tables, nodes: Nodes)
    requires IsTable(t, tables, nodes) && i < ENTRIES
  {
    var e, l := tables[t][i], nodes[t].level;
    l >= 2 && e.p ==>
      && (e.ps ==> l == 2)
      && (!e.ps ==>
            && IsTable(e.frame, tables, nodes)
            && (if l <= 3 then nodes[e.frame] == ChildOf(t, i, nodes[t]) else FromTop(t, i, nodes[t], nodes[e.frame])))
  }

  ghost predicate TreeOk(tables: Tables, nodes: Nodes) {
    && tables.Keys == nodes.Keys
    && (forall t <- tables :: IsTable(t, tables, nodes))
    && forall t, i | t in tables && 0 <= i < ENTRIES :: EntryOk(t, i, tables, nodes)
  }

  // ----- walks -----

  /** The frame that a walk from table `t` of the given level ends in. */
  function Translate(tables: Tables, t: nat, level: nat, path: seq<nat>): Option<nat>
    decreases level
  {
    if t !in tables || level == 0 || |path| != level || path[0] >= |tables[t]| then None
    else
      var e := tables[t][path[0]];
      if !e.p then None
      else if level == 1 then Some(e.frame)
      else if e.ps then Some(e.frame - e.frame % ENTRIES + path[level - 1])
      else Translate(tables, e.frame, level - 1, path[1..])
  }

  /** The same for what user code gets to: the small pages whose entry has the user bit. */
  function UserAt(tables: Tables, t: nat, level: nat, path: seq<nat>): Option<nat>
    decreases level
  {
    if t !in tables || level == 0 || |path| != level || path[0] >= |tables[t]| then None
    else
      var e := tables[t][path[0]];
      if !e.p then None
      else if level == 1 then if e.u then Some(e.frame) else None
      else if e.ps then None
      else UserAt(tables, e.frame, level - 1, path[1..])
  }

  /** Whether user code may write such a page, at once or after a write fault. */
  predicate OpenAt(tables: Tables, t: nat, level: nat, path: seq<nat>)
    decreases level
  {
    && t in tables && level > 0 && |path| == level && path[0] < |tables[t]|
    && var e := tables[t][path[0]];
       e.p && if level == 1 then e.u && (e.w || e.cow) else !e.ps && OpenAt(tables, e.frame, level - 1, path[1..])
  }

  /** User code may use the page: every entry on the way has the user bit, up to the page's own or a huge one. */
  predicate UserOk(tables: Tables, t: nat, level: nat, path: seq<nat>)
    decreases level
  {
    && t in tables && level > 0 && |path| == level && path[0] < |tables[t]|
    && var e := tables[t][path[0]];
       e.p && e.u && (level == 1 || e.ps || UserOk(tables, e.frame, level - 1, path[1..]))
  }

  /** The last-level table on the way, if the walk gets to one. */
  function PtOf(tables: Tables, t: nat, level: nat, path: seq<nat>): Option<nat>
    decreases level
  {
    if t !in tables || level == 0 || |path| != level || path[0] >= |tables[t]| then None
    else if level == 1 then Some(t)
    else
      var e := tables[t][path[0]];
      if !e.p || e.ps then None else PtOf(tables, e.frame, level - 1, path[1..])
  }

  lemma {:induction false} PtIsTable(tables: Tables, nodes: Nodes, t: nat, level: nat, path: seq<nat>)
    requires TreeOk(tables, nodes) && t in tables && nodes[t].level == level && IsPath(path, level)
    ensures var pt := PtOf(tables, t, level, path); pt.Some? ==>
            IsTable(pt.value, tables, nodes) && nodes[pt.value].level == 1
    decreases level
  {
    assert IsTable(t, tables, nodes);
    if level > 1 {
      assert EntryOk(t, path[0], tables, nodes);
      var e := tables[t][path[0]];
      if e.p && !e.ps { PtIsTable(tables, nodes, e.frame, level - 1, path[1..]); }
    }
  }

  /** Below the top level a last-level table is reached from one table only, along one path. */
  lemma {:induction false} OnePath(tables: Tables, nodes: Nodes, t: nat, path: seq<nat>, t': nat, path': seq<nat>,
      level: nat)
    requires TreeOk(tables, nodes) && t in tables && t' in tables && level <= 3
    requires nodes[t].level == level == nodes[t'].level && IsPath(path, level) && IsPath(path', level)
    requires PtOf(tables, t, level, path).Some? && PtOf(tables, t', level, path') == PtOf(tables, t, level, path)
    requires path[level - 1] == path'[level - 1]
    ensures path == path' && t == t'
    decreases level
  {
    assert IsTable(t, tables, nodes) && IsTable(t', tables, nodes);
    if level > 1 {
      var c, c' := tables[t][path[0]].frame, tables[t'][path'[0]].frame;
      assert EntryOk(t, path[0], tables, nodes) && EntryOk(t', path'[0], tables, nodes);
      OnePath(tables, nodes, c, path[1..], c', path'[1..], level - 1);
      assert path == [path[0]] + path[1..] && path' == [path'[0]] + path'[1..];
    }
  }

  /** Both slots lead to the same table. */
  ghost predicate SameSlot(tables: Tables, x: nat, j: nat, t: nat, i: nat)
    requires x in tables && t in tables
  {
    j < |tables[x]| && i < |tables[t]| && tables[x][j].p && tables[t][i].p && tables[x][j].frame == tables[t][i].frame
  }

  /** Slot `j` of the top-level table `x` shows what hangs below slot `i` of `p4`. */
  ghost predicate Sees(tables: Tables, x: nat, j: nat, p4: nat, i: nat) {
    (x == p4 && j == i) || (x in tables && p4 in tables && SameSlot(tables, x, j, p4, i))
  }

  /** A slot in the upper half of a process that is empty, or whose table no other slot leads to. */
  ghost predicate Private(tables: Tables, nodes: Nodes, t: nat, i: nat) {
    i >= UPPER && t in nodes && nodes[t].own && (t in tables && i < |tables[t]| && tables[t][i].p ==>
        tables[t][i].frame in nodes && nodes[tables[t][i].frame].own)
  }

  /**
   Two walks end in the same entry exactly when they differ in the slot at most, and the slots lead to the same
   table.
   */
  lemma Hit(tables: Tables, nodes: Nodes, p4: nat, path: seq<nat>, x: nat, q: seq<nat>)
    requires TreeOk(tables, nodes) && p4 in tables && x in tables && nodes[p4].level == 4 == nodes[x].level
    requires IsPath(path, 4) && IsPath(q, 4) && PtOf(tables, p4, 4, path).Some?
    ensures PtOf(tables, x, 4, q) == PtOf(tables, p4, 4, path) && q[3] == path[3] <==>
            q[1..] == path[1..] && Sees(tables, x, q[0], p4, path[0])
  {
    hide IsTable, EntryOk, TreeOk;
    AtTop(tables, nodes, p4, path);
    AtTop(tables, nodes, x, q);
    assert path[1..][2] == path[3] && q[1..][2] == q[3];
    if PtOf(tables, x, 4, q) == PtOf(tables, p4, 4, path) && q[3] == path[3] {
      OnePath(tables, nodes, tables[p4][path[0]].frame, path[1..], tables[x][q[0]].frame, q[1..], 3);
    }
  }

  /** The first step of a walk. */
  lemma AtTop(tables: Tables, nodes: Nodes, t: nat, path: seq<nat>)
    requires TreeOk(tables, nodes) && t in tables && nodes[t].level == 4 && IsPath(path, 4)
    ensures |tables[t]| == ENTRIES && !(tables[t][path[0]].p && tables[t][path[0]].ps)
    ensures var e := tables[t][path[0]];
            && IsPath(path[1..], 3)
            && (e.p ==> e.frame in tables && nodes[e.frame].level == 3)
            && PtOf(tables, t, 4, path) == (if e.p then PtOf(tables, e.frame, 3, path[1..]) else None)
            && UserAt(tables, t, 4, path) == (if e.p then UserAt(tables, e.frame, 3, path[1..]) else None)
            && OpenAt(tables, t, 4, path) == (e.p && OpenAt(tables, e.frame, 3, path[1..]))
            && Translate(tables, t, 4, path) == (if e.p then Translate(tables, e.frame, 3, path[1..]) else None)
  {
    assert IsTable(t, tables, nodes) && EntryOk(t, path[0], tables, nodes);
  }

  /** A private slot is seen by itself only. */
  lemma OneTop(tables: Tables, nodes: Nodes, t: nat, i: nat, x: nat, j: nat)
    requires TreeOk(tables, nodes) && t in tables && x in tables && nodes[t].level == 4 == nodes[x].level
    requires i < ENTRIES && j < ENTRIES && Private(tables, nodes, t, i) && Sees(tables, x, j, t, i)
    ensures x == t && j == i
  {
    assert IsTable(t, tables, nodes) && EntryOk(t, i, tables, nodes);
    assert IsTable(x, tables, nodes) && EntryOk(x, j, tables, nodes);
  }

  /** Nothing that existed before translates differently. */
  ghost predicate Agree(tables: Tables, nodes: Nodes, tables': Tables) {
    forall t, path | t in nodes && t in tables' && IsPath(path, nodes[t].level) ::
      SameWalk(tables, tables', t, nodes[t].level, path)
  }

  ghost predicate SameWalk(tables: Tables, tables': Tables, t: nat, level: nat, path: seq<nat>) {
    && Translate(tables', t, level, path) == Translate(tables, t, level, path)
    && UserAt(tables', t, level, path) == UserAt(tables, t, level, path)
    && OpenAt(tables', t, level, path) == OpenAt(tables, t, level, path)
  }

  // ----- steps -----

  function Store(tables: Tables, t: nat, i: nat, e: Pte): Tables
    requires t in tables && i < |tables[t]|
  {
    tables[t := tables[t][i := e]]
  }

  /** Storing a last-level entry changes what its own page translates to and nothing else. */
  lemma {:induction false} LeafStep(tables: Tables, nodes: Nodes, t: nat, i: nat, e: Pte, x: nat, level: nat,
      path: seq<nat>)
    requires TreeOk(tables, nodes) && t in tables && nodes[t].level == 1 && i < ENTRIES
    requires x in tables && nodes[x].level == level && IsPath(path, level)
    ensures IsTable(t, tables, nodes)
    ensures var tables' := Store(tables, t, i, e);
            && PtOf(tables', x, level, path) == PtOf(tables, x, level, path)
            && Translate(tables', x, level, path) ==
               (if PtOf(tables, x, level, path) == Some(t) && path[level - 1] == i
                then if e.p then Some(e.frame) else None
                else Translate(tables, x, level, path))
            && UserAt(tables', x, level, path) ==
               (if PtOf(tables, x, level, path) == Some(t) && path[level - 1] == i
                then if e.p && e.u then Some(e.frame) else None
                else UserAt(tables, x, level, path))
            && OpenAt(tables', x, level, path) ==
               (if PtOf(tables, x, level, path) == Some(t) && path[level - 1] == i
                then e.p && e.u && (e.w || e.cow)
                else OpenAt(tables, x, level, path))
    decreases level
  {
    assert IsTable(t, tables, nodes) && IsTable(x, tables, nodes);
    var tables' := Store(tables, t, i, e);
    if level > 1 {
      assert EntryOk(x, path[0], tables, nodes);
      var d := tables[x][path[0]];
      if d.p && !d.ps {
        LeafStep(tables, nodes, t, i, e, d.frame, level - 1, path[1..]);
        assert path[1..][level - 2] == path[level - 1];
      }
    }
  }

  lemma LeafTree(tables: Tables, nodes: Nodes, t: nat, i: nat, e: Pte)
    requires TreeOk(tables, nodes) && t in tables && nodes[t].level == 1 && i < ENTRIES
    ensures IsTable(t, tables, nodes) && TreeOk(Store(tables, t, i, e), nodes)
  {
    assert IsTable(t, tables, nodes);
    var tables' := Store(tables, t, i, e);
    assert forall x <- tables :: IsTable(x, tables, nodes) ==> IsTable(x, tables', nodes);
    forall x, j | x in tables' && 0 <= j < ENTRIES
      ensures EntryOk(x, j, tables', nodes)
    {
      assert EntryOk(x, j, tables, nodes);
    }
  }

  /** Changing only the flag bits of an upper-level entry changes no translation. */
  lemma {:induction false} ReflagStep(tables: Tables, nodes: Nodes, t: nat, i: nat, e: Pte, x: nat, level: nat,
      path: seq<nat>)
    requires TreeOk(tables, nodes) && t in tables && nodes[t].level >= 2 && i < ENTRIES && IsTable(t, tables, nodes)
    requires e.p == tables[t][i].p && e.ps == tables[t][i].ps && e.frame == tables[t][i].frame
    requires x in tables && nodes[x].level == level && IsPath(path, level)
    ensures var tables' := Store(tables, t, i, e);
            && PtOf(tables', x, level, path) == PtOf(tables, x, level, path)
            && SameWalk(tables, tables', x, level, path)
    decreases level
  {
    assert IsTable(x, tables, nodes);
    if level > 1 {
      assert EntryOk(x, path[0], tables, nodes);
      var d := tables[x][path[0]];
      if d.p && !d.ps { ReflagStep(tables, nodes, t, i, e, d.frame, level - 1, path[1..]); }
    }
  }

  lemma ReflagTree(tables: Tables, nodes: Nodes, t: nat, i: nat, e: Pte)
    requires TreeOk(tables, nodes) && t in tables && nodes[t].level >= 2 && i < ENTRIES && IsTable(t, tables, nodes)
    requires e.p == tables[t][i].p && e.ps == tables[t][i].ps && e.frame == tables[t][i].frame
    ensures TreeOk(Store(tables, t, i, e), nodes)
  {
    var tables' := Store(tables, t, i, e);
    assert forall x <- tables :: IsTable(x, tables, nodes) ==> IsTable(x, tables', nodes);
    forall x, j | x in tables' && 0 <= j < ENTRIES
      ensures EntryOk(x, j, tables', nodes)
    {
      assert EntryOk(x, j, tables, nodes);
    }
  }

  /** A zeroed page read as a table. */
  function EmptyTable(): seq<Pte> {
    seq(ENTRIES, _ => ZERO)
  }

  /** The frame an entry of level `level` leads to by itself, followed by index `j` one level down. */
  function Through(e: Pte, j: nat): Option<nat> {
    if e.p && e.ps then Some(e.frame - e.frame % ENTRIES + j) else None
  }

  /** The table `c` stands in for an entry that was absent, or that mapped a huge page. */
  ghost predicate StandsFor(c: seq<Pte>, e: Pte, level: nat) {
    && |c| == ENTRIES
    && (!e.p || (level == 2 && e.ps))
    && forall j | 0 <= j < ENTRIES ::
       && c[j].p == Through(e, j).Some?
       && (c[j].p ==> Through(e, j) == Some(c[j].frame) && !c[j].u)
  }

  ghost function Grow(tables: Tables, t: nat, i: nat, e: Pte, entries: seq<Pte>): Tables
    requires t in tables && i < |tables[t]|
  {
    Store(tables, t, i, e)[e.frame := entries]
  }

  /** Linking in a fresh table that stands for the old entry changes no translation. */
  lemma {:induction false} GrowStep(tables: Tables, nodes: Nodes, t: nat, i: nat, e: Pte, entries: seq<Pte>, x: nat,
      level: nat, path: seq<nat>)
    requires TreeOk(tables, nodes) && t in tables && IsTable(t, tables, nodes) && nodes[t].level >= 2 && i < ENTRIES
    requires e.p && !e.ps && e.frame !in tables && StandsFor(entries, tables[t][i], nodes[t].level)
    requires x in tables && nodes[x].level == level && IsPath(path, level)
    ensures var tables' := Grow(tables, t, i, e, entries);
            && SameWalk(tables, tables', x, level, path)
            && (PtOf(tables, x, level, path).Some? ==> PtOf(tables', x, level, path) == PtOf(tables, x, level, path))
    decreases level
  {
    assert IsTable(x, tables, nodes);
    if level > 1 {
      assert EntryOk(x, path[0], tables, nodes);
      var d := tables[x][path[0]];
      if x == t && path[0] == i {
        var tables' := Grow(tables, t, i, e, entries);
        assert tables'[e.frame] == entries && path[1..][0] == path[1];
        assert Translate(tables', x, level, path) == Translate(tables', e.frame, level - 1, path[1..]);
        assert UserAt(tables', x, level, path) == UserAt(tables', e.frame, level - 1, path[1..]) == None;
        assert OpenAt(tables', x, level, path) == OpenAt(tables', e.frame, level - 1, path[1..]) == false;
      } else if d.p && !d.ps {
        GrowStep(tables, nodes, t, i, e, entries, d.frame, level - 1, path[1..]);
        assert path[1..][level - 2] == path[level - 1];
      }
    }
  }

  lemma GrowTree(tables: Tables, nodes: Nodes, t: nat, i: nat, e: Pte, entries: seq<Pte>)
    requires TreeOk(tables, nodes) && t in tables && IsTable(t, tables, nodes) && nodes[t].level >= 2 && i < ENTRIES
    requires e.p && !e.ps && e.frame !in tables && StandsFor(entries, tables[t][i], nodes[t].level)
    ensures TreeOk(Grow(tables, t, i, e, entries), nodes[e.frame := ChildOf(t, i, nodes[t])])
    ensures Agree(tables, nodes, Grow(tables, t, i, e, entries))
  {
    var tables', nodes' := Grow(tables, t, i, e, entries), nodes[e.frame := ChildOf(t, i, nodes[t])];
    forall x | x in tables
      ensures IsTable(x, tables, nodes) && IsTable(x, tables', nodes') && nodes'[x] == nodes[x]
    {
    }
    forall x, j | x in tables' && 0 <= j < ENTRIES
      ensures EntryOk(x, j, tables', nodes')
    {
      if x in tables { assert EntryOk(x, j, tables, nodes); }
    }
    forall x, path | x in nodes && x in tables' && IsPath(path, nodes[x].level)
      ensures SameWalk(tables, tables', x, nodes[x].level, path)
    {
      GrowStep(tables, nodes, t, i, e, entries, x, nodes[x].level, path);
    }
  }

  ghost function Prune(tables: Tables, t: nat, i: nat): Tables
    requires t in tables && i < |tables[t]|
  {
    Store(tables, t, i, ZERO) - {tables[t][i].frame}
  }

  /** The entry points to a table with nothing in it, which no other table points to. */
  ghost predicate Prunable(tables: Tables, nodes: Nodes, t: nat, i: nat)
    requires TreeOk(tables, nodes) && t in tables && IsTable(t, tables, nodes) && nodes[t].level >= 2 && i < ENTRIES
  {
    var e := tables[t][i];
    && e.p && !e.ps && EntryOk(t, i, tables, nodes)
    && (forall j | 0 <= j < ENTRIES :: !tables[e.frame][j].p)
    && (nodes[t].level == 4 ==>
          forall x, j | x in tables && nodes[x].level == 4 && 0 <= j < ENTRIES && (x != t || j != i) ::
              !SameSlot(tables, x, j, t, i))
  }

  /** Nobody but entry `i` of `t` points to its child. */
  lemma OnlyParent(tables: Tables, nodes: Nodes, t: nat, i: nat, x: nat, j: nat)
    requires TreeOk(tables, nodes) && t in tables && IsTable(t, tables, nodes) && nodes[t].level >= 2 && i < ENTRIES
    requires Prunable(tables, nodes, t, i)
    requires x in tables && IsTable(x, tables, nodes) && nodes[x].level >= 2 && j < ENTRIES
    requires tables[x][j].p && !tables[x][j].ps && tables[x][j].frame == tables[t][i].frame
    ensures x == t && j == i
  {
    assert EntryOk(x, j, tables, nodes) && EntryOk(t, i, tables, nodes);
    if x != t || j != i { assert SameSlot(tables, x, j, t, i); }
  }

  lemma {:induction false} PruneStep(tables: Tables, nodes: Nodes, t: nat, i: nat, x: nat, level: nat, path: seq<nat>)
    requires TreeOk(tables, nodes) && t in tables && IsTable(t, tables, nodes) && nodes[t].level >= 2 && i < ENTRIES
    requires Prunable(tables, nodes, t, i)
    requires x in tables && x != tables[t][i].frame && nodes[x].level == level && IsPath(path, level)
    ensures SameWalk(tables, Prune(tables, t, i), x, level, path)
    decreases level
  {
    assert IsTable(x, tables, nodes);
    var tables' := Prune(tables, t, i);
    if level > 1 {
      assert EntryOk(x, path[0], tables, nodes);
      var d := tables[x][path[0]];
      if x == t && path[0] == i {
        assert path[1..][0] == path[1];
        assert Translate(tables', x, level, path) == None == UserAt(tables', x, level, path);
        assert UserAt(tables, x, level, path) == UserAt(tables, d.frame, level - 1, path[1..]) == None;
        assert Translate(tables, x, level, path) == Translate(tables, d.frame, level - 1, path[1..]) == None;
        assert !OpenAt(tables, d.frame, level - 1, path[1..]) && !OpenAt(tables', x, level, path);
      } else if d.p && !d.ps {
        if d.frame == tables[t][i].frame { OnlyParent(tables, nodes, t, i, x, path[0]); }
        PruneStep(tables, nodes, t, i, d.frame, level - 1, path[1..]);
        assert path[1..][level - 2] == path[level - 1];
      }
    }
  }

  lemma PruneTree(tables: Tables, nodes: Nodes, t: nat, i: nat)
    requires TreeOk(tables, nodes) && t in tables && IsTable(t, tables, nodes) && nodes[t].level >= 2 && i < ENTRIES
    requires Prunable(tables, nodes, t, i)
    ensures t != tables[t][i].frame
    ensures TreeOk(Prune(tables, t, i), nodes - {tables[t][i].frame})
    ensures Agree(tables, nodes, Prune(tables, t, i))
  {
    var c := tables[t][i].frame;
    var tables', nodes' := Prune(tables, t, i), nodes - {c};
    forall x | x in tables'
      ensures IsTable(x, tables, nodes) && IsTable(x, tables', nodes') && nodes'[x] == nodes[x]
    {
      assert IsTable(x, tables, nodes);
    }
    forall x, j | x in tables' && 0 <= j < ENTRIES
      ensures EntryOk(x, j, tables', nodes')
    {
      assert EntryOk(x, j, tables, nodes);
      var e := tables[x][j];
      if nodes[x].level >= 2 && e.p && !e.ps && e.frame == c { OnlyParent(tables, nodes, t, i, x, j); }
    }
    forall x, path | x in nodes && x in tables' && IsPath(path, nodes[x].level)
      ensures SameWalk(tables, tables', x, nodes[x].level, path)
    {
      PruneStep(tables, nodes, t, i, x, nodes[x].level, path);
    }
  }

  /** Where a walk ends: in the entry that maps a page, at the last level or huge, or in an absent one. */
  datatype End = End(e: Pte, level: nat)

  ghost function EndOfWalk(tables: Tables, t: nat, level: nat, path: seq<nat>): End
    decreases level
  {
    if t !in tables || level == 0 || |path| != level || path[0] >= |tables[t]| then End(ZERO, level)
    else
      var e := tables[t][path[0]];
      if !e.p || level == 1 || e.ps then End(e, level) else EndOfWalk(tables, e.frame, level - 1, path[1..])
  }

  /** What user code gets to and may write can be read off the entry where the walk ends. */
  lemma {:induction false} EndTells(tables: Tables, t: nat, level: nat, path: seq<nat>)
    requires IsPath(path, level) && level >= 1
    ensures var w := EndOfWalk(tables, t, level, path);
            && (UserAt(tables, t, level, path).Some? <==> w.level == 1 && w.e.p && w.e.u)
            && (OpenAt(tables, t, level, path) <==> w.level == 1 && w.e.p && w.e.u && (w.e.w || w.e.cow))
    decreases level
  {
    if level > 1 && t in tables && path[0] < |tables[t]| {
      EndTells(tables, tables[t][path[0]].frame, level - 1, path[1..]);
    }
  }

  lemma {:induction false} PtEnds(tables: Tables, nodes: Nodes, t: nat, level: nat, path: seq<nat>)
    requires TreeOk(tables, nodes) && t in tables && nodes[t].level == level && IsPath(path, level)
    requires PtOf(tables, t, level, path).Some?
    ensures var pt := PtOf(tables, t, level, path).value;
            pt in tables && path[level - 1] < |tables[pt]|
                && EndOfWalk(tables, t, level, path) == End(tables[pt][path[level - 1]], 1)
    decreases level
  {
    assert IsTable(t, tables, nodes) && EntryOk(t, path[0], tables, nodes);
    if level > 1 {
      PtEnds(tables, nodes, tables[t][path[0]].frame, level - 1, path[1..]);
      assert path[1..][level - 2] == path[level - 1];
    }
  }

  // ----- what hangs below a table -----

  /** The tables below the entries from `lo` up to `hi` of a table. */
  function TablesBelow(tables: Tables, t: nat, level: nat, lo: nat, hi: nat): set<nat>
    decreases level, hi
  {
    if hi <= lo || t !in tables || hi > |tables[t]| then {}
    else TablesBelow(tables, t, level, lo, hi - 1) + BelowEntry(tables, tables[t][hi - 1], level)
  }

  function BelowEntry(tables: Tables, e: Pte, level: nat): set<nat>
    decreases level, 0
  {
    if level < 2 || !e.p || e.ps then {} else {e.frame} + TablesBelow(tables, e.frame, level - 1, 0, ENTRIES)
  }

  lemma BelowEntryIs(tables: Tables, e: Pte, level: nat)
    ensures BelowEntry(tables, e, level) ==
            if level < 2 || !e.p || e.ps then {} else {e.frame} + TablesBelow(tables, e.frame, level - 1, 0, ENTRIES)
  {
  }

  lemma {:induction false} BelowHas(tables: Tables, t: nat, level: nat, lo: nat, hi: nat, i: nat)
    requires t in tables && lo <= i < hi <= |tables[t]|
    ensures BelowEntry(tables, tables[t][i], level) <= TablesBelow(tables, t, level, lo, hi)
    decreases hi
  {
    if i < hi - 1 { BelowHas(tables, t, level, lo, hi - 1, i); }
  }

  /** The table of the given level that a table hangs below, up to two levels up. */
  ghost function UpTo(nodes: Nodes, c: nat, level: nat): nat {
    if c !in nodes || nodes[c].level >= level then c
    else if nodes[c].level + 1 == level || nodes[c].parent !in nodes then nodes[c].parent
    else nodes[nodes[c].parent].parent
  }

  /** Every table below a range of entries hangs below one of them. */
  lemma {:induction false} BelowComesFrom(tables: Tables, nodes: Nodes, t: nat, level: nat, lo: nat, hi: nat, c: nat)
      returns (i: nat)
    requires TreeOk(tables, nodes) && t in tables && nodes[t].level == level && hi <= ENTRIES
    requires c in TablesBelow(tables, t, level, lo, hi)
    ensures lo <= i < hi && i < |tables[t]| && tables[t][i].p && !tables[t][i].ps
    ensures c in BelowEntry(tables, tables[t][i], level)
    decreases hi
  {
    assert IsTable(t, tables, nodes);
    if c in BelowEntry(tables, tables[t][hi - 1], level) { return hi - 1; }
    i := BelowComesFrom(tables, nodes, t, level, lo, hi - 1, c);
  }

  /** The tables below a table of one of the lower levels are further down, and lead up to it. */
  lemma {:induction false} BelowLeadsUp(tables: Tables, nodes: Nodes, t: nat, level: nat, c: nat)
    requires TreeOk(tables, nodes) && t in tables && nodes[t].level == level <= 3
    requires c in TablesBelow(tables, t, level, 0, ENTRIES)
    ensures c in tables && c in nodes && nodes[c].level < level && nodes[c].own == nodes[t].own
    ensures UpTo(nodes, c, level) == t
    ensures if nodes[c].level + 1 == level then nodes[c].parent == t
            else nodes[c].parent in TablesBelow(tables, t, level, 0, ENTRIES)
    decreases level
  {
    assert IsTable(t, tables, nodes);
    var i := BelowComesFrom(tables, nodes, t, level, 0, ENTRIES, c);
    assert EntryOk(t, i, tables, nodes);
    BelowHas(tables, t, level, 0, ENTRIES, i);
    var u := tables[t][i].frame;
    if c != u { BelowLeadsUp(tables, nodes, u, level - 1, c); }
  }

  // ----- how often a frame is mapped -----

  /**
   How often the entries from `lo` up to `hi` of a table, and what hangs below them, map frame `f`: once for a user
   page, once for each of the 512 frames of a huge page.
   */
  function Uses(tables: Tables, t: nat, level: nat, lo: nat, hi: nat, f: nat): nat
    decreases level, hi
  {
    if hi <= lo || t !in tables || hi > |tables[t]| then 0
    else Uses(tables, t, level, lo, hi - 1, f) + EntryUses(tables, tables[t][hi - 1], level, f)
  }

  function EntryUses(tables: Tables, e: Pte, level: nat, f: nat): nat
    decreases level, 0
  {
    if !e.p then 0
    else if level <= 1 then if e.u && e.frame == f then 1 else 0
    else if e.ps then if e.frame <= f < e.frame + ENTRIES then 1 else 0
    else Uses(tables, e.frame, level - 1, 0, ENTRIES, f)
  }

  ghost function RangeUses(tables: Tables, t: nat, level: nat, lo: nat, hi: nat): nat -> nat {
    (f: nat) => Uses(tables, t, level, lo, hi, f)
  }

  ghost function OneEntryUses(tables: Tables, e: Pte, level: nat): nat -> nat {
    (f: nat) => EntryUses(tables, e, level, f)
  }

  ghost function SpanUses(frame: nat, n: nat): nat -> nat {
    (f: nat) => if frame <= f < frame + n then 1 else 0
  }

  ghost function NoUses(): nat -> nat {
    (f: nat) => 0
  }

  // ----- user access -----

  /** What user code may use translates. */
  lemma {:induction false} UserOkTranslates(tables: Tables, nodes: Nodes, t: nat, level: nat, path: seq<nat>)
    requires TreeOk(tables, nodes) && t in tables && nodes[t].level == level && IsPath(path, level)
    requires UserOk(tables, t, level, path)
    ensures Translate(tables, t, level, path).Some?
    decreases level
  {
    assert IsTable(t, tables, nodes) && EntryOk(t, path[0], tables, nodes);
    var e := tables[t][path[0]];
    if level > 1 && !e.ps { UserOkTranslates(tables, nodes, e.frame, level - 1, path[1..]); }
  }
}
