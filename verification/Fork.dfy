/**
 `clone_user_p4`: the tables below the upper half are rebuilt for the child, the user pages and huge
 pages they map are shared, and everybody who sees them loses write access.
 */
module Fork {
  import opened Options
  import opened PageTables
  import opened Pmm
  import opened Vmm
  import opened CowState
  import opened FrameUses
  import opened CopyOnWrite

  /** What a fork shares: user pages, and huge pages whoever may use them. */
  predicate Forked(e: Pte, level: nat) {
    e.p && if level <= 1 then e.u else e.ps
  }

  /** As a fork leaves what it shares: the first write has to ask. */
  predicate Marked(e: Pte) {
    !e.w && e.cow
  }

  /** As a fork leaves entries that lead to tables: for all to use and to write, and with no other flag. */
  predicate Relinked(e: Pte) {
    e.p && e.w && e.u && !e.ps && !e.cow && e.rest == 0
  }

  /** The same page or table; the entry is as it was or as a fork leaves it. */
  ghost predicate Like(e: Pte, e': Pte, level: nat) {
    && e'.p == e.p && (!e.p ==> e' == e) && (e.p ==> e'.ps == e.ps && e'.frame == e.frame)
    && (e.p && (level <= 1 || e.ps) ==> e' == e || (Forked(e, level) && e' == Shared(e)))
    && (e.p && level > 1 && !e.ps ==> e' == e || Relinked(e'))
  }

  /** Every table of `m` but `d` is still there, and no entry leads elsewhere. */
  ghost predicate ShapeKept(m: Mem, m': Mem, d: nat) {
    && (forall t <- m.nodes ::
       && t in m.tables && t in m'.nodes && t in m'.tables && m'.nodes[t] == m.nodes[t]
       && |m'.tables[t]| == |m.tables[t]|)
    && (forall t, j | t in m.nodes && t != d && 0 <= j < |m.tables[t]| ::
       Like(m.tables[t][j], m'.tables[t][j], m.nodes[t].level))
  }

  /** Tables outside of `part` are as they were. */
  ghost predicate ChangedIn(m: Mem, m': Mem, part: set<nat>) {
    forall t <- m.nodes | t !in part :: t in m.tables && t in m'.tables && m'.tables[t] == m.tables[t]
  }

  ghost function Part(m: Mem, s: nat, d: nat, level: nat): set<nat> {
    {s, d} + TablesBelow(m.tables, s, level, First(level), ENTRIES)
  }

  /**
   What hangs below `d` maps what hangs below `s`, and both sides must ask before they write; below the lower
   half it is the same.
   */
  ghost predicate IsCopy(m: Mem, s: nat, d: nat, level: nat)
    decreases level, ENTRIES
  {
    HasTable(m, s, level) && HasTable(m, d, level) && forall j: nat | j < ENTRIES :: CopiedAt(m, s, d, level, j)
  }

  ghost predicate CopiedAt(m: Mem, s: nat, d: nat, level: nat, j: nat)
    requires HasTable(m, s, level) && HasTable(m, d, level) && j < ENTRIES
    decreases level, j
  {
    var a, b := m.tables[s][j], m.tables[d][j];
    && b.p == a.p
    && (a.p ==>
          if level <= 1 then b == a && (a.u ==> Marked(a))
          else if level == 4 && j < UPPER then b.frame == a.frame && b.ps == a.ps
          else if level == 2 && a.ps then Marked(a) && b == a
          else
            && Relinked(a) && Relinked(b) && IsCopy(m, a.frame, b.frame, level - 1)
            && (level == 4 ==>
                  && a.frame in m.nodes && b.frame in m.nodes && m.nodes[b.frame].own == m.nodes[a.frame].own
                  && m.nodes[b.frame].parent == d && m.nodes[b.frame].idx == j))
  }

  lemma ShapeTwice(a: Mem, b: Mem, c: Mem, d: nat, x: nat)
    requires ShapeKept(a, b, d) && ShapeKept(b, c, x) && (x == d || x !in a.nodes)
    ensures ShapeKept(a, c, d)
  {
    forall t, j | t in a.nodes && t != d && 0 <= j < |a.tables[t]|
      ensures Like(a.tables[t][j], c.tables[t][j], a.nodes[t].level)
    {
      assert Like(b.tables[t][j], c.tables[t][j], b.nodes[t].level);
    }
  }

  lemma ShapeSame(m: Mem, d: nat)
    requires TreeOk(m.tables, m.nodes)
    ensures ShapeKept(m, m, d)
  {
  }

  /** A copy stays one while flags change, and while a table that is not part of it is filled. */
  lemma {:induction false} CopyStable(m: Mem, m': Mem, x: nat, s: nat, d: nat, level: nat)
    requires ShapeKept(m, m', x) && IsCopy(m, s, d, level) && x != s && x != d && x in m.nodes
    requires m.nodes[x].level >= level >= 1
    ensures IsCopy(m', s, d, level)
    decreases level
  {
    forall j: nat | j < ENTRIES
      ensures CopiedAt(m', s, d, level, j)
    {
      assert CopiedAt(m, s, d, level, j);
      assert Like(m.tables[s][j], m'.tables[s][j], level) && Like(m.tables[d][j], m'.tables[d][j], level);
      var a, b := m.tables[s][j], m.tables[d][j];
      if a.p && level > 1 && !a.ps && (level != 4 || j >= UPPER) { CopyStable(m, m', x, a.frame, b.frame, level - 1); }
    }
  }

  /** The same tables hang below a table whose entries lead where they did. */
  lemma {:induction false} BelowKept(m: Mem, m': Mem, d: nat, t: nat, level: nat, lo: nat, hi: nat)
    requires TreeOk(m.tables, m.nodes) && ShapeKept(m, m', d) && t in m.tables && t != d && m.nodes[t].level == level
    requires hi <= ENTRIES
    requires d in m.nodes ==> m.nodes[d].level >= level
    ensures TablesBelow(m'.tables, t, level, lo, hi) == TablesBelow(m.tables, t, level, lo, hi)
    decreases level, hi
  {
    assert |m.tables[t]| == ENTRIES by { assert IsTable(t, m.tables, m.nodes); }
    assert t in m.nodes && t in m'.tables && |m'.tables[t]| == ENTRIES;
    if lo < hi {
      BelowKept(m, m', d, t, level, lo, hi - 1);
      EntryKept(m, m', d, t, level, hi - 1);
      hide BelowEntry, ShapeKept, TreeOk;
    }
  }

  lemma {:induction false} EntryKept(m: Mem, m': Mem, d: nat, t: nat, level: nat, j: nat)
    requires TreeOk(m.tables, m.nodes) && ShapeKept(m, m', d) && t in m.tables && t != d && m.nodes[t].level == level
    requires j < ENTRIES
    requires d in m.nodes ==> m.nodes[d].level >= level
    requires t in m'.tables && j < |m'.tables[t]| && j < |m.tables[t]|
    ensures BelowEntry(m'.tables, m'.tables[t][j], level) == BelowEntry(m.tables, m.tables[t][j], level)
    decreases level, j
  {
    hide TablesBelow, BelowEntry;
    var e := m.tables[t][j];
    assert Like(e, m'.tables[t][j], level);
    BelowEntryIs(m.tables, e, level);
    BelowEntryIs(m'.tables, m'.tables[t][j], level);
    if level >= 2 && e.p && !e.ps {
      assert IsTable(t, m.tables, m.nodes) && EntryOk(t, j, m.tables, m.nodes);
      BelowKept(m, m', d, e.frame, level - 1, 0, ENTRIES);
    }
  }

  /** Flags change no translation. */
  lemma {:induction false} ShapeWalks(m: Mem, m': Mem, d: nat, t: nat, level: nat, path: seq<nat>)
    requires TreeOk(m.tables, m.nodes) && ShapeKept(m, m', d) && t in m.tables && t != d && m.nodes[t].level == level
    requires IsPath(path, level)
    requires d !in m.nodes || m.nodes[d].level == 4
    ensures Translate(m'.tables, t, level, path) == Translate(m.tables, t, level, path)
    ensures UserAt(m'.tables, t, level, path) == UserAt(m.tables, t, level, path)
    decreases level
  {
    assert IsTable(t, m.tables, m.nodes) && EntryOk(t, path[0], m.tables, m.nodes);
    var e := m.tables[t][path[0]];
    assert Like(e, m'.tables[t][path[0]], level);
    if level > 1 && e.p && !e.ps { ShapeWalks(m, m', d, e.frame, level - 1, path[1..]); }
  }

  /** A copy translates every page as the original does. */
  lemma {:induction false} CopyWalks(m: Mem, s: nat, d: nat, level: nat, path: seq<nat>)
    requires IsCopy(m, s, d, level) && IsPath(path, level) && level >= 1
    ensures Translate(m.tables, d, level, path) == Translate(m.tables, s, level, path)
    ensures UserAt(m.tables, d, level, path) == UserAt(m.tables, s, level, path)
    decreases level
  {
    assert CopiedAt(m, s, d, level, path[0]);
    var a, b := m.tables[s][path[0]], m.tables[d][path[0]];
    if level > 1 && a.p && !a.ps && (level != 4 || path[0] >= UPPER) {
      CopyWalks(m, a.frame, b.frame, level - 1, path[1..]);
    }
  }

  // ----- counts -----

  /** A count after `k` references were added one by one, pinned at the top. */
  function Plus(n: nat, k: nat): nat {
    if k == 0 then n else if n + k >= REF_MAX then REF_MAX else n + k
  }

  ghost predicate Bounded(m: Mem) {
    forall i | 0 <= i < |m.refs| :: m.refs[i] <= REF_MAX
  }

  /** Every managed frame that was in use got exactly so many references. */
  ghost predicate Added(m: Mem, m': Mem, uses: nat -> nat) {
    && m'.base == m.base && m'.limit == m.limit && |m'.refs| == |m.refs| && m'.free <= m.free
    && Bounded(m) && Bounded(m')
    && forall f: nat | f !in m.free && m.base <= f < m.base + |m.refs| ::
         RefAt(m'.refs, m.base, f) == Plus(RefAt(m.refs, m.base, f), uses(f))
  }

  lemma AddedTwice(a: Mem, b: Mem, c: Mem, u: nat -> nat, v: nat -> nat, w: nat -> nat)
    requires Added(a, b, u) && Added(b, c, v) && forall f: nat :: w(f) == u(f) + v(f)
    ensures Added(a, c, w)
  {
  }

  lemma AddedSame(m: Mem, m': Mem, u: nat -> nat, v: nat -> nat)
    requires Added(m, m', u) && forall f: nat :: u(f) == v(f)
    ensures Added(m, m', v)
  {
  }

  lemma TakenAdds(m: Mem, m': Mem)
    requires Bounded(m) && Bounded(m') && m'.base == m.base && m'.limit == m.limit
    requires Untouched(m.base, m.free, m.refs, m'.free, m'.refs)
    ensures Added(m, m', NoUses())
  {
  }

  /** Steps that leave every entry that counts alone, and take no reference away. */
  lemma OtherTablesSound(m: Mem, m': Mem, uses: nat -> nat)
    requires Sound(m) && VmOk(m'.tables, m'.nodes, m'.free) && NoHugeOwn(m'.tables, m'.nodes) && Added(m, m', uses)
    requires forall l :: IsUserLeaf(m', l) <==> IsUserLeaf(m, l)
    requires forall l | IsUserLeaf(m, l) :: At(m', l) == At(m, l)
    requires forall t <- m'.tables :: t in m.tables || t in m.free
    ensures Sound(m') && (forall f :: Owners(m', f) == Owners(m, f))
    ensures (forall f: nat :: uses(f) == 0) ==> StaysSound(m, m')
  {
    hide VmOk, NoHugeOwn, Owners;
    forall f
      ensures Owners(m', f) == Owners(m, f)
    {
      OwnersAre(m, f);
      OwnersAre(m', f);
      assert forall l :: Owns(m, l, f) <==> Owns(m', l, f);
    }
    forall l | IsUserLeaf(m', l)
      ensures LeafSound(m', l) && ((forall f: nat :: uses(f) == 0) && AllCounted(m) ==> Counted(m', At(m', l).frame))
    {
      assert LeafSound(m, l);
    }
  }

  /** Every frame that counts below private slots has so many owners more. */
  ghost predicate MoreOwners(m0: Mem, m: Mem, s: nat, level: nat, n: nat) {
    && HasTable(m0, s, level) && n <= ENTRIES
    && forall f: nat :: |Owners(m, f)| == |Owners(m0, f)| + OwnUses(m0, s, level, n, f)
  }

  /** The same frames are mapped below a table whose entries lead where they did. */
  lemma {:induction false} UsesKept(m: Mem, m': Mem, d: nat, t: nat, level: nat, lo: nat, hi: nat, f: nat)
    requires TreeOk(m.tables, m.nodes) && ShapeKept(m, m', d) && t in m.tables && t != d && m.nodes[t].level == level
    requires hi <= ENTRIES
    requires d in m.nodes ==> m.nodes[d].level >= level
    ensures Uses(m'.tables, t, level, lo, hi, f) == Uses(m.tables, t, level, lo, hi, f)
    decreases level, hi
  {
    assert |m.tables[t]| == ENTRIES by { assert IsTable(t, m.tables, m.nodes); }
    assert t in m.nodes && t in m'.tables && |m'.tables[t]| == ENTRIES;
    if lo < hi {
      UsesKept(m, m', d, t, level, lo, hi - 1, f);
      EntryUsesKept(m, m', d, t, level, hi - 1, f);
      hide EntryUses, ShapeKept, TreeOk;
    }
  }

  lemma {:induction false} EntryUsesKept(m: Mem, m': Mem, d: nat, t: nat, level: nat, j: nat, f: nat)
    requires TreeOk(m.tables, m.nodes) && ShapeKept(m, m', d) && t in m.tables && t != d && m.nodes[t].level == level
    requires j < ENTRIES
    requires d in m.nodes ==> m.nodes[d].level >= level
    requires t in m'.tables && j < |m'.tables[t]| && j < |m.tables[t]|
    ensures EntryUses(m'.tables, m'.tables[t][j], level, f) == EntryUses(m.tables, m.tables[t][j], level, f)
    decreases level, j
  {
    hide Uses;
    var e := m.tables[t][j];
    assert Like(e, m'.tables[t][j], level);
    if level >= 2 && e.p && !e.ps {
      assert IsTable(t, m.tables, m.nodes) && EntryOk(t, j, m.tables, m.nodes);
      UsesKept(m, m', d, e.frame, level - 1, 0, ENTRIES, f);
    }
  }

  // ----- the code -----

  /** The flags that cloning gives every entry above the last level. */
  const TABLE_FLAGS := Flags(true, true, false, false, 0)

  /** A fresh table `c` below entry `i` of `d`, and plain flags on the same entry of `s`. */
  ghost function Linked(m: Mem, s: nat, d: nat, i: nat, c: nat): Mem
    requires d in m.nodes && HasTable(m, d, m.nodes[d].level) && HasTable(m, s, m.nodes[d].level)
    requires m.nodes[d].level >= 2 && i < ENTRIES
    requires m.base <= c < m.base + |m.refs|
  {
    var a := Filled(m, m.tables[c := EmptyTable()], d, i, TABLE_FLAGS, c);
    a.(tables := if s in a.tables && i < |a.tables[s]|
        then Store(a.tables, s, i, Make(m.tables[s][i].frame, TABLE_FLAGS)) else a.tables)
  }

  /** What is copied from a table that other roots lead to does not count as the child's own. */
  ghost function ChildNode(d: nat, i: nat, n: Node, own: bool): Node
    requires n.level >= 2
  {
    ChildOf(d, i, n).(own := own)
  }

  ghost function LinkedAs(m: Mem, s: nat, d: nat, i: nat, c: nat, own: bool): Mem
    requires d in m.nodes && HasTable(m, d, m.nodes[d].level) && HasTable(m, s, m.nodes[d].level)
    requires m.nodes[d].level >= 2 && i < ENTRIES
    requires m.base <= c < m.base + |m.refs|
  {
    var a := Linked(m, s, d, i, c);
    a.(nodes := m.nodes[c := ChildNode(d, i, m.nodes[d], own)])
  }

  /** Two tables of one level, the second to be filled from the first; `sound` is for memory with the invariant. */
  ghost predicate Pair(m: Mem, s: nat, d: nat, level: nat, sound: bool) {
    && HasTable(m, s, level) && HasTable(m, d, level) && s != d && VmOk(m.tables, m.nodes, m.free) && Bounded(m)
    && (level < 4 ==> m.nodes[s].own == m.nodes[d].own) && (sound ==> Sound(m))
  }

  /** What keeps the counts right also keeps other things. */
  ghost predicate StaysSound(m: Mem, m': Mem) {
    Sound(m') && (AllCounted(m) ==> AllCounted(m'))
  }

  /** A step that is nothing to what counts. */
  ghost predicate NoOwner(m: Mem, m': Mem) {
    StaysSound(m, m') && forall f :: Owners(m', f) == Owners(m, f)
  }

  /** A table of the child linked in: tables, shape and counts. */
  lemma LinkSound(m: Mem, s: nat, d: nat, i: nat, c: nat, s4: nat, d4: nat, sound: bool)
    requires d in m.nodes && m.nodes[d].level >= 2 && Pair(m, s, d, m.nodes[d].level, sound) && i < ENTRIES
    requires m.nodes[d].level == 4 ==> i >= UPPER && s4 == s && d4 == d
    requires IsP4(m, s4) && IsP4(m, d4)
    requires c in m.free && m.base <= c < m.base + |m.refs|
    requires m.tables[s][i].p && !m.tables[s][i].ps && !m.tables[d][i].p
    ensures c !in m.tables
    ensures var m' := Linked(m, s, d, i, c);
            && VmOk(m'.tables, m'.nodes, m'.free) && ShapeKept(m, m', d) && ChangedIn(m, m', {s, d})
            && (sound ==> NoOwner(m, m')) && Added(m, m', NoUses())
            && m'.nodes == m.nodes[c := ChildOf(d, i, m.nodes[d])]
            && d in m'.tables && m'.tables[d] == m.tables[d][i := Make(c, TABLE_FLAGS)]
            && s in m'.tables && m'.tables[s] == m.tables[s][i := Make(m.tables[s][i].frame, TABLE_FLAGS)]
            && c in m'.tables && m'.tables[c] == EmptyTable()
  {
    var a := Filled(m, m.tables[c := EmptyTable()], d, i, TABLE_FLAGS, c);
    FilledIn(m, d4, d, i, TABLE_FLAGS, c, false);
    LinkShape(m, s, d, i, c);
    var e := Make(m.tables[s][i].frame, TABLE_FLAGS);
    var m' := Linked(m, s, d, i, c);
    ReflagGrows(a.tables, a.nodes, a.free, s4, s, i, e);
    TakenAdds(m, m');
    hide ShapeKept, ChangedIn, Added, EmptyTable, Grown, Untouched, TreeOk, IsTable;
    TookNone(a.base, a.free, a.refs);
    if sound { GrownTwiceSound(m, a, m', d4, s4); }
  }

  lemma GrownTwiceSound(m: Mem, a: Mem, b: Mem, d4: nat, s4: nat)
    requires Sound(m) && Grown(d4, m.tables, m.nodes, m.free, a.tables, a.nodes, a.free)
    requires Untouched(m.base, m.free, m.refs, a.free, a.refs) && a.base == m.base && a.limit == m.limit
    requires VmOk(a.tables, a.nodes, a.free) && Grown(s4, a.tables, a.nodes, a.free, b.tables, b.nodes, b.free)
    requires Untouched(a.base, a.free, a.refs, b.free, b.refs) && b.base == a.base && b.limit == a.limit
    requires VmOk(b.tables, b.nodes, b.free)
    ensures NoOwner(m, b)
  {
    hide Sound, AllCounted, Grown, Untouched, VmOk, Owners, IsUserLeaf;
    GrowSound(m, a, d4);
    GrowSound(a, b, s4);
  }

  lemma LinkShape(m: Mem, s: nat, d: nat, i: nat, c: nat)
    requires d in m.nodes && m.nodes[d].level >= 2 && Pair(m, s, d, m.nodes[d].level, false) && i < ENTRIES
    requires c in m.free && m.base <= c < m.base + |m.refs|
    requires m.tables[s][i].p && !m.tables[s][i].ps && !m.tables[d][i].p
    ensures c !in m.tables && c != s && c != d
    ensures var a, m' := Filled(m, m.tables[c := EmptyTable()], d, i, TABLE_FLAGS, c), Linked(m, s, d, i, c);
            && s in a.tables && a.tables[s] == m.tables[s] && s in a.nodes && a.nodes[s] == m.nodes[s]
            && m'.tables == Store(a.tables, s, i, Make(m.tables[s][i].frame, TABLE_FLAGS)) && m'.nodes == a.nodes
            && ShapeKept(m, m', d) && ChangedIn(m, m', {s, d})
            && d in m'.tables && m'.tables[d] == m.tables[d][i := Make(c, TABLE_FLAGS)]
            && s in m'.tables && m'.tables[s] == m.tables[s][i := Make(m.tables[s][i].frame, TABLE_FLAGS)]
            && c in m'.tables && m'.tables[c] == EmptyTable()
            && IsTable(s, a.tables, a.nodes)
            && Make(m.tables[s][i].frame, TABLE_FLAGS).frame == m.tables[s][i].frame
  {
    var a, m' := Filled(m, m.tables[c := EmptyTable()], d, i, TABLE_FLAGS, c), Linked(m, s, d, i, c);
    FromTree(m.tables, m.nodes);
    assert IsTable(s, m.tables, m.nodes);
    hide TreeOk;
    forall t, j | t in m.nodes && t != d && 0 <= j < |m.tables[t]|
      ensures Like(m.tables[t][j], m'.tables[t][j], m.nodes[t].level)
    {
    }
  }

  /** An empty third-level table may be taken for one that others lead to, too. */
  lemma Disowned(m: Mem, c: nat, own: bool)
    requires VmOk(m.tables, m.nodes, m.free) && HasTable(m, c, 3) && m.tables[c] == EmptyTable()
    requires own ==> m.nodes[c].own
    ensures var m' := m.(nodes := m.nodes[c := m.nodes[c].(own := own)]);
            VmOk(m'.tables, m'.nodes, m'.free) && (Sound(m) ==> NoOwner(m, m'))
  {
    var m' := m.(nodes := m.nodes[c := m.nodes[c].(own := own)]);
    forall t | t in m.tables
      ensures IsTable(t, m.tables, m.nodes) && IsTable(t, m'.tables, m'.nodes)
    {
      assert IsTable(t, m.tables, m.nodes);
    }
    forall t, i | t in m'.tables && 0 <= i < ENTRIES
      ensures EntryOk(t, i, m'.tables, m'.nodes)
    {
      assert EntryOk(t, i, m.tables, m.nodes);
    }
    hide EntryOk, TreeOk, IsTable, EmptyTable;
    if Sound(m) { SameOwners(m, m', c); }
  }

  lemma SameOwners(m: Mem, m': Mem, c: nat)
    requires Sound(m) && VmOk(m'.tables, m'.nodes, m'.free) && c in m.nodes && m.nodes[c].level == 3
    requires c in m'.nodes && m'.nodes[c].level == 3 && m' == m.(nodes := m.nodes[c := m'.nodes[c]])
    ensures NoOwner(m, m')
  {
    TookNone(m.base, m.free, m.refs);
    hide VmOk, Owners;
    assert NoHugeOwn(m'.tables, m'.nodes);
    assert forall l :: IsUserLeaf(m', l) <==> IsUserLeaf(m, l);
    hide NoHugeOwn, IsUserLeaf;
    forall f
      ensures Owners(m', f) == Owners(m, f)
    {
      OwnersAre(m, f);
      OwnersAre(m', f);
      assert forall l :: Owns(m, l, f) <==> Owns(m', l, f);
    }
    forall l | IsUserLeaf(m, l)
      ensures LeafSound(m', l)
    {
      assert LeafSound(m, l);
    }
  }

  lemma LinkAsSound(m: Mem, s: nat, d: nat, i: nat, c: nat, s4: nat, d4: nat, own: bool, sound: bool)
    requires d in m.nodes && m.nodes[d].level >= 2 && Pair(m, s, d, m.nodes[d].level, sound) && i < ENTRIES
    requires m.nodes[d].level == 4 ==> i >= UPPER && s4 == s && d4 == d
    requires IsP4(m, s4) && IsP4(m, d4)
    requires c in m.free && m.base <= c < m.base + |m.refs|
    requires m.tables[s][i].p && !m.tables[s][i].ps && !m.tables[d][i].p
    requires if m.nodes[d].level < 4 then own == m.nodes[d].own else own ==> m.nodes[d].own
    ensures c !in m.tables
    ensures var m' := LinkedAs(m, s, d, i, c, own);
            && VmOk(m'.tables, m'.nodes, m'.free) && ShapeKept(m, m', d) && ChangedIn(m, m', {s, d})
            && (sound ==> NoOwner(m, m')) && Added(m, m', NoUses())
            && m'.nodes == m.nodes[c := ChildNode(d, i, m.nodes[d], own)]
            && d in m'.tables && m'.tables[d] == m.tables[d][i := Make(c, TABLE_FLAGS)]
            && s in m'.tables && m'.tables[s] == m.tables[s][i := Make(m.tables[s][i].frame, TABLE_FLAGS)]
            && c in m'.tables && m'.tables[c] == EmptyTable()
  {
    LinkSound(m, s, d, i, c, s4, d4, sound);
    var a, m' := Linked(m, s, d, i, c), LinkedAs(m, s, d, i, c, own);
    LinkedNode(m, s, d, i, c, own);
    hide *;
    if m.nodes[d].level == 4 {
      Disowned(a, c, own);
      NoOwnerTwice(m, a, m', sound);
    }
    AddedLike(m, a, m', NoUses());
    Renamed(m, a, m', d, c);
  }

  lemma LinkedNode(m: Mem, s: nat, d: nat, i: nat, c: nat, own: bool)
    requires d in m.nodes && HasTable(m, d, m.nodes[d].level) && HasTable(m, s, m.nodes[d].level)
    requires m.nodes[d].level >= 2 && i < ENTRIES && m.base <= c < m.base + |m.refs|
    requires if m.nodes[d].level < 4 then own == m.nodes[d].own else own ==> m.nodes[d].own && i >= UPPER
    ensures var a, m' := Linked(m, s, d, i, c), LinkedAs(m, s, d, i, c, own);
            && c in a.nodes && a.nodes[c] == ChildOf(d, i, m.nodes[d]) && (own ==> a.nodes[c].own)
            && m' == a.(nodes := a.nodes[c := a.nodes[c].(own := own)]) && (m.nodes[d].level < 4 ==> m' == a)
            && m'.nodes == m.nodes[c := ChildNode(d, i, m.nodes[d], own)] && c in m'.nodes
            && (m.nodes[d].level == 4 && c in a.tables && a.tables[c] == EmptyTable() ==> HasTable(a, c, 3))
  {
    hide EmptyTable;
    assert |EmptyTable()| == ENTRIES by { EmptyWidth(); }
  }

  lemma EmptyWidth()
    ensures |EmptyTable()| == ENTRIES
  {
  }

  lemma NoOwnerTwice(a: Mem, b: Mem, c: Mem, sound: bool)
    requires sound ==> NoOwner(a, b)
    requires Sound(b) ==> NoOwner(b, c)
    ensures sound ==> NoOwner(a, c)
  {
    hide Sound, AllCounted, Owners;
  }

  lemma AddedLike(m: Mem, a: Mem, b: Mem, uses: nat -> nat)
    requires Added(m, a, uses) && b.base == a.base && b.limit == a.limit && b.refs == a.refs && b.free == a.free
    ensures Added(m, b, uses)
  {
  }

  lemma Renamed(m: Mem, a: Mem, m': Mem, d: nat, c: nat)
    requires ShapeKept(m, a, d) && c !in m.nodes && c in m'.nodes
    requires m'.tables == a.tables && m'.nodes == a.nodes[c := m'.nodes[c]]
    ensures ShapeKept(m, m', d) && forall part :: ChangedIn(m, a, part) ==> ChangedIn(m, m', part)
  {
  }

  /** The child's new third-level tables are no table that was there before. */
  ghost predicate NewBelow(m0: Mem, m: Mem, d: nat, n: nat) {
    d in m.tables && |m.tables[d]| == ENTRIES && n <= ENTRIES
        && forall j | UPPER <= j < n && m.tables[d][j].p :: m.tables[d][j].frame !in m0.nodes
  }

  /** No table that was added is a root. */
  ghost predicate NoNewTop(m0: Mem, m: Mem) {
    forall t <- m.nodes | t !in m0.nodes :: m.nodes[t].level < 4
  }

  /** How far the copying of `s` into `d` has come: the first `n` entries are done, the others of `d` are absent. */
  ghost predicate Progress(m0: Mem, m: Mem, s: nat, d: nat, level: nat, n: nat, sound: bool) {
    && VmOk(m.tables, m.nodes, m.free) && ShapeKept(m0, m, d) && ChangedIn(m0, m, Part(m0, s, d, level))
    && HasTable(m0, s, level) && HasTable(m, s, level) && HasTable(m, d, level) && n <= ENTRIES
    && (forall j: nat | j < n :: CopiedAt(m, s, d, level, j))
    && (forall j | n <= j < ENTRIES :: !m.tables[d][j].p) && (level == 4 ==> NewBelow(m0, m, d, n))
    && Added(m0, m, RangeUses(m0.tables, s, level, First(level), n)) && NoNewTop(m0, m)
    && (sound ==> Sound(m) && MoreOwners(m0, m, s, level, n))
  }

  /** What one entry adds to the counts. */
  ghost function StepUses(m: Mem, s: nat, level: nat, n: nat): nat -> nat
    requires HasTable(m, s, level) && n < ENTRIES
  {
    (f: nat) => if n < First(level) then 0 else EntryUses(m.tables, m.tables[s][n], level, f)
  }

  /** What it adds to the owners. */
  ghost function StepOwners(m: Mem, s: nat, level: nat, n: nat): nat -> nat
    requires HasTable(m, s, level) && n < ENTRIES
  {
    (f: nat) =>
      if n >= First(level) && OwnBelow(m, s, level, n) then EntryUses(m.tables, m.tables[s][n], level, f) else 0
  }

  lemma StepOwnersAre(m: Mem, s: nat, level: nat, n: nat, f: nat)
    requires HasTable(m, s, level) && n < ENTRIES
    ensures StepOwners(m, s, level, n)(f) ==
            if n >= First(level) && OwnBelow(m, s, level, n) then StepUses(m, s, level, n)(f) else 0
  {
  }

  /** What one entry adds to the counts and to the owners. */
  ghost predicate Shares(m0: Mem, m: Mem, m': Mem, s: nat, level: nat, n: nat, sound: bool)
    requires HasTable(m0, s, level) && n < ENTRIES
  {
    && Added(m, m', StepUses(m0, s, level, n))
    && (sound ==>
          && Sound(m')
          && forall f: nat :: |Owners(m', f)| == |Owners(m, f)| + StepOwners(m0, s, level, n)(f))
  }

  /** One more entry was handled by a step from `m` to `m'` that led nothing elsewhere. */
  lemma ProgressStep(m0: Mem, m: Mem, m': Mem, s: nat, d: nat, level: nat, n: nat, sound: bool)
    requires Progress(m0, m, s, d, level, n, sound) && n < ENTRIES && VmOk(m'.tables, m'.nodes, m'.free)
    requires ShapeKept(m0, m', d) && ShapeKept(m, m', d) && ChangedIn(m0, m', Part(m0, s, d, level))
    requires Shares(m0, m, m', s, level, n, sound) && NoNewTop(m, m')
    requires level >= 1 && HasTable(m', d, level) && m.nodes[d].level == level && s != d
    requires forall j | 0 <= j < ENTRIES && j != n ::
             m'.tables[d][j].p == m.tables[d][j].p && (m.tables[d][j].p ==>
                 Like(m.tables[d][j], m'.tables[d][j], level))
    requires level == 4 && n >= UPPER && m'.tables[d][n].p ==> m'.tables[d][n].frame !in m0.nodes
    ensures HasTable(m', s, level) && (CopiedAt(m', s, d, level, n) ==> Progress(m0, m', s, d, level, n + 1, sound))
  {
    hide VmOk, ChangedIn, Sound, EntryUses, Owners, OwnBelow;
    forall j: nat | j < n
      ensures CopiedAt(m', s, d, level, j)
    {
      assert CopiedAt(m, s, d, level, j);
      EntryStays(m, m', s, d, level, j);
    }
    StepCounts(m0, m, m', s, level, n, sound);
  }

  lemma StepCounts(m0: Mem, m: Mem, m': Mem, s: nat, level: nat, n: nat, sound: bool)
    requires HasTable(m0, s, level) && n < ENTRIES && Added(m0, m, RangeUses(m0.tables, s, level, First(level), n))
    requires sound ==> MoreOwners(m0, m, s, level, n)
    requires Shares(m0, m, m', s, level, n, sound)
    ensures Added(m0, m', RangeUses(m0.tables, s, level, First(level), n + 1))
    ensures sound ==> Sound(m') && MoreOwners(m0, m', s, level, n + 1)
  {
    hide Added, Sound, EntryUses, Owners, OwnBelow;
    AddedTwice(m0, m, m', RangeUses(m0.tables, s, level, First(level), n), StepUses(m0, s, level, n),
      RangeUses(m0.tables, s, level, First(level), n + 1));
  }

  lemma EntryStays(m: Mem, m': Mem, s: nat, d: nat, level: nat, j: nat)
    requires HasTable(m, s, level) && HasTable(m, d, level) && j < ENTRIES && CopiedAt(m, s, d, level, j) && s != d
    requires level >= 1
    requires ShapeKept(m, m', d) && HasTable(m', d, level)
    requires m'.tables[d][j].p == m.tables[d][j].p
    requires (m.tables[d][j].p ==> Like(m.tables[d][j], m'.tables[d][j], level))
    ensures HasTable(m', s, level) && CopiedAt(m', s, d, level, j)
  {
    assert Like(m.tables[s][j], m'.tables[s][j], level);
    var a, b := m.tables[s][j], m.tables[d][j];
    if a.p && level > 1 && !a.ps && (level != 4 || j >= UPPER) { CopyStable(m, m', d, a.frame, b.frame, level - 1); }
  }

  lemma ProgressStart(m: Mem, s: nat, d: nat, level: nat, sound: bool)
    requires Pair(m, s, d, level, sound) && forall j | 0 <= j < ENTRIES :: !m.tables[d][j].p
    ensures Progress(m, m, s, d, level, 0, sound)
  {
    ShapeSame(m, d);
  }

  lemma ProgressHas(m0: Mem, m: Mem, s: nat, d: nat, level: nat, n: nat, sound: bool)
    requires Progress(m0, m, s, d, level, n, sound) && n < ENTRIES && Pair(m0, s, d, level, sound)
    ensures VmOk(m.tables, m.nodes, m.free) && Pair(m, s, d, level, sound) && !m.tables[d][n].p && ShapeKept(m0, m, d)
    ensures HasTable(m0, s, level)
  {
  }

  /** Nothing happens to an entry that is absent. */
  lemma Skipped(m0: Mem, m: Mem, s: nat, d: nat, level: nat, n: nat, sound: bool)
    requires Progress(m0, m, s, d, level, n, sound) && n < ENTRIES && !m.tables[s][n].p && s != d
    ensures Progress(m0, m, s, d, level, n + 1, sound)
  {
    NextEntryIs(m0, m, s, d, level, n, sound);
    AbsentUses(m0, m, s, level, n);
    StepNone(m0, m, s, level, n, sound);
    AbsentCopied(m, s, d, level, n);
    hide VmOk, ShapeKept, ChangedIn, Sound, CopiedAt, Owners, Added, Shares, Like, MoreOwners;
    StepCounts(m0, m, m, s, level, n, sound);
  }

  lemma AbsentUses(m0: Mem, m: Mem, s: nat, level: nat, n: nat)
    requires HasTable(m0, s, level) && HasTable(m, s, level) && n < ENTRIES && !m.tables[s][n].p
    requires Like(m0.tables[s][n], m.tables[s][n], level)
    ensures forall f: nat :: StepUses(m0, s, level, n)(f) == 0
  {
  }

  /** What progress says about the entry that is next. */
  lemma NextEntryIs(m0: Mem, m: Mem, s: nat, d: nat, level: nat, n: nat, sound: bool)
    requires Progress(m0, m, s, d, level, n, sound) && n < ENTRIES
    ensures VmOk(m.tables, m.nodes, m.free) && HasTable(m0, s, level) && HasTable(m, s, level) && HasTable(m, d, level)
    ensures ShapeKept(m0, m, d) && ChangedIn(m0, m, Part(m0, s, d, level)) && Bounded(m) && !m.tables[d][n].p
    ensures m.nodes[s] == m0.nodes[s] && (s != d ==> Like(m0.tables[s][n], m.tables[s][n], level))
    ensures sound ==> Sound(m)
  {
    hide VmOk, ChangedIn, Sound, CopiedAt, Like, TablesBelow, Uses;
  }

  /** One entry more, of a table below the top. */
  lemma EntryDone(m0: Mem, m: Mem, m': Mem, s: nat, d: nat, level: nat, n: nat, sound: bool, e: Pte)
    requires Progress(m0, m, s, d, level, n, sound) && n < ENTRIES && VmOk(m'.tables, m'.nodes, m'.free)
    requires ShapeKept(m, m', d) && ChangedIn(m, m', {s, d}) && 1 <= level < 4 && s != d
    requires Shares(m0, m, m', s, level, n, sound) && m'.nodes == m.nodes
    requires HasTable(m', s, level) && HasTable(m', d, level) && CopiedAt(m', s, d, level, n)
    requires m'.tables[d] == m.tables[d][n := e]
    ensures Progress(m0, m', s, d, level, n + 1, sound)
  {
    NextEntryIs(m0, m, s, d, level, n, sound);
    ShapeTwice(m0, m, m', d, d);
    PartStep(m0, m, m', s, d, level);
    assert forall x: Pte :: Like(x, x, level);
    hide VmOk, ShapeKept, ChangedIn, Sound, CopiedAt, Progress, Shares, Part, Like;
    ProgressStep(m0, m, m', s, d, level, n, sound);
  }

  lemma AbsentCopied(m: Mem, s: nat, d: nat, level: nat, n: nat)
    requires HasTable(m, s, level) && HasTable(m, d, level) && n < ENTRIES && !m.tables[s][n].p && !m.tables[d][n].p
    ensures CopiedAt(m, s, d, level, n)
  {
  }

  lemma StepNone(m0: Mem, m: Mem, s: nat, level: nat, n: nat, sound: bool)
    requires HasTable(m0, s, level) && n < ENTRIES && Bounded(m) && (sound ==> Sound(m))
    requires forall f: nat :: StepUses(m0, s, level, n)(f) == 0
    ensures Shares(m0, m, m, s, level, n, sound)
  {
    hide Sound, Owners;
    forall f: nat ensures StepOwners(m0, s, level, n)(f) == 0 { StepOwnersAre(m0, s, level, n, f); }
  }

  /** A step that is nothing to what counts. */
  lemma StepPlain(m0: Mem, m: Mem, m': Mem, s: nat, level: nat, n: nat, sound: bool)
    requires HasTable(m0, s, level) && n < ENTRIES && Added(m, m', NoUses()) && (sound ==> NoOwner(m, m'))
    requires forall f: nat :: StepUses(m0, s, level, n)(f) == 0
    ensures Shares(m0, m, m', s, level, n, sound)
  {
    hide Added, Sound, Owners, AllCounted;
    forall f: nat ensures StepOwners(m0, s, level, n)(f) == 0 { StepOwnersAre(m0, s, level, n, f); }
    AddedSame(m, m', NoUses(), StepUses(m0, s, level, n));
  }

  /** A step that changes `s` and `d` only stays within their part. */
  lemma PartStep(m0: Mem, m: Mem, m': Mem, s: nat, d: nat, level: nat)
    requires ChangedIn(m0, m, Part(m0, s, d, level)) && ChangedIn(m, m', {s, d}) && ShapeKept(m0, m, d)
    ensures ChangedIn(m0, m', Part(m0, s, d, level))
  {
  }

  lemma KernelPage(m0: Mem, m: Mem, s: nat, d: nat, n: nat, sound: bool)
    requires Progress(m0, m, s, d, 1, n, sound) && n < ENTRIES && Pair(m0, s, d, 1, sound) && Pair(m, s, d, 1, sound)
    requires m.tables[s][n].p && !m.tables[s][n].u
    ensures var m' := m.(tables := Store(m.tables, d, n, m.tables[s][n]));
            Progress(m0, m', s, d, 1, n + 1, sound) && VmOk(m'.tables, m'.nodes, m'.free)
  {
    var e := m.tables[s][n];
    var m' := m.(tables := Store(m.tables, d, n, e));
    NextEntryIs(m0, m, s, d, 1, n, sound);
    LeafTree(m.tables, m.nodes, d, n, e);
    assert ShapeKept(m, m', d);
    TookNone(m.base, m.free, m.refs);
    TakenAdds(m, m');
    hide Added, Owners, AllCounted, ShapeKept, Progress, Sound, Part;
    if sound { PlainStored(m, d, n, e); }
    StepPlain(m0, m, m', s, 1, n, sound);
    EntryDone(m0, m, m', s, d, 1, n, sound, e);
  }

  lemma PlainStored(m: Mem, d: nat, n: nat, e: Pte)
    requires Sound(m) && HasTable(m, d, 1) && n < ENTRIES && !m.tables[d][n].p && e.p && !e.u
    ensures NoOwner(m, m.(tables := Store(m.tables, d, n, e)))
  {
    var l := Leaf(d, n);
    var m' := m.(tables := Store(m.tables, d, n, e));
    StoreSound(m, l, e);
    OthersKept(m, l, e);
    hide Sound, Owners, AllCounted;
    forall f
      ensures Owners(m', f) == Owners(m, f)
    {
      OwnersAre(m, f);
      OwnersAre(m', f);
      assert forall x :: Owns(m, x, f) <==> Owns(m', x, f);
    }
  }

  lemma SharedPage(m0: Mem, m: Mem, s: nat, d: nat, n: nat, sound: bool)
    requires Progress(m0, m, s, d, 1, n, sound) && n < ENTRIES && Pair(m0, s, d, 1, sound) && Pair(m, s, d, 1, sound)
    requires m.tables[s][n].p && m.tables[s][n].u
    ensures var m' := SharedTo(m, Leaf(s, n), Leaf(d, n));
            Progress(m0, m', s, d, 1, n + 1, sound) && VmOk(m'.tables, m'.nodes, m'.free)
  {
    var m' := SharedTo(m, Leaf(s, n), Leaf(d, n));
    NextEntryIs(m0, m, s, d, 1, n, sound);
    SharedShape(m, s, d, n);
    hide VmOk, ShapeKept, ChangedIn, Sound, CopiedAt, Progress, Shares, Part, Like, Shared;
    PageShared(m0, m, s, d, n, sound);
    EntryDone(m0, m, m', s, d, 1, n, sound, Shared(m.tables[s][n]));
  }

  /** One reference more, and one owner more where the page counts. */
  lemma PageShared(m0: Mem, m: Mem, s: nat, d: nat, n: nat, sound: bool)
    requires HasTable(m0, s, 1) && Pair(m, s, d, 1, sound) && n < ENTRIES && !m.tables[d][n].p
    requires m.tables[s][n].p && m.tables[s][n].u && m.nodes[s] == m0.nodes[s]
    requires Like(m0.tables[s][n], m.tables[s][n], 1)
    requires var m' := SharedTo(m, Leaf(s, n), Leaf(d, n)); VmOk(m'.tables, m'.nodes, m'.free)
    ensures Shares(m0, m, SharedTo(m, Leaf(s, n), Leaf(d, n)), s, 1, n, sound)
  {
    var m' := SharedTo(m, Leaf(s, n), Leaf(d, n));
    PageAdds(m0, m, s, d, n);
    hide Added;
    if sound {
      if m.nodes[s].own {
        OwnPageShared(m0, m, s, d, n);
      } else {
        ForeignPage(m, m', s, d, n, StepUses(m0, s, 1, n));
        forall f: nat ensures StepOwners(m0, s, 1, n)(f) == 0 { StepOwnersAre(m0, s, 1, n, f); }
      }
    }
  }

  lemma PageAdds(m0: Mem, m: Mem, s: nat, d: nat, n: nat)
    requires HasTable(m0, s, 1) && HasTable(m, s, 1) && HasTable(m, d, 1) && n < ENTRIES && Bounded(m)
    requires m.tables[s][n].p && m.tables[s][n].u && Like(m0.tables[s][n], m.tables[s][n], 1)
    ensures Added(m, SharedTo(m, Leaf(s, n), Leaf(d, n)), StepUses(m0, s, 1, n))
  {
  }

  lemma OwnPageShared(m0: Mem, m: Mem, s: nat, d: nat, n: nat)
    requires HasTable(m0, s, 1) && Pair(m, s, d, 1, true) && n < ENTRIES && !m.tables[d][n].p && m.nodes[s].own
    requires m.tables[s][n].p && m.tables[s][n].u && m.nodes[s] == m0.nodes[s]
    requires Like(m0.tables[s][n], m.tables[s][n], 1)
    requires var m' := SharedTo(m, Leaf(s, n), Leaf(d, n)); VmOk(m'.tables, m'.nodes, m'.free)
    ensures var m' := SharedTo(m, Leaf(s, n), Leaf(d, n));
            StaysSound(m, m') && forall f: nat :: |Owners(m', f)| == |Owners(m, f)| + StepOwners(m0, s, 1, n)(f)
  {
    ShareSound(m, Leaf(s, n), Leaf(d, n));
    OwnersAre(m, m.tables[s][n].frame);
    assert Leaf(d, n) !in Owners(m, m.tables[s][n].frame);
    hide Sound, Owners, AllCounted, Added, VmOk, SharedTo, IsUserLeaf, StepOwners, Like;
    var m' := SharedTo(m, Leaf(s, n), Leaf(d, n));
    forall f: nat
      ensures |Owners(m', f)| == |Owners(m, f)| + StepOwners(m0, s, 1, n)(f)
    {
      OneStepOwner(m0, m, s, n, f);
    }
  }

  lemma OneStepOwner(m0: Mem, m: Mem, s: nat, n: nat, f: nat)
    requires HasTable(m0, s, 1) && HasTable(m, s, 1) && n < ENTRIES && m.nodes[s].own && m.nodes[s] == m0.nodes[s]
    requires m.tables[s][n].p && m.tables[s][n].u && Like(m0.tables[s][n], m.tables[s][n], 1)
    ensures StepOwners(m0, s, 1, n)(f) == if f == m.tables[s][n].frame then 1 else 0
  {
    StepOwnersAre(m0, s, 1, n, f);
    assert m0.tables[s][n].u == m.tables[s][n].u;
  }

  lemma ForeignPage(m: Mem, m': Mem, s: nat, d: nat, n: nat, uses: nat -> nat)
    requires Sound(m) && HasTable(m, s, 1) && HasTable(m, d, 1) && s != d && n < ENTRIES
    requires !m.nodes[s].own && !m.nodes[d].own
    requires m' == SharedTo(m, Leaf(s, n), Leaf(d, n)) && VmOk(m'.tables, m'.nodes, m'.free) && Added(m, m', uses)
    ensures Sound(m') && forall f :: Owners(m', f) == Owners(m, f)
  {
    hide VmOk, Owners, LeafSound, Added;
    assert NoHugeOwn(m'.tables, m'.nodes);
    OtherTablesSound(m, m', uses);
  }

  lemma SharedShape(m: Mem, s: nat, d: nat, n: nat)
    requires Pair(m, s, d, 1, false) && n < ENTRIES && m.tables[s][n].p && m.tables[s][n].u && !m.tables[d][n].p
    ensures var m' := SharedTo(m, Leaf(s, n), Leaf(d, n));
            && ShapeKept(m, m', d) && ChangedIn(m, m', {s, d}) && VmOk(m'.tables, m'.nodes, m'.free)
            && HasTable(m', d, 1) && HasTable(m', s, 1) && CopiedAt(m', s, d, 1, n)
            && m'.tables[d] == m.tables[d][n := Shared(m.tables[s][n])]
  {
    var e := Shared(m.tables[s][n]);
    LeafTree(m.tables, m.nodes, s, n, e);
    LeafTree(Store(m.tables, s, n, e), m.nodes, d, n, e);
    FromTree(m.tables, m.nodes);
    hide TreeOk;
  }

  lemma CountsBounded(vm: AddressSpaces)
    requires vm.pmm.Valid()
    ensures Bounded(vm.Now())
  {
  }

  /** The last level: every user page is shared, every kernel page copied over as it is. */
  method ClonePt(vm: AddressSpaces, s: nat, d: nat, ghost sound: bool)
    requires vm.Valid() && Pair(vm.Now(), s, d, 1, sound)
    requires forall j | 0 <= j < ENTRIES :: !vm.tables[d][j].p
    modifies vm, vm.pmm.refs
    ensures vm.Valid() && vm.data == old(vm.data)
    ensures Progress(old(vm.Now()), vm.Now(), s, d, 1, ENTRIES, sound)
  {
    hide FrameManager.Valid, FrameManager.Free, VmOk, Progress, CopiedAt, Sound, ShapeKept;
    vm.pmm.FromValid();
    ghost var m0 := vm.Now();
    ProgressStart(m0, s, d, 1, sound);
    for i := 0 to ENTRIES
      invariant vm.Valid() && vm.data == old(vm.data) && Progress(m0, vm.Now(), s, d, 1, i, sound)
    {
      ghost var m := vm.Now();
      ProgressHas(m0, m, s, d, 1, i, sound);
      var e := vm.tables[s][i];
      if !e.p { Skipped(m0, m, s, d, 1, i, sound); continue; }
      if !e.u {
        vm.tables := Store(vm.tables, d, i, e);
        KernelPage(m0, m, s, d, i, sound);
        continue;
      }
      vm.pmm.FrameInc(e.frame);
      vm.tables := Store(vm.tables, s, i, Shared(e));
      vm.tables := Store(vm.tables, d, i, Shared(e));
      SharedPage(m0, m, s, d, i, sound);
    }
  }

  /** One reference more to each of the 512 frames of a huge page. */
  method IncAll(vm: AddressSpaces, frame: nat)
    requires vm.pmm.Valid()
    modifies vm.pmm.refs
    ensures vm.pmm.Valid() && vm.pmm.Free() == old(vm.pmm.Free())
    ensures Added(old(vm.Now()), vm.Now(), SpanUses(frame, ENTRIES))
  {
    hide FrameManager.Free, FrameManager.Valid;
    vm.pmm.FromValid();
    CountsBounded(vm);
    for j := 0 to ENTRIES
      invariant vm.pmm.Valid() && vm.pmm.Free() == old(vm.pmm.Free()) && Bounded(vm.Now())
      invariant forall f: nat | old(vm.Now()).base <= f < old(vm.Now()).base + vm.pmm.refs.Length ::
                  RefAt(vm.pmm.refs[..], vm.pmm.memBase, f) ==
                  Plus(RefAt(old(vm.pmm.refs[..]), vm.pmm.memBase, f), SpanUses(frame, j)(f))
    {
      vm.pmm.FrameInc(frame + j);
      CountsBounded(vm);
    }
  }

  /** A huge page is shared; that does not happen below private slots. */
  lemma HugePage(m0: Mem, m: Mem, s: nat, d: nat, n: nat, m': Mem, sound: bool)
    requires Progress(m0, m, s, d, 2, n, sound) && n < ENTRIES && Pair(m0, s, d, 2, sound) && Pair(m, s, d, 2, sound)
    requires m.tables[s][n].p && m.tables[s][n].ps && Added(m, m', SpanUses(m.tables[s][n].frame, ENTRIES))
    requires m'.tables == Store(Store(m.tables, s, n, Shared(m.tables[s][n])), d, n, Shared(m.tables[s][n]))
    requires m'.nodes == m.nodes && m'.free == m.free
    ensures VmOk(m'.tables, m'.nodes, m'.free) && Progress(m0, m', s, d, 2, n + 1, sound)
  {
    NextEntryIs(m0, m, s, d, 2, n, sound);
    HugeShape(m, s, d, n, m');
    HugeShared(m0, m, m', s, d, n, sound);
    hide VmOk, ShapeKept, ChangedIn, Sound, CopiedAt, Progress, Shares, Part, Like, Shared;
    EntryDone(m0, m, m', s, d, 2, n, sound, Shared(m.tables[s][n]));
  }

  lemma HugeShared(m0: Mem, m: Mem, m': Mem, s: nat, d: nat, n: nat, sound: bool)
    requires HasTable(m0, s, 2) && Pair(m, s, d, 2, sound) && n < ENTRIES && m.nodes[s] == m0.nodes[s]
    requires m.tables[s][n].p && m.tables[s][n].ps && Added(m, m', SpanUses(m.tables[s][n].frame, ENTRIES))
    requires Like(m0.tables[s][n], m.tables[s][n], 2)
    requires m'.tables == Store(Store(m.tables, s, n, Shared(m.tables[s][n])), d, n, Shared(m.tables[s][n]))
    requires m'.nodes == m.nodes && m'.free == m.free && VmOk(m'.tables, m'.nodes, m'.free)
    ensures Shares(m0, m, m', s, 2, n, sound)
  {
    hide Added, VmOk;
    AddedSame(m, m', SpanUses(m.tables[s][n].frame, ENTRIES), StepUses(m0, s, 2, n));
    hide Owners, LeafSound;
    if sound {
      assert !m.nodes[s].own && !m.nodes[d].own;
      assert NoHugeOwn(m'.tables, m'.nodes);
      OtherTablesSound(m, m', StepUses(m0, s, 2, n));
      forall f: nat ensures StepOwners(m0, s, 2, n)(f) == 0 { StepOwnersAre(m0, s, 2, n, f); }
    }
  }

  lemma HugeShape(m: Mem, s: nat, d: nat, n: nat, m': Mem)
    requires Pair(m, s, d, 2, false) && n < ENTRIES && m.tables[s][n].p && m.tables[s][n].ps && !m.tables[d][n].p
    requires m'.tables == Store(Store(m.tables, s, n, Shared(m.tables[s][n])), d, n, Shared(m.tables[s][n]))
    requires m'.nodes == m.nodes && m'.free == m.free
    ensures VmOk(m'.tables, m'.nodes, m'.free) && ShapeKept(m, m', d) && ChangedIn(m, m', {s, d})
    ensures HasTable(m', s, 2) && HasTable(m', d, 2) && CopiedAt(m', s, d, 2, n)
    ensures m'.tables[d] == m.tables[d][n := Shared(m.tables[s][n])]
  {
    var e := Shared(m.tables[s][n]);
    FromTree(m.tables, m.nodes);
    assert IsTable(s, m.tables, m.nodes) && IsTable(d, m.tables, m.nodes);
    ReflagTree(m.tables, m.nodes, s, n, e);
    HugeTree(Store(m.tables, s, n, e), m.nodes, d, n, e);
    hide TreeOk, IsTable;
  }

  lemma HugeTree(tables: Tables, nodes: Nodes, t: nat, i: nat, e: Pte)
    requires TreeOk(tables, nodes) && t in tables && nodes[t].level == 2 && i < ENTRIES && e.p && e.ps
    ensures IsTable(t, tables, nodes) && TreeOk(Store(tables, t, i, e), nodes)
  {
    assert IsTable(t, tables, nodes);
    var tables' := Store(tables, t, i, e);
    assert forall x <- tables :: IsTable(x, tables, nodes) ==> IsTable(x, tables', nodes);
    forall x, j | x in tables' && 0 <= j < ENTRIES
      ensures EntryOk(x, j, tables', nodes)
    {
      assert EntryOk(x, j, tables, nodes);
    }
  }

  /** A zeroed table for the child, and plain flags for both entries. */
  method LinkChild(vm: AddressSpaces, s: nat, d: nat, i: nat, ghost s4: nat, ghost d4: nat, ghost own: bool,
      ghost sound: bool) returns (a: Allocation)
    requires vm.Valid() && d in vm.nodes && vm.nodes[d].level >= 2 && Pair(vm.Now(), s, d, vm.nodes[d].level, sound)
    requires i < ENTRIES
    requires vm.nodes[d].level == 4 ==> i >= UPPER && s4 == s && d4 == d
    requires IsP4(vm.Now(), s4) && IsP4(vm.Now(), d4)
    requires vm.tables[s][i].p && !vm.tables[s][i].ps && !vm.tables[d][i].p
    requires if vm.nodes[d].level < 4 then own == vm.nodes[d].own else own ==> vm.nodes[d].own
    modifies vm, vm.pmm`freeFrames, vm.pmm`hint, vm.pmm.bm, vm.pmm.refs
    ensures a == OutOfMemory ==> vm.pmm.Free() == {}
    ensures a.Frame? ==>
              && vm.Valid() && vm.data == old(vm.data) && (sound ==> NoOwner(old(vm.Now()), vm.Now()))
              && Added(old(vm.Now()), vm.Now(), NoUses())
              && a.frame !in old(vm.tables) && 0 < a.frame < FRAME_LIMIT
              && ShapeKept(old(vm.Now()), vm.Now(), d) && ChangedIn(old(vm.Now()), vm.Now(), {s, d})
              && vm.nodes == old(vm.nodes)[a.frame := ChildNode(d, i, old(vm.nodes)[d], own)]
              && d in vm.tables && vm.tables[d] == old(vm.tables)[d][i := Make(a.frame, TABLE_FLAGS)]
              && s in vm.tables
              && vm.tables[s] == old(vm.tables)[s][i := Make(old(vm.tables)[s][i].frame, TABLE_FLAGS)]
              && a.frame in vm.tables && vm.tables[a.frame] == EmptyTable()
  {
    hide FrameManager.Valid, FrameManager.Free, VmOk, Sound, ShapeKept, ChangedIn, NoOwner, Owners, EmptyTable, Added;
    vm.pmm.FromValid();
    vm.pmm.FreeBits();
    ghost var m := vm.Now();
    FreeFrames(m);
    a := vm.pmm.AllocNoLock();
    if a == OutOfMemory { return; }
    var c := a.frame;
    LinkAsSound(m, s, d, i, c, s4, d4, own, sound);
    vm.tables := vm.tables[c := EmptyTable()];
    vm.tables := Store(vm.tables, d, i, Make(c, TABLE_FLAGS));
    vm.tables := Store(vm.tables, s, i, Make(vm.tables[s][i].frame, TABLE_FLAGS));
    vm.nodes := vm.nodes[c := ChildNode(d, i, vm.nodes[d], own)];
    assert vm.Now() == LinkedAs(m, s, d, i, c, own);
  }

  /** What linking a child establishes for cloning into it. */
  lemma ChildPair(m: Mem, m1: Mem, s: nat, d: nat, level: nat, i: nat, c: nat, own: bool, sound: bool)
    requires level >= 2 && Pair(m, s, d, level, sound) && i < ENTRIES && ShapeKept(m, m1, d)
    requires VmOk(m1.tables, m1.nodes, m1.free) && Added(m, m1, NoUses())
    requires sound ==> NoOwner(m, m1)
    requires level == 4 ==> i >= UPPER
    requires m.tables[s][i].p && !m.tables[s][i].ps && c !in m.tables && own == OwnBelow(m, s, level, i)
    requires m1.nodes == m.nodes[c := ChildNode(d, i, m.nodes[d], own)]
    requires c in m1.tables && m1.tables[c] == EmptyTable()
    ensures Pair(m1, m.tables[s][i].frame, c, level - 1, sound)
    ensures forall j | 0 <= j < ENTRIES :: !m1.tables[c][j].p
  {
    assert IsTable(s, m.tables, m.nodes) && EntryOk(s, i, m.tables, m.nodes);
    var t := m.tables[s][i].frame;
    assert IsTable(t, m.tables, m.nodes);
    hide Sound, Owners;
  }

  /** What was changed below a child was changed below its parent. */
  lemma PartOfChild(m0: Mem, m: Mem, m1: Mem, m2: Mem, s: nat, d: nat, level: nat, n: nat, c: nat)
    requires TreeOk(m0.tables, m0.nodes) && HasTable(m0, s, level) && HasTable(m, s, level) && HasTable(m0, d, level)
    requires s != d && level >= 2
    requires First(level) <= n < ENTRIES && m.tables[s][n].p && !m.tables[s][n].ps && c !in m.nodes
    requires ShapeKept(m0, m, d) && ShapeKept(m, m1, d) && ChangedIn(m0, m, Part(m0, s, d, level))
    requires ChangedIn(m, m1, {s, d})
    requires ChangedIn(m1, m2, Part(m1, m.tables[s][n].frame, c, level - 1)) && m1.nodes.Keys == m.nodes.Keys + {c}
    ensures ChangedIn(m0, m2, Part(m0, s, d, level))
  {
    ShapeTwice(m0, m, m1, d, d);
    var t := m.tables[s][n].frame;
    assert Like(m0.tables[s][n], m.tables[s][n], level) && EntryOk(s, n, m0.tables, m0.nodes);
    BelowHas(m0.tables, s, level, First(level), ENTRIES, n);
    assert IsTable(t, m0.tables, m0.nodes);
    BelowKept(m0, m1, d, t, level - 1, 0, ENTRIES);
    hide TreeOk, TablesBelow;
    assert First(level - 1) == 0;
    forall x <- m0.nodes | x !in Part(m0, s, d, level)
      ensures x in m0.tables && x in m2.tables && m2.tables[x] == m0.tables[x]
    {
      assert x in m.nodes && x in m1.nodes && x != c;
      assert x !in Part(m1, t, c, level - 1);
    }
  }

  /** The child was filled: one more entry of the parent is done. */
  lemma ChildDone(m0: Mem, m: Mem, m1: Mem, m2: Mem, s: nat, d: nat, level: nat, n: nat, c: nat, own: bool,
      sound: bool)
    requires Progress(m0, m, s, d, level, n, sound) && Pair(m0, s, d, level, sound) && Pair(m, s, d, level, sound)
    requires First(level) <= n < ENTRIES && level >= 2
    requires m.tables[s][n].p && !m.tables[s][n].ps && c !in m.tables && c < FRAME_LIMIT
    requires ShapeKept(m, m1, d) && ChangedIn(m, m1, {s, d}) && (sound ==> NoOwner(m, m1)) && Added(m, m1, NoUses())
    requires d in m1.tables && m1.tables[d] == m.tables[d][n := Make(c, TABLE_FLAGS)]
    requires s in m1.tables && m1.tables[s] == m.tables[s][n := Make(m.tables[s][n].frame, TABLE_FLAGS)]
    requires m1.nodes == m.nodes[c := ChildNode(d, n, m.nodes[d], own)] && c in m1.tables
    requires own == OwnBelow(m, s, level, n)
    requires Progress(m1, m2, m.tables[s][n].frame, c, level - 1, ENTRIES, sound)
    ensures Progress(m0, m2, s, d, level, n + 1, sound)
  {
    FromTree(m.tables, m.nodes);
    PartOfChild(m0, m, m1, m2, s, d, level, n, c);
    ShapeTwice(m, m1, m2, d, c);
    ShapeTwice(m0, m, m2, d, d);
    ShapeTwice(m0, m, m1, d, d);
    ChildKnown(m, s, level, n);
    NoTopsBelow(m, m1, m2, c);
    hide Sound, AllCounted, ChangedIn, VmOk, Owners, Added;
    ProgressEnds(m1, m2, m.tables[s][n].frame, c, level - 1, sound);
    ChildCopied(m, m1, m2, s, d, level, n, c, own);
    ChildShares(m0, m, m1, m2, s, d, level, n, c, sound);
    ProgressStep(m0, m, m2, s, d, level, n, sound);
  }

  lemma ChildKnown(m: Mem, s: nat, level: nat, n: nat)
    requires VmOk(m.tables, m.nodes, m.free) && HasTable(m, s, level) && n < ENTRIES && level >= 2
    ensures m.tables[s][n].p && !m.tables[s][n].ps ==> m.tables[s][n].frame in m.nodes
  {
    assert EntryOk(s, n, m.tables, m.nodes);
  }

  lemma NoTopsBelow(m: Mem, m1: Mem, m2: Mem, c: nat)
    requires m1.nodes.Keys == m.nodes.Keys + {c} && NoNewTop(m1, m2) && c in m1.nodes && m1.nodes[c].level < 4
    requires c in m2.nodes && m2.nodes[c] == m1.nodes[c]
    ensures NoNewTop(m, m2)
  {
  }

  /** What the child's tables add to the counts is what the entry stands for. */
  lemma ChildShares(m0: Mem, m: Mem, m1: Mem, m2: Mem, s: nat, d: nat, level: nat, n: nat, c: nat, sound: bool)
    requires VmOk(m0.tables, m0.nodes, m0.free) && HasTable(m0, s, level) && HasTable(m0, d, level) && s != d
    requires HasTable(m, s, level) && First(level) <= n < ENTRIES && level >= 2
    requires m.tables[s][n].p && !m.tables[s][n].ps && ShapeKept(m0, m, d) && ShapeKept(m0, m1, d)
    requires (sound ==> NoOwner(m, m1)) && Added(m, m1, NoUses())
    requires Progress(m1, m2, m.tables[s][n].frame, c, level - 1, ENTRIES, sound)
    ensures Shares(m0, m, m2, s, level, n, sound)
  {
    var t: nat := m.tables[s][n].frame;
    ProgressCounts(m1, m2, t, c, level - 1, sound);
    AllChildUses(m0, m, m1, s, d, level, n, t);
    hide *;
    ChildSum(m0, m, m1, m2, s, level, n, t, sound);
  }

  lemma AllChildUses(m0: Mem, m: Mem, m1: Mem, s: nat, d: nat, level: nat, n: nat, t: nat)
    requires VmOk(m0.tables, m0.nodes, m0.free) && HasTable(m0, s, level) && HasTable(m0, d, level) && s != d
    requires HasTable(m, s, level) && First(level) <= n < ENTRIES && level >= 2
    requires m.tables[s][n].p && !m.tables[s][n].ps && ShapeKept(m0, m, d) && ShapeKept(m0, m1, d)
    requires HasTable(m1, t, level - 1) && t == m.tables[s][n].frame
    ensures forall f: nat :: Uses(m1.tables, t, level - 1, 0, ENTRIES, f) == StepUses(m0, s, level, n)(f)
    ensures forall f: nat :: OwnUses(m1, t, level - 1, ENTRIES, f) == StepOwners(m0, s, level, n)(f)
  {
    forall f: nat
      ensures Uses(m1.tables, t, level - 1, 0, ENTRIES, f) == StepUses(m0, s, level, n)(f)
      ensures OwnUses(m1, t, level - 1, ENTRIES, f) == StepOwners(m0, s, level, n)(f)
    {
      ChildUses(m0, m, m1, s, d, level, n, f);
    }
  }

  lemma ChildSum(m0: Mem, m: Mem, m1: Mem, m2: Mem, s: nat, level: nat, n: nat, t: nat, sound: bool)
    requires HasTable(m0, s, level) && n < ENTRIES && level >= 2 && HasTable(m1, t, level - 1)
    requires (sound ==> NoOwner(m, m1)) && Added(m, m1, NoUses())
    requires Added(m1, m2, RangeUses(m1.tables, t, level - 1, 0, ENTRIES))
    requires sound ==> Sound(m2) && MoreOwners(m1, m2, t, level - 1, ENTRIES)
    requires forall f: nat :: Uses(m1.tables, t, level - 1, 0, ENTRIES, f) == StepUses(m0, s, level, n)(f)
    requires forall f: nat :: OwnUses(m1, t, level - 1, ENTRIES, f) == StepOwners(m0, s, level, n)(f)
    ensures Shares(m0, m, m2, s, level, n, sound)
  {
    AddedTwice(m, m1, m2, NoUses(), RangeUses(m1.tables, t, level - 1, 0, ENTRIES), StepUses(m0, s, level, n));
    hide Added, Sound, Owners, AllCounted, EntryUses;
    if sound {
      forall f: nat
        ensures |Owners(m2, f)| == |Owners(m, f)| + StepOwners(m0, s, level, n)(f)
      {
        assert Owners(m1, f) == Owners(m, f);
      }
    }
  }

  lemma ProgressCounts(m0: Mem, m: Mem, s: nat, d: nat, level: nat, sound: bool)
    requires Progress(m0, m, s, d, level, ENTRIES, sound) && level < 4
    ensures HasTable(m0, s, level) && Added(m0, m, RangeUses(m0.tables, s, level, 0, ENTRIES))
    ensures sound ==> Sound(m) && MoreOwners(m0, m, s, level, ENTRIES)
  {
    hide VmOk, ShapeKept, ChangedIn, Added, MoreOwners, CopiedAt, Sound;
  }

  lemma ChildUses(m0: Mem, m: Mem, m1: Mem, s: nat, d: nat, level: nat, n: nat, f: nat)
    requires VmOk(m0.tables, m0.nodes, m0.free) && HasTable(m0, s, level) && HasTable(m0, d, level) && s != d
    requires HasTable(m, s, level) && First(level) <= n < ENTRIES && level >= 2
    requires m.tables[s][n].p && !m.tables[s][n].ps && ShapeKept(m0, m, d) && ShapeKept(m0, m1, d)
    requires HasTable(m1, m.tables[s][n].frame, level - 1)
    ensures var t := m.tables[s][n].frame;
            && Uses(m1.tables, t, level - 1, 0, ENTRIES, f) == StepUses(m0, s, level, n)(f)
            && OwnUses(m1, t, level - 1, ENTRIES, f) == StepOwners(m0, s, level, n)(f)
  {
    var t: nat := m.tables[s][n].frame;
    assert Like(m0.tables[s][n], m.tables[s][n], level);
    VmTree(m0);
    assert IsTable(s, m0.tables, m0.nodes) && EntryOk(s, n, m0.tables, m0.nodes) && IsTable(t, m0.tables, m0.nodes);
    assert First(level - 1) == 0 && m1.nodes[t] == m0.nodes[t];
    hide VmOk, TreeOk, Uses, OwnUses;
    UsesKept(m0, m1, d, t, level - 1, 0, ENTRIES, f);
    OwnUsesBelow(m1, t, level - 1, ENTRIES, f);
    StepOwnersAre(m0, s, level, n, f);
  }

  lemma ChildCopied(m: Mem, m1: Mem, m2: Mem, s: nat, d: nat, level: nat, n: nat, c: nat, own: bool)
    requires HasTable(m, s, level) && HasTable(m, d, level) && level >= 2 && First(level) <= n < ENTRIES && s != d
    requires m.tables[s][n].p && !m.tables[s][n].ps && c !in m.nodes && c < FRAME_LIMIT
    requires ShapeKept(m, m1, d) && d in m1.tables && m1.tables[d] == m.tables[d][n := Make(c, TABLE_FLAGS)]
    requires s in m1.tables && m1.tables[s] == m.tables[s][n := Make(m.tables[s][n].frame, TABLE_FLAGS)]
    requires m1.nodes == m.nodes[c := ChildNode(d, n, m.nodes[d], own)] && c in m1.tables
    requires own == OwnBelow(m, s, level, n) && m.tables[s][n].frame in m.nodes
    requires ShapeKept(m, m2, d) && ShapeKept(m1, m2, c) && HasTable(m1, m.tables[s][n].frame, level - 1)
    requires IsCopy(m2, m.tables[s][n].frame, c, level - 1)
    ensures HasTable(m2, d, level) && HasTable(m2, s, level) && CopiedAt(m2, s, d, level, n)
    ensures m2.tables[d][n].p && m2.tables[d][n].frame == c
    ensures forall j | 0 <= j < ENTRIES && j != n ::
              m2.tables[d][j].p == m.tables[d][j].p && (m.tables[d][j].p ==>
                  Like(m.tables[d][j], m2.tables[d][j], level))
  {
    var t: nat := m.tables[s][n].frame;
    hide IsCopy, CopiedAt, ShapeKept, OwnBelow, Like, Make, ChildOf, ChildNode;
    NodesKept(m1, m2, c, t, level - 1);
    ChildLinked(m, m1, m2, s, d, level, n, c, own);
    ChildNodes(m, m1, m2, s, d, level, n, c, own);
    BothRelinked(m, m1, m2, s, d, level, n, c);
    LinkedCopy(m2, s, d, level, n, t, c);
  }

  lemma NodesKept(m1: Mem, m2: Mem, c: nat, t: nat, level: nat)
    requires ShapeKept(m1, m2, c) && HasTable(m1, t, level) && c in m1.nodes
    ensures t in m1.nodes && c in m2.nodes && m2.nodes[c] == m1.nodes[c]
  {
  }

  lemma ChildNodes(m: Mem, m1: Mem, m2: Mem, s: nat, d: nat, level: nat, n: nat, c: nat, own: bool)
    requires HasTable(m, s, level) && HasTable(m, d, level) && level >= 2 && n < ENTRIES && s != d && c !in m.nodes
    requires m.tables[s][n].p && !m.tables[s][n].ps && c in m2.nodes && c in m1.nodes && m2.nodes[c] == m1.nodes[c]
    requires m1.nodes == m.nodes[c := ChildNode(d, n, m.nodes[d], own)] && own == OwnBelow(m, s, level, n)
    requires ShapeKept(m, m2, d) && HasTable(m2, s, level) && m.tables[s][n].frame in m1.nodes
    requires m.tables[s][n].frame != c
    ensures m2.tables[s][n].p && !m2.tables[s][n].ps && m2.tables[s][n].frame == m.tables[s][n].frame
    ensures level == 4 ==>
              && m.tables[s][n].frame in m2.nodes && m2.nodes[c].own == m2.nodes[m.tables[s][n].frame].own
              && m2.nodes[c].parent == d && m2.nodes[c].idx == n
  {
    assert Like(m.tables[s][n], m2.tables[s][n], level);
  }

  /** Both entries have the flags that they were linked with, whatever was done below the child. */
  lemma BothRelinked(m: Mem, m1: Mem, m2: Mem, s: nat, d: nat, level: nat, n: nat, c: nat)
    requires HasTable(m, s, level) && HasTable(m, d, level) && level >= 2 && n < ENTRIES
    requires d in m1.tables && m1.tables[d] == m.tables[d][n := Make(c, TABLE_FLAGS)]
    requires s in m1.tables && m1.tables[s] == m.tables[s][n := Make(m.tables[s][n].frame, TABLE_FLAGS)]
    requires s != d && c !in m.nodes && m1.nodes.Keys == m.nodes.Keys + {c}
    requires s in m1.nodes && m1.nodes[s].level == level && d in m1.nodes && m1.nodes[d].level == level
    requires ShapeKept(m1, m2, c)
    ensures s in m2.tables && d in m2.tables && n < |m2.tables[s]| && n < |m2.tables[d]|
    ensures Relinked(m2.tables[s][n]) && Relinked(m2.tables[d][n])
  {
    assert Like(m1.tables[s][n], m2.tables[s][n], level) && Like(m1.tables[d][n], m2.tables[d][n], level);
  }

  lemma LinkedCopy(m: Mem, s: nat, d: nat, level: nat, n: nat, t: nat, c: nat)
    requires HasTable(m, s, level) && HasTable(m, d, level) && level >= 2 && First(level) <= n < ENTRIES
    requires m.tables[s][n].p && !m.tables[s][n].ps && m.tables[s][n].frame == t
    requires m.tables[d][n].p && !m.tables[d][n].ps && m.tables[d][n].frame == c && IsCopy(m, t, c, level - 1)
    requires Relinked(m.tables[s][n]) && Relinked(m.tables[d][n])
    requires level == 4 ==>
               && t in m.nodes && c in m.nodes && m.nodes[c].own == m.nodes[t].own
               && m.nodes[c].parent == d && m.nodes[c].idx == n
    ensures CopiedAt(m, s, d, level, n)
  {
    hide IsCopy;
  }

  lemma ProgressEnds(m0: Mem, m: Mem, s: nat, d: nat, level: nat, sound: bool)
    requires Progress(m0, m, s, d, level, ENTRIES, sound)
    ensures IsCopy(m, s, d, level) && ShapeKept(m0, m, d) && HasTable(m0, s, level)
  {
    hide VmOk, ShapeKept, ChangedIn, Added, MoreOwners;
  }

  /** The entry that links the child is still there after the child was filled. */
  lemma ChildLinked(m: Mem, m1: Mem, m2: Mem, s: nat, d: nat, level: nat, n: nat, c: nat, own: bool)
    requires HasTable(m, s, level) && HasTable(m, d, level) && n < ENTRIES && c !in m.nodes && c < FRAME_LIMIT
    requires d in m1.tables && m1.tables[d] == m.tables[d][n := Make(c, TABLE_FLAGS)]
    requires level >= 2 && m1.nodes == m.nodes[c := ChildNode(d, n, m.nodes[d], own)] && ShapeKept(m1, m2, c)
    requires ShapeKept(m, m2, d)
    ensures HasTable(m2, d, level) && HasTable(m2, s, level) && c in m2.nodes && m2.nodes[c] == m1.nodes[c]
    ensures m2.tables[d][n].p && !m2.tables[d][n].ps && m2.tables[d][n].frame == c
    ensures forall j | 0 <= j < ENTRIES && j != n ::
              m2.tables[d][j].p == m.tables[d][j].p && (m.tables[d][j].p ==>
                  Like(m.tables[d][j], m2.tables[d][j], level))
  {
    assert c != d && d in m1.nodes;
    var es := m.tables[d][n := Make(c, TABLE_FLAGS)];
    forall j | 0 <= j < ENTRIES
      ensures Like(es[j], m2.tables[d][j], level)
    {
      assert Like(m1.tables[d][j], m2.tables[d][j], m1.nodes[d].level);
    }
    assert Like(es[n], m2.tables[d][n], level);
  }

  /** The upper levels: every table below `s` gets a counterpart below `d`, down to the last level or to a huge page. */
  method CloneTable(vm: AddressSpaces, s: nat, d: nat, level: nat, ghost s4: nat, ghost d4: nat, ghost sound: bool)
      returns (ok: bool)
    requires vm.Valid() && 2 <= level <= 3 && Pair(vm.Now(), s, d, level, sound)
    requires forall j | 0 <= j < ENTRIES :: !vm.tables[d][j].p
    requires IsP4(vm.Now(), s4) && IsP4(vm.Now(), d4)
    modifies vm, vm.pmm`freeFrames, vm.pmm`hint, vm.pmm.bm, vm.pmm.refs
    ensures !ok ==> vm.pmm.Free() == {}
    ensures ok ==>
            && vm.Valid() && vm.data == old(vm.data)
            && Progress(old(vm.Now()), vm.Now(), s, d, level, ENTRIES, sound)
    decreases level
  {
    hide FrameManager.Valid, FrameManager.Free, VmOk, Progress, CopiedAt, Sound, ShapeKept, ChangedIn, NoOwner;
    hide EmptyTable, Part, Added, Bounded;
    vm.pmm.FromValid();
    ghost var m0 := vm.Now();
    ProgressStart(m0, s, d, level, sound);
    for i := 0 to ENTRIES
      invariant vm.Valid() && vm.data == old(vm.data) && Progress(m0, vm.Now(), s, d, level, i, sound)
    {
      ghost var m := vm.Now();
      ProgressHas(m0, m, s, d, level, i, sound);
      TopsKept(m0, m, d, s4);
      TopsKept(m0, m, d, d4);
      var e := vm.tables[s][i];
      if !e.p { Skipped(m0, m, s, d, level, i, sound); continue; }
      if level == 2 && e.ps {
        IncAll(vm, e.frame);
        ghost var a := vm.Now();
        vm.tables := Store(vm.tables, s, i, Shared(e));
        vm.tables := Store(vm.tables, d, i, Shared(e));
        SameCounts(m, a, vm.Now(), SpanUses(e.frame, ENTRIES));
        HugePage(m0, m, s, d, i, vm.Now(), sound);
        continue;
      }
      NotHuge(m, s, level, i);
      ghost var own := OwnBelow(m, s, level, i);
      var a := LinkChild(vm, s, d, i, s4, d4, own, sound);
      if a == OutOfMemory { return false; }
      ghost var m1 := vm.Now();
      ChildPair(m, m1, s, d, level, i, a.frame, own, sound);
      TopsKept(m, m1, d, s4);
      TopsKept(m, m1, d, d4);
      if level == 2 {
        ClonePt(vm, e.frame, a.frame, sound);
      } else {
        var deeper := CloneTable(vm, e.frame, a.frame, level - 1, s4, d4, sound);
        if !deeper { return false; }
      }
      ChildDone(m0, m, m1, vm.Now(), s, d, level, i, a.frame, own, sound);
    }
    return true;
  }

  lemma SameCounts(m: Mem, a: Mem, b: Mem, uses: nat -> nat)
    requires Added(m, a, uses) && b == a.(tables := b.tables)
    ensures Added(m, b, uses)
  {
  }

  lemma TopsKept(m: Mem, m': Mem, d: nat, x: nat)
    requires ShapeKept(m, m', d) && IsP4(m, x)
    ensures IsP4(m', x)
  {
  }

  /** Huge pages are mapped by tables of the second level only. */
  lemma NotHuge(m: Mem, s: nat, level: nat, i: nat)
    requires VmOk(m.tables, m.nodes, m.free) && HasTable(m, s, level) && level >= 2 && i < ENTRIES && m.tables[s][i].p
    ensures level != 2 ==> !m.tables[s][i].ps
  {
    assert IsTable(s, m.tables, m.nodes) && EntryOk(s, i, m.tables, m.nodes);
  }

  // ----- the top level -----

  /** A new, empty top-level table. */
  ghost function WithTop(m: Mem, d: nat, own: bool): Mem
    requires m.base <= d < m.base + |m.refs|
  {
    m.(tables := m.tables[d := EmptyTable()], nodes := m.nodes[d := Node(4, d, 0, own)],
       free := m.free - {d}, refs := m.refs[d - m.base := 1])
  }

  /** Steps that leave every entry that counts alone, and every count. */
  lemma TakenSound(m: Mem, m': Mem)
    requires Sound(m) && VmOk(m'.tables, m'.nodes, m'.free) && NoHugeOwn(m'.tables, m'.nodes)
    requires m'.base == m.base && m'.limit == m.limit && Untouched(m.base, m.free, m.refs, m'.free, m'.refs)
    requires Bounded(m) && Bounded(m')
    requires forall l :: IsUserLeaf(m', l) <==> IsUserLeaf(m, l)
    requires forall l | IsUserLeaf(m, l) :: At(m', l) == At(m, l)
    requires forall t <- m'.tables :: t in m.tables || t in m.free
    ensures NoOwner(m, m')
  {
    hide VmOk, NoHugeOwn, Sound, IsUserLeaf, Owners, AllCounted;
    TakenAdds(m, m');
    OtherTablesSound(m, m', NoUses());
  }

  lemma NewTop(m: Mem, d: nat, own: bool)
    requires VmOk(m.tables, m.nodes, m.free) && d in m.free && m.base <= d < m.base + |m.refs| && Bounded(m)
    ensures var m' := WithTop(m, d, own);
            && VmOk(m'.tables, m'.nodes, m'.free) && ShapeKept(m, m', d) && ChangedIn(m, m', {d})
            && d !in m.tables && d !in m.nodes && 0 < d < FRAME_LIMIT && (Sound(m) ==> NoOwner(m, m'))
            && HasTable(m', d, 4) && IsP4(m', d) && (forall j | 0 <= j < ENTRIES :: !m'.tables[d][j].p)
            && Added(m, m', NoUses())
  {
    var m' := WithTop(m, d, own);
    TookOne(m.base, m.free, m.refs, d);
    TakenAdds(m, m');
    forall t | t in m.tables
      ensures IsTable(t, m.tables, m.nodes) && IsTable(t, m'.tables, m'.nodes) && m'.nodes[t] == m.nodes[t]
      ensures m'.tables[t] == m.tables[t]
    {
    }
    forall t, j | t in m'.tables && 0 <= j < ENTRIES
      ensures EntryOk(t, j, m'.tables, m'.nodes)
    {
      if t in m.tables { assert EntryOk(t, j, m.tables, m.nodes); }
    }
    hide Owners, EntryOk, LeafSound, AllCounted, Added;
    if Sound(m) { TakenSound(m, m'); }
  }

  lemma TopPair(m: Mem, m': Mem, s: nat, d: nat, sound: bool)
    requires VmOk(m.tables, m.nodes, m.free) && IsP4(m, s) && d !in m.nodes && ShapeKept(m, m', d) && HasTable(m', d, 4)
    requires VmOk(m'.tables, m'.nodes, m'.free) && (sound ==> Sound(m')) && Bounded(m')
    requires forall j | 0 <= j < ENTRIES :: !m'.tables[d][j].p
    ensures Pair(m', s, d, 4, sound) && Progress(m', m', s, d, 4, 0, sound)
  {
    FromTree(m.tables, m.nodes);
    ProgressStart(m', s, d, 4, sound);
  }

  /** A lower-half slot of a top-level table is copied: both then share what hangs below it. */
  lemma ShareSlot(m0: Mem, m: Mem, s: nat, d: nat, n: nat, sound: bool)
    requires Progress(m0, m, s, d, 4, n, sound) && n < UPPER && Pair(m0, s, d, 4, sound) && Pair(m, s, d, 4, sound)
    ensures var m' := m.(tables := Store(m.tables, d, n, m.tables[s][n]));
            Progress(m0, m', s, d, 4, n + 1, sound) && VmOk(m'.tables, m'.nodes, m'.free)
  {
    var m' := m.(tables := Store(m.tables, d, n, m.tables[s][n]));
    SharedSlot(m, s, d, n);
    ShapeTwice(m0, m, m', d, d);
    PartStep(m0, m, m', s, d, 4);
    TookNone(m.base, m.free, m.refs);
    TakenAdds(m, m');
    hide Sound, VmOk, AllCounted, Added, Owners, ShapeKept, ChangedIn, CopiedAt, NoOwner, Shares;
    StepPlain(m0, m, m', s, 4, n, sound);
    SlotStored(m, d, n, m.tables[s][n]);
    ProgressStep(m0, m, m', s, d, 4, n, sound);
  }

  lemma SlotStored(m: Mem, d: nat, n: nat, e: Pte)
    requires d in m.tables && |m.tables[d]| == ENTRIES && n < ENTRIES
    ensures var tables' := Store(m.tables, d, n, e);
            forall j | 0 <= j < ENTRIES && j != n ::
              tables'[d][j] == m.tables[d][j] && Like(m.tables[d][j], tables'[d][j], 4)
  {
  }

  lemma SharedSlot(m: Mem, s: nat, d: nat, n: nat)
    requires Pair(m, s, d, 4, false) && n < UPPER && !m.tables[d][n].p
    ensures var m' := m.(tables := Store(m.tables, d, n, m.tables[s][n]));
            && VmOk(m'.tables, m'.nodes, m'.free) && ShapeKept(m, m', d) && ChangedIn(m, m', {s, d})
               && (Sound(m) ==> NoOwner(m, m'))
            && HasTable(m', s, 4) && HasTable(m', d, 4) && CopiedAt(m', s, d, 4, n)
  {
    LowerIsShared(m, s, n);
    FromTree(m.tables, m.nodes);
    assert IsTable(s, m.tables, m.nodes) && IsTable(d, m.tables, m.nodes);
    hide CopiedAt, ShapeKept, ChangedIn, NoOwner, Sound, EntryOk;
    SlotTree(m.tables, m.nodes, s, d, n);
    SlotShape(m, s, d, n);
    hide TreeOk;
    if Sound(m) { SlotSound(m, d, n, m.tables[s][n]); }
  }

  lemma SlotShape(m: Mem, s: nat, d: nat, n: nat)
    requires TreeOk(m.tables, m.nodes) && HasTable(m, s, 4) && HasTable(m, d, 4) && s != d && n < UPPER
    ensures var m' := m.(tables := Store(m.tables, d, n, m.tables[s][n]));
            && ShapeKept(m, m', d) && ChangedIn(m, m', {s, d}) && HasTable(m', s, 4) && HasTable(m', d, 4)
               && CopiedAt(m', s, d, 4, n)
  {
  }

  lemma SlotSound(m: Mem, d: nat, n: nat, e: Pte)
    requires Sound(m) && IsP4(m, d) && n < |m.tables[d]| && Bounded(m)
    requires TreeOk(Store(m.tables, d, n, e), m.nodes)
    ensures NoOwner(m, m.(tables := Store(m.tables, d, n, e)))
  {
    var m' := m.(tables := Store(m.tables, d, n, e));
    TookNone(m.base, m.free, m.refs);
    hide TreeOk, LeafSound, Owners, AllCounted, Counted;
    TakenSound(m, m');
  }

  /** A slot of one root is copied to another one: shared tables may have any number of slots leading to them. */
  lemma SlotTree(tables: Tables, nodes: Nodes, s: nat, d: nat, n: nat)
    requires TreeOk(tables, nodes) && s in tables && d in tables && nodes[s].level == 4 == nodes[d].level && n < ENTRIES
    requires IsTable(s, tables, nodes) && IsTable(d, tables, nodes)
    requires tables[s][n].p && tables[s][n].frame in nodes ==> !nodes[tables[s][n].frame].own
    ensures TreeOk(Store(tables, d, n, tables[s][n]), nodes)
  {
    var tables' := Store(tables, d, n, tables[s][n]);
    forall t | t in tables
      ensures IsTable(t, tables, nodes) && IsTable(t, tables', nodes)
    {
    }
    forall t, j | t in tables' && 0 <= j < ENTRIES
      ensures EntryOk(t, j, tables', nodes)
    {
      assert EntryOk(t, j, tables, nodes) && EntryOk(s, n, tables, nodes);
    }
  }

  /** What lies below the slots that a fork clones belongs to this root alone. */
  ghost predicate OwnsUpper(m: Mem, src: nat) {
    forall i | UPPER <= i < ENTRIES :: Private(m.tables, m.nodes, src, i)
  }

  lemma PrivateKept(m: Mem, m': Mem, d: nat, x: nat, i: nat)
    requires ShapeKept(m, m', d) && IsP4(m, x) && x != d && i < ENTRIES && Private(m.tables, m.nodes, x, i)
    requires TreeOk(m.tables, m.nodes)
    ensures Private(m'.tables, m'.nodes, x, i)
  {
    assert IsTable(x, m.tables, m.nodes);
    assert Like(m.tables[x][i], m'.tables[x][i], 4);
  }

  /** The slots of the lower half are as they were; of the first `n` those that lead anywhere are the child's, too. */
  ghost predicate LowSame(m0: Mem, m: Mem, s: nat, d: nat, n: nat) {
    forall j: nat | j < UPPER ::
      Entry(m, s, j) == Entry(m0, s, j) && (j < n && Entry(m0, s, j).p ==> Entry(m, d, j) == Entry(m0, s, j))
  }

  /**
   The child of a fork: a root with a copy of its own of everything from slot 256 on, in tables that were not there
   before, and the parent's lower half. Every frame in use gets as many references as it is mapped below the slots
   that are cloned.
   */
  ghost predicate IsFork(m: Mem, m': Mem, src: nat, dst: nat) {
    && dst !in m.nodes && 0 < dst < FRAME_LIMIT && IsP4(m', dst) && m'.nodes[dst].own && IsCopy(m', src, dst, 4)
    && ShapeKept(m, m', dst) && ChangedIn(m, m', Part(m, src, dst, 4)) && VmOk(m'.tables, m'.nodes, m'.free)
    && NewBelow(m, m', dst, ENTRIES) && (forall t <- m'.nodes | t !in m.nodes && t != dst :: m'.nodes[t].level < 4)
    && Added(m, m', RangeUses(m.tables, src, 4, UPPER, ENTRIES))
    && LowSame(m, m', src, dst, ENTRIES)
  }

  /** Cloning what hangs below a slot of the upper half does nothing to the roots themselves. */
  lemma RootsOut(m: Mem, m': Mem, t: nat, c: nat, x: nat)
    requires TreeOk(m.tables, m.nodes) && HasTable(m, t, 3) && HasTable(m, c, 3) && IsP4(m, x)
    requires ChangedIn(m, m', Part(m, t, c, 3))
    ensures x in m'.tables && m'.tables[x] == m.tables[x]
  {
    assert First(3) == 0;
    hide TreeOk, TablesBelow;
    if x in TablesBelow(m.tables, t, 3, 0, ENTRIES) { BelowLeadsUp(m.tables, m.nodes, t, 3, x); }
  }

  lemma LowFrom(m0: Mem, m1: Mem, m: Mem, s: nat, d: nat)
    requires LowSame(m1, m, s, d, ENTRIES) && s in m0.tables && s in m1.tables && m1.tables[s] == m0.tables[s]
    ensures LowSame(m0, m, s, d, ENTRIES)
  {
    assert forall j: nat :: Entry(m1, s, j) == Entry(m0, s, j);
  }

  lemma LowSameTwice(m0: Mem, m: Mem, m': Mem, s: nat, d: nat, n: nat)
    requires LowSame(m0, m, s, d, n) && LowKept(m, m', s) && LowKept(m, m', d) && n >= UPPER
    ensures LowSame(m0, m', s, d, n + 1)
  {
    hide Entry;
  }

  ghost predicate LowKept(m: Mem, m': Mem, x: nat) {
    forall j: nat | j < UPPER :: Entry(m', x, j) == Entry(m, x, j)
  }

  lemma LowSkipped(m0: Mem, m: Mem, s: nat, d: nat, n: nat)
    requires LowSame(m0, m, s, d, n) && s in m.tables && n < |m.tables[s]| && !m.tables[s][n].p
    ensures LowSame(m0, m, s, d, n + 1)
  {
  }

  lemma LowStored(m0: Mem, m: Mem, s: nat, d: nat, n: nat)
    requires LowSame(m0, m, s, d, n) && s != d && n < UPPER && s in m.tables && n < |m.tables[s]|
    requires d in m.tables && n < |m.tables[d]|
    ensures LowSame(m0, m.(tables := Store(m.tables, d, n, m.tables[s][n])), s, d, n + 1)
  {
    var m' := m.(tables := Store(m.tables, d, n, m.tables[s][n]));
    forall j: nat | j < UPPER
      ensures Entry(m', s, j) == Entry(m0, s, j)
      ensures j < n + 1 && Entry(m0, s, j).p ==> Entry(m', d, j) == Entry(m0, s, j)
    {
      assert Entry(m, s, j) == Entry(m0, s, j);
    }
  }

  /** Forking any root keeps the invariant, whoever shares its slots. */
  method CloneUserP4(vm: AddressSpaces, src: nat) returns (a: Allocation)
    requires vm.Valid() && IsP4(vm.Now(), src)
    modifies vm, vm.pmm`freeFrames, vm.pmm`hint, vm.pmm.bm, vm.pmm.refs
    ensures a == OutOfMemory ==> vm.pmm.Free() == {}
    ensures a.Frame? ==> vm.Valid() && vm.data == old(vm.data) && IsFork(old(vm.Now()), vm.Now(), src, a.frame)
    ensures a.Frame? && Sound(old(vm.Now())) ==>
              Sound(vm.Now()) && MoreOwners(old(vm.Now()), vm.Now(), src, 4, ENTRIES)
  {
    hide FrameManager.Valid, FrameManager.Free, VmOk, Progress, CopiedAt, Sound, ShapeKept, ChangedIn, NoOwner;
    hide EmptyTable, IsCopy, Part, Added, Bounded, MoreOwners, NewBelow;
    hide IsFork;
    vm.pmm.FromValid();
    vm.pmm.FreeBits();
    CountsBounded(vm);
    ghost var m0 := vm.Now();
    ghost var sound := Sound(m0);
    a := vm.pmm.AllocNoLock();
    if a == OutOfMemory { return; }
    var dst := a.frame;
    vm.tables := vm.tables[dst := EmptyTable()];
    vm.nodes := vm.nodes[dst := Node(4, dst, 0, true)];
    ghost var m1 := vm.Now();
    CountsBounded(vm);
    NewTop(m0, dst, true);
    FromNoOwner(m0, m1);
    TopPair(m0, m1, src, dst, sound);
    for i4 := 0 to ENTRIES
      invariant vm.Valid() && vm.data == old(vm.data) && Progress(m1, vm.Now(), src, dst, 4, i4, sound)
      invariant LowSame(m1, vm.Now(), src, dst, i4)
    {
      var ok := CloneSlot(vm, src, dst, i4, m1, sound);
      if !ok { return OutOfMemory; }
    }
    ForkDone(m0, m1, vm.Now(), src, dst, sound);
  }

  /** One slot: below 256 it is shared, from there on everything below it is cloned. */
  method CloneSlot(vm: AddressSpaces, src: nat, dst: nat, i4: nat, ghost m1: Mem, ghost sound: bool)
      returns (ok: bool)
    requires vm.Valid() && i4 < ENTRIES && Progress(m1, vm.Now(), src, dst, 4, i4, sound)
    requires Pair(m1, src, dst, 4, sound) && LowSame(m1, vm.Now(), src, dst, i4)
    requires dst in m1.nodes && m1.nodes[dst].own
    modifies vm, vm.pmm`freeFrames, vm.pmm`hint, vm.pmm.bm, vm.pmm.refs
    ensures !ok ==> vm.pmm.bm.Length == BM_WORDS && vm.pmm.Free() == {}
    ensures ok ==> vm.Valid() && vm.data == old(vm.data) && Progress(m1, vm.Now(), src, dst, 4, i4 + 1, sound)
    ensures ok ==> LowSame(m1, vm.Now(), src, dst, i4 + 1)
  {
    hide LowSame, Entry;
    hide FrameManager.Valid, FrameManager.Free, VmOk, Progress, Sound, ShapeKept, ChangedIn, NoOwner, Private, Added;
    hide Bounded;
    vm.pmm.FromValid();
    ghost var m := vm.Now();
    ProgressHas(m1, m, src, dst, 4, i4, sound);
    var e := vm.tables[src][i4];
    if !e.p {
      Skipped(m1, m, src, dst, 4, i4, sound);
      LowSkipped(m1, m, src, dst, i4);
      return true;
    }
    if i4 < UPPER {
      LowerIsShared(m, src, i4);
      LowStored(m1, m, src, dst, i4);
      vm.tables := Store(vm.tables, dst, i4, e);
      ShareSlot(m1, m, src, dst, i4, sound);
      return true;
    }
    StillOwn(m1, m, dst);
    ok := CloneUpper(vm, src, dst, i4, m1, sound);
    if ok { LowSameTwice(m1, m, vm.Now(), src, dst, i4); }
  }

  /** Everything below one slot of the upper half. */
  method CloneUpper(vm: AddressSpaces, src: nat, dst: nat, i4: nat, ghost m1: Mem, ghost sound: bool)
      returns (ok: bool)
    requires vm.Valid() && UPPER <= i4 < ENTRIES && Progress(m1, vm.Now(), src, dst, 4, i4, sound)
    requires Pair(m1, src, dst, 4, sound) && Pair(vm.Now(), src, dst, 4, sound) && vm.tables[src][i4].p
    requires !vm.tables[dst][i4].p
    requires vm.nodes[dst].own
    modifies vm, vm.pmm`freeFrames, vm.pmm`hint, vm.pmm.bm, vm.pmm.refs
    ensures !ok ==> vm.pmm.Free() == {}
    ensures ok ==> vm.Valid() && vm.data == old(vm.data) && Progress(m1, vm.Now(), src, dst, 4, i4 + 1, sound)
    ensures ok ==> LowKept(old(vm.Now()), vm.Now(), src) && LowKept(old(vm.Now()), vm.Now(), dst)
  {
    hide FrameManager.Valid, FrameManager.Free, VmOk, Progress, CopiedAt, Sound, ShapeKept, ChangedIn, NoOwner;
    hide EmptyTable, Part, Added, Bounded;
    vm.pmm.FromValid();
    ghost var m := vm.Now();
    var e := vm.tables[src][i4];
    NotHuge(m, src, 4, i4);
    ghost var own := OwnBelow(m, src, 4, i4);
    var c := LinkChild(vm, src, dst, i4, src, dst, own, sound);
    if c == OutOfMemory { return false; }
    ghost var m2 := vm.Now();
    ChildPair(m, m2, src, dst, 4, i4, c.frame, own, sound);
    TopsKept(m, m2, dst, src);
    TopsKept(m, m2, dst, dst);
    ok := CloneTable(vm, e.frame, c.frame, 3, src, dst, sound);
    if !ok { return false; }
    ProgressChanges(m2, vm.Now(), e.frame, c.frame, 3, sound);
    FromOk(m2);
    RootsOut(m2, vm.Now(), e.frame, c.frame, src);
    RootsOut(m2, vm.Now(), e.frame, c.frame, dst);
    ChildDone(m1, m, m2, vm.Now(), src, dst, 4, i4, c.frame, own, sound);
  }

  lemma ProgressChanges(m: Mem, m': Mem, s: nat, d: nat, level: nat, sound: bool)
    requires Progress(m, m', s, d, level, ENTRIES, sound)
    ensures ChangedIn(m, m', Part(m, s, d, level))
  {
    hide CopiedAt, Uses, TablesBelow;
  }

  lemma FromNoOwner(m: Mem, m': Mem)
    ensures NoOwner(m, m') ==>
              Sound(m') && (AllCounted(m) ==> AllCounted(m')) && forall f :: Owners(m', f) == Owners(m, f)
  {
  }

  lemma LowerIsShared(m: Mem, src: nat, i: nat)
    requires VmOk(m.tables, m.nodes, m.free) && IsP4(m, src) && i < UPPER
    ensures |m.tables[src]| == ENTRIES
    ensures m.tables[src][i].p && m.tables[src][i].frame in m.nodes ==> !m.nodes[m.tables[src][i].frame].own
  {
    assert IsTable(src, m.tables, m.nodes) && EntryOk(src, i, m.tables, m.nodes);
  }

  lemma StillOwn(m1: Mem, m: Mem, dst: nat)
    requires ShapeKept(m1, m, dst) && dst in m1.nodes && m1.nodes[dst].own
    ensures dst in m.nodes && m.nodes[dst].own
  {
  }

  lemma ForkDone(m0: Mem, m1: Mem, m: Mem, src: nat, dst: nat, sound: bool)
    requires VmOk(m0.tables, m0.nodes, m0.free) && IsP4(m0, src) && dst !in m0.nodes && 0 < dst < FRAME_LIMIT
    requires ShapeKept(m0, m1, dst) && ChangedIn(m0, m1, {dst}) && dst in m1.nodes && m1.nodes[dst].own
    requires m1.nodes.Keys == m0.nodes.Keys + {dst}
    requires Progress(m1, m, src, dst, 4, ENTRIES, sound) && Added(m0, m1, NoUses()) && (sound ==> NoOwner(m0, m1))
    requires LowSame(m1, m, src, dst, ENTRIES) && src in m1.tables && m1.tables[src] == m0.tables[src]
    ensures IsFork(m0, m, src, dst) && (sound ==> Sound(m) && MoreOwners(m0, m, src, 4, ENTRIES))
  {
    hide CopiedAt, Uses, TablesBelow;
    ShapeTwice(m0, m1, m, dst, dst);
    BelowKept(m0, m1, dst, src, 4, UPPER, ENTRIES);
    FromTree(m0.tables, m0.nodes);
    ForkCounts(m0, m1, m, src, dst, sound);
    hide Sound, TablesBelow, Added, MoreOwners, VmOk, CopiedAt, ShapeKept, NoOwner;
    AllCopied(m, src, dst);
    assert dst in m.nodes && m.nodes[dst].own by { StillOwn(m1, m, dst); }
    assert LowSame(m0, m, src, dst, ENTRIES) by { LowFrom(m0, m1, m, src, dst); }
    assert NewBelow(m0, m, dst, ENTRIES);
    assert forall t <- m.nodes | t !in m0.nodes && t != dst :: m.nodes[t].level < 4;
    assert IsP4(m, dst);
    assert ChangedIn(m0, m, Part(m0, src, dst, 4));
  }

  lemma AllCopied(m: Mem, s: nat, d: nat)
    requires HasTable(m, s, 4) && HasTable(m, d, 4) && forall j: nat | j < ENTRIES :: CopiedAt(m, s, d, 4, j)
    ensures IsCopy(m, s, d, 4)
  {
    hide CopiedAt;
  }

  lemma ForkCounts(m0: Mem, m1: Mem, m: Mem, src: nat, dst: nat, sound: bool)
    requires VmOk(m0.tables, m0.nodes, m0.free) && IsP4(m0, src) && dst !in m0.nodes && ShapeKept(m0, m1, dst)
    requires |m0.tables[src]| == ENTRIES
    requires Added(m0, m1, NoUses()) && Added(m1, m, RangeUses(m1.tables, src, 4, UPPER, ENTRIES))
    requires sound ==> NoOwner(m0, m1) && MoreOwners(m1, m, src, 4, ENTRIES)
    ensures Added(m0, m, RangeUses(m0.tables, src, 4, UPPER, ENTRIES))
    ensures sound ==> MoreOwners(m0, m, src, 4, ENTRIES)
  {
    hide Sound, AllCounted, Added, Owners, Uses, VmOk, OwnUses, ShapeKept;
    VmTree(m0);
    forall f: nat
      ensures Uses(m1.tables, src, 4, UPPER, ENTRIES, f) == Uses(m0.tables, src, 4, UPPER, ENTRIES, f)
      ensures HasTable(m1, src, 4) && OwnUses(m1, src, 4, ENTRIES, f) == OwnUses(m0, src, 4, ENTRIES, f)
    {
      UsesKept(m0, m1, dst, src, 4, UPPER, ENTRIES, f);
      OwnUsesKept(m0, m1, dst, src, ENTRIES, f);
    }
    AddedTwice(m0, m1, m, NoUses(), RangeUses(m1.tables, src, 4, UPPER, ENTRIES),
      RangeUses(m0.tables, src, 4, UPPER, ENTRIES));
  }

  lemma {:induction false} OwnUsesKept(m: Mem, m': Mem, d: nat, s: nat, n: nat, f: nat)
    requires TreeOk(m.tables, m.nodes) && ShapeKept(m, m', d) && HasTable(m, s, 4) && s != d && d !in m.nodes
    requires n <= ENTRIES
    ensures HasTable(m', s, 4) && OwnUses(m', s, 4, n, f) == OwnUses(m, s, 4, n, f)
    decreases n
  {
    if n > UPPER {
      OwnUsesKept(m, m', d, s, n - 1, f);
      EntryUsesKept(m, m', d, s, 4, n - 1, f);
      assert EntryOk(s, n - 1, m.tables, m.nodes);
      assert Like(m.tables[s][n - 1], m'.tables[s][n - 1], 4);
    }
  }

  /** A new root with the same entries as another one. */
  ghost predicate IsMirror(m: Mem, m': Mem, k: nat, n: nat, own: bool) {
    && IsP4(m, k) && n !in m.nodes && 0 < n < FRAME_LIMIT && VmOk(m'.tables, m'.nodes, m'.free)
    && m'.tables == m.tables[n := m.tables[k]] && m'.nodes == m.nodes[n := Node(4, n, 0, own)]
    && m'.base <= n < m'.base + m'.limit && RefAt(m'.refs, m'.base, n) == 1
  }

  /** `new_user_p4`: a new address space that shares all the kernel's slots, whatever hangs below them. */
  method NewUserP4(vm: AddressSpaces, kernelP4: nat) returns (a: Allocation)
    requires vm.Valid() && IsP4(vm.Now(), kernelP4) && !vm.nodes[kernelP4].own
    modifies vm, vm.pmm`freeFrames, vm.pmm`hint, vm.pmm.bm, vm.pmm.refs
    ensures a == OutOfMemory ==> vm.pmm.Free() == {}
    ensures a.Frame? ==>
            && vm.Valid() && vm.data == old(vm.data)
            && IsMirror(old(vm.Now()), vm.Now(), kernelP4, a.frame, true)
    ensures a.Frame? && Sound(old(vm.Now())) ==> StaysSound(old(vm.Now()), vm.Now())
  {
    a := CopyRoot(vm, kernelP4, true);
  }

  /** `vmm_init`: the kernel gets a root of its own with the slots that it booted with. */
  method VmmInit(vm: AddressSpaces, bootP4: nat) returns (a: Allocation)
    requires vm.Valid() && IsP4(vm.Now(), bootP4) && !vm.nodes[bootP4].own
    modifies vm, vm.pmm`freeFrames, vm.pmm`hint, vm.pmm.bm, vm.pmm.refs
    ensures a == OutOfMemory ==> vm.pmm.Free() == {}
    ensures a.Frame? ==>
            && vm.Valid() && vm.data == old(vm.data)
            && IsMirror(old(vm.Now()), vm.Now(), bootP4, a.frame, false)
    ensures a.Frame? && Sound(old(vm.Now())) ==> StaysSound(old(vm.Now()), vm.Now())
  {
    a := CopyRoot(vm, bootP4, false);
  }

  /** A zeroed frame becomes a root with the same 512 entries. */
  method CopyRoot(vm: AddressSpaces, k: nat, ghost own: bool) returns (a: Allocation)
    requires vm.Valid() && IsP4(vm.Now(), k) && !vm.nodes[k].own
    modifies vm, vm.pmm`freeFrames, vm.pmm`hint, vm.pmm.bm, vm.pmm.refs
    ensures a == OutOfMemory ==> vm.pmm.Free() == {}
    ensures a.Frame? ==> vm.Valid() && vm.data == old(vm.data) && IsMirror(old(vm.Now()), vm.Now(), k, a.frame, own)
    ensures a.Frame? && Sound(old(vm.Now())) ==> StaysSound(old(vm.Now()), vm.Now())
  {
    hide FrameManager.Valid, FrameManager.Free, VmOk, Sound, StaysSound, EmptyTable, IsMirror;
    vm.pmm.FromValid();
    vm.pmm.FreeBits();
    ghost var m0 := vm.Now();
    CountsBounded(vm);
    a := vm.pmm.AllocNoLock();
    if a == OutOfMemory { return; }
    var n := a.frame;
    vm.tables := vm.tables[n := EmptyTable()];
    vm.nodes := vm.nodes[n := Node(4, n, 0, own)];
    NewTop(m0, n, own);
    ghost var es := m0.tables[k];
    MirrorStart(m0, k);
    for i := 0 to ENTRIES
      invariant vm.pmm.Valid() && vm.data == old(vm.data)
      invariant vm.Now() == WithTop(m0, n, own).(tables := m0.tables[n := es[..i] + EmptyTable()[i..]])
    {
      MirrorNext(es, i);
      vm.tables := Store(vm.tables, n, i, vm.tables[k][i]);
    }
    MirrorDone(m0, vm.Now(), k, n, own);
    MirrorIsOk(m0, vm.Now(), k, n, own);
  }

  lemma MirrorIsOk(m: Mem, m': Mem, k: nat, n: nat, own: bool)
    requires IsMirror(m, m', k, n, own)
    ensures VmOk(m'.tables, m'.nodes, m'.free)
  {
  }

  lemma MirrorStart(m: Mem, k: nat)
    requires VmOk(m.tables, m.nodes, m.free) && IsP4(m, k)
    ensures |m.tables[k]| == ENTRIES == |EmptyTable()| && m.tables[k][..0] + EmptyTable()[0..] == EmptyTable()
  {
    FromTree(m.tables, m.nodes);
  }

  lemma MirrorNext(es: seq<Pte>, i: nat)
    requires |es| == ENTRIES && i < ENTRIES
    ensures |EmptyTable()| == ENTRIES
    ensures (es[..i] + EmptyTable()[i..])[i := es[i]] == es[..i + 1] + EmptyTable()[i + 1..]
  {
  }

  lemma MirrorDone(m: Mem, m': Mem, k: nat, n: nat, own: bool)
    requires VmOk(m.tables, m.nodes, m.free) && IsP4(m, k) && !m.nodes[k].own && n in m.free
    requires m.base <= n < m.base + m.limit <= m.base + |m.refs| && Bounded(m)
    requires |EmptyTable()| == ENTRIES && |m.tables[k]| == ENTRIES
    requires m' == WithTop(m, n, own).(tables := m.tables[n := m.tables[k][..ENTRIES] + EmptyTable()[ENTRIES..]])
    ensures IsMirror(m, m', k, n, own) && (Sound(m) ==> StaysSound(m, m'))
  {
    assert m.tables[k][..ENTRIES] + EmptyTable()[ENTRIES..] == m.tables[k];
    TookOne(m.base, m.free, m.refs, n);
    hide EmptyTable;
    MirrorTree(m, k, n, own);
    hide TreeOk, Owners, IsUserLeaf, AllCounted, LeafSound, Untouched;
    if Sound(m) {
      MirrorLeaves(m, m', k, n, own);
      TakenSound(m, m');
    }
  }

  lemma MirrorTree(m: Mem, k: nat, n: nat, own: bool)
    requires TreeOk(m.tables, m.nodes) && IsP4(m, k) && !m.nodes[k].own && n !in m.tables
    ensures TreeOk(m.tables[n := m.tables[k]], m.nodes[n := Node(4, n, 0, own)])
  {
    var tables, nodes := m.tables[n := m.tables[k]], m.nodes[n := Node(4, n, 0, own)];
    forall t | t in m.tables
      ensures IsTable(t, m.tables, m.nodes) && IsTable(t, tables, nodes) && nodes[t] == m.nodes[t]
      ensures tables[t] == m.tables[t]
    {
    }
    forall t, j | t in tables && 0 <= j < ENTRIES
      ensures EntryOk(t, j, tables, nodes)
    {
      assert EntryOk(if t == n then k else t, j, m.tables, m.nodes);
    }
  }

  lemma MirrorLeaves(m: Mem, m': Mem, k: nat, n: nat, own: bool)
    requires n !in m.tables && n !in m.nodes && m'.nodes == m.nodes[n := Node(4, n, 0, own)]
    requires k in m.tables && m'.tables == m.tables[n := m.tables[k]] && NoHugeOwn(m.tables, m.nodes)
    ensures NoHugeOwn(m'.tables, m'.nodes)
    ensures forall l :: IsUserLeaf(m', l) <==> IsUserLeaf(m, l)
    ensures forall l | IsUserLeaf(m, l) :: At(m', l) == At(m, l)
  {
  }

  /** The new root translates everything as the kernel's, and nothing else changes. */
  lemma MirrorReads(m: Mem, m': Mem, data: map<nat, Page>, k: nat, n: nat, own: bool)
    requires VmOk(m.tables, m.nodes, m.free) && IsMirror(m, m', k, n, own)
    ensures SameViews(m, data, m', data) && RootsKept(m, m', n)
    ensures forall q | IsPath(q, 4) :: Translate(m'.tables, n, 4, q) == Translate(m.tables, k, 4, q)
    ensures own ==> forall q | IsUpper(q) && !Entry(m, k, q[0]).p ::
              IsPlace(m', n, q) && UserAt(m'.tables, n, 4, q) == None && !OpenAt(m'.tables, n, 4, q)
  {
    hide Translate, UserAt, OpenAt, ShapeKept;
    MirrorShape(m, m', k, n, own);
    SlotWidth(m, k);
    assert Agree(m.tables, m.nodes, m'.tables) by { MirrorAgrees(m, m', k, n, own); }
    forall x, q | IsPlace(m, x, q)
      ensures IsPlace(m', x, q) && SameWalk(m.tables, m'.tables, x, 4, q)
    {
      PrivateKept(m, m', n, x, q[0]);
    }
    forall q | IsPath(q, 4)
      ensures Translate(m'.tables, n, 4, q) == Translate(m.tables, k, 4, q)
    {
      ShapeWalks(m, m', n, k, 4, q);
      AtTop(m'.tables, m'.nodes, n, q);
      AtTop(m'.tables, m'.nodes, k, q);
    }
    forall q | IsUpper(q) && !Entry(m, k, q[0]).p && own
      ensures IsPlace(m', n, q) && UserAt(m'.tables, n, 4, q) == None && !OpenAt(m'.tables, n, 4, q)
    {
      AtTop(m'.tables, m'.nodes, n, q);
    }
  }

  lemma MirrorShape(m: Mem, m': Mem, k: nat, n: nat, own: bool)
    requires VmOk(m.tables, m.nodes, m.free) && IsMirror(m, m', k, n, own)
    ensures ShapeKept(m, m', n) && n !in m.tables && IsP4(m', k) && m'.tables[n] == m'.tables[k] && RootsKept(m, m', n)
  {
  }

  lemma MirrorAgrees(m: Mem, m': Mem, k: nat, n: nat, own: bool)
    requires VmOk(m.tables, m.nodes, m.free) && IsMirror(m, m', k, n, own)
    ensures Agree(m.tables, m.nodes, m'.tables)
  {
    forall t, path | t in m.nodes && t in m'.tables && IsPath(path, m.nodes[t].level)
      ensures SameWalk(m.tables, m'.tables, t, m.nodes[t].level, path)
    {
      MirrorWalk(m, m', k, n, own, t, m.nodes[t].level, path);
    }
  }

  lemma {:induction false} MirrorWalk(m: Mem, m': Mem, k: nat, n: nat, own: bool, t: nat, level: nat, path: seq<nat>)
    requires VmOk(m.tables, m.nodes, m.free) && IsMirror(m, m', k, n, own)
    requires t in m.tables && m.nodes[t].level == level && IsPath(path, level)
    ensures SameWalk(m.tables, m'.tables, t, level, path)
    decreases level
  {
    assert IsTable(t, m.tables, m.nodes) && EntryOk(t, path[0], m.tables, m.nodes);
    var e := m.tables[t][path[0]];
    if level > 1 && e.p && !e.ps { MirrorWalk(m, m', k, n, own, e.frame, level - 1, path[1..]); }
  }

  /** Every slot that the kernel has is one with the new root's: what changes below it changes for both. */
  lemma MirrorSees(m: Mem, m': Mem, k: nat, n: nat, own: bool, j: nat, i: nat)
    requires VmOk(m.tables, m.nodes, m.free) && IsMirror(m, m', k, n, own) && j < ENTRIES && i < ENTRIES
    ensures Sees(m'.tables, n, j, k, i) <==> SameSlot(m.tables, k, j, k, i)
  {
    SlotWidth(m, k);
  }

  /** Private slots stay private and are read as before when no entry leads elsewhere. */
  lemma ShapeViews(m: Mem, m': Mem, data: map<nat, Page>, d: nat)
    requires TreeOk(m.tables, m.nodes) && ShapeKept(m, m', d) && d !in m.nodes
    ensures RootsKept(m, m', d)
    ensures forall x, q | IsPlace(m, x, q) ::
            && IsPlace(m', x, q)
            && View(m'.tables, data, x, q) == View(m.tables, data, x, q)
  {
    RootsShape(m, m', d);
    hide UserAt, TreeOk, ShapeKept, Private;
    forall x, q | IsPlace(m, x, q)
      ensures IsPlace(m', x, q) && View(m'.tables, data, x, q) == View(m.tables, data, x, q)
    {
      TopsKept(m, m', d, x);
      PrivateKept(m, m', d, x, q[0]);
      ShapeWalks(m, m', d, x, 4, q);
    }
  }

  lemma RootsShape(m: Mem, m': Mem, d: nat)
    requires TreeOk(m.tables, m.nodes) && ShapeKept(m, m', d) && d !in m.nodes
    ensures RootsKept(m, m', d)
  {
    forall x | IsP4(m, x) && x != d
      ensures IsP4(m', x) && SameSlots(m, m', x)
    {
      forall j | 0 <= j < |m.tables[x]| && !m.tables[x][j].p
        ensures !m'.tables[x][j].p
      {
        assert Like(m.tables[x][j], m'.tables[x][j], 4);
      }
    }
  }

  /**
   The fork theorem: user code reads in the child what it reads in the parent, every other address space reads what
   it read before, and the whole address space translates alike, shared half included. Nobody else's rights below
   private slots change; parent and child may write, after a fault, whatever they see.
   */
  lemma ForkIsCopy(m: Mem, m': Mem, data: map<nat, Page>, src: nat, dst: nat)
    requires VmOk(m.tables, m.nodes, m.free) && IsP4(m, src) && IsFork(m, m', src, dst)
    ensures RootsKept(m, m', dst)
    ensures forall x, q | IsPlace(m, x, q) ::
            && IsPlace(m', x, q)
            && View(m'.tables, data, x, q) == View(m.tables, data, x, q)
    ensures forall x, q | IsPlace(m, x, q) && x != src :: OpenAt(m'.tables, x, 4, q) == OpenAt(m.tables, x, 4, q)
    ensures forall q | IsPlace(m, src, q) :: OpenAt(m'.tables, src, 4, q) == UserAt(m.tables, src, 4, q).Some?
    ensures forall q | IsUpper(q) :: View(m'.tables, data, dst, q) == View(m.tables, data, src, q)
    ensures forall q | IsUpper(q) && ClonesOwn(m, src, q[0]) :: IsPlace(m', dst, q)
    ensures forall i | UPPER <= i < ENTRIES :: SlotOfOne(m', dst, i)
    ensures forall q | IsUpper(q) :: OpenAt(m'.tables, dst, 4, q) == UserAt(m.tables, src, 4, q).Some?
    ensures forall q | IsPath(q, 4) :: Translate(m'.tables, dst, 4, q) == Translate(m.tables, src, 4, q)
    ensures forall x, q | IsP4(m, x) && IsPath(q, 4) :: Translate(m'.tables, x, 4, q) == Translate(m.tables, x, 4, q)
  {
    hide Translate, UserAt, OpenAt, IsCopy, ShapeKept, ChangedIn, VmOk, View, SameViews, RootsKept, Private;
    VmTree(m);
    ShapeViews(m, m', data, dst);
    forall x, q | IsP4(m, x) && IsPath(q, 4)
      ensures Translate(m'.tables, x, 4, q) == Translate(m.tables, x, 4, q)
    {
      ShapeWalks(m, m', dst, x, 4, q);
    }
    forall q | IsPath(q, 4)
      ensures Translate(m'.tables, dst, 4, q) == Translate(m.tables, src, 4, q)
    {
      ForkReads(m, m', data, src, dst, q);
    }
    forall q | IsUpper(q)
      ensures ClonesOwn(m, src, q[0]) ==> IsPlace(m', dst, q)
      ensures View(m'.tables, data, dst, q) == View(m.tables, data, src, q)
      ensures OpenAt(m'.tables, dst, 4, q) == UserAt(m.tables, src, 4, q).Some?
    {
      ForkReads(m, m', data, src, dst, q);
      ChildOpens(m, m', src, dst, q);
    }
    forall i | UPPER <= i < ENTRIES
      ensures SlotOfOne(m', dst, i)
    {
      ChildIsAlone(m, m', src, dst, i);
    }
    forall x, q | IsPlace(m, x, q)
      ensures OpenAt(m'.tables, x, 4, q) == if x == src then UserAt(m.tables, src, 4, q).Some?
              else OpenAt(m.tables, x, 4, q)
    {
      RightsAfter(m, m', src, dst, x, q);
    }
  }

  lemma ForkReads(m: Mem, m': Mem, data: map<nat, Page>, src: nat, dst: nat, q: seq<nat>)
    requires VmOk(m.tables, m.nodes, m.free) && IsP4(m, src) && IsFork(m, m', src, dst) && IsPath(q, 4)
    ensures Translate(m'.tables, dst, 4, q) == Translate(m.tables, src, 4, q)
    ensures UserAt(m'.tables, dst, 4, q) == UserAt(m'.tables, src, 4, q) == UserAt(m.tables, src, 4, q)
    ensures View(m'.tables, data, dst, q) == View(m.tables, data, src, q)
    ensures q[0] >= UPPER && ClonesOwn(m, src, q[0]) ==> Private(m'.tables, m'.nodes, dst, q[0])
  {
    hide Translate, UserAt, IsCopy, ShapeKept, ChangedIn, VmOk, Private;
    VmTree(m);
    CopyWalks(m', src, dst, 4, q);
    CloneIsPrivate(m, m', src, dst, q[0]);
    ShapeWalks(m, m', dst, src, 4, q);
  }

  /** What the slot leads to is the root's own, if it leads anywhere. */
  ghost predicate ClonesOwn(m: Mem, src: nat, i: nat) {
    Entry(m, src, i).p ==> Private(m.tables, m.nodes, src, i)
  }

  lemma CloneIsPrivate(m: Mem, m': Mem, src: nat, dst: nat, i: nat)
    requires TreeOk(m.tables, m.nodes) && IsP4(m, src) && IsFork(m, m', src, dst) && i < ENTRIES
    ensures i >= UPPER && ClonesOwn(m, src, i) ==> Private(m'.tables, m'.nodes, dst, i)
  {
    assert IsTable(src, m.tables, m.nodes);
    assert Like(m.tables[src][i], m'.tables[src][i], 4);
    hide IsCopy, ChangedIn, Added, NewBelow;
    if i >= UPPER && ClonesOwn(m, src, i) {
      if Private(m.tables, m.nodes, src, i) { PrivateKept(m, m', dst, src, i); }
      CopyIsPrivate(m', src, dst, i);
    }
  }

  /** What the child may write: all it sees of the half that was cloned. */
  lemma ChildOpens(m: Mem, m': Mem, src: nat, dst: nat, q: seq<nat>)
    requires VmOk(m.tables, m.nodes, m.free) && IsP4(m, src) && IsFork(m, m', src, dst) && IsUpper(q)
    ensures OpenAt(m'.tables, dst, 4, q) == UserAt(m.tables, src, 4, q).Some?
  {
    hide UserAt, OpenAt, IsCopy, ShapeKept, ChangedIn, VmOk, EndOfWalk;
    ForkReads(m, m', map[], src, dst, q);
    EndTells(m.tables, src, 4, q);
    EndTells(m'.tables, src, 4, q);
    EndTells(m'.tables, dst, 4, q);
    ForkRights(m, m', src, dst, src, q);
    CopyEndsAlike(m', src, dst, 4, q);
    SlotWidth(m, src);
    if UserAt(m.tables, src, 4, q).Some? { UpperIsCloned(m, src, q); }
  }

  lemma UpperIsCloned(m: Mem, src: nat, q: seq<nat>)
    requires VmOk(m.tables, m.nodes, m.free) && IsP4(m, src) && IsUpper(q) && UserAt(m.tables, src, 4, q).Some?
    ensures Cloned(m.tables, src, src, q[0])
  {
    AtTop(m.tables, m.nodes, src, q);
    assert SameSlot(m.tables, src, q[0], src, q[0]);
  }

  /** What the parent and the others may write below their private slots. */
  lemma RightsAfter(m: Mem, m': Mem, src: nat, dst: nat, x: nat, q: seq<nat>)
    requires VmOk(m.tables, m.nodes, m.free) && IsP4(m, src) && IsFork(m, m', src, dst) && IsPlace(m, x, q)
    ensures OpenAt(m'.tables, x, 4, q) == if x == src then UserAt(m.tables, src, 4, q).Some?
            else OpenAt(m.tables, x, 4, q)
  {
    hide UserAt, OpenAt, IsCopy, ShapeKept, ChangedIn, VmOk, EndOfWalk, Private;
    EndTells(m.tables, x, 4, q);
    EndTells(m'.tables, x, 4, q);
    ForkRights(m, m', src, dst, x, q);
    if x == src {
      if UserAt(m.tables, src, 4, q).Some? { UpperIsCloned(m, src, q); }
    } else {
      PlaceNotCloned(m, src, x, q);
    }
  }

  lemma PlaceNotCloned(m: Mem, src: nat, x: nat, q: seq<nat>)
    requires VmOk(m.tables, m.nodes, m.free) && IsP4(m, src) && IsPlace(m, x, q) && x != src
    ensures !Cloned(m.tables, src, x, q[0])
  {
    forall i: nat | UPPER <= i < ENTRIES
      ensures !SameSlot(m.tables, x, q[0], src, i)
    {
      if SameSlot(m.tables, x, q[0], src, i) { OneTop(m.tables, m.nodes, x, q[0], src, i); }
    }
  }

  /** Nobody else leads to what a fork made for the child. */
  lemma ChildIsAlone(m: Mem, m': Mem, src: nat, dst: nat, i: nat)
    requires VmOk(m.tables, m.nodes, m.free) && IsP4(m, src) && IsFork(m, m', src, dst) && UPPER <= i < ENTRIES
    ensures SlotOfOne(m', dst, i)
  {
    hide IsCopy, ChangedIn, Added, ShapeKept;
    forall x, j | IsP4(m', x) && 0 <= j < ENTRIES && (x != dst || j != i)
      ensures !SameSlot(m'.tables, x, j, dst, i)
    {
      ChildApart(m, m', src, dst, i, x, j);
    }
  }

  lemma ChildApart(m: Mem, m': Mem, src: nat, dst: nat, i: nat, x: nat, j: nat)
    requires VmOk(m.tables, m.nodes, m.free) && IsP4(m, src) && IsFork(m, m', src, dst) && UPPER <= i < ENTRIES
    requires IsP4(m', x) && j < ENTRIES && (x != dst || j != i)
    ensures !SameSlot(m'.tables, x, j, dst, i)
  {
    hide ChangedIn, Added, IsCopy, VmOk;
    VmTree(m');
    VmTree(m);
    if x == dst {
      SlotMadeFor(m', src, dst, i);
      SlotMadeFor(m', src, dst, j);
      if j < UPPER { LowerIsOld(m, m', src, dst, j); }
    } else {
      assert x in m.nodes && m.nodes[x].level == 4 && x in m.tables;
      OldSlotsLeadBack(m, m', dst, x, j);
    }
  }

  lemma SlotMadeFor(m: Mem, src: nat, dst: nat, i: nat)
    requires IsCopy(m, src, dst, 4) && i < ENTRIES
    ensures HasTable(m, dst, 4)
    ensures var e := m.tables[dst][i];
            e.p && i >= UPPER ==> e.frame in m.nodes && m.nodes[e.frame].parent == dst && m.nodes[e.frame].idx == i
  {
    assert CopiedAt(m, src, dst, 4, i);
  }

  lemma LowerIsOld(m: Mem, m': Mem, src: nat, dst: nat, j: nat)
    requires TreeOk(m.tables, m.nodes) && IsP4(m, src) && ShapeKept(m, m', dst) && dst !in m.nodes && j < UPPER
    requires IsCopy(m', src, dst, 4)
    ensures HasTable(m', dst, 4) && (m'.tables[dst][j].p ==> m'.tables[dst][j].frame in m.nodes)
  {
    assert CopiedAt(m', src, dst, 4, j);
    OldSlotsLeadBack(m, m', dst, src, j);
  }

  lemma OldSlotsLeadBack(m: Mem, m': Mem, dst: nat, x: nat, j: nat)
    requires TreeOk(m.tables, m.nodes) && IsP4(m, x) && ShapeKept(m, m', dst) && x != dst && j < ENTRIES
    ensures x in m'.tables && |m'.tables[x]| == ENTRIES && (m'.tables[x][j].p ==> m'.tables[x][j].frame in m.nodes)
  {
    assert IsTable(x, m.tables, m.nodes) && EntryOk(x, j, m.tables, m.nodes);
    assert Like(m.tables[x][j], m'.tables[x][j], 4);
  }

  lemma ForkFrame(m: Mem, m': Mem, src: nat, dst: nat)
    requires IsFork(m, m', src, dst)
    ensures 0 < dst < FRAME_LIMIT && dst !in m.nodes && IsP4(m', dst)
  {
  }

  lemma VmTree(m: Mem)
    requires VmOk(m.tables, m.nodes, m.free)
    ensures TreeOk(m.tables, m.nodes)
  {
  }

  lemma CopyIsPrivate(m: Mem, s: nat, d: nat, i: nat)
    requires IsCopy(m, s, d, 4) && i < ENTRIES && m.nodes[d].own
    ensures i >= UPPER && (m.tables[s][i].p ==> Private(m.tables, m.nodes, s, i)) ==> Private(m.tables, m.nodes, d, i)
  {
    assert CopiedAt(m, s, d, 4, i);
  }

  // ----- what a fork does to rights -----

  /** A fork leaves a user page or a huge page for the first write to ask about, any other page as it is. */
  ghost function AfterFork(w: End): End {
    if Forked(w.e, w.level) then End(Shared(w.e), w.level) else w
  }

  /** A copy gives both sides the same entry, after the fork. */
  lemma {:induction false} CopyEnds(m: Mem, s: nat, d: nat, level: nat, path: seq<nat>)
    requires IsCopy(m, s, d, level) && IsPath(path, level) && 1 <= level <= 3
    ensures AfterFork(EndOfWalk(m.tables, s, level, path)) == EndOfWalk(m.tables, s, level, path)
    decreases level
  {
    assert CopiedAt(m, s, d, level, path[0]);
    var a, b := m.tables[s][path[0]], m.tables[d][path[0]];
    if level > 1 && a.p && !a.ps { CopyEnds(m, a.frame, b.frame, level - 1, path[1..]); }
  }

  /** Whatever changes between the two is a mark. */
  lemma {:induction false} ShapeEnds(m: Mem, m': Mem, d: nat, t: nat, level: nat, path: seq<nat>)
    requires TreeOk(m.tables, m.nodes) && ShapeKept(m, m', d) && t in m.tables && t != d && m.nodes[t].level == level
    requires IsPath(path, level)
    requires d !in m.nodes
    ensures var e, e' := EndOfWalk(m.tables, t, level, path), EndOfWalk(m'.tables, t, level, path);
            AfterFork(e') == AfterFork(e) && (e' == e || e' == AfterFork(e))
    decreases level
  {
    assert IsTable(t, m.tables, m.nodes) && EntryOk(t, path[0], m.tables, m.nodes);
    var e := m.tables[t][path[0]];
    assert Like(e, m'.tables[t][path[0]], level);
    if level > 1 && e.p && !e.ps { ShapeEnds(m, m', d, e.frame, level - 1, path[1..]); }
  }

  /** Below a table that the fork did not go through nothing changed. */
  lemma {:induction false} SameEnds(m: Mem, m': Mem, src: nat, dst: nat, t: nat, level: nat, path: seq<nat>)
    requires TreeOk(m.tables, m.nodes) && ChangedIn(m, m', Part(m, src, dst, 4)) && IsP4(m, src) && dst !in m.nodes
    requires t in m.tables && m.nodes[t].level == level <= 3 && IsPath(path, level)
    requires UpTo(m.nodes, t, 3) !in TablesBelow(m.tables, src, 4, UPPER, ENTRIES)
    ensures EndOfWalk(m'.tables, t, level, path) == EndOfWalk(m.tables, t, level, path)
    decreases level
  {
    hide TablesBelow;
    if t in TablesBelow(m.tables, src, 4, UPPER, ENTRIES) { BelowTop(m, src, t); }
    assert m'.tables[t] == m.tables[t];
    StepUp(m, t, path[0]);
    var e := m.tables[t][path[0]];
    if level > 1 && e.p && !e.ps { SameEnds(m, m', src, dst, e.frame, level - 1, path[1..]); }
  }

  lemma StepUp(m: Mem, t: nat, i: nat)
    requires TreeOk(m.tables, m.nodes) && t in m.tables && m.nodes[t].level <= 3 && i < ENTRIES
    ensures |m.tables[t]| == ENTRIES
    ensures var e := m.tables[t][i];
            m.nodes[t].level > 1 && e.p && !e.ps ==>
              e.frame in m.tables && m.nodes[e.frame].level == m.nodes[t].level - 1
                  && UpTo(m.nodes, e.frame, 3) == UpTo(m.nodes, t, 3)
  {
    assert IsTable(t, m.tables, m.nodes) && EntryOk(t, i, m.tables, m.nodes);
  }

  /** What lies below a slot lies below the third-level table that the slot leads to. */
  lemma BelowTop(m: Mem, src: nat, t: nat)
    requires TreeOk(m.tables, m.nodes) && IsP4(m, src) && t in TablesBelow(m.tables, src, 4, UPPER, ENTRIES)
    ensures t in m.nodes && UpTo(m.nodes, t, 3) in TablesBelow(m.tables, src, 4, UPPER, ENTRIES)
  {
    var i := BelowComesFrom(m.tables, m.nodes, src, 4, UPPER, ENTRIES, t);
    assert IsTable(src, m.tables, m.nodes) && EntryOk(src, i, m.tables, m.nodes);
    var c := m.tables[src][i].frame;
    if t != c { BelowLeadsUp(m.tables, m.nodes, c, 3, t); }
    BelowHas(m.tables, src, 4, UPPER, ENTRIES, i);
  }

  /** One of the slots that a fork of `src` clones leads to the same table as slot `j` of `x`. */
  ghost predicate Cloned(tables: Tables, src: nat, x: nat, j: nat) {
    exists i: nat :: UPPER <= i < ENTRIES && src in tables && x in tables && SameSlot(tables, x, j, src, i)
  }

  /**
   Whose rights a fork takes away: exactly the user pages and huge pages below the slots that it clones lose write
   access, and they lose it in every root and through every slot that leads there.
   */
  lemma ForkRights(m: Mem, m': Mem, src: nat, dst: nat, x: nat, q: seq<nat>)
    requires VmOk(m.tables, m.nodes, m.free) && IsP4(m, src) && IsP4(m, x) && IsFork(m, m', src, dst) && IsPath(q, 4)
    ensures EndOfWalk(m'.tables, x, 4, q) ==
            if Cloned(m.tables, src, x, q[0]) then AfterFork(EndOfWalk(m.tables, x, 4, q))
            else EndOfWalk(m.tables, x, 4, q)
  {
    assert IsTable(x, m.tables, m.nodes) && EntryOk(x, q[0], m.tables, m.nodes);
    var e := m.tables[x][q[0]];
    assert Like(e, m'.tables[x][q[0]], 4);
    assert EndOfWalk(m.tables, x, 4, q) == if e.p then EndOfWalk(m.tables, e.frame, 3, q[1..]) else End(e, 4);
    assert EndOfWalk(m'.tables, x, 4, q) == if e.p then EndOfWalk(m'.tables, e.frame, 3, q[1..]) else End(e, 4);
    if e.p { BelowSlot(m, m', src, dst, x, q); }
  }

  lemma BelowSlot(m: Mem, m': Mem, src: nat, dst: nat, x: nat, q: seq<nat>)
    requires VmOk(m.tables, m.nodes, m.free) && IsP4(m, src) && IsP4(m, x) && IsFork(m, m', src, dst) && IsPath(q, 4)
    requires q[0] < |m.tables[x]| && m.tables[x][q[0]].p
    ensures var c := m.tables[x][q[0]].frame;
            EndOfWalk(m'.tables, c, 3, q[1..]) ==
            if Cloned(m.tables, src, x, q[0]) then AfterFork(EndOfWalk(m.tables, c, 3, q[1..]))
            else EndOfWalk(m.tables, c, 3, q[1..])
  {
    assert IsTable(x, m.tables, m.nodes) && EntryOk(x, q[0], m.tables, m.nodes) && IsTable(src, m.tables, m.nodes);
    var c := m.tables[x][q[0]].frame;
    hide VmOk, EndOfWalk, IsCopy;
    VmTree(m);
    if Cloned(m.tables, src, x, q[0]) {
      var i: nat :| UPPER <= i < ENTRIES && SameSlot(m.tables, x, q[0], src, i);
      SlotIsCopied(m, m', src, dst, i);
      ShapeEnds(m, m', dst, c, 3, q[1..]);
      CopyEnds(m', c, m'.tables[dst][i].frame, 3, q[1..]);
    } else {
      if c in TablesBelow(m.tables, src, 4, UPPER, ENTRIES) {
        var i := TopOfBelow(m, src, c);
        var same := SameSlot(m.tables, x, q[0], src, i);
      }
      SameEnds(m, m', src, dst, c, 3, q[1..]);
    }
  }

  lemma SlotIsCopied(m: Mem, m': Mem, src: nat, dst: nat, i: nat)
    requires IsP4(m, src) && IsFork(m, m', src, dst) && UPPER <= i < ENTRIES && i < |m.tables[src]|
    requires m.tables[src][i].p
    ensures dst in m'.tables && i < |m'.tables[dst]| && IsCopy(m', m.tables[src][i].frame, m'.tables[dst][i].frame, 3)
  {
    assert CopiedAt(m', src, dst, 4, i);
    assert Like(m.tables[src][i], m'.tables[src][i], 4);
  }

  lemma TopOfBelow(m: Mem, src: nat, c: nat) returns (i: nat)
    requires TreeOk(m.tables, m.nodes) && IsP4(m, src) && c in m.nodes && m.nodes[c].level == 3
    requires c in TablesBelow(m.tables, src, 4, UPPER, ENTRIES)
    ensures UPPER <= i < ENTRIES && i < |m.tables[src]| && m.tables[src][i].p && m.tables[src][i].frame == c
  {
    i := BelowComesFrom(m.tables, m.nodes, src, 4, UPPER, ENTRIES, c);
    assert IsTable(src, m.tables, m.nodes) && EntryOk(src, i, m.tables, m.nodes);
    var t := m.tables[src][i].frame;
    if c != t { BelowLeadsUp(m.tables, m.nodes, t, 3, c); }
  }

  /** No page that is not one of `src`'s own upper half changes its rights. */
  ghost predicate OthersKeepRights(m: Mem, m': Mem, src: nat) {
    forall x, q | IsP4(m, x) && IsPath(q, 4) && !(x == src && q[0] >= UPPER) ::
      EndOfWalk(m'.tables, x, 4, q) == EndOfWalk(m.tables, x, 4, q)
  }

  /** Below a slot that is cloned and seen elsewhere there is nothing left to take away. */
  ghost predicate NothingToTake(m: Mem, src: nat) {
    forall x, q | IsP4(m, x) && IsPath(q, 4) && !(x == src && q[0] >= UPPER) && Cloned(m.tables, src, x, q[0]) ::
      AfterFork(EndOfWalk(m.tables, x, 4, q)) == EndOfWalk(m.tables, x, 4, q)
  }

  /**
   A fork leaves everybody else's rights alone exactly when nobody else shares a writable page below a slot that
   it clones.
   */
  lemma RightsExactly(m: Mem, m': Mem, src: nat, dst: nat)
    requires VmOk(m.tables, m.nodes, m.free) && IsP4(m, src) && IsFork(m, m', src, dst)
    ensures OthersKeepRights(m, m', src) <==> NothingToTake(m, src)
    ensures OwnsUpper(m, src) ==> OthersKeepRights(m, m', src)
  {
    hide VmOk, IsFork, EndOfWalk, Cloned, IsP4;
    forall x, q | IsP4(m, x) && IsPath(q, 4)
      ensures EndOfWalk(m'.tables, x, 4, q) ==
              if Cloned(m.tables, src, x, q[0]) then AfterFork(EndOfWalk(m.tables, x, 4, q))
                  else EndOfWalk(m.tables, x, 4, q)
      ensures OwnsUpper(m, src) && Cloned(m.tables, src, x, q[0]) ==> x == src && q[0] >= UPPER
    {
      ForkRights(m, m', src, dst, x, q);
      OwnIsAlone(m, src, x, q[0]);
    }
  }

  lemma OwnIsAlone(m: Mem, src: nat, x: nat, j: nat)
    requires VmOk(m.tables, m.nodes, m.free) && IsP4(m, src) && IsP4(m, x) && j < ENTRIES
    ensures OwnsUpper(m, src) && Cloned(m.tables, src, x, j) ==> x == src && j >= UPPER
  {
    if OwnsUpper(m, src) && Cloned(m.tables, src, x, j) {
      var i: nat :| UPPER <= i < ENTRIES && SameSlot(m.tables, x, j, src, i);
      OneTop(m.tables, m.nodes, src, i, x, j);
    }
  }

  /**
   After a fork no user page of the parent or the child is writable, all of them are marked and count as owners
   of their frames: the first write has to ask, and it is accepted. A page that was mapped read-only becomes
   writable that way: the answer to a write is what it was before exactly if the page was writable or marked.
   */
  lemma ForkedPagesAreMarked(m: Mem, m': Mem, src: nat, dst: nat, q: seq<nat>)
    requires Sound(m) && Sound(m') && IsPlace(m, src, q) && IsFork(m, m', src, dst)
    ensures !Writable(m', src, q) && !Writable(m', dst, q)
    ensures var l := LeafAt(m, src, q);
            IsUserLeaf(m, l) ==>
              && LeafAt(m', src, q) != LeafAt(m', dst, q)
              && {LeafAt(m', src, q), LeafAt(m', dst, q)} <= Owners(m', At(m, l).frame)
              && At(m', LeafAt(m', src, q)) == At(m', LeafAt(m', dst, q)) == Shared(At(m, l))
              && OpenAt(m'.tables, src, 4, q) && OpenAt(m'.tables, dst, 4, q)
              && (OpenAt(m'.tables, src, 4, q) == OpenAt(m.tables, src, 4, q) <==> At(m, l).w || At(m, l).cow)
    ensures !IsUserLeaf(m, LeafAt(m, src, q)) ==> !OpenAt(m'.tables, src, 4, q) && !OpenAt(m'.tables, dst, 4, q)
  {
    hide Translate, UserAt, OpenAt, IsCopy, ShapeKept, PtOf, Sound, ChangedIn, Owners, VmOk, TreeOk, Private;
    ForkPlaces(m, m', src, dst, q);
    TreeNow(m);
    TreeNow(m');
    SoundIsVm(m);
    LeafIs(m, src, q);
    LeafIs(m', src, q);
    LeafIs(m', dst, q);
    ForkReads(m, m', map[], src, dst, q);
    var l, k := LeafAt(m', src, q), LeafAt(m', dst, q);
    if IsUserLeaf(m, LeafAt(m, src, q)) {
      var f := At(m, LeafAt(m, src, q)).frame;
      OwnersAre(m', f);
      assert Owns(m', l, f) && Owns(m', k, f);
      if l == k {
        LeafServesOne(m', src, q, dst, q);
      }
      MarkedLeaves(m, m', src, dst, q);
    }
  }

  lemma ForkPlaces(m: Mem, m': Mem, src: nat, dst: nat, q: seq<nat>)
    requires Sound(m) && Sound(m') && IsPlace(m, src, q) && IsFork(m, m', src, dst)
    ensures IsPlace(m', src, q) && IsPlace(m', dst, q) && src != dst
  {
    hide IsCopy, ShapeKept, ChangedIn, Private;
    PrivateKept(m, m', dst, src, q[0]);
    CopyIsPrivate(m', src, dst, q[0]);
    TopsKept(m, m', dst, src);
  }

  /** What the walks to a shared page end in. */
  lemma MarkedLeaves(m: Mem, m': Mem, src: nat, dst: nat, q: seq<nat>)
    requires Sound(m) && Sound(m') && IsPlace(m, src, q) && IsFork(m, m', src, dst) && IsUserLeaf(m, LeafAt(m, src, q))
    requires IsPlace(m', src, q) && IsPlace(m', dst, q)
    requires IsUserLeaf(m', LeafAt(m', src, q)) && IsUserLeaf(m', LeafAt(m', dst, q))
    ensures At(m', LeafAt(m', src, q)) == At(m', LeafAt(m', dst, q)) == Shared(At(m, LeafAt(m, src, q)))
  {
    hide IsCopy, ShapeKept, ChangedIn, Sound, VmOk, PtOf, EndOfWalk;
    SoundIsVm(m);
    SoundIsVm(m');
    VmTree(m);
    VmTree(m');
    LeafEnds(m, src, q);
    LeafEnds(m', src, q);
    LeafEnds(m', dst, q);
    ForkRights(m, m', src, dst, src, q);
    SlotSeesItself(m, src, q);
    CopyEndsAlike(m', src, dst, 4, q);
  }

  lemma SlotSeesItself(m: Mem, src: nat, q: seq<nat>)
    requires VmOk(m.tables, m.nodes, m.free) && IsPlace(m, src, q) && IsUserLeaf(m, LeafAt(m, src, q))
    ensures Cloned(m.tables, src, src, q[0])
  {
    AtTop(m.tables, m.nodes, src, q);
    assert SameSlot(m.tables, src, q[0], src, q[0]);
  }

  /** The entry of a page is where its walk ends. */
  lemma LeafEnds(m: Mem, r: nat, q: seq<nat>)
    requires TreeOk(m.tables, m.nodes) && IsPlace(m, r, q) && IsUserLeaf(m, LeafAt(m, r, q))
    ensures EndOfWalk(m.tables, r, 4, q) == End(At(m, LeafAt(m, r, q)), 1)
  {
    PtEnds(m.tables, m.nodes, r, 4, q);
  }

  /** Below the upper half both sides of a copy end alike, where user code or a huge page is concerned. */
  lemma {:induction false} CopyEndsAlike(m: Mem, s: nat, d: nat, level: nat, path: seq<nat>)
    requires IsCopy(m, s, d, level) && IsPath(path, level) && 1 <= level <= 4 && (level == 4 ==> path[0] >= UPPER)
    ensures var w := EndOfWalk(m.tables, s, level, path);
            if w.e.p then EndOfWalk(m.tables, d, level, path) == w else !EndOfWalk(m.tables, d, level, path).e.p
    decreases level
  {
    assert CopiedAt(m, s, d, level, path[0]);
    var a, b := m.tables[s][path[0]], m.tables[d][path[0]];
    if level > 1 && a.p && !a.ps { CopyEndsAlike(m, a.frame, b.frame, level - 1, path[1..]); }
  }

  // ----- what a fork does to counts -----

  /** A frame that counts, and is not pinned by the fork, is mapped or covered below a slot that is not its own. */
  ghost predicate Overcounts(m: Mem, src: nat)
    requires HasTable(m, src, 4)
  {
    exists f: nat :: Overcounted(m, src, f)
  }

  ghost predicate Overcounted(m: Mem, src: nat, f: nat)
    requires HasTable(m, src, 4)
  {
    && Owners(m, f) != {} && Foreign(m, src, f)
    && RefAt(m.refs, m.base, f) + Uses(m.tables, src, 4, UPPER, ENTRIES, f) < REF_MAX
  }

  /**
   A fork leaves all counts exact exactly when no user page and no huge page below a slot that is not the root's own
   maps or covers a frame that counts.
   */
  lemma ForkCountsExactly(m: Mem, m': Mem, src: nat, dst: nat)
    requires Sound(m) && AllCounted(m) && HasTable(m, src, 4) && IsFork(m, m', src, dst)
    requires Sound(m') && MoreOwners(m, m', src, 4, ENTRIES)
    ensures AllCounted(m') <==> !Overcounts(m, src)
    ensures OwnsUpper(m, src) ==> AllCounted(m')
  {
    hide Sound, IsFork, Owners, Foreign, MoreOwners, Uses, AllCounted;
    forall f: nat
      ensures Owners(m, f) == {} ==> Owners(m', f) == {}
      ensures Owners(m, f) != {} ==> Owners(m', f) != {} && (Counted(m', f) <==> !Overcounted(m, src, f))
    {
      CountAfter(m, m', src, dst, f);
    }
    AllCountedOwned(m');
    if OwnsUpper(m, src) {
      forall f: nat ensures !Foreign(m, src, f) { OwnIsNotForeign(m, src, f); }
    }
  }

  lemma AllCountedOwned(m: Mem)
    ensures AllCounted(m) <==> forall f: nat | Owners(m, f) != {} :: Counted(m, f)
  {
    hide Owners;
    forall l | IsUserLeaf(m, l)
      ensures l in Owners(m, At(m, l).frame)
    {
      OwnersAre(m, At(m, l).frame);
    }
    forall f: nat | Owners(m, f) != {} && AllCounted(m)
      ensures Counted(m, f)
    {
      OwnersAre(m, f);
      var l :| l in Owners(m, f);
    }
  }

  lemma OwnIsNotForeign(m: Mem, src: nat, f: nat)
    requires Sound(m) && HasTable(m, src, 4) && OwnsUpper(m, src)
    ensures !Foreign(m, src, f)
  {
    hide Sound, EndOfWalk, OwnBelow;
    TreeNow(m);
    forall q | IsPath(q, 4) && q[0] >= UPPER && MapsFrame(EndOfWalk(m.tables, src, 4, q), f)
      ensures OwnBelow(m, src, 4, q[0])
    {
      MappedIsPresent(m, src, q, f);
      OwnSlotIsPrivate(m, src, q[0]);
    }
  }

  lemma MappedIsPresent(m: Mem, src: nat, q: seq<nat>, f: nat)
    requires HasTable(m, src, 4) && IsPath(q, 4) && MapsFrame(EndOfWalk(m.tables, src, 4, q), f)
    ensures m.tables[src][q[0]].p
  {
  }

  lemma CountAfter(m: Mem, m': Mem, src: nat, dst: nat, f: nat)
    requires Sound(m) && AllCounted(m) && HasTable(m, src, 4) && IsFork(m, m', src, dst)
    requires MoreOwners(m, m', src, 4, ENTRIES)
    ensures Owners(m, f) == {} ==> Owners(m', f) == {}
    ensures Owners(m, f) != {} ==> Owners(m', f) != {} && (Counted(m', f) <==> !Overcounted(m, src, f))
  {
    CountsOfFork(m, m', src, dst);
    TreeNow(m);
    hide IsFork, Foreign, Uses, OwnUses, Owners;
    OwnUsesAreOwners(m, f, src, ENTRIES);
    ForeignUses(m, src, f);
    OwnUsesFewer(m, src, ENTRIES, f);
    if Owners(m, f) == {} {
      assert OwnersBelow(m, f, src, 4, UPPER, ENTRIES) == {};
    } else {
      InUse(m, f);
      hide Sound, AllCounted, OwnersBelow;
      CountsMeet(RefAt(m.refs, m.base, f), |Owners(m, f)|, Uses(m.tables, src, 4, UPPER, ENTRIES, f),
                 OwnUses(m, src, 4, ENTRIES, f));
    }
  }

  /** A frame that counts is in use. */
  lemma InUse(m: Mem, f: nat)
    requires Sound(m) && AllCounted(m) && Owners(m, f) != {}
    ensures f !in m.free && m.base <= f < m.base + |m.refs| && Counted(m, f)
  {
    AllCountedOwned(m);
    var l :| l in Owners(m, f);
    OwnersAre(m, f);
    assert LeafSound(m, l);
    hide *;
  }

  lemma CountsMeet(ref: nat, owners: nat, uses: nat, own: nat)
    requires (ref == REF_MAX || ref == owners) && own <= uses
    ensures Plus(ref, uses) == REF_MAX || Plus(ref, uses) == owners + own <==> !(own < uses && ref + uses < REF_MAX)
  {
  }

  lemma CountsOfFork(m: Mem, m': Mem, src: nat, dst: nat)
    requires IsFork(m, m', src, dst)
    ensures Added(m, m', RangeUses(m.tables, src, 4, UPPER, ENTRIES))
  {
    hide IsCopy, ShapeKept, ChangedIn, Added;
  }

  // ----- what stays shared -----

  /** Right after a fork a slot of the child and one of the parent lead to the same table only below the lower half. */
  lemma ForkSees(m: Mem, m': Mem, src: nat, dst: nat, j: nat, i: nat)
    requires VmOk(m.tables, m.nodes, m.free) && IsP4(m, src) && IsFork(m, m', src, dst) && j < ENTRIES && i < ENTRIES
    ensures Sees(m'.tables, dst, j, src, i) <==> j < UPPER && SameSlot(m.tables, src, j, src, i)
  {
    assert IsTable(src, m.tables, m.nodes) && src != dst;
    assert Like(m.tables[src][i], m'.tables[src][i], 4) && Like(m.tables[src][j], m'.tables[src][j], 4);
    assert CopiedAt(m', src, dst, 4, j);
    hide IsCopy, Like;
    TopsKept(m, m', dst, src);
    if j >= UPPER && Sees(m'.tables, dst, j, src, i) {
      ChildApart(m, m', src, dst, j, src, i);
    }
  }

  /**
   Whether a later change of one page in the parent's or in the child's address space shows in the other one:
   exactly if the page lies below slot 256 and the parent had the slot when it forked.
   */
  lemma LaterChangesShow(m: Mem, m': Mem, src: nat, dst: nat, tables: Tables, path: seq<nat>, f: Option<nat>)
    requires VmOk(m.tables, m.nodes, m.free) && IsP4(m, src) && IsFork(m, m', src, dst) && IsPath(path, 4)
    requires f != Translate(m.tables, src, 4, path)
    ensures OnlyPage(m'.tables, m'.nodes, tables, src, path, f) ==>
              (Translate(tables, dst, 4, path) != Translate(m'.tables, dst, 4, path)
               <==> path[0] < UPPER && Entry(m, src, path[0]).p)
    ensures OnlyPage(m'.tables, m'.nodes, tables, dst, path, f) ==>
              (Translate(tables, src, 4, path) != Translate(m'.tables, src, 4, path)
               <==> path[0] < UPPER && Entry(m, src, path[0]).p)
  {
    hide Translate, IsCopy, ShapeKept, ChangedIn, VmOk;
    ForkReads(m, m', map[], src, dst, path);
    ForkSees(m, m', src, dst, path[0], path[0]);
    SeesBack(m'.tables, dst, src, path[0]);
    SlotWidth(m, src);
    TopsKept(m, m', dst, src);
    VmTree(m);
    ShapeWalks(m, m', dst, src, 4, path);
    assert src != dst;
  }

  lemma SlotWidth(m: Mem, src: nat)
    requires VmOk(m.tables, m.nodes, m.free) && IsP4(m, src)
    ensures |m.tables[src]| == ENTRIES
  {
    FromTree(m.tables, m.nodes);
  }

  lemma SeesBack(tables: Tables, x: nat, y: nat, i: nat)
    ensures Sees(tables, x, i, y, i) <==> Sees(tables, y, i, x, i)
  {
  }

  /** Below the lower half the walks of both come to the same table, so that one stores into what the other reads. */
  lemma LowerHalfIsOne(m: Mem, m': Mem, src: nat, dst: nat, path: seq<nat>)
    requires VmOk(m.tables, m.nodes, m.free) && IsP4(m, src) && IsFork(m, m', src, dst) && IsPath(path, 4)
    requires path[0] < UPPER && Entry(m, src, path[0]).p
    ensures PtOf(m'.tables, dst, 4, path) == PtOf(m'.tables, src, 4, path)
    ensures EndOfWalk(m'.tables, dst, 4, path) == EndOfWalk(m'.tables, src, 4, path)
    ensures !Cloned(m.tables, src, src, path[0]) ==>
            EndOfWalk(m'.tables, src, 4, path) == EndOfWalk(m.tables, src, 4, path)
  {
    ForkRights(m, m', src, dst, src, path);
    hide IsCopy, ChangedIn, VmOk, ShapeKept;
    ForkSees(m, m', src, dst, path[0], path[0]);
    SlotWidth(m, src);
    TopsKept(m, m', dst, src);
    VmTree(m');
    AtTop(m'.tables, m'.nodes, src, path);
    AtTop(m'.tables, m'.nodes, dst, path);
  }

  lemma SlotOfBoth(m: Mem, m': Mem, src: nat, dst: nat, i: nat)
    requires VmOk(m.tables, m.nodes, m.free) && IsP4(m, src) && IsFork(m, m', src, dst) && i < ENTRIES
    ensures src != dst && IsP4(m', src) && IsP4(m', dst) && m'.base == m.base && m'.limit == m.limit
    ensures TreeOk(m'.tables, m'.nodes)
    ensures i < UPPER && (Entry(m', src, i).p || Entry(m', dst, i).p) ==>
              Entry(m', src, i).p && Entry(m', dst, i).p && Entry(m', dst, i).frame == Entry(m', src, i).frame
  {
    assert IsTable(src, m.tables, m.nodes);
    assert Like(m.tables[src][i], m'.tables[src][i], 4);
    assert CopiedAt(m', src, dst, 4, i);
  }

  /** What unmapping a page leaves in the slot of another root that leads to the same table. */
  lemma OtherSlot(m: Mem, who: nat, other: nat, path: seq<nat>)
    requires TreeOk(m.tables, m.nodes) && Reaches(m, who, path) && IsP4(m, other) && who != other
    requires path[0] < UPPER && Entry(m, who, path[0]).p ==>
               Entry(m, other, path[0]).p && Entry(m, other, path[0]).frame == Entry(m, who, path[0]).frame
    ensures var m', e := AfterUnmap(m, who, path), Entry(AfterUnmap(m, who, path), other, path[0]);
            && (LastOfSlot(m, who, path) <==> e.p && e.frame !in m'.tables)
            && (LastOfSlot(m, who, path) && m.base <= e.frame < m.base + m.limit ==> e.frame in m'.free)
  {
    UnmapExactly(m, who, path);
    hide TreeOk, AfterUnmap, NothingElse, LedTo, SlotOfOne;
    if !LastOfSlot(m, who, path) { assert IsP4(AfterUnmap(m, who, path), other); }
  }

  /**
   After a fork, parent or child unmaps a page. The other one's slot is left with a table that was freed exactly if
   that was the last page below a slot of the lower half, which they share.
   */
  lemma ForkUnmapFrees(m: Mem, m': Mem, src: nat, dst: nat, who: nat, path: seq<nat>)
    requires VmOk(m.tables, m.nodes, m.free) && IsP4(m, src) && IsFork(m, m', src, dst)
    requires (who == src || who == dst) && Reaches(m', who, path)
    ensures var m2, other := AfterUnmap(m', who, path), if who == src then dst else src;
            var e := Entry(m2, other, path[0]);
            && (LastOfSlot(m', who, path) <==> e.p && e.frame !in m2.tables)
            && (LastOfSlot(m', who, path) && m.base <= e.frame < m.base + m.limit ==> e.frame in m2.free)
  {
    SlotOfBoth(m, m', src, dst, path[0]);
    OtherSlot(m', who, if who == src then dst else src, path);
    hide *;
  }

  lemma LikeEntry(m: Mem, m': Mem, d: nat, t: nat, i: nat)
    requires TreeOk(m.tables, m.nodes) && ShapeKept(m, m', d) && t != d
    ensures var e, e' := Entry(m, t, i), Entry(m', t, i);
            t in m.tables ==> e'.p == e.p && (!e.p ==> e' == e) && (e.p ==> e'.ps == e.ps && e'.frame == e.frame)
  {
    if t in m.tables && i < |m.tables[t]| { assert Like(m.tables[t][i], m'.tables[t][i], m.nodes[t].level); }
  }

  lemma NoneIsKept(m: Mem, m': Mem, d: nat, t: nat, i: nat)
    requires TreeOk(m.tables, m.nodes) && ShapeKept(m, m', d) && t != d && t in m.tables && NoneBut(m, t, i)
    ensures NoneBut(m', t, i)
  {
    forall j: nat | j != i
      ensures Entry(m', t, j) == ZERO
    {
      LikeEntry(m, m', d, t, j);
      assert Entry(m, t, j) == ZERO;
    }
  }

  /** A slot with nothing but one page is forked as such. */
  lemma LastStays(m: Mem, m': Mem, src: nat, dst: nat, who: nat, path: seq<nat>)
    requires VmOk(m.tables, m.nodes, m.free) && IsP4(m, src) && IsFork(m, m', src, dst)
    requires (who == src || who == dst) && Reaches(m, src, path) && LastOfSlot(m, src, path)
    ensures Reaches(m', who, path) && LastOfSlot(m', who, path)
  {
    SlotOfBoth(m, m', src, dst, path[0]);
    var (e4, e3, e2, e1) := Way(m, src, path);
    WayIsChain(m, src, path);
    ChainSizes(m, src, e4.frame, e3.frame, e2.frame, path);
    assert ShapeKept(m, m', dst) && dst !in m.nodes;
    hide IsFork, ShapeKept, TreeOk, NoneBut, Chain;
    LikeEntry(m, m', dst, src, path[0]);
    LikeEntry(m, m', dst, e4.frame, path[1]);
    LikeEntry(m, m', dst, e3.frame, path[2]);
    LikeEntry(m, m', dst, e2.frame, path[3]);
    NoneIsKept(m, m', dst, e4.frame, path[1]);
    NoneIsKept(m, m', dst, e3.frame, path[2]);
    NoneIsKept(m, m', dst, e2.frame, path[3]);
  }

  /**
   So the first page that a process maps below an empty slot of the lower half, forked and unmapped by either
   process, leaves the other one with a freed table.
   */
  lemma LonePageFrees(m: Mem, m': Mem, src: nat, dst: nat, who: nat, path: seq<nat>)
    requires VmOk(m.tables, m.nodes, m.free) && IsP4(m, src) && IsFork(m, m', src, dst)
    requires (who == src || who == dst) && Reaches(m, src, path) && LastOfSlot(m, src, path)
    ensures var m2, other := AfterUnmap(m', who, path), if who == src then dst else src;
            var e := Entry(m2, other, path[0]);
            e.p && e.frame !in m2.tables && (m.base <= e.frame < m.base + m.limit ==> e.frame in m2.free)
  {
    LastStays(m, m', src, dst, who, path);
    ForkUnmapFrees(m, m', src, dst, who, path);
    hide *;
  }

  // ----- what user code may use -----

  /** Where a walk ends, read off the entries that it meets. */
  lemma WayEnds(m: Mem, p4: nat, path: seq<nat>)
    requires TreeOk(m.tables, m.nodes) && IsP4(m, p4) && IsPath(path, 4)
    ensures var (e4, e3, e2, e1) := Way(m, p4, path);
            EndOfWalk(m.tables, p4, 4, path) ==
            if !e4.p then End(e4, 4) else if !e3.p then End(e3, 3) else if !e2.p || e2.ps then End(e2, 2)
            else End(e1, 1)
  {
    assert IsTable(p4, m.tables, m.nodes) && EntryOk(p4, path[0], m.tables, m.nodes);
    assert path[1..][0] == path[1] && path[1..][1..][0] == path[2] && path[1..][1..][1..][0] == path[3];
    var e4 := m.tables[p4][path[0]];
    if e4.p {
      assert EntryOk(e4.frame, path[1], m.tables, m.nodes);
      var e3 := m.tables[e4.frame][path[1]];
      if e3.p { assert EntryOk(e3.frame, path[2], m.tables, m.nodes); }
    }
  }

  /** Above the last level, whatever leads to a table has the user bit and the write bit. */
  ghost predicate LinksOpen(m: Mem, r: nat, q: seq<nat>)
    requires IsPath(q, 4)
  {
    var (e4, e3, e2, e1) := Way(m, r, q);
    && (e4.p ==> e4.u && e4.w)
    && (e4.p && e3.p ==> e3.u && e3.w)
    && (e4.p && e3.p && e2.p && !e2.ps ==> e2.u && e2.w)
  }

  lemma CopyLinks(m: Mem, src: nat, dst: nat, q: seq<nat>)
    requires IsCopy(m, src, dst, 4) && IsPath(q, 4) && q[0] >= UPPER
    ensures LinksOpen(m, src, q) && LinksOpen(m, dst, q)
  {
    assert CopiedAt(m, src, dst, 4, q[0]);
    var a, b := m.tables[src][q[0]], m.tables[dst][q[0]];
    if a.p {
      assert IsCopy(m, a.frame, b.frame, 3) && CopiedAt(m, a.frame, b.frame, 3, q[1]);
      var a3, b3 := m.tables[a.frame][q[1]], m.tables[b.frame][q[1]];
      if a3.p { assert IsCopy(m, a3.frame, b3.frame, 2) && CopiedAt(m, a3.frame, b3.frame, 2, q[2]); }
    }
  }

  /**
   After a fork user code of the parent and of the child may use exactly the pages of the upper half, small or huge,
   whose own entries had the user bit before.
   */
  lemma ForkUsable(m: Mem, m': Mem, src: nat, dst: nat, q: seq<nat>, r: nat)
    requires VmOk(m.tables, m.nodes, m.free) && IsP4(m, src) && IsFork(m, m', src, dst) && IsUpper(q)
    requires r == src || r == dst
    ensures LinksOpen(m', r, q)
    ensures var w, (e4, e3, e2, e1) := EndOfWalk(m.tables, src, 4, q).e, Way(m', r, q);
            w.p && w.u <==> e4.p && e4.u && e3.p && e3.u && e2.p && e2.u && (e2.ps || (e1.p && e1.u))
    ensures var w := EndOfWalk(m.tables, src, 4, q).e; w.p && w.u <==> UserOk(m'.tables, r, 4, q)
  {
    ForkLinked(m, m', src, dst);
    CopyLinks(m', src, dst, q);
    ForkEnds(m, m', src, dst, q);
    hide IsFork, IsCopy, EndOfWalk, UserOk, TreeOk;
    FromOk(m');
    WayEnds(m', r, q);
    WayUsable(m', r, q);
  }

  /**
   Parent and child end where the parent did. User pages and huge pages are not writable any more and marked, with all
   else as it was; kernel pages are as they were.
   */
  lemma ForkEnds(m: Mem, m': Mem, src: nat, dst: nat, q: seq<nat>)
    requires VmOk(m.tables, m.nodes, m.free) && IsP4(m, src) && IsFork(m, m', src, dst) && IsUpper(q)
    ensures var w, level := EndOfWalk(m.tables, src, 4, q).e, EndOfWalk(m.tables, src, 4, q).level;
            forall r | r == src || r == dst ::
              var e := EndOfWalk(m'.tables, r, 4, q).e;
              && e.p == w.p
              && (e.p ==> e.u == w.u && e.ps == w.ps && e.rest == w.rest && e.frame == w.frame
                          && if level >= 2 || w.u then !e.w && e.cow else e.w == w.w && e.cow == w.cow)
  {
    ForkLinked(m, m', src, dst);
    ForkRights(m, m', src, dst, src, q);
    CopyEndsAlike(m', src, dst, 4, q);
    SelfCloned(m, src, q);
    EndIsPage(m.tables, src, 4, q);
    hide IsFork, IsCopy, EndOfWalk, VmOk;
  }

  lemma {:induction false} EndIsPage(tables: Tables, t: nat, level: nat, path: seq<nat>)
    requires IsPath(path, level) && level >= 1
    ensures var w := EndOfWalk(tables, t, level, path); w.level >= 1 && (w.level >= 2 && w.e.p ==> w.e.ps)
    decreases level
  {
    if level > 1 && t in tables && path[0] < |tables[t]| {
      var e := tables[t][path[0]];
      if e.p && !e.ps { EndIsPage(tables, e.frame, level - 1, path[1..]); }
    }
  }

  /** A slot of the upper half that leads nowhere has no page; any other is cloned. */
  lemma SelfCloned(m: Mem, src: nat, q: seq<nat>)
    requires VmOk(m.tables, m.nodes, m.free) && IsP4(m, src) && IsUpper(q)
    ensures Cloned(m.tables, src, src, q[0]) || !EndOfWalk(m.tables, src, 4, q).e.p
  {
    FromTree(m.tables, m.nodes);
    if m.tables[src][q[0]].p { assert SameSlot(m.tables, src, q[0], src, q[0]); }
  }

  lemma ForkLinked(m: Mem, m': Mem, src: nat, dst: nat)
    requires VmOk(m.tables, m.nodes, m.free) && IsP4(m, src) && IsFork(m, m', src, dst)
    ensures VmOk(m'.tables, m'.nodes, m'.free) && IsP4(m', src) && IsP4(m', dst) && IsCopy(m', src, dst, 4)
  {
    hide IsCopy, ChangedIn, Added, LowSame, VmOk;
  }
}
