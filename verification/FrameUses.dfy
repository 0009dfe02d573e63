/**
 How often a frame is mapped below the upper half of a root, and how many of these mappings count as
 owners: those below private slots do, those below slots that other roots share do not.
 */
module FrameUses {
  import opened Options
  import opened PageTables
  import opened Pmm
  import opened Vmm
  import opened CowState

  /** The first slot or entry that is cloned. */
  function First(level: nat): nat {
    if level == 4 then UPPER else 0
  }

  ghost predicate HasTable(m: Mem, t: nat, level: nat) {
    t in m.tables && t in m.nodes && m.nodes[t].level == level && |m.tables[t]| == ENTRIES
  }

  /** The entry leads to something that belongs to this root alone. */
  ghost predicate OwnBelow(m: Mem, s: nat, level: nat, i: nat)
    requires HasTable(m, s, level) && i < ENTRIES
  {
    var e := m.tables[s][i];
    if level < 4 then m.nodes[s].own else e.p && e.frame in m.nodes && m.nodes[e.frame].own
  }

  /** How often the first `n` entries that are cloned map the frame below private tables. */
  ghost function OwnUses(m: Mem, s: nat, level: nat, n: nat, f: nat): nat
    requires HasTable(m, s, level) && n <= ENTRIES
    decreases s, n
  {
    if n <= First(level) then 0
    else
      var before := OwnUses(m, s, level, n - 1, f);
      if OwnBelow(m, s, level, n - 1) then before + EntryUses(m.tables, m.tables[s][n - 1], level, f) else before
  }

  lemma {:induction false} OwnUsesBelow(m: Mem, s: nat, level: nat, n: nat, f: nat)
    requires HasTable(m, s, level) && n <= ENTRIES && level < 4
    ensures OwnUses(m, s, level, n, f) == if m.nodes[s].own then Uses(m.tables, s, level, 0, n, f) else 0
    decreases n
  {
    if n > 0 { OwnUsesBelow(m, s, level, n - 1, f); }
  }

  // ----- uses and owners -----

  lemma ChildThere(m: Mem, t: nat, level: nat, i: nat)
    requires TreeOk(m.tables, m.nodes) && t in m.tables && m.nodes[t].level == level && i < ENTRIES
    ensures |m.tables[t]| == ENTRIES
    ensures var e := m.tables[t][i];
            level >= 2 && e.p ==> (e.ps ==> level == 2) && (!e.ps ==>
                e.frame in m.tables && |m.tables[e.frame]| == ENTRIES && m.nodes[e.frame].level == level - 1)
  {
    assert IsTable(t, m.tables, m.nodes) && EntryOk(t, i, m.tables, m.nodes);
  }

  lemma BelowNext(tables: Tables, t: nat, level: nat, lo: nat, i: nat)
    requires t in tables && lo <= i < |tables[t]|
    ensures TablesBelow(tables, t, level, lo, i + 1) ==
            TablesBelow(tables, t, level, lo, i) + BelowEntry(tables, tables[t][i], level)
  {
  }

  /** The entries that map frame `f` among those below a range of entries of a table. */
  ghost function OwnersBelow(m: Mem, f: nat, t: nat, level: nat, lo: nat, hi: nat): set<Leaf> {
    set l <- Owners(m, f) | if level <= 1 then l.pt == t && lo <= l.idx < hi
        else l.pt in TablesBelow(m.tables, t, level, lo, hi)
  }

  /** Below a private table a frame is mapped once for each of its owners there. */
  lemma {:induction false} UsesAreOwners(m: Mem, f: nat, t: nat, level: nat, lo: nat, hi: nat)
    requires TreeOk(m.tables, m.nodes) && NoHugeOwn(m.tables, m.nodes) && t in m.tables && m.nodes[t].level == level < 4
    requires hi <= ENTRIES && m.nodes[t].own
    ensures Uses(m.tables, t, level, lo, hi, f) == |OwnersBelow(m, f, t, level, lo, hi)|
    decreases level, hi
  {
    hide Owners;
    ChildThere(m, t, level, 0);
    if lo < hi {
      UsesAreOwners(m, f, t, level, lo, hi - 1);
      EntryUsesAreOwners(m, f, t, level, hi - 1);
      OwnersSplit(m, f, t, level, lo, hi - 1);
    }
  }

  ghost function EntryOwners(m: Mem, f: nat, t: nat, level: nat, i: nat): set<Leaf>
    requires t in m.tables && i < |m.tables[t]|
  {
    set l <- Owners(m, f) | if level <= 1 then l == Leaf(t, i) else l.pt in BelowEntry(m.tables, m.tables[t][i], level)
  }

  lemma {:induction false} EntryUsesAreOwners(m: Mem, f: nat, t: nat, level: nat, i: nat)
    requires TreeOk(m.tables, m.nodes) && NoHugeOwn(m.tables, m.nodes) && t in m.tables && m.nodes[t].level == level
    requires i < ENTRIES && i < |m.tables[t]|
    requires if level == 4 then Private(m.tables, m.nodes, t, i) else m.nodes[t].own
    ensures EntryUses(m.tables, m.tables[t][i], level, f) == |EntryOwners(m, f, t, level, i)|
    decreases level, i
  {
    hide Owners, TablesBelow, TreeOk, NoHugeOwn, BelowEntry, Private;
    OwnersAre(m, f);
    OwnEntry(m, t, level, i);
    var e := m.tables[t][i];
    if level <= 1 {
      hide Uses;
      assert EntryOwners(m, f, t, level, i) == if e.p && e.u && e.frame == f then {Leaf(t, i)} else {};
    } else if !e.p {
      BelowEntryIs(m.tables, e, level);
      assert EntryOwners(m, f, t, level, i) == {};
    } else {
      UsesAreOwners(m, f, e.frame, level - 1, 0, ENTRIES);
      ChildOwners(m, f, t, level, i);
      hide Uses, EntryOwners, OwnersBelow;
    }
  }

  /** Below a private slot an entry of an upper level leads to another private table. */
  lemma OwnEntry(m: Mem, t: nat, level: nat, i: nat)
    requires TreeOk(m.tables, m.nodes) && NoHugeOwn(m.tables, m.nodes) && t in m.tables && m.nodes[t].level == level
    requires i < ENTRIES && i < |m.tables[t]|
    requires if level == 4 then Private(m.tables, m.nodes, t, i) else m.nodes[t].own
    ensures 1 <= level <= 4
    ensures var e := m.tables[t][i];
            level >= 2 && e.p ==>
                && !e.ps && e.frame in m.tables && e.frame in m.nodes
                && m.nodes[e.frame].level == level - 1 && m.nodes[e.frame].own
    ensures level == 1 && m.tables[t][i].p && m.tables[t][i].u ==> IsUserLeaf(m, Leaf(t, i))
  {
    ChildThere(m, t, level, i);
    assert IsTable(t, m.tables, m.nodes) && EntryOk(t, i, m.tables, m.nodes);
  }

  lemma ChildOwners(m: Mem, f: nat, t: nat, level: nat, i: nat)
    requires t in m.tables && i < |m.tables[t]| && m.tables[t][i].p && !m.tables[t][i].ps && level >= 2
    requires m.tables[t][i].frame in m.nodes && m.nodes[m.tables[t][i].frame].level == level - 1
    ensures EntryOwners(m, f, t, level, i) == OwnersBelow(m, f, m.tables[t][i].frame, level - 1, 0, ENTRIES)
  {
    hide Owners, TablesBelow;
    OwnersAre(m, f);
    BelowEntryIs(m.tables, m.tables[t][i], level);
    var c: nat := m.tables[t][i].frame;
    if level == 2 { NoneBelowLast(m.tables, c); }
    assert forall l <- Owners(m, f) :: l.pt in m.nodes && m.nodes[l.pt].level == 1 && l.idx < ENTRIES;
  }

  lemma NoneBelowLast(tables: Tables, t: nat)
    ensures TablesBelow(tables, t, 1, 0, ENTRIES) == {}
  {
    NoneBelow(tables, t, 0, ENTRIES);
  }

  lemma {:induction false} NoneBelow(tables: Tables, t: nat, lo: nat, hi: nat)
    ensures TablesBelow(tables, t, 1, lo, hi) == {}
    decreases hi
  {
    if lo < hi { NoneBelow(tables, t, lo, hi - 1); }
  }

  /** The owners below one entry more. */
  lemma OwnersSplit(m: Mem, f: nat, t: nat, level: nat, lo: nat, i: nat)
    requires TreeOk(m.tables, m.nodes) && t in m.tables && m.nodes[t].level == level && lo <= i < ENTRIES
    requires |m.tables[t]| == ENTRIES
    requires level == 4 ==> Private(m.tables, m.nodes, t, i)
    ensures |OwnersBelow(m, f, t, level, lo, i + 1)| ==
            |OwnersBelow(m, f, t, level, lo, i)| + |EntryOwners(m, f, t, level, i)|
  {
    BelowApart(m, t, level, lo, i);
    BelowNext(m.tables, t, level, lo, i);
    hide Owners, TablesBelow, BelowEntry, TreeOk, Private;
    var a, b := OwnersBelow(m, f, t, level, lo, i), EntryOwners(m, f, t, level, i);
    assert OwnersBelow(m, f, t, level, lo, i + 1) == a + b;
    assert a !! b;
  }

  /** Different entries lead to different tables, all the way down. */
  lemma BelowApart(m: Mem, t: nat, level: nat, lo: nat, i: nat)
    requires TreeOk(m.tables, m.nodes) && t in m.tables && m.nodes[t].level == level && lo <= i < ENTRIES
    requires |m.tables[t]| == ENTRIES
    requires level == 4 ==> Private(m.tables, m.nodes, t, i)
    ensures TablesBelow(m.tables, t, level, lo, i) !! BelowEntry(m.tables, m.tables[t][i], level)
  {
    hide TablesBelow, BelowEntry;
    forall c | c in TablesBelow(m.tables, t, level, lo, i)
      ensures c !in BelowEntry(m.tables, m.tables[t][i], level)
    {
      var j := BelowComesFrom(m.tables, m.nodes, t, level, lo, i, c);
      EntryLeadsUp(m, t, level, j, c);
      assert EntryOk(t, i, m.tables, m.nodes) && EntryOk(t, j, m.tables, m.nodes);
      if c in BelowEntry(m.tables, m.tables[t][i], level) { EntryLeadsUp(m, t, level, i, c); }
    }
  }

  lemma EntryLeadsUp(m: Mem, t: nat, level: nat, i: nat, c: nat)
    requires TreeOk(m.tables, m.nodes) && t in m.tables && m.nodes[t].level == level && i < ENTRIES && i < |m.tables[t]|
    requires c in BelowEntry(m.tables, m.tables[t][i], level)
    ensures level >= 2 && m.tables[t][i].p && !m.tables[t][i].ps && c in m.nodes && c in m.tables
    ensures m.nodes[c].level < level
    ensures UpTo(m.nodes, c, level - 1) == m.tables[t][i].frame && m.tables[t][i].frame in m.nodes
    ensures m.nodes[c].own == m.nodes[m.tables[t][i].frame].own
  {
    hide TablesBelow;
    var e := m.tables[t][i];
    BelowEntryIs(m.tables, e, level);
    assert IsTable(t, m.tables, m.nodes) && EntryOk(t, i, m.tables, m.nodes);
    if c != e.frame { BelowLeadsUp(m.tables, m.nodes, e.frame, level - 1, c); }
  }

  /** What a slot leads to counts for the root if it is the root's own, and for nobody otherwise. */
  lemma SlotOwners(m: Mem, f: nat, p4: nat, i: nat)
    requires TreeOk(m.tables, m.nodes) && NoHugeOwn(m.tables, m.nodes) && HasTable(m, p4, 4) && UPPER <= i < ENTRIES
    ensures |EntryOwners(m, f, p4, 4, i)| ==
            if OwnBelow(m, p4, 4, i) then EntryUses(m.tables, m.tables[p4][i], 4, f) else 0
  {
    OwnSlotIsPrivate(m, p4, i);
    if OwnBelow(m, p4, 4, i) {
      EntryUsesAreOwners(m, f, p4, 4, i);
    } else {
      hide TablesBelow, BelowEntry, Owners, TreeOk;
      OwnersAre(m, f);
      forall l | l in EntryOwners(m, f, p4, 4, i)
        ensures false
      {
        EntryLeadsUp(m, p4, 4, i, l.pt);
      }
      assert EntryOwners(m, f, p4, 4, i) == {};
    }
  }

  lemma OwnSlotIsPrivate(m: Mem, p4: nat, i: nat)
    requires TreeOk(m.tables, m.nodes) && HasTable(m, p4, 4) && i < ENTRIES
    ensures OwnBelow(m, p4, 4, i) ==> Private(m.tables, m.nodes, p4, i)
    ensures Private(m.tables, m.nodes, p4, i) && m.tables[p4][i].p ==> OwnBelow(m, p4, 4, i)
  {
    assert EntryOk(p4, i, m.tables, m.nodes);
  }

  /** The mappings below private slots are the owners. */
  lemma {:induction false} OwnUsesAreOwners(m: Mem, f: nat, p4: nat, n: nat)
    requires TreeOk(m.tables, m.nodes) && NoHugeOwn(m.tables, m.nodes) && HasTable(m, p4, 4) && UPPER <= n <= ENTRIES
    ensures OwnUses(m, p4, 4, n, f) == |OwnersBelow(m, f, p4, 4, UPPER, n)|
    decreases n
  {
    hide Owners, TreeOk, TablesBelow, BelowEntry, OwnBelow, NoHugeOwn;
    if n > UPPER {
      OwnUsesAreOwners(m, f, p4, n - 1);
      SlotOwners(m, f, p4, n - 1);
      OwnSlotIsPrivate(m, p4, n - 1);
      BelowNext(m.tables, p4, 4, UPPER, n - 1);
      if OwnBelow(m, p4, 4, n - 1) {
        OwnersSplit(m, f, p4, 4, UPPER, n - 1);
      } else {
        assert EntryOwners(m, f, p4, 4, n - 1) == {};
        assert OwnersBelow(m, f, p4, 4, UPPER, n) ==
               OwnersBelow(m, f, p4, 4, UPPER, n - 1) + EntryOwners(m, f, p4, 4, n - 1);
      }
    } else {
      NoTablesAt(m.tables, p4, 4, UPPER);
    }
  }

  lemma NoTablesAt(tables: Tables, t: nat, level: nat, lo: nat)
    ensures TablesBelow(tables, t, level, lo, lo) == {}
  {
  }

  lemma {:induction false} OwnUsesFewer(m: Mem, p4: nat, n: nat, f: nat)
    requires HasTable(m, p4, 4) && UPPER <= n <= ENTRIES
    ensures OwnUses(m, p4, 4, n, f) <= Uses(m.tables, p4, 4, UPPER, n, f)
    decreases n
  {
    hide EntryUses;
    if n > UPPER { OwnUsesFewer(m, p4, n - 1, f); }
  }

  // ----- where a frame is mapped -----

  /** The walk ends in an entry that maps the frame: a user page, or a huge page that covers it. */
  ghost predicate MapsFrame(w: End, f: nat) {
    w.e.p && if w.level <= 1 then w.e.u && w.e.frame == f else w.e.ps && w.e.frame <= f < w.e.frame + ENTRIES
  }

  /** A frame is counted as mapped exactly if some walk ends there. */
  lemma {:induction false} UsedAt(tables: Tables, t: nat, level: nat, path: seq<nat>, lo: nat, hi: nat, f: nat)
    requires level >= 1 && IsPath(path, level) && t in tables && lo <= path[0] < hi <= |tables[t]|
    requires MapsFrame(EndOfWalk(tables, t, level, path), f)
    requires forall x <- tables :: |tables[x]| == ENTRIES
    ensures Uses(tables, t, level, lo, hi, f) >= 1
    decreases level, hi
  {
    if path[0] < hi - 1 {
      UsedAt(tables, t, level, path, lo, hi - 1, f);
    } else {
      var e := tables[t][hi - 1];
      if e.p && !e.ps && level >= 2 {
        assert EndOfWalk(tables, t, level, path) == EndOfWalk(tables, e.frame, level - 1, path[1..]);
        assert e.frame in tables;
        UsedAt(tables, e.frame, level - 1, path[1..], 0, ENTRIES, f);
      }
    }
  }

  lemma {:induction false} UsedSomewhere(m: Mem, t: nat, level: nat, lo: nat, hi: nat, f: nat) returns (path: seq<nat>)
    requires TreeOk(m.tables, m.nodes) && t in m.tables && m.nodes[t].level == level && hi <= ENTRIES
    requires Uses(m.tables, t, level, lo, hi, f) >= 1
    ensures IsPath(path, level) && lo <= path[0] < hi && MapsFrame(EndOfWalk(m.tables, t, level, path), f)
    decreases level, hi
  {
    ChildThere(m, t, level, hi - 1);
    assert IsTable(t, m.tables, m.nodes);
    var e := m.tables[t][hi - 1];
    if EntryUses(m.tables, e, level, f) >= 1 {
      path := UsedBelow(m, t, level, hi - 1, f);
    } else {
      path := UsedSomewhere(m, t, level, lo, hi - 1, f);
    }
  }

  lemma {:induction false} UsedBelow(m: Mem, t: nat, level: nat, i: nat, f: nat) returns (path: seq<nat>)
    requires TreeOk(m.tables, m.nodes) && t in m.tables && m.nodes[t].level == level && i < ENTRIES
    requires 1 <= level && i < |m.tables[t]|
    requires EntryUses(m.tables, m.tables[t][i], level, f) >= 1
    ensures IsPath(path, level) && path[0] == i && MapsFrame(EndOfWalk(m.tables, t, level, path), f)
    decreases level, i
  {
    ChildThere(m, t, level, i);
    var e := m.tables[t][i];
    path := seq(level, _ => i);
    if level >= 2 && !e.ps {
      var rest := UsedSomewhere(m, e.frame, level - 1, 0, ENTRIES, f);
      path := [i] + rest;
      assert path[1..] == rest;
    }
  }

  /** A slot that others may lead to, too, maps or covers the frame. */
  ghost predicate Foreign(m: Mem, p4: nat, f: nat)
    requires HasTable(m, p4, 4)
  {
    exists q ::
      IsPath(q, 4) && q[0] >= UPPER && !OwnBelow(m, p4, 4, q[0]) && MapsFrame(EndOfWalk(m.tables, p4, 4, q), f)
  }

  /** All mappings below the upper half are owners exactly if none is below a slot that is not the root's own. */
  lemma {:induction false} ForeignUses(m: Mem, p4: nat, f: nat)
    requires TreeOk(m.tables, m.nodes) && HasTable(m, p4, 4)
    ensures OwnUses(m, p4, 4, ENTRIES, f) == Uses(m.tables, p4, 4, UPPER, ENTRIES, f) <==> !Foreign(m, p4, f)
  {
    hide Uses, EndOfWalk, OwnUses, TreeOk, OwnBelow;
    FromTree(m.tables, m.nodes);
    OwnUsesFewer(m, p4, ENTRIES, f);
    if OwnUses(m, p4, 4, ENTRIES, f) < Uses(m.tables, p4, 4, UPPER, ENTRIES, f) {
      var q := ForeignSomewhere(m, p4, ENTRIES, f);
    }
    if Foreign(m, p4, f) {
      var q :|
        IsPath(q, 4) && q[0] >= UPPER && !OwnBelow(m, p4, 4, q[0]) && MapsFrame(EndOfWalk(m.tables, p4, 4, q), f);
      ForeignAt(m, p4, q, ENTRIES, f);
    }
  }

  lemma {:induction false} ForeignSomewhere(m: Mem, p4: nat, n: nat, f: nat) returns (q: seq<nat>)
    requires TreeOk(m.tables, m.nodes) && HasTable(m, p4, 4) && UPPER <= n <= ENTRIES
    requires OwnUses(m, p4, 4, n, f) < Uses(m.tables, p4, 4, UPPER, n, f)
    ensures IsPath(q, 4) && q[0] >= UPPER && !OwnBelow(m, p4, 4, q[0]) && MapsFrame(EndOfWalk(m.tables, p4, 4, q), f)
    decreases n
  {
    hide EndOfWalk, TreeOk, EntryUses;
    if n > UPPER {
      if !OwnBelow(m, p4, 4, n - 1) && EntryUses(m.tables, m.tables[p4][n - 1], 4, f) >= 1 {
        q := UsedBelow(m, p4, 4, n - 1, f);
      } else {
        q := ForeignSomewhere(m, p4, n - 1, f);
      }
    }
  }

  lemma {:induction false} ForeignAt(m: Mem, p4: nat, q: seq<nat>, n: nat, f: nat)
    requires HasTable(m, p4, 4) && IsPath(q, 4) && UPPER <= q[0] < n <= ENTRIES
    requires !OwnBelow(m, p4, 4, q[0]) && MapsFrame(EndOfWalk(m.tables, p4, 4, q), f)
    requires forall x <- m.tables :: |m.tables[x]| == ENTRIES
    ensures OwnUses(m, p4, 4, n, f) < Uses(m.tables, p4, 4, UPPER, n, f)
    decreases n
  {
    hide EndOfWalk;
    if q[0] < n - 1 {
      ForeignAt(m, p4, q, n - 1, f);
    } else {
      OwnUsesFewer(m, p4, n - 1, f);
      UsedAt(m.tables, p4, 4, q, n - 1, n, f);
    }
  }
}
