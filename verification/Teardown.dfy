/**
 `free_user_p4`: gives up one address space. Its entries are not cleared, its tables are given back
 while their parents still point to them. What that does to every frame is stated for any root; that
 nothing in use is freed holds exactly for roots whose upper slots are their own.
 */
module Teardown {
  import opened Options
  import opened PageTables
  import opened Pmm
  import opened Vmm
  import opened CowState
  import opened FrameUses
  import opened CopyOnWrite
  import opened Fork

  // ----- what is dropped -----

  /** The count after `k` references were dropped one by one; dropping below 0 wraps around to the pinned value. */
  function DecTimes(n: nat, k: nat): nat {
    if n == REF_MAX || k > n then REF_MAX else n - k
  }

  /** One of `k` drops was that of the last reference. */
  predicate LastDropped(n: nat, k: nat) {
    n != REF_MAX && 1 <= n <= k
  }

  /** Exactly these tables were given back, and every frame lost exactly so many references. */
  ghost predicate Gave(m: Mem, m': Mem, gone: set<nat>, uses: nat -> nat) {
    && m'.tables == m.tables && m'.nodes == m.nodes && m'.base == m.base && m'.limit == m.limit && |m'.refs| == |m.refs|
    && (forall i | 0 <= i < |m.refs| :: m.refs[i] <= REF_MAX)
    && (forall i | 0 <= i < |m.refs| :: m'.refs[i] == DecTimes(m.refs[i], uses(m.base + i)))
    && (forall f :: f in m'.free <==> f in m.free || Freed(m, f, gone, uses))
  }

  ghost predicate Freed(m: Mem, f: nat, gone: set<nat>, uses: nat -> nat) {
    m.base <= f < m.base + m.limit && m.limit <= |m.refs|
        && (f in gone || LastDropped(RefAt(m.refs, m.base, f), uses(f)))
  }

  lemma GaveTwice(a: Mem, b: Mem, c: Mem, s: set<nat>, t: set<nat>, st: set<nat>, u: nat -> nat, v: nat -> nat,
      w: nat -> nat)
    requires Gave(a, b, s, u) && Gave(b, c, t, v) && st == s + t && forall f: nat :: w(f) == u(f) + v(f)
    ensures Gave(a, c, st, w)
  {
    forall i | 0 <= i < |a.refs|
      ensures c.refs[i] == DecTimes(a.refs[i], w(a.base + i))
    {
      assert b.refs[i] == DecTimes(a.refs[i], u(a.base + i)) && c.refs[i] == DecTimes(b.refs[i], v(a.base + i));
    }
    forall f: nat
      ensures f in c.free <==> f in a.free || Freed(a, f, st, w)
    {
      if a.base <= f < a.base + a.limit && a.limit <= |a.refs| {
        assert b.refs[f - a.base] == DecTimes(a.refs[f - a.base], u(f));
      }
    }
  }

  lemma GaveNothing(m: Mem)
    requires forall i | 0 <= i < |m.refs| :: m.refs[i] <= REF_MAX
    ensures Gave(m, m, {}, NoUses())
  {
  }

  lemma GaveSame(m: Mem, m': Mem, s: set<nat>, u: nat -> nat, v: nat -> nat)
    requires Gave(m, m', s, u) && forall f: nat :: u(f) == v(f)
    ensures Gave(m, m', s, v)
  {
    forall f: nat
      ensures f in m'.free <==> f in m.free || Freed(m, f, s, v)
    {
      assert Freed(m, f, s, u) <==> Freed(m, f, s, v);
    }
  }

  lemma DropGave(m: Mem, f: nat)
    requires (forall i | 0 <= i < |m.refs| :: m.refs[i] <= REF_MAX) && m.limit <= |m.refs|
    ensures Gave(m, Dropped(m, f), {}, SpanUses(f, 1))
  {
  }

  ghost function GivenBack(m: Mem, t: nat): Mem {
    m.(free := if m.base <= t < m.base + m.limit then m.free + {t} else m.free)
  }

  lemma BackGave(m: Mem, t: nat)
    requires (forall i | 0 <= i < |m.refs| :: m.refs[i] <= REF_MAX) && m.limit <= |m.refs|
    ensures Gave(m, GivenBack(m, t), {t}, NoUses())
  {
  }

  // ----- the code -----

  /** `frame_dec` on each of the 512 frames of a huge page. */
  method DropHuge(vm: AddressSpaces, frame: nat)
    requires vm.pmm.Valid()
    modifies vm.pmm`freeFrames, vm.pmm`hint, vm.pmm.bm, vm.pmm.refs
    ensures vm.pmm.Valid() && Gave(old(vm.Now()), vm.Now(), {}, SpanUses(frame, ENTRIES))
  {
    hide FrameManager.Valid, FrameManager.Free, Gave, Dropped;
    vm.pmm.FromValid();
    ghost var m := vm.Now();
    Started(vm, m);
    GaveSame(m, m, {}, NoUses(), SpanUses(frame, 0));
    for j := 0 to ENTRIES
      invariant vm.pmm.Valid() && Gave(m, vm.Now(), {}, SpanUses(frame, j))
    {
      ghost var a := vm.Now();
      Started(vm, a);
      DropGave(a, frame + j);
      DropFrame(vm, frame + j);
      GaveTwice(m, a, vm.Now(), {}, {}, {}, SpanUses(frame, j), SpanUses(frame + j, 1), SpanUses(frame, j + 1));
    }
  }

  lemma Started(vm: AddressSpaces, m: Mem)
    requires vm.pmm.Valid() && m == vm.Now()
    ensures (forall i | 0 <= i < |m.refs| :: m.refs[i] <= REF_MAX) && m.limit <= |m.refs| && Gave(m, m, {}, NoUses())
  {
    GaveNothing(m);
  }

  /** One more entry was handled. */
  lemma NextEntry(m: Mem, a: Mem, b: Mem, t: nat, level: nat, lo: nat, i: nat)
    requires t in m.tables && lo <= i < |m.tables[t]|
    requires Gave(m, a, TablesBelow(m.tables, t, level, lo, i), RangeUses(m.tables, t, level, lo, i))
    requires Gave(a, b, BelowEntry(m.tables, m.tables[t][i], level), OneEntryUses(m.tables, m.tables[t][i], level))
    ensures Gave(m, b, TablesBelow(m.tables, t, level, lo, i + 1), RangeUses(m.tables, t, level, lo, i + 1))
  {
    BelowNext(m.tables, t, level, lo, i);
    hide Gave, TablesBelow, BelowEntry;
    GaveTwice(m, a, b, TablesBelow(m.tables, t, level, lo, i), BelowEntry(m.tables, m.tables[t][i], level),
      TablesBelow(m.tables, t, level, lo, i + 1), RangeUses(m.tables, t, level, lo, i),
      OneEntryUses(m.tables, m.tables[t][i], level), RangeUses(m.tables, t, level, lo, i + 1));
  }

  lemma NoEntries(m: Mem, t: nat, level: nat, lo: nat)
    requires Gave(m, m, {}, NoUses())
    ensures Gave(m, m, TablesBelow(m.tables, t, level, lo, lo), RangeUses(m.tables, t, level, lo, lo))
  {
    GaveSame(m, m, {}, NoUses(), RangeUses(m.tables, t, level, lo, lo));
  }

  /** What one entry of the last level is worth. */
  lemma LastEntry(m: Mem, m': Mem, e: Pte)
    requires Gave(m, m, {}, NoUses())
    ensures e.p && e.u && Gave(m, m', {}, SpanUses(e.frame, 1)) ==>
            Gave(m, m', BelowEntry(m.tables, e, 1), OneEntryUses(m.tables, e, 1))
    ensures !(e.p && e.u) ==> Gave(m, m, BelowEntry(m.tables, e, 1), OneEntryUses(m.tables, e, 1))
  {
    hide Gave;
    if e.p && e.u && Gave(m, m', {}, SpanUses(e.frame, 1)) {
      GaveSame(m, m', {}, SpanUses(e.frame, 1), OneEntryUses(m.tables, e, 1));
    }
    if !(e.p && e.u) { GaveSame(m, m, {}, NoUses(), OneEntryUses(m.tables, e, 1)); }
  }

  /** What an entry of an upper level is worth: nothing, a huge page, or a table with all that hangs below it. */
  lemma UpperEntry(m: Mem, m': Mem, e: Pte, level: nat)
    requires level >= 2 && Gave(m, m, {}, NoUses())
    ensures !e.p ==> Gave(m, m, BelowEntry(m.tables, e, level), OneEntryUses(m.tables, e, level))
    ensures e.p && e.ps && Gave(m, m', {}, SpanUses(e.frame, ENTRIES)) ==>
              Gave(m, m', BelowEntry(m.tables, e, level), OneEntryUses(m.tables, e, level))
    ensures e.p && !e.ps && GaveTable(m, m', e.frame, level - 1) ==>
              Gave(m, m', BelowEntry(m.tables, e, level), OneEntryUses(m.tables, e, level))
  {
    hide Gave;
    if !e.p { GaveSame(m, m, {}, NoUses(), OneEntryUses(m.tables, e, level)); }
    if e.p && e.ps && Gave(m, m', {}, SpanUses(e.frame, ENTRIES)) {
      GaveSame(m, m', {}, SpanUses(e.frame, ENTRIES), OneEntryUses(m.tables, e, level));
    }
    if e.p && !e.ps && GaveTable(m, m', e.frame, level - 1) {
      BelowEntryIs(m.tables, e, level);
      hide TablesBelow;
      GaveSame(m, m', BelowEntry(m.tables, e, level), RangeUses(m.tables, e.frame, level - 1, 0, ENTRIES),
          OneEntryUses(m.tables, e, level));
    }
  }

  /** A table was given back with everything below it. */
  ghost predicate GaveTable(m: Mem, m': Mem, t: nat, level: nat) {
    Gave(m, m', {t} + TablesBelow(m.tables, t, level, 0, ENTRIES), RangeUses(m.tables, t, level, 0, ENTRIES))
  }

  lemma TableLast(m: Mem, a: Mem, t: nat, level: nat)
    requires Gave(m, a, TablesBelow(m.tables, t, level, 0, ENTRIES), RangeUses(m.tables, t, level, 0, ENTRIES))
    requires (forall i | 0 <= i < |a.refs| :: a.refs[i] <= REF_MAX) && a.limit <= |a.refs|
    ensures GaveTable(m, GivenBack(a, t), t, level)
  {
    BackGave(a, t);
    hide Gave, TablesBelow;
    GaveTwice(m, a, GivenBack(a, t), TablesBelow(m.tables, t, level, 0, ENTRIES), {t},
      {t} + TablesBelow(m.tables, t, level, 0, ENTRIES), RangeUses(m.tables, t, level, 0, ENTRIES), NoUses(),
      RangeUses(m.tables, t, level, 0, ENTRIES));
  }

  lemma GaveKeeps(m: Mem, m': Mem, gone: set<nat>, uses: nat -> nat)
    requires Gave(m, m', gone, uses)
    ensures m'.tables == m.tables && m'.nodes == m.nodes && m'.base == m.base && m'.limit == m.limit
  {
  }

  /** The last level: every user page loses a reference, then the table goes. */
  method FreePt(vm: AddressSpaces, t: nat)
    requires vm.pmm.Valid() && t in vm.tables && |vm.tables[t]| == ENTRIES
    modifies vm.pmm`freeFrames, vm.pmm`hint, vm.pmm.bm, vm.pmm.refs
    ensures vm.pmm.Valid() && GaveTable(old(vm.Now()), vm.Now(), t, 1)
  {
    hide FrameManager.Valid, FrameManager.Free, Gave, TablesBelow, BelowEntry, Dropped;
    vm.pmm.FromValid();
    ghost var m := vm.Now();
    Started(vm, m);
    NoEntries(m, t, 1, 0);
    for i := 0 to ENTRIES
      invariant vm.pmm.Valid() && Gave(m, vm.Now(), TablesBelow(m.tables, t, 1, 0, i), RangeUses(m.tables, t, 1, 0, i))
    {
      ghost var a := vm.Now();
      Started(vm, a);
      var e := vm.tables[t][i];
      if e.p && e.u {
        DropGave(a, e.frame);
        DropFrame(vm, e.frame);
      }
      LastEntry(a, vm.Now(), e);
      NextEntry(m, a, vm.Now(), t, 1, 0, i);
    }
    Started(vm, vm.Now());
    TableLast(m, vm.Now(), t, 1);
    vm.pmm.FreeNoLock(t);
  }

  /** The upper levels: everything below goes first, then the table itself. */
  method FreeTable(vm: AddressSpaces, t: nat, level: nat)
    requires vm.pmm.Valid() && TreeOk(vm.tables, vm.nodes) && t in vm.tables && vm.nodes[t].level == level
    requires 2 <= level <= 3
    modifies vm.pmm`freeFrames, vm.pmm`hint, vm.pmm.bm, vm.pmm.refs
    ensures vm.pmm.Valid() && GaveTable(old(vm.Now()), vm.Now(), t, level)
    decreases level
  {
    hide FrameManager.Valid, FrameManager.Free, Gave, TablesBelow, BelowEntry, TreeOk, GaveTable;
    vm.pmm.FromValid();
    ghost var m := vm.Now();
    Started(vm, m);
    NoEntries(m, t, level, 0);
    for i := 0 to ENTRIES
      invariant vm.pmm.Valid()
      invariant Gave(m, vm.Now(), TablesBelow(m.tables, t, level, 0, i), RangeUses(m.tables, t, level, 0, i))
    {
      ghost var a := vm.Now();
      Started(vm, a);
      ChildThere(m, t, level, i);
      var e := vm.tables[t][i];
      if e.p {
        if level == 2 && e.ps {
          DropHuge(vm, e.frame);
        } else if level == 2 {
          FreePt(vm, e.frame);
        } else {
          FreeTable(vm, e.frame, level - 1);
        }
      }
      UpperEntry(a, vm.Now(), e, level);
      NextEntry(m, a, vm.Now(), t, level, 0, i);
    }
    Started(vm, vm.Now());
    TableLast(m, vm.Now(), t, level);
    vm.pmm.FreeNoLock(t);
  }

  /** The tables that a teardown of `p4` gives back. */
  function Lost(tables: Tables, p4: nat): set<nat> {
    {p4} + TablesBelow(tables, p4, 4, UPPER, ENTRIES)
  }

  ghost predicate TornDown(m: Mem, m': Mem, p4: nat) {
    Gave(m, m', Lost(m.tables, p4), RangeUses(m.tables, p4, 4, UPPER, ENTRIES))
  }

  /** Everything below the upper half of `p4`. */
  method FreeUpper(vm: AddressSpaces, p4: nat)
    requires vm.pmm.Valid() && TreeOk(vm.tables, vm.nodes) && IsP4(vm.Now(), p4)
    modifies vm.pmm`freeFrames, vm.pmm`hint, vm.pmm.bm, vm.pmm.refs
    ensures vm.pmm.Valid()
    ensures Gave(old(vm.Now()), vm.Now(), TablesBelow(vm.tables, p4, 4, UPPER, ENTRIES),
            RangeUses(vm.tables, p4, 4, UPPER, ENTRIES))
  {
    hide FrameManager.Valid, FrameManager.Free, Gave, TablesBelow, BelowEntry, TreeOk, GaveTable;
    vm.pmm.FromValid();
    ghost var m := vm.Now();
    Started(vm, m);
    NoEntries(m, p4, 4, UPPER);
    for i4 := UPPER to ENTRIES
      invariant vm.pmm.Valid()
      invariant Gave(m, vm.Now(), TablesBelow(m.tables, p4, 4, UPPER, i4), RangeUses(m.tables, p4, 4, UPPER, i4))
    {
      ghost var a := vm.Now();
      Started(vm, a);
      ChildThere(m, p4, 4, i4);
      var e := vm.tables[p4][i4];
      if e.p { FreeTable(vm, e.frame, 3); }
      UpperEntry(a, vm.Now(), e, 4);
      NextEntry(m, a, vm.Now(), p4, 4, UPPER, i4);
    }
  }

  /**
   Gives up any root: exactly what hangs below its upper half is given back and loses references, whoever else
   uses it.
   */
  method FreeUserP4(vm: AddressSpaces, p4: nat, kernelP4: nat)
    requires vm.Valid() && (p4 == 0 || IsP4(vm.Now(), p4))
    modifies vm.pmm`freeFrames, vm.pmm`hint, vm.pmm.bm, vm.pmm.refs
    ensures vm.pmm.Valid()
    ensures if p4 == 0 || p4 == kernelP4 then vm.Now() == old(vm.Now()) else TornDown(old(vm.Now()), vm.Now(), p4)
  {
    if p4 == 0 || p4 == kernelP4 { return; }
    hide FrameManager.Valid, FrameManager.Free, Gave, TablesBelow, RangeUses, TreeOk, TornDown;
    vm.pmm.FromValid();
    ghost var m := vm.Now();
    FreeUpper(vm, p4);
    ghost var a := vm.Now();
    Started(vm, a);
    RootLast(m, a, p4);
    vm.pmm.FreeNoLock(p4);
  }

  lemma RootLast(m: Mem, a: Mem, p4: nat)
    requires Gave(m, a, TablesBelow(m.tables, p4, 4, UPPER, ENTRIES), RangeUses(m.tables, p4, 4, UPPER, ENTRIES))
    requires (forall i | 0 <= i < |a.refs| :: a.refs[i] <= REF_MAX) && a.limit <= |a.refs|
    ensures TornDown(m, GivenBack(a, p4), p4)
  {
    hide Gave, TablesBelow, Uses;
    BackGave(a, p4);
    GaveTwice(m, a, GivenBack(a, p4), TablesBelow(m.tables, p4, 4, UPPER, ENTRIES), {p4}, Lost(m.tables, p4),
              RangeUses(m.tables, p4, 4, UPPER, ENTRIES), NoUses(), RangeUses(m.tables, p4, 4, UPPER, ENTRIES));
  }

  // ----- what is left -----

  /** The memory without the tables that are gone. */
  ghost function Without(m: Mem, gone: set<nat>): Mem {
    m.(tables := m.tables - gone, nodes := m.nodes - gone)
  }

  /** What is gone hangs together, and no entry that is left leads to it. */
  ghost predicate AllGone(m: Mem, p4: nat, gone: set<nat>) {
    && p4 in gone && IsP4(m, p4) && gone <= m.tables.Keys
    && (forall c <- gone | c != p4 :: c in m.nodes && m.nodes[c].level < 4)
    && (forall c, j: nat | c in gone && j < ENTRIES && (c == p4 ==> j >= UPPER) :: LeadsIn(m, gone, c, j))
    && forall t, j: nat | t in m.tables && t !in gone && j < ENTRIES :: StaysOut(m, gone, t, j)
  }

  /** The entry leads to a table that is gone too. */
  ghost predicate LeadsIn(m: Mem, gone: set<nat>, c: nat, j: nat) {
    IsLink(m, c, j) ==> m.tables[c][j].frame in gone
  }

  ghost predicate StaysOut(m: Mem, gone: set<nat>, t: nat, j: nat) {
    IsLink(m, t, j) ==> m.tables[t][j].frame !in gone
  }

  /** The entry leads to another table. */
  ghost predicate IsLink(m: Mem, c: nat, j: nat) {
    && c in m.tables && c in m.nodes && m.nodes[c].level >= 2 && j < |m.tables[c]| && m.tables[c][j].p
    && !m.tables[c][j].ps
  }

  /** No other root leads to what hangs below the upper slots. */
  ghost predicate Alone(m: Mem, p4: nat) {
    forall x, j, i | IsP4(m, x) && x != p4 && 0 <= j < ENTRIES && UPPER <= i < ENTRIES ::
      p4 in m.tables && !SameSlot(m.tables, x, j, p4, i)
  }

  lemma OwnIsOnly(m: Mem, p4: nat)
    requires TreeOk(m.tables, m.nodes) && IsP4(m, p4) && OwnsUpper(m, p4)
    ensures Alone(m, p4)
  {
    hide TreeOk, Private;
    forall x, j, i | IsP4(m, x) && x != p4 && 0 <= j < ENTRIES && UPPER <= i < ENTRIES
      ensures !SameSlot(m.tables, x, j, p4, i)
    {
      if SameSlot(m.tables, x, j, p4, i) { OneTop(m.tables, m.nodes, p4, i, x, j); }
    }
  }

  /** What hangs below a table that hangs below another one hangs below that one, too. */
  lemma {:induction false} BelowBelow(m: Mem, t: nat, level: nat, c: nat, j: nat)
    requires TreeOk(m.tables, m.nodes) && t in m.tables && m.nodes[t].level == level <= 3
    requires c in {t} + TablesBelow(m.tables, t, level, 0, ENTRIES)
    requires j < ENTRIES && IsLink(m, c, j)
    ensures m.tables[c][j].frame in TablesBelow(m.tables, t, level, 0, ENTRIES)
    decreases level
  {
    hide TablesBelow;
    ChildThere(m, t, level, 0);
    if c == t {
      BelowHas(m.tables, t, level, 0, ENTRIES, j);
      BelowEntryIs(m.tables, m.tables[t][j], level);
    } else {
      var i := BelowComesFrom(m.tables, m.nodes, t, level, 0, ENTRIES, c);
      BelowHas(m.tables, t, level, 0, ENTRIES, i);
      BelowEntryIs(m.tables, m.tables[t][i], level);
      ChildThere(m, t, level, i);
      BelowBelow(m, m.tables[t][i].frame, level - 1, c, j);
    }
  }

  /** What is given back hangs below the root alone, and goes completely, exactly if no other root leads to it. */
  lemma LostIsAll(m: Mem, p4: nat)
    requires TreeOk(m.tables, m.nodes) && IsP4(m, p4)
    ensures AllGone(m, p4, Lost(m.tables, p4)) <==> Alone(m, p4)
    ensures Lost(m.tables, p4) <= m.tables.Keys
    ensures forall c <- Lost(m.tables, p4) | c != p4 :: c in m.nodes && m.nodes[c].level < 4
  {
    hide TablesBelow, LeadsIn, StaysOut;
    var gone := Lost(m.tables, p4);
    ChildThere(m, p4, 4, 0);
    forall c | c in TablesBelow(m.tables, p4, 4, UPPER, ENTRIES)
      ensures c in m.tables && c in m.nodes && m.nodes[c].level < 4
      ensures forall j: nat | j < ENTRIES :: LeadsIn(m, gone, c, j)
    {
      var i := BelowComesFrom(m.tables, m.nodes, p4, 4, UPPER, ENTRIES, c);
      LostBelowSlot(m, p4, i, c);
    }
    forall j: nat | UPPER <= j < ENTRIES ensures LeadsIn(m, gone, p4, j) { TopLeadsIn(m, p4, j); }
    if Alone(m, p4) {
      forall t, j: nat | t in m.tables && t !in gone && j < ENTRIES
        ensures StaysOut(m, gone, t, j)
      {
        OutStaysOut(m, p4, t, j);
      }
    }
    if AllGone(m, p4, gone) {
      forall x, j, i | IsP4(m, x) && x != p4 && 0 <= j < ENTRIES && UPPER <= i < ENTRIES
        ensures !SameSlot(m.tables, x, j, p4, i)
      {
        RootsLeadOut(m, p4, x, j, i);
      }
    }
  }

  lemma TopLeadsIn(m: Mem, p4: nat, j: nat)
    requires IsP4(m, p4) && |m.tables[p4]| == ENTRIES && UPPER <= j < ENTRIES
    ensures LeadsIn(m, Lost(m.tables, p4), p4, j)
  {
    hide TablesBelow;
    BelowHas(m.tables, p4, 4, UPPER, ENTRIES, j);
    BelowEntryIs(m.tables, m.tables[p4][j], 4);
  }

  lemma RootsLeadOut(m: Mem, p4: nat, x: nat, j: nat, i: nat)
    requires TreeOk(m.tables, m.nodes) && AllGone(m, p4, Lost(m.tables, p4)) && IsP4(m, x) && x != p4
    requires j < ENTRIES && UPPER <= i < ENTRIES
    ensures !SameSlot(m.tables, x, j, p4, i)
  {
    hide TablesBelow, Lost;
    ChildThere(m, p4, 4, i);
    ChildThere(m, x, 4, j);
    assert LeadsIn(m, Lost(m.tables, p4), p4, i) && StaysOut(m, Lost(m.tables, p4), x, j);
  }

  lemma LostBelowSlot(m: Mem, p4: nat, i: nat, c: nat)
    requires TreeOk(m.tables, m.nodes) && IsP4(m, p4) && UPPER <= i < ENTRIES
    requires i < |m.tables[p4]| && |m.tables[p4]| == ENTRIES && c in BelowEntry(m.tables, m.tables[p4][i], 4)
    ensures c in m.tables && c in m.nodes && m.nodes[c].level < 4
    ensures forall j: nat | j < ENTRIES :: LeadsIn(m, Lost(m.tables, p4), c, j)
    ensures m.nodes[c].level < 3 ==> m.nodes[c].parent in Lost(m.tables, p4)
    ensures m.nodes[c].level == 3 ==> c == m.tables[p4][i].frame && m.tables[p4][i].p
  {
    hide TablesBelow;
    var e := m.tables[p4][i];
    BelowHas(m.tables, p4, 4, UPPER, ENTRIES, i);
    BelowEntryIs(m.tables, e, 4);
    ChildThere(m, p4, 4, i);
    assert IsTable(p4, m.tables, m.nodes) && EntryOk(p4, i, m.tables, m.nodes);
    if c != e.frame { BelowLeadsUp(m.tables, m.nodes, e.frame, 3, c); }
    forall j: nat | j < ENTRIES
      ensures LeadsIn(m, Lost(m.tables, p4), c, j)
    {
      if IsLink(m, c, j) { BelowBelow(m, e.frame, 3, c, j); }
    }
  }

  lemma AloneAt(m: Mem, p4: nat, x: nat, j: nat, i: nat)
    requires Alone(m, p4) && IsP4(m, x) && x != p4 && j < ENTRIES && UPPER <= i < ENTRIES
    ensures p4 in m.tables && !SameSlot(m.tables, x, j, p4, i)
  {
  }

  lemma OutStaysOut(m: Mem, p4: nat, t: nat, j: nat)
    requires TreeOk(m.tables, m.nodes) && IsP4(m, p4) && Alone(m, p4) && t in m.tables && t !in Lost(m.tables, p4)
    requires j < ENTRIES
    ensures StaysOut(m, Lost(m.tables, p4), t, j)
  {
    hide TablesBelow;
    ChildThere(m, p4, 4, 0);
    if IsLink(m, t, j) && m.tables[t][j].frame in Lost(m.tables, p4) {
      var c: nat := m.tables[t][j].frame;
      assert IsTable(t, m.tables, m.nodes) && EntryOk(t, j, m.tables, m.nodes);
      var i := BelowComesFrom(m.tables, m.nodes, p4, 4, UPPER, ENTRIES, c);
      LostBelowSlot(m, p4, i, c);
      if m.nodes[c].level == 3 { AloneAt(m, p4, t, j, i); }
    }
  }

  /** No entry that is left leads to a table that is gone. */
  lemma NoWayIn(m: Mem, p4: nat, gone: set<nat>, t: nat, i: nat)
    requires TreeOk(m.tables, m.nodes) && AllGone(m, p4, gone) && t in m.tables && t !in gone
    requires IsTable(t, m.tables, m.nodes) && i < ENTRIES
    requires m.nodes[t].level >= 2 && m.tables[t][i].p && !m.tables[t][i].ps
    ensures m.tables[t][i].frame !in gone
  {
    assert StaysOut(m, gone, t, i);
  }

  lemma TreeLeft(m: Mem, p4: nat, gone: set<nat>)
    requires TreeOk(m.tables, m.nodes) && AllGone(m, p4, gone)
    ensures TreeOk(m.tables - gone, m.nodes - gone)
  {
    var m' := Without(m, gone);
    forall t | t in m'.tables
      ensures IsTable(t, m.tables, m.nodes) && IsTable(t, m'.tables, m'.nodes)
    {
      assert IsTable(t, m.tables, m.nodes);
    }
    forall t, i | t in m'.tables && 0 <= i < ENTRIES
      ensures EntryOk(t, i, m'.tables, m'.nodes)
    {
      assert EntryOk(t, i, m.tables, m.nodes);
      if m.nodes[t].level >= 2 && m.tables[t][i].p && !m.tables[t][i].ps { NoWayIn(m, p4, gone, t, i); }
    }
  }

  lemma {:induction false} WalksLeft(m: Mem, p4: nat, gone: set<nat>, t: nat, level: nat, path: seq<nat>)
    requires TreeOk(m.tables, m.nodes) && AllGone(m, p4, gone) && t in m.tables && t !in gone
    requires m.nodes[t].level == level && IsPath(path, level)
    ensures SameWalk(m.tables, m.tables - gone, t, level, path)
    decreases level
  {
    assert IsTable(t, m.tables, m.nodes);
    if level > 1 {
      assert EntryOk(t, path[0], m.tables, m.nodes);
      var e := m.tables[t][path[0]];
      if e.p && !e.ps {
        NoWayIn(m, p4, gone, t, path[0]);
        WalksLeft(m, p4, gone, e.frame, level - 1, path[1..]);
      }
    }
  }

  /** Below a table that is gone everything is. */
  lemma {:induction false} PathGone(m: Mem, p4: nat, gone: set<nat>, t: nat, level: nat, path: seq<nat>)
    requires TreeOk(m.tables, m.nodes) && AllGone(m, p4, gone) && t in gone && t in m.nodes && m.nodes[t].level == level
    requires IsPath(path, level)
    requires (t == p4 ==> path[0] >= UPPER) && (level == 4 ==> t == p4)
    ensures PtOf(m.tables, t, level, path).Some? ==> PtOf(m.tables, t, level, path).value in gone
    decreases level
  {
    assert IsTable(t, m.tables, m.nodes);
    if level > 1 {
      assert EntryOk(t, path[0], m.tables, m.nodes) && LeadsIn(m, gone, t, path[0]);
      var e := m.tables[t][path[0]];
      if e.p && !e.ps { PathGone(m, p4, gone, e.frame, level - 1, path[1..]); }
    }
  }

  /** The owners that a teardown takes away. */
  ghost function Dead(m: Mem, f: nat, gone: set<nat>): set<Leaf> {
    set l <- Owners(m, f) | l.pt in gone
  }

  lemma OwnersLeft(m0: Mem, m: Mem, gone: set<nat>, f: nat)
    requires m.tables == m0.tables && m.nodes == m0.nodes
    ensures Owners(Without(m, gone), f) == Owners(m0, f) - Dead(m0, f, gone)
    ensures |Owners(Without(m, gone), f)| + |Dead(m0, f, gone)| == |Owners(m0, f)|
  {
    var m' := Without(m, gone);
    OwnersAre(m', f);
    OwnersAre(m0, f);
    forall l
      ensures Owns(m', l, f) <==> Owns(m0, l, f) && l.pt !in gone
    {
    }
    hide Owners;
    assert Owners(m', f) == Owners(m0, f) - Dead(m0, f, gone);
    assert Owners(m0, f) == Owners(m', f) + Dead(m0, f, gone);
  }

  /** The owners that stay. */
  ghost function Left(m: Mem, f: nat, gone: set<nat>): set<Leaf> {
    Owners(m, f) - Dead(m, f, gone)
  }

  /** References dropped are at least the owners that go, and as many exactly if nothing foreign maps the frame. */
  lemma DeadUses(m: Mem, p4: nat, f: nat)
    requires TreeOk(m.tables, m.nodes) && NoHugeOwn(m.tables, m.nodes) && HasTable(m, p4, 4)
    ensures |Dead(m, f, Lost(m.tables, p4))| <= RangeUses(m.tables, p4, 4, UPPER, ENTRIES)(f)
    ensures |Dead(m, f, Lost(m.tables, p4))| == RangeUses(m.tables, p4, 4, UPPER, ENTRIES)(f) <==> !Foreign(m, p4, f)
  {
    hide TablesBelow, Uses, OwnUses, Foreign;
    OwnUsesAreOwners(m, f, p4, ENTRIES);
    OwnUsesFewer(m, p4, ENTRIES, f);
    ForeignUses(m, p4, f);
    OwnersAre(m, f);
    hide Owners;
    assert OwnersBelow(m, f, p4, 4, UPPER, ENTRIES) == Dead(m, f, Lost(m.tables, p4));
  }

  lemma FrameGave(m0: Mem, m: Mem, gone: set<nat>, uses: nat -> nat, f: nat)
    requires Gave(m0, m, gone, uses) && m0.base <= f < m0.base + m0.limit && m0.limit <= |m0.refs| && f !in m0.free
    requires f !in gone
    ensures RefAt(m.refs, m0.base, f) == DecTimes(RefAt(m0.refs, m0.base, f), uses(f))
    ensures RefAt(m0.refs, m0.base, f) <= REF_MAX
    ensures f in m.free <==> LastDropped(RefAt(m0.refs, m0.base, f), uses(f))
  {
  }

  /** The teardown takes from nobody else what it needs: it frees no table, and no page is left with too low a count. */
  ghost predicate SparesFrame(m: Mem, p4: nat, f: nat) {
    var gone, uses := Lost(m.tables, p4), RangeUses(m.tables, p4, 4, UPPER, ENTRIES);
    && (Freed(m, f, gone, uses) && f !in gone ==> 0 < f < FRAME_LIMIT && f !in m.tables)
    && (Left(m, f, gone) != {} ==>
          RefAt(m.refs, m.base, f) == REF_MAX || RefAt(m.refs, m.base, f) >= uses(f) + |Left(m, f, gone)|)
  }

  /** Nobody else leads to the tables that go, and every frame that somebody else needs has references enough. */
  ghost predicate Spares(m: Mem, p4: nat) {
    Alone(m, p4) && forall f: nat :: SparesFrame(m, p4, f)
  }

  /** What the invariant says about a frame that has an owner. */
  lemma OwnedFrame(m: Mem, f: nat)
    requires Sound(m) && Owners(m, f) != {}
    ensures 0 < f < FRAME_LIMIT && m.base <= f < m.base + m.limit && f !in m.free && f !in m.tables
    ensures RefAt(m.refs, m.base, f) == REF_MAX || RefAt(m.refs, m.base, f) >= |Owners(m, f)|
  {
    var l :| l in Owners(m, f);
    OwnersAre(m, f);
    assert LeafSound(m, l) && At(m, l).frame == f;
  }

  /** What a frame is left with that somebody else maps, too. */
  lemma FrameLeft(m0: Mem, m: Mem, p4: nat, f: nat)
    requires Sound(m0) && IsP4(m0, p4) && TornDown(m0, m, p4) && Left(m0, f, Lost(m0.tables, p4)) != {}
    ensures var m' := Without(m, Lost(m0.tables, p4));
            && Owners(m', f) == Left(m0, f, Lost(m0.tables, p4)) && f !in m'.tables
            && (SparesFrame(m0, p4, f) <==>
                  f !in m'.free && (RefAt(m'.refs, m'.base, f) == REF_MAX
                                    || RefAt(m'.refs, m'.base, f) >= |Owners(m', f)|))
            && (SparesFrame(m0, p4, f) && Counted(m0, f) ==> Counted(m', f))
  {
    hide TablesBelow, Uses, Gave, Sound, VmOk, Owners, LeafSound, TreeOk, Dead, Foreign, Freed;
    var gone := Lost(m0.tables, p4);
    OwnedFrame(m0, f);
    LostTables(m0, m, p4);
    DeadUses(m0, p4, f);
    OwnersLeft(m0, m, gone, f);
    FrameGave(m0, m, gone, RangeUses(m0.tables, p4, 4, UPPER, ENTRIES), f);
    assert Owners(Without(m, gone), f) != {} <==> |Owners(Without(m, gone), f)| > 0;
  }

  lemma LostTables(m0: Mem, m: Mem, p4: nat)
    requires Sound(m0) && IsP4(m0, p4) && TornDown(m0, m, p4)
    ensures TreeOk(m0.tables, m0.nodes) && NoHugeOwn(m0.tables, m0.nodes) && m0.limit <= |m0.refs|
    ensures HasTable(m0, p4, 4) && Lost(m0.tables, p4) <= m0.tables.Keys
    ensures m.tables == m0.tables && m.nodes == m0.nodes && m.base == m0.base && m.limit == m0.limit
    ensures |m.refs| == |m0.refs|
  {
    hide TablesBelow, Uses;
    LostIsAll(m0, p4);
    FromTree(m0.tables, m0.nodes);
  }

  lemma LostFrames(m: Mem, p4: nat)
    requires VmOk(m.tables, m.nodes, m.free) && IsP4(m, p4) && p4 < FRAME_LIMIT
    ensures forall t <- Lost(m.tables, p4) :: 0 < t < FRAME_LIMIT
  {
    hide TablesBelow;
    forall t <- TablesBelow(m.tables, p4, 4, UPPER, ENTRIES)
      ensures 0 < t < FRAME_LIMIT
    {
      var i := BelowComesFrom(m.tables, m.nodes, p4, 4, UPPER, ENTRIES, t);
      EntryLeadsUp(m, p4, 4, i, t);
      FrameFits(m.tables, m.tables[p4][i], 4, t);
    }
  }

  /** Tables below an entry have frame numbers that fit an entry. */
  lemma {:induction false} FrameFits(tables: Tables, e: Pte, level: nat, t: nat)
    requires t in BelowEntry(tables, e, level)
    ensures t < FRAME_LIMIT
    decreases level, 0
  {
    BelowEntryIs(tables, e, level);
    hide BelowEntry;
    if t != e.frame { FramesFit(tables, e.frame, level - 1, 0, ENTRIES, t); }
  }

  lemma {:induction false} FramesFit(tables: Tables, c: nat, level: nat, lo: nat, hi: nat, t: nat)
    requires t in TablesBelow(tables, c, level, lo, hi)
    ensures t < FRAME_LIMIT
    decreases level, hi
  {
    if t in BelowEntry(tables, tables[c][hi - 1], level) {
      FrameFits(tables, tables[c][hi - 1], level, t);
    } else {
      FramesFit(tables, c, level, lo, hi - 1, t);
    }
  }

  /** Which frames are free after a teardown that spares the others. */
  lemma FreedFrames(m0: Mem, m: Mem, p4: nat, f: nat)
    requires Sound(m0) && IsP4(m0, p4) && SparesFrame(m0, p4, f) && TornDown(m0, m, p4) && p4 < FRAME_LIMIT
    requires f in m.free
    ensures 0 < f < FRAME_LIMIT && f !in m0.tables - Lost(m0.tables, p4)
  {
    hide TablesBelow, Uses, Owners;
    SoundIsVm(m0);
    LostFrames(m0, p4);
  }

  /** A teardown keeps the invariant if it spares the others. */
  lemma SoundLeft(m0: Mem, m: Mem, p4: nat)
    requires Sound(m0) && IsP4(m0, p4) && Spares(m0, p4) && TornDown(m0, m, p4) && p4 < FRAME_LIMIT
    ensures var m' := Without(m, Lost(m0.tables, p4)); VmOk(m'.tables, m'.nodes, m'.free) && StaysSound(m0, m')
  {
    hide TablesBelow, Uses, RangeUses, Owners, TreeOk, AllGone, Lost, TornDown, SparesFrame, Alone;
    var gone := Lost(m0.tables, p4);
    var m' := Without(m, gone);
    LostTables(m0, m, p4);
    LostIsAll(m0, p4);
    TreeLeft(m0, p4, gone);
    forall f <- m.free ensures 0 < f < FRAME_LIMIT && f !in m'.tables { FreedFrames(m0, m, p4, f); }
    forall l | IsUserLeaf(m', l)
      ensures IsUserLeaf(m0, l) && At(m0, l) == At(m', l)
    {
    }
    forall l | IsUserLeaf(m', l)
      ensures LeafSound(m', l) && (AllCounted(m0) ==> Counted(m', At(m', l).frame))
    {
      LeafLeft(m0, m, p4, l);
    }
  }

  lemma LeafLeft(m0: Mem, m: Mem, p4: nat, l: Leaf)
    requires Sound(m0) && IsP4(m0, p4) && TornDown(m0, m, p4) && SparesFrame(m0, p4, At(m0, l).frame)
    requires IsUserLeaf(m0, l) && IsUserLeaf(Without(m, Lost(m0.tables, p4)), l)
    requires At(m0, l) == At(Without(m, Lost(m0.tables, p4)), l)
    ensures var m' := Without(m, Lost(m0.tables, p4));
            && LeafSound(m', l)
            && (AllCounted(m0) ==> Counted(m', At(m', l).frame))
  {
    hide TablesBelow, Uses, RangeUses, Owners, TreeOk, Lost, TornDown, NoHugeOwn, SparesFrame;
    var gone := Lost(m0.tables, p4);
    var m' := Without(m, gone);
    var f: nat := At(m0, l).frame;
    assert LeafSound(m0, l);
    LostTables(m0, m, p4);
    OwnersAre(m0, f);
    OwnersAre(m', f);
    assert l in Owners(m0, f) && l in Owners(m', f);
    OwnersLeft(m0, m, gone, f);
    FrameLeft(m0, m, p4, f);
  }

  /** A teardown keeps the invariant exactly if it spares the others. */
  lemma SoundExactly(m0: Mem, m: Mem, p4: nat)
    requires Sound(m0) && IsP4(m0, p4) && TornDown(m0, m, p4) && p4 < FRAME_LIMIT
    ensures Sound(Without(m, Lost(m0.tables, p4))) <==> Spares(m0, p4)
  {
    hide Sound, Lost, TornDown, SparesFrame, Alone;
    if Spares(m0, p4) { SoundLeft(m0, m, p4); }
    if Sound(Without(m, Lost(m0.tables, p4))) {
      NobodyLeads(m0, m, p4);
      forall f: nat ensures SparesFrame(m0, p4, f) { NothingTaken(m0, m, p4, f); }
    }
  }

  lemma NobodyLeads(m0: Mem, m: Mem, p4: nat)
    requires Sound(m0) && IsP4(m0, p4) && TornDown(m0, m, p4) && Sound(Without(m, Lost(m0.tables, p4)))
    ensures Alone(m0, p4)
  {
    hide TablesBelow, Uses, Lost, Owners, LeafSound;
    var gone := Lost(m0.tables, p4);
    LostTables(m0, m, p4);
    LostIsAll(m0, p4);
    hide Alone;
    forall x, j, i | IsP4(m0, x) && x != p4 && 0 <= j < ENTRIES && UPPER <= i < ENTRIES
      ensures !SameSlot(m0.tables, x, j, p4, i)
    {
      NotSame(m0, m, p4, x, j, i);
    }
    assert Alone(m0, p4) by { AloneIs(m0, p4); }
  }

  lemma AloneIs(m: Mem, p4: nat)
    requires IsP4(m, p4)
    requires forall x, j, i | IsP4(m, x) && x != p4 && 0 <= j < ENTRIES && UPPER <= i < ENTRIES ::
               !SameSlot(m.tables, x, j, p4, i)
    ensures Alone(m, p4)
  {
  }

  lemma NotSame(m0: Mem, m: Mem, p4: nat, x: nat, j: nat, i: nat)
    requires Sound(m0) && IsP4(m0, p4) && TornDown(m0, m, p4) && Sound(Without(m, Lost(m0.tables, p4)))
    requires IsP4(m0, x) && x != p4 && j < ENTRIES && UPPER <= i < ENTRIES
    ensures !SameSlot(m0.tables, x, j, p4, i)
  {
    hide TablesBelow, Uses, Owners, LeafSound, TreeOk, Lost;
    var gone := Lost(m0.tables, p4);
    LostTables(m0, m, p4);
    LostIsAll(m0, p4);
    ChildThere(m0, p4, 4, i);
    TopLeadsIn(m0, p4, i);
    TreeNow(Without(m, gone));
    ChildThere(Without(m, gone), x, 4, j);
  }

  lemma NothingTaken(m0: Mem, m: Mem, p4: nat, f: nat)
    requires Sound(m0) && IsP4(m0, p4) && TornDown(m0, m, p4) && Sound(Without(m, Lost(m0.tables, p4)))
    ensures SparesFrame(m0, p4, f)
  {
    hide TablesBelow, Uses, Owners, LeafSound, TreeOk, Lost, RangeUses, NoHugeOwn;
    var gone, uses := Lost(m0.tables, p4), RangeUses(m0.tables, p4, 4, UPPER, ENTRIES);
    LostTables(m0, m, p4);
    if Freed(m0, f, gone, uses) && f !in gone {
      assert f in m.free;
      SoundIsVm(Without(m, gone));
    }
    if Left(m0, f, gone) != {} {
      OwnersLeft(m0, m, gone, f);
      OwnedFrame(Without(m, gone), f);
      hide Sound, TornDown, Dead;
      FrameLeft(m0, m, p4, f);
    }
  }

  /** A root whose upper slots are its own spares everybody else. */
  lemma OwnSpares(m: Mem, p4: nat)
    requires Sound(m) && IsP4(m, p4) && OwnsUpper(m, p4)
    ensures Spares(m, p4)
  {
    TreeNow(m);
    OwnIsOnly(m, p4);
    FromTree(m.tables, m.nodes);
    hide Sound, OwnsUpper, Alone, SparesFrame, TreeOk;
    forall f: nat ensures SparesFrame(m, p4, f) { OwnSparesFrame(m, p4, f); }
  }

  lemma OwnSparesFrame(m: Mem, p4: nat, f: nat)
    requires Sound(m) && HasTable(m, p4, 4) && OwnsUpper(m, p4)
    ensures SparesFrame(m, p4, f)
  {
    OwnIsNotForeign(m, p4, f);
    TreeNow(m);
    var gone := Lost(m.tables, p4);
    hide TablesBelow, Uses, Owners, Foreign, OwnsUpper, LeafSound, RangeUses;
    DeadUses(m, p4, f);
    if Owners(m, f) != {} {
      OwnedFrame(m, f);
      assert Owners(m, f) == Left(m, f, gone) + Dead(m, f, gone);
    } else {
      assert Dead(m, f, gone) == {};
    }
  }

  ghost predicate GivenUp(m: Mem, m': Mem, p4: nat) {
    && p4 !in m'.tables && p4 !in m'.nodes
    && (forall x, q | IsP4(m, x) && x != p4 && IsPath(q, 4) :: IsP4(m', x) && SameWalk(m.tables, m'.tables, x, 4, q))
    && (forall x, q | IsPlace(m, x, q) && x != p4 :: IsPlace(m', x, q)) && RootsKept(m, m', p4)
    && (forall f | Owners(m, f) != {} && Counted(m, f) ::
          Owners(m', f) <= Owners(m, f) && (Owners(m', f) == {} ==>
              f in m'.free || RefAt(m'.refs, m'.base, f) == REF_MAX))
    && (forall q | IsUpper(q) && PtOf(m.tables, p4, 4, q).Some? :: PtOf(m.tables, p4, 4, q).value !in m'.tables)
    && (forall t <- m.tables | t !in m'.tables && m.base <= t < m.base + m.limit :: t in m'.free)
  }

  lemma SpaceGivenUp(m0: Mem, m: Mem, p4: nat)
    requires Sound(m0) && IsP4(m0, p4) && Spares(m0, p4) && TornDown(m0, m, p4)
    ensures GivenUp(m0, Without(m, Lost(m0.tables, p4)), p4)
  {
    hide Translate, UserAt, OpenAt, SameWalk, TablesBelow, Uses, RangeUses, Owners, Sound, TreeOk;
    hide Private, TornDown, PtOf, NoHugeOwn, RootsKept, SparesFrame, Alone;
    var gone := Lost(m0.tables, p4);
    var m' := Without(m, gone);
    LostTables(m0, m, p4);
    LostIsAll(m0, p4);
    LostFreed(m0, m, p4);
    RootsLeft(m0, m, p4);
    forall x, q | IsP4(m0, x) && x != p4 && IsPath(q, 4)
      ensures IsP4(m', x) && SameWalk(m0.tables, m'.tables, x, 4, q)
      ensures IsPlace(m0, x, q) ==> IsPlace(m', x, q)
    {
      RootLeft(m0, m, p4, x, q);
    }
    forall q | IsUpper(q) && PtOf(m0.tables, p4, 4, q).Some?
      ensures PtOf(m0.tables, p4, 4, q).value !in m'.tables
    {
      PathGone(m0, p4, gone, p4, 4, q);
    }
    forall f | Owners(m0, f) != {} && Counted(m0, f)
      ensures Owners(m', f) <= Owners(m0, f)
      ensures (Owners(m', f) == {} ==> f in m'.free || RefAt(m'.refs, m'.base, f) == REF_MAX)
    {
      OwnersLeft(m0, m, gone, f);
      if Owners(m', f) == {} { AllDead(m0, m, p4, f); }
    }
  }

  /** A page that nobody maps any more is free, unless its count was pinned. */
  lemma AllDead(m0: Mem, m: Mem, p4: nat, f: nat)
    requires Sound(m0) && IsP4(m0, p4) && TornDown(m0, m, p4) && Owners(m0, f) != {} && Counted(m0, f)
    requires Owners(Without(m, Lost(m0.tables, p4)), f) == {}
    ensures f in m.free || RefAt(m.refs, m.base, f) == REF_MAX
  {
    hide TablesBelow, Uses, Gave, Sound, VmOk, Owners, LeafSound, TreeOk, Dead, Foreign;
    var gone := Lost(m0.tables, p4);
    OwnedFrame(m0, f);
    LostTables(m0, m, p4);
    DeadUses(m0, p4, f);
    OwnersLeft(m0, m, gone, f);
    FrameGave(m0, m, gone, RangeUses(m0.tables, p4, 4, UPPER, ENTRIES), f);
    assert |Owners(m0, f)| > 0;
  }

  lemma RootsLeft(m0: Mem, m: Mem, p4: nat)
    requires TreeOk(m0.tables, m0.nodes) && AllGone(m0, p4, Lost(m0.tables, p4)) && m.tables == m0.tables
    requires m.nodes == m0.nodes
    ensures RootsKept(m0, Without(m, Lost(m0.tables, p4)), p4)
  {
    hide TablesBelow, TreeOk, Lost;
  }

  lemma LostFreed(m0: Mem, m: Mem, p4: nat)
    requires TornDown(m0, m, p4) && m0.limit <= |m0.refs|
    ensures forall t <- Lost(m0.tables, p4) | m0.base <= t < m0.base + m0.limit :: t in m.free
  {
    hide TablesBelow, Uses;
    forall t <- Lost(m0.tables, p4) | m0.base <= t < m0.base + m0.limit
      ensures t in m.free
    {
      assert Freed(m0, t, Lost(m0.tables, p4), RangeUses(m0.tables, p4, 4, UPPER, ENTRIES));
    }
  }

  lemma RootLeft(m0: Mem, m: Mem, p4: nat, x: nat, q: seq<nat>)
    requires TreeOk(m0.tables, m0.nodes) && AllGone(m0, p4, Lost(m0.tables, p4)) && m.tables == m0.tables
    requires m.nodes == m0.nodes
    requires IsP4(m0, x) && x != p4 && IsPath(q, 4)
    ensures var m' := Without(m, Lost(m0.tables, p4));
            IsP4(m', x) && SameWalk(m0.tables, m'.tables, x, 4, q) && (IsPlace(m0, x, q) ==> IsPlace(m', x, q))
  {
    var gone := Lost(m0.tables, p4);
    WalksLeft(m0, p4, gone, x, 4, q);
    ChildThere(m0, x, 4, q[0]);
    assert IsTable(x, m0.tables, m0.nodes);
    if m0.tables[x][q[0]].p { NoWayIn(m0, p4, gone, x, q[0]); }
    hide TablesBelow, Translate, UserAt, Lost, TreeOk, AllGone;
  }

  /**
   The end of a process: its root is given up, and the frames of its tables are frames like any other. The invariant
   is kept exactly if that spares the others.
   */
  method GiveUp(vm: AddressSpaces, p4: nat, kernelP4: nat)
    requires vm.Valid() && Sound(vm.Now()) && IsP4(vm.Now(), p4) && p4 < FRAME_LIMIT && p4 != 0 && p4 != kernelP4
    modifies vm, vm.pmm`freeFrames, vm.pmm`hint, vm.pmm.bm, vm.pmm.refs
    ensures vm.pmm.Valid() && vm.data == old(vm.data)
    ensures Sound(vm.Now()) <==> Spares(old(vm.Now()), p4)
    ensures Spares(old(vm.Now()), p4) ==>
              vm.Valid() && StaysSound(old(vm.Now()), vm.Now()) && GivenUp(old(vm.Now()), vm.Now(), p4)
  {
    hide FrameManager.Valid, FrameManager.Free, Sound, StaysSound, VmOk, GivenUp, TornDown, Lost, Spares;
    vm.pmm.FromValid();
    ghost var m0 := vm.Now();
    FreeUserP4(vm, p4, kernelP4);
    ghost var m := vm.Now();
    SoundExactly(m0, m, p4);
    if Spares(m0, p4) {
      SoundLeft(m0, m, p4);
      SpaceGivenUp(m0, m, p4);
    }
    vm.tables := vm.tables - Lost(vm.tables, p4);
    vm.nodes := vm.nodes - Lost(m0.tables, p4);
    assert vm.Now() == Without(m, Lost(m0.tables, p4));
  }

  // ----- exactly when nothing in use is freed -----

  /** Every table that the walk passes is in use. */
  ghost predicate WalkStands(tables: Tables, free: set<nat>, t: nat, level: nat, path: seq<nat>)
    decreases level
  {
    && t !in free
    && (&& level > 1 && t in tables && |path| == level && path[0] < |tables[t]| && tables[t][path[0]].p
        && !tables[t][path[0]].ps
        ==> WalkStands(tables, free, tables[t][path[0]].frame, level - 1, path[1..]))
  }

  /** No walk of a root that is left passes a frame that is free. */
  ghost predicate OthersStand(m: Mem, m': Mem, p4: nat) {
    forall x, q | IsP4(m, x) && x != p4 && IsPath(q, 4) :: WalkStands(m.tables, m'.free, x, 4, q)
  }

  /** A huge page below the slot covers the frame, whose count is 1. */
  ghost predicate Covers(m: Mem, p4: nat, q: seq<nat>, f: nat) {
    var w := EndOfWalk(m.tables, p4, 4, q);
    && w.level >= 2 && w.e.p && w.e.ps && w.e.frame <= f < w.e.frame + ENTRIES
    && m.base <= f < m.base + m.limit && RefAt(m.refs, m.base, f) == 1
  }

  /** A teardown frees every frame with count 1 that a huge page below the upper half covers, whoever uses it. */
  lemma HugeFrees(m: Mem, m': Mem, p4: nat, q: seq<nat>, f: nat)
    requires TreeOk(m.tables, m.nodes) && m.limit <= |m.refs| && IsP4(m, p4) && TornDown(m, m', p4) && IsUpper(q)
    requires Covers(m, p4, q, f)
    ensures f in m'.free
  {
    hide TablesBelow, Uses, EndOfWalk, TreeOk;
    FromTree(m.tables, m.nodes);
    UsedAt(m.tables, p4, 4, q, UPPER, ENTRIES, f);
    assert Freed(m, f, Lost(m.tables, p4), RangeUses(m.tables, p4, 4, UPPER, ENTRIES));
  }

  /** The walk passes the table. */
  ghost predicate OnWalk(tables: Tables, t0: nat, level: nat, path: seq<nat>, t: nat)
    decreases level
  {
    || t == t0
    || (&& level > 1 && t0 in tables && |path| == level && path[0] < |tables[t0]| && tables[t0][path[0]].p
        && !tables[t0][path[0]].ps && OnWalk(tables, tables[t0][path[0]].frame, level - 1, path[1..], t))
  }

  lemma {:induction false} WalkStandsAll(tables: Tables, free: set<nat>, t0: nat, level: nat, path: seq<nat>)
    ensures WalkStands(tables, free, t0, level, path)
            <==> forall t: nat | OnWalk(tables, t0, level, path, t) :: t !in free
    decreases level
  {
    assert OnWalk(tables, t0, level, path, t0);
    if level > 1 && t0 in tables && |path| == level && path[0] < |tables[t0]| {
      var e := tables[t0][path[0]];
      if e.p && !e.ps {
        WalkStandsAll(tables, free, e.frame, level - 1, path[1..]);
        forall t: nat | OnWalk(tables, e.frame, level - 1, path[1..], t)
          ensures OnWalk(tables, t0, level, path, t)
        {
        }
      }
    }
  }

  lemma {:induction false} WalksInTables(m: Mem, t0: nat, level: nat, path: seq<nat>, t: nat)
    requires TreeOk(m.tables, m.nodes) && t0 in m.tables && m.nodes[t0].level == level && IsPath(path, level)
    requires OnWalk(m.tables, t0, level, path, t)
    ensures t in m.tables
    decreases level
  {
    if t != t0 {
      ChildThere(m, t0, level, path[0]);
      WalksInTables(m, m.tables[t0][path[0]].frame, level - 1, path[1..], t);
    }
  }

  /** The table is managed, and either lies below a slot that is given up, or loses its last reference. */
  ghost predicate Falls(m: Mem, p4: nat, t: nat) {
    && m.base <= t < m.base + m.limit
    && (t in TablesBelow(m.tables, p4, 4, UPPER, ENTRIES)
        || LastDropped(RefAt(m.refs, m.base, t), Uses(m.tables, p4, 4, UPPER, ENTRIES, t)))
  }

  /** No table that another root's walk passes falls. */
  ghost predicate NoneFalls(m: Mem, p4: nat) {
    forall x, q, t: nat | IsP4(m, x) && x != p4 && IsPath(q, 4) && OnWalk(m.tables, x, 4, q, t) :: !Falls(m, p4, t)
  }

  /** A teardown frees nothing that another root still leads to exactly if no table that its walks pass falls. */
  lemma TeardownExactly(m: Mem, m': Mem, p4: nat)
    requires VmOk(m.tables, m.nodes, m.free) && m.limit <= |m.refs| && IsP4(m, p4) && TornDown(m, m', p4)
    ensures OthersStand(m, m', p4) <==> NoneFalls(m, p4)
  {
    hide TablesBelow, Uses, TornDown, TreeOk, OnWalk, WalkStands;
    forall x, q | IsP4(m, x) && x != p4 && IsPath(q, 4)
      ensures WalkStands(m.tables, m'.free, x, 4, q) <==>
              forall t: nat | OnWalk(m.tables, x, 4, q, t) :: !Falls(m, p4, t)
    {
      WalkStandsAll(m.tables, m'.free, x, 4, q);
      forall t: nat | OnWalk(m.tables, x, 4, q, t)
        ensures t in m'.free <==> Falls(m, p4, t)
      {
        WalksInTables(m, x, 4, q, t);
        NotTheRoot(m, x, 4, q, t, p4);
        FallsToFree(m, m', p4, t);
      }
    }
  }

  lemma FallsToFree(m: Mem, m': Mem, p4: nat, t: nat)
    requires TornDown(m, m', p4) && m.limit <= |m.refs| && t !in m.free && t != p4
    ensures t in m'.free <==> Falls(m, p4, t)
  {
    hide TablesBelow, Uses;
    assert t in m'.free <==> Freed(m, t, Lost(m.tables, p4), RangeUses(m.tables, p4, 4, UPPER, ENTRIES));
  }

  /** A walk of another root does not pass the one that is given up. */
  lemma {:induction false} NotTheRoot(m: Mem, t0: nat, level: nat, path: seq<nat>, t: nat, p4: nat)
    requires TreeOk(m.tables, m.nodes) && t0 in m.tables && m.nodes[t0].level == level && IsPath(path, level)
    requires IsP4(m, p4) && t0 != p4 && OnWalk(m.tables, t0, level, path, t)
    ensures t != p4
    decreases level
  {
    if t != t0 {
      ChildThere(m, t0, level, path[0]);
      NotTheRoot(m, m.tables[t0][path[0]].frame, level - 1, path[1..], t, p4);
    }
  }

  /** A teardown that spares the others leaves them standing. */
  lemma SparesStand(m: Mem, m': Mem, p4: nat)
    requires VmOk(m.tables, m.nodes, m.free) && m.limit <= |m.refs|
    requires IsP4(m, p4) && TornDown(m, m', p4) && Spares(m, p4)
    ensures OthersStand(m, m', p4)
  {
    hide TornDown, OnWalk, WalkStands, OthersStand, SparesFrame, Falls, VmOk, Lost;
    VmTree(m);
    TeardownExactly(m, m', p4);
    LostIsAll(m, p4);
    hide Alone;
    forall x, q, t: nat | IsP4(m, x) && x != p4 && IsPath(q, 4) && OnWalk(m.tables, x, 4, q, t)
      ensures !Falls(m, p4, t)
    {
      WalksInTables(m, x, 4, q, t);
      NotLost(m, p4, x);
      WalkStaysOut(m, p4, x, 4, q, t);
      TableSpared(m, p4, t);
    }
  }

  lemma NotLost(m: Mem, p4: nat, x: nat)
    requires TreeOk(m.tables, m.nodes) && IsP4(m, p4) && IsP4(m, x) && x != p4
    ensures x !in Lost(m.tables, p4)
  {
    hide TablesBelow;
    LostIsAll(m, p4);
  }

  lemma {:induction false} WalkStaysOut(m: Mem, p4: nat, t0: nat, level: nat, path: seq<nat>, t: nat)
    requires TreeOk(m.tables, m.nodes) && AllGone(m, p4, Lost(m.tables, p4))
    requires t0 in m.tables && t0 !in Lost(m.tables, p4) && m.nodes[t0].level == level && IsPath(path, level)
    requires OnWalk(m.tables, t0, level, path, t)
    ensures t !in Lost(m.tables, p4)
    decreases level
  {
    hide TablesBelow, Lost;
    if t != t0 {
      ChildThere(m, t0, level, path[0]);
      assert StaysOut(m, Lost(m.tables, p4), t0, path[0]);
      WalkStaysOut(m, p4, m.tables[t0][path[0]].frame, level - 1, path[1..], t);
    }
  }

  lemma TableSpared(m: Mem, p4: nat, t: nat)
    requires SparesFrame(m, p4, t) && t in m.tables && t !in Lost(m.tables, p4) && m.limit <= |m.refs|
    ensures !Falls(m, p4, t)
  {
    hide TablesBelow, Uses;
  }

  /**
   An input where a root that leads to nothing of anybody else's takes what others need. A process whose upper half
   has a huge page forks; then a process is made whose root is covered by that page; then the child ends: the new
   root is freed while it lives.
   */
  lemma ForkSpawnExit(m: Mem, m1: Mem, m2: Mem, m3: Mem, src: nat, dst: nat, k: nat, n: nat, q: seq<nat>)
    requires VmOk(m.tables, m.nodes, m.free) && IsP4(m, src) && IsFork(m, m1, src, dst) && IsUpper(q)
    requires var w := EndOfWalk(m.tables, src, 4, q); w.level == 2 && MapsFrame(w, n)
    requires IsMirror(m1, m2, k, n, true) && m2.limit <= |m2.refs|
    requires TornDown(m2, m3, dst)
    ensures Alone(m1, dst) && IsP4(m2, n) && n != dst && n in m3.free && !OthersStand(m2, m3, dst)
  {
    hide EndOfWalk, IsFork, IsMirror, TornDown, VmOk;
    ChildCovers(m, m1, src, dst, q, n);
    OnlyChild(m, m1, src, dst);
    MirrorWalks(m1, m2, k, n, dst, q);
    HugeFrees(m2, m3, dst, q, n);
    assert !WalkStands(m2.tables, m3.free, n, 4, q);
  }

  lemma OnlyChild(m: Mem, m1: Mem, src: nat, dst: nat)
    requires VmOk(m.tables, m.nodes, m.free) && IsP4(m, src) && IsFork(m, m1, src, dst)
    ensures IsP4(m1, dst) && Alone(m1, dst) && VmOk(m1.tables, m1.nodes, m1.free)
  {
    hide IsCopy, ShapeKept, ChangedIn, Added, VmOk;
    forall x, j, i | IsP4(m1, x) && x != dst && 0 <= j < ENTRIES && UPPER <= i < ENTRIES
      ensures !SameSlot(m1.tables, x, j, dst, i)
    {
      ChildApart(m, m1, src, dst, i, x, j);
    }
  }

  lemma ChildCovers(m: Mem, m1: Mem, src: nat, dst: nat, q: seq<nat>, f: nat)
    requires VmOk(m.tables, m.nodes, m.free) && IsP4(m, src) && IsFork(m, m1, src, dst) && IsUpper(q)
    requires var w := EndOfWalk(m.tables, src, 4, q); w.level == 2 && MapsFrame(w, f)
    ensures var w := EndOfWalk(m1.tables, dst, 4, q); w.level == 2 && MapsFrame(w, f)
  {
    hide EndOfWalk, IsCopy;
    ForkRights(m, m1, src, dst, src, q);
    CopyEndsAlike(m1, src, dst, 4, q);
  }

  lemma MirrorWalks(m: Mem, m': Mem, k: nat, n: nat, x: nat, q: seq<nat>)
    requires VmOk(m.tables, m.nodes, m.free) && IsMirror(m, m', k, n, true) && IsP4(m, x) && IsPath(q, 4)
    ensures TreeOk(m'.tables, m'.nodes) && IsP4(m', x) && x != n && IsP4(m', n)
    ensures EndOfWalk(m'.tables, x, 4, q) == EndOfWalk(m.tables, x, 4, q)
    ensures m'.base <= n < m'.base + m'.limit && RefAt(m'.refs, m'.base, n) == 1
  {
    MirrorEnds(m, m', k, n, x, 4, q);
  }

  lemma {:induction false} MirrorEnds(m: Mem, m': Mem, k: nat, n: nat, t: nat, level: nat, path: seq<nat>)
    requires VmOk(m.tables, m.nodes, m.free) && IsMirror(m, m', k, n, true)
    requires t in m.tables && m.nodes[t].level == level && IsPath(path, level)
    ensures EndOfWalk(m'.tables, t, level, path) == EndOfWalk(m.tables, t, level, path)
    decreases level
  {
    assert IsTable(t, m.tables, m.nodes) && EntryOk(t, path[0], m.tables, m.nodes);
    var e := m.tables[t][path[0]];
    if level > 1 && e.p && !e.ps { MirrorEnds(m, m', k, n, e.frame, level - 1, path[1..]); }
  }
}
