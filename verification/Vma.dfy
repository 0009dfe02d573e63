/**
 One process's virtual memory areas over the page tables it shares with others: mmap, munmap, sbrk and
 demand faults. Addresses are 64-bit numbers, and sums of them wrap as they do in the code.
 */
module Vma {
  import opened Sizes
  import opened Options
  import opened PageTables
  import opened Pmm
  import opened Vmm
  import opened CopyOnWrite
  import opened VmaTable
  import opened VmaSearch
  import opened UserPages
  import F = Fork

  /** The bytes below top-level slot 256. */
  const LOW_BYTES: nat := PAGE_SIZE * LOW_PAGES

  /** The no-execute bit among the flags of an entry. */
  const NX: nat := 1

  const HEAP_FLAGS := Flags(true, true, false, false, NX)

  /** `pte_flags` */
  function PteFlags(perm: Perm): Flags {
    Flags(perm.w, perm.user, false, false, if perm.x then 0 else NX)
  }

  class AddressSpace {
    const vm: AddressSpaces
    const p4: nat
    const vmas: array<VmaTable.Vma>
    var vmaCount: nat
    var heapStart: nat
    var heapEnd: nat
    var mmapNext: nat

    constructor (vm: AddressSpaces, p4: nat)
      requires vm.Valid() && p4 != 0 && IsP4(vm.Now(), p4) && LowDistinct(vm.Now(), p4)
      ensures this.vm == vm && this.p4 == p4 && Valid() && fresh(vmas) && vmaCount == 0
      ensures heapStart == 0 == heapEnd && mmapNext == USER_MMAP_BASE
    {
      this.vm, this.p4 := vm, p4;
      vmas := new VmaTable.Vma[MAX_VMAS](_ => EMPTY);
      vmaCount, heapStart, heapEnd, mmapNext := 0, 0, 0, USER_MMAP_BASE;
    }

    ghost predicate Shaped()
      reads this
    {
      vmas.Length == MAX_VMAS && vmaCount <= MAX_VMAS
    }

    /** The areas in use, in table order. */
    ghost function Table(): seq<VmaTable.Vma>
      requires Shaped()
      reads this, vmas
    {
      vmas[..vmaCount]
    }

    /** The table is sorted and disjoint, and the heap area is exact. */
    ghost predicate Areas()
      reads this, vmas
    {
      && Shaped() && TableOk(Table()) && HeapOk(Table(), heapStart, heapEnd)
      && heapStart < WORD_LIMIT && heapEnd < WORD_LIMIT && mmapNext < WORD_LIMIT
    }

    /** The page tables are in order, with a root for this process. */
    ghost predicate Rooted()
      reads vm, vm.pmm, vm.pmm.bm, vm.pmm.refs
    {
      vm.Valid() && p4 != 0 && IsP4(vm.Now(), p4) && LowDistinct(vm.Now(), p4)
    }

    /** No page of a guard area is mapped for user code. */
    ghost predicate Guarded()
      requires Shaped()
      reads this, vmas, vm
    {
      GuardsBare(Table(), Shown(vm.tables, p4))
    }

    ghost predicate Valid()
      reads this, vmas, vm, vm.pmm, vm.pmm.bm, vm.pmm.refs
    {
      Areas() && Rooted() && Guarded()
    }

    method FindVma(addr: nat) returns (k: Option<nat>)
      requires Shaped()
      ensures k == None ==> forall j | 0 <= j < vmaCount :: !vmas[j].Contains(addr)
      ensures k.Some? ==> k.value < vmaCount && vmas[k.value].Contains(addr) && forall j | 0 <= j < k.value ::
              !vmas[j].Contains(addr)
      ensures k.Some? <==> exists j :: && 0 <= j < vmaCount
                                       && vmas[j].base <= addr < (vmas[j].base + vmas[j].size) % WORD_LIMIT
    {
      for i := 0 to vmaCount
        invariant forall j | 0 <= j < i :: !vmas[j].Contains(addr)
      {
        if vmas[i].Contains(addr) { return Some(i); }
      }
      return None;
    }

    /** Whether a used area meets the range, by sums of 64 bits. */
    method HasOverlap(base: nat, size: nat) returns (b: bool)
      requires Shaped()
      ensures b <==> !NoOverlap(Table(), base, size)
    {
      for i := 0 to vmaCount
        invariant forall j | 0 <= j < i && vmas[j].typ != Unused :: !vmas[j].Overlaps(base, size)
      {
        if vmas[i].typ != Unused && vmas[i].Overlaps(base, size) {
          assert Table()[i].Overlaps(base, size);
          return true;
        }
      }
      return false;
    }

    /** Appends the area and swaps it down to its place; refused when the table is full. */
    method AddVma(vma: VmaTable.Vma) returns (ok: bool)
      requires Shaped()
      modifies vmas, `vmaCount
      ensures Shaped()
      ensures ok <==> old(vmaCount) < MAX_VMAS
      ensures ok ==> Table() == Inserted(old(Table()), vma)
      ensures !ok ==> Table() == old(Table())
    {
      if vmaCount >= MAX_VMAS { return false; }
      ghost var s := Table();
      vmas[vmaCount] := vma;
      vmaCount := vmaCount + 1;
      SiftDown(s, vma);
      return true;
    }

    /** Swaps the last area down past those that start after it. */
    method SiftDown(ghost s: seq<VmaTable.Vma>, vma: VmaTable.Vma)
      requires Shaped() && vmaCount == |s| + 1 && vmas[vmaCount - 1] == vma
      requires forall j | 0 <= j < |s| :: vmas[j] == s[j]
      modifies vmas
      ensures Table() == Inserted(s, vma)
    {
      hide Inserted;
      var i := vmaCount - 1;
      assert s[..i] == s && Inserted(s, vma) == Inserted(s[..i], vma) + s[i..];
      while i > 0
        invariant i < vmaCount && vmas[i] == vma
        invariant (forall j | 0 <= j < i :: vmas[j] == s[j]) && forall j | i < j < vmaCount :: vmas[j] == s[j - 1]
        invariant Inserted(s, vma) == Inserted(s[..i], vma) + s[i..]
      {
        if vmas[i].base >= vmas[i - 1].base { break; }
        InsertedStep(s, vma, i);
        vmas[i], vmas[i - 1] := vmas[i - 1], vmas[i];
        i := i - 1;
      }
      InsertedHere(s, vma, i, Table());
    }

    /** Removes the first area that starts at `base`. */
    method RemoveVma(base: nat) returns (ok: bool)
      requires Shaped()
      modifies vmas, `vmaCount
      ensures Shaped()
      ensures !ok ==> Table() == old(Table()) && forall j | 0 <= j < |old(Table())| :: old(Table())[j].base != base
      ensures ok ==> exists k: nat :: k < |old(Table())| && old(Table())[k].base == base
                                      && (forall j | 0 <= j < k :: old(Table())[j].base != base)
                                         && Table() == Removed(old(Table()), k)
    {
      var idx := 0;
      while idx < vmaCount && vmas[idx].base != base
        invariant idx <= vmaCount && forall j | 0 <= j < idx :: vmas[j].base != base
      {
        idx := idx + 1;
      }
      if idx == vmaCount { return false; }
      ShiftDown(idx);
      return true;
    }

    method ShiftDown(idx: nat)
      requires Shaped() && idx < vmaCount
      modifies vmas, `vmaCount
      ensures Shaped() && vmaCount == old(vmaCount) - 1 && Table() == Removed(old(Table()), idx)
    {
      ghost var s := Table();
      var i := idx;
      while i < vmaCount - 1
        modifies vmas
        invariant idx <= i < vmaCount
        invariant forall j | 0 <= j < idx || i < j < vmaCount :: vmas[j] == s[j]
        invariant forall j | idx <= j < i :: vmas[j] == s[j + 1]
      {
        vmas[i] := vmas[i + 1];
        i := i + 1;
      }
      assert vmas[..idx] == s[..idx] && vmas[idx..i] == s[idx + 1..];
      vmaCount := vmaCount - 1;
      vmas[vmaCount] := EMPTY;
      assert Table() == vmas[..idx] + vmas[idx..vmaCount];
    }

    /**
     The first place from `hint` on that no area is in the way of, as `Search` says for any table. `hung` stands for
     the loop that never ends: the second time that it goes down, it goes round for ever.
     */
    method FindFreeRange(size: nat, hint: nat) returns (r: Option<nat>, hung: bool)
      requires Shaped() && hint < WORD_LIMIT
      ensures hung <==> !Ends(Table(), size, hint)
      ensures !hung ==> Search(Table(), size, hint) != Back && r == PlaceOf(Search(Table(), size, hint))
    {
      ghost var s := Table();
      hide Ends, Climb, FirstHit, PastTop, NextAfter, Searching, Search;
      var addr, again := hint, false;
      Starting(s, size, hint);
      while true
        invariant Searching(s, size, hint, addr, again)
        decreases if again then 0 else 1, WORD_LIMIT - addr
      {
        SearchOn(s, size, hint, addr, again);
        if PastTop(addr, size) { return None, false; }
        var i := InTheWay(size, addr);
        if i == None { return Some(addr), false; }
        var next := NextAfter(vmas[i.value]);
        if next <= addr {
          if again { return None, true; }
          again := true;
        }
        addr := next;
      }
    }

    /** The first used area in the way of `size` bytes at the address. */
    method InTheWay(size: nat, addr: nat) returns (r: Option<nat>)
      requires Shaped()
      ensures r == FirstHit(Table(), size, addr, 0)
    {
      for i := 0 to vmaCount
        invariant FirstHit(Table(), size, addr, 0) == FirstHit(Table(), size, addr, i)
      {
        if vmas[i].typ != Unused && vmas[i].Overlaps(addr, size) { return Some(i); }
      }
      return None;
    }

    /** A random multiple of the page size; the random number generator may return anything. */
    method AslrOffset(bound: nat) returns (off: nat)
      requires bound > 0
      ensures off % PAGE_SIZE == 0 && off < bound * PAGE_SIZE
    {
      var r: nat := *;
      off := (r % bound) * PAGE_SIZE;
    }

    /**
     Lays out stack, guard page and the empty heap. The guard page is unmapped exactly if nothing was mapped
     there before.
     */
    method InitAslr()
      requires Shaped() && Rooted() && vmaCount == 0
      modifies vmas, `vmaCount, `heapStart, `heapEnd, `mmapNext
      ensures Areas() && heapStart == heapEnd && USER_HEAP_BASE <= heapStart < USER_HEAP_BASE + 256 * PAGE_SIZE
      ensures vmaCount == 2 && EndsBelow(Table()) && LaidOut(Table())
      ensures heapStart % PAGE_SIZE == 0 && 0x1000_0000 <= heapStart < 0x1010_0000
      ensures mmapNext % PAGE_SIZE == 0 && 0x4000_0000 <= mmapNext < 0x5000_0000
      ensures 0x7FFF_FFEF_0000 < vmas[1].base + vmas[1].size <= 0x7FFF_FFFF_0000
      ensures vmas[0].size == 4096 && vmas[1].size == 0x80_0000 - 4096 && vmas[1].base == vmas[0].base + 4096
      ensures var perm := vmas[1].perm; perm.w && !perm.x && perm.user && perm.demand && !perm.guard
      ensures vmas[0].typ == GuardPage && vmas[0].perm.guard && vmas[1].typ == Stack
      ensures Valid() <==> vmas[0].base / PAGE_SIZE !in Shown(vm.tables, p4)
    {
      hide Inserted, Shown, Rooted, TableOk, GuardsBare, HeapOk, LaidOut, EndsBelow;
      var heapOff := AslrOffset(256);
      var stackOff := AslrOffset(256);
      heapStart := USER_HEAP_BASE + heapOff;
      heapEnd := heapStart;
      var mmapOff := AslrOffset(65536);
      mmapNext := USER_MMAP_BASE + mmapOff;
      var stackBase := USER_STACK_TOP - USER_STACK_SIZE - stackOff;
      var guard := VmaTable.Vma(stackBase, PAGE_SIZE, Perm(false, false, true, false, true, false), GuardPage);
      assert Table() == [];
      var ok := AddVma(guard);
      var perm := Perm(true, false, true, true, false, false);
      var stack := VmaTable.Vma(stackBase + PAGE_SIZE, USER_STACK_SIZE - PAGE_SIZE, perm, Stack);
      ok := AddVma(stack);
      InitialTable(guard, stack, Shown(vm.tables, p4), heapStart);
      assert Table() == [guard, stack];
    }

    /** A fixed hint as it is, or what the search answers from a randomly shifted start on. */
    method ChooseBase(hint: nat, size: nat, fixed: bool) returns (place: Option<nat>, hung: bool, ghost from: nat)
      requires Shaped() && hint < WORD_LIMIT && mmapNext < WORD_LIMIT
      ensures hint != 0 && fixed ==> place == Some(hint) && !hung
      ensures !(hint != 0 && fixed) ==>
                && IsShifted(from, if hint != 0 then hint else mmapNext) && from < WORD_LIMIT && from % PAGE_SIZE == 0
                && (hung <==> !Ends(Table(), size, from))
                && (!hung ==> Search(Table(), size, from) != Back && place == PlaceOf(Search(Table(), size, from)))
    {
      from := 0;
      if hint != 0 && fixed { return Some(hint), false, from; }
      var start := if hint != 0 then hint else mmapNext;
      var off := AslrOffset(65536);
      var at := (start + off) % WORD_LIMIT - (start + off) % WORD_LIMIT % PAGE_SIZE;
      from := at;
      ShiftedFrom(from, start, off);
      hide IsShifted, Ends, Climb;
      place, hung := FindFreeRange(size, at);
    }

    /** The place for a new area, unless another one is in the way. */
    method PickPlace(hint: nat, size: nat, fixed: bool) returns (place: Option<nat>, hung: bool, ghost from: nat)
      requires Shaped() && hint < WORD_LIMIT && mmapNext < WORD_LIMIT
      ensures hung ==> from < WORD_LIMIT && !Ends(Table(), size, from)
      ensures !hung && place.Some? ==> place.value < WORD_LIMIT && NoOverlap(Table(), place.value, size)
      ensures !hung && !(hint != 0 && fixed) ==> IsShifted(from, if hint != 0 then hint else mmapNext)
      ensures !hung ==> PlaceChosen(Table(), hint, size, fixed, from, place)
    {
      hide NoOverlap, IsShifted, PlaceChosen, Ends, Climb;
      place, hung, from := ChooseBase(hint, size, fixed);
      if hung { return; }
      var free := place;
      if place.Some? {
        var overlap := HasOverlap(place.value, size);
        if overlap { free := None; }
      }
      PlaceDecided(Table(), hint, size, fixed, from, place, free);
      place := free;
    }

    /**
     A new anonymous area: at the hint when that is fixed, else at the first place that fits from the randomly shifted
     start `from` on. Whether the address space stays in order depends on the place: it must be page aligned and its
     end must not wrap. `halted` stands for the panic of a kernel out of frames.
     */
    method MmapAnon(hint: nat, size0: nat, perm: Perm, demand: bool)
      returns (r: nat, halted: bool, ghost place: Option<nat>, ghost from: nat, ghost area: VmaTable.Vma)
      requires Valid() && hint < WORD_LIMIT && size0 < WORD_LIMIT
      modifies vmas, `vmaCount, `mmapNext, vm, vm.pmm`freeFrames, vm.pmm`hint, vm.pmm.bm, vm.pmm.refs
      ensures halted ==> vm.pmm.bm.Length == BM_WORDS && vm.pmm.Free() == {} && !demand && place.Some?
      ensures size0 == 0 || size0 > WORD_LIMIT - PAGE_SIZE || old(vmaCount) == MAX_VMAS ==> place == None
      ensures RoundedSize(size0) > 0 && old(vmaCount) < MAX_VMAS ==>
                && PlaceChosen(old(Table()), hint, RoundedSize(size0), perm.fixed, from, place)
                && (!(hint != 0 && perm.fixed) ==> IsShifted(from, if hint != 0 then hint else old(mmapNext)))
      ensures RoundedSize(size0) > 0 && old(vmaCount) < MAX_VMAS && !(hint != 0 && perm.fixed) ==>
                (place == Some(0) <==> from == 0 && RoundedSize(size0) <= USER_STACK_TOP
                                       && NoOverlap(old(Table()), 0, RoundedSize(size0)))
      ensures place == None ==>
              && r == 0 && Valid() && Table() == old(Table()) && vm.Now() == old(vm.Now())
              && vm.data == old(vm.data) && mmapNext == old(mmapNext)
      ensures !halted ==> Shaped() && Rooted() && heapStart == old(heapStart) && heapEnd == old(heapEnd)
      ensures place.Some? && !halted ==>
              && r == place.value == area.base && Table() == Inserted(old(Table()), area)
              && area.size == RoundedSize(size0) && area.size % PAGE_SIZE == 0 && size0 <= area.size < size0 + PAGE_SIZE
              && area.typ == Anonymous && area.perm.user && area.perm.w == perm.w && area.perm.x == perm.x
              && area.perm.guard == perm.guard && (area.perm.demand <==> perm.demand || demand)
      ensures place.Some? && !halted ==> mmapNext == (r + RoundedSize(size0) + PAGE_SIZE) % WORD_LIMIT
      ensures demand ==> vm.Now() == old(vm.Now()) && vm.data == old(vm.data)
      ensures place.Some? && !demand && !halted ==>
                if r % PAGE_SIZE == 0
                then
                  var n := RoundedSize(size0) / PAGE_SIZE;
                  && Zeroed(old(vm.Now()), old(vm.data), vm.Now(), vm.data, p4, r, n, perm.w)
                  && AllMapped(vm.Now(), p4, r, n, Flags(perm.w, true, false, false, if perm.x then 0 else NX))
                else vm.tables == old(vm.tables)
      ensures place.Some? && !halted ==> (Areas() <==> r % PAGE_SIZE == 0 && r + RoundedSize(size0) < WORD_LIMIT)
      ensures place.Some? && !halted && Areas() && (demand || r + RoundedSize(size0) <= LOW_BYTES) ==> Valid()
    {
      hide Inserted, TableOk, HeapOk, GuardsBare, NoOverlap, Rooted, Shown, Zeroed, IsShifted, LowDistinct, AllMapped;
      hide PlaceChosen, RoundedSize;
      RoundedFits(size0);
      var size := RoundedSize(size0);
      if size == 0 { return 0, false, None, 0, EMPTY; }
      r, halted, place, from, area := MmapPages(hint, size, perm, demand);
    }

    /** The same for a size in whole pages. */
    method MmapPages(hint: nat, size: nat, perm: Perm, demand: bool)
      returns (r: nat, halted: bool, ghost place: Option<nat>, ghost from: nat, ghost area: VmaTable.Vma)
      requires Valid() && hint < WORD_LIMIT && 0 < size < WORD_LIMIT && size % PAGE_SIZE == 0
      modifies vmas, `vmaCount, `mmapNext, vm, vm.pmm`freeFrames, vm.pmm`hint, vm.pmm.bm, vm.pmm.refs
      ensures halted ==> vm.pmm.bm.Length == BM_WORDS && vm.pmm.Free() == {} && !demand && place.Some?
      ensures old(vmaCount) == MAX_VMAS ==> place == None
      ensures old(vmaCount) < MAX_VMAS ==>
                && PlaceChosen(old(Table()), hint, size, perm.fixed, from, place)
                && (!(hint != 0 && perm.fixed) ==> IsShifted(from, if hint != 0 then hint else old(mmapNext)))
      ensures old(vmaCount) < MAX_VMAS && !(hint != 0 && perm.fixed) ==>
                (place == Some(0) <==> from == 0 && size <= USER_STACK_TOP
                                       && NoOverlap(old(Table()), 0, size))
      ensures place == None ==>
              && r == 0 && Valid() && Table() == old(Table()) && vm.Now() == old(vm.Now())
              && vm.data == old(vm.data) && mmapNext == old(mmapNext)
      ensures !halted ==> Shaped() && Rooted() && heapStart == old(heapStart) && heapEnd == old(heapEnd)
      ensures place.Some? && !halted ==>
              && r == place.value == area.base && Table() == Inserted(old(Table()), area)
              && area.size == size
              && area.typ == Anonymous && area.perm.user && area.perm.w == perm.w && area.perm.x == perm.x
              && area.perm.guard == perm.guard && (area.perm.demand <==> perm.demand || demand)
      ensures place.Some? && !halted ==> mmapNext == (r + size + PAGE_SIZE) % WORD_LIMIT
      ensures demand ==> vm.Now() == old(vm.Now()) && vm.data == old(vm.data)
      ensures place.Some? && !demand && !halted ==>
                if r % PAGE_SIZE == 0
                then
                  var n := size / PAGE_SIZE;
                  && Zeroed(old(vm.Now()), old(vm.data), vm.Now(), vm.data, p4, r, n, perm.w)
                  && AllMapped(vm.Now(), p4, r, n, Flags(perm.w, true, false, false, if perm.x then 0 else NX))
                else vm.tables == old(vm.tables)
      ensures place.Some? && !halted ==> (Areas() <==> r % PAGE_SIZE == 0 && r + size < WORD_LIMIT)
      ensures place.Some? && !halted && Areas() && (demand || r + size <= LOW_BYTES) ==> Valid()
    {
      hide Inserted, TableOk, HeapOk, GuardsBare, NoOverlap, Rooted, Shown, Zeroed, IsShifted, TidyEnds;
      hide LowDistinct, PlaceChosen, AllMapped, NewArea, Search, PlaceOf;
      halted, place, from := false, None, 0;
      area := EMPTY;
      FromRooted();
      TidyTable(Table());
      var chosen, hung;
      chosen, hung, from := PickPlace(hint, size, perm.fixed);
      TidySearch(Table(), hint, size, perm.fixed, from, chosen, hung);
      place := chosen;
      if chosen == None { return 0, halted, place, from, area; }
      var ok;
      area := NewArea(chosen.value, size, perm, demand);
      AreaIs(chosen.value, size, perm, demand);
      ok, halted := Enter(NewArea(chosen.value, size, perm, demand), demand);
      if !ok { return 0, halted, None, from, area; }
      return if halted then 0 else chosen.value, halted, place, from, area;
    }

    /**
     The second half of mmap: the area goes into the table, and its pages are mapped unless they are left to
     faults.
     */
    method Enter(vma: VmaTable.Vma, demand: bool) returns (ok: bool, halted: bool)
      requires Valid() && vma.typ == Anonymous && vma.perm.user
      requires 0 < vma.size < WORD_LIMIT && vma.size % PAGE_SIZE == 0
      requires NoOverlap(Table(), vma.base, vma.size)
      modifies vmas, `vmaCount, `mmapNext, vm, vm.pmm`freeFrames, vm.pmm`hint, vm.pmm.bm, vm.pmm.refs
      ensures halted ==> vm.pmm.bm.Length == BM_WORDS && vm.pmm.Free() == {} && !demand
      ensures ok <==> old(vmaCount) < MAX_VMAS
      ensures !ok ==>
              && !halted && Valid() && Table() == old(Table()) && vm.Now() == old(vm.Now())
              && vm.data == old(vm.data) && mmapNext == old(mmapNext)
      ensures !halted ==> Shaped() && Rooted()
      ensures ok && !halted ==>
              && Table() == Inserted(old(Table()), vma)
              && mmapNext == (vma.base + vma.size + PAGE_SIZE) % WORD_LIMIT
      ensures demand ==> vm.Now() == old(vm.Now()) && vm.data == old(vm.data)
      ensures ok && !demand && !halted ==>
                if vma.base % PAGE_SIZE == 0
                then
                  var n := vma.size / PAGE_SIZE;
                  && Zeroed(old(vm.Now()), old(vm.data), vm.Now(), vm.data, p4, vma.base, n, vma.perm.w)
                  && AllMapped(vm.Now(), p4, vma.base, n, PteFlags(vma.perm))
                else vm.tables == old(vm.tables)
      ensures ok && !halted ==>
                if vma.base % PAGE_SIZE != 0 || vma.base + vma.size >= WORD_LIMIT then !Areas()
                else Areas() && (demand || vma.base + vma.size <= LOW_BYTES ==> Valid())
    {
      hide Inserted, TableOk, HeapOk, GuardsBare, NoOverlap, Rooted, Shown, Zeroed, LowDistinct, AllMapped;
      halted := false;
      FromRooted();
      ghost var s, m, data := Table(), vm.Now(), vm.data;
      ok := AddVma(vma);
      if !ok { return; }
      mmapNext := (vma.base + vma.size + PAGE_SIZE) % WORD_LIMIT;
      if !demand {
        var mapped := MapZeros(vm, p4, vma.base, vma.size / PAGE_SIZE, PteFlags(vma.perm));
        halted := !mapped;
      }
      if halted { return; }
      StillRooted(m, data, vm.Now(), vm.data, p4, vma.base, vma.size, demand, vma.perm.w);
      ToRooted();
      AreaEntered(s, vma, heapStart, heapEnd, Shown(m.tables, p4), Shown(vm.tables, p4));
    }

    /** The first area with that base and size, or the number of areas. */
    method FindExact(base: nat, size: nat) returns (k: nat)
      requires Shaped()
      ensures k <= vmaCount && forall j | 0 <= j < k :: !(Table()[j].base == base && Table()[j].size == size)
      ensures k < vmaCount ==> Table()[k].base == base && Table()[k].size == size
    {
      k := 0;
      while k < vmaCount && !(vmas[k].base == base && vmas[k].size == size)
        invariant k <= vmaCount && forall j | 0 <= j < k :: !(vmas[j].base == base && vmas[j].size == size)
      {
        k := k + 1;
      }
    }

    /**
     Takes out the area that starts at `base` with that size, and all its pages, which must be such that `vunmap` can
     take them; the heap stays exact unless it was the heap.
     */
    method Munmap(base: nat, size0: nat) returns (ok: bool)
      requires Valid() && size0 < WORD_LIMIT
      requires HasArea(Table(), base, RoundedSize(size0)) ==>
                 CanUnmap(vm.Now(), p4, base, RoundedSize(size0) / PAGE_SIZE)
      modifies vmas, `vmaCount, vm, vm.pmm`freeFrames, vm.pmm`hint, vm.pmm.bm, vm.pmm.refs
      ensures Shaped() && TableOk(Table()) && Rooted() && Guarded()
      ensures ok <==> HasArea(old(Table()), base, RoundedSize(size0))
      ensures !ok ==> Valid() && Table() == old(Table()) && vm.Now() == old(vm.Now())
      ensures ok ==> Emptied(old(vm.Now()), vm.Now(), p4, base, RoundedSize(size0) / PAGE_SIZE)
      ensures ok ==>
                exists k: nat ::
                  && k < |old(Table())| && old(Table())[k].base == base && old(Table())[k].size == RoundedSize(size0)
                  && Table() == Removed(old(Table()), k) && (Valid() <==> old(Table())[k].typ != Heap)
    {
      hide HeapOk, GuardsBare, Removed, Rooted, Shown, CanUnmap, Emptied;
      var size := PageUp(size0) % WORD_LIMIT;
      ghost var s, shown := Table(), Shown(vm.tables, p4);
      var k := FindExact(base, size);
      if k == vmaCount { return false; }
      assert s[k].base == base && s[k].size == size && Proper(s[k]);
      FromRooted();
      ghost var m := vm.Now();
      UnmapRange(vm, p4, base, size / PAGE_SIZE);
      ShownFewer(m, vm.Now(), p4, base, size / PAGE_SIZE);
      OneBase(s, k);
      AreaGone(s, k, heapStart, heapEnd, shown, Shown(vm.tables, p4));
      ok := RemoveVma(base);
      ToRooted();
      return true;
    }

    /** Gives the first area that contains the start of the heap a new size, if there is one. */
    method SetHeapSize(size: nat)
      requires Shaped()
      modifies vmas
      ensures Resized(old(Table()), Table(), heapStart, size)
    {
      ghost var s := Table();
      var k := FindVma(heapStart);
      assert forall j | 0 <= j < |s| :: s[j] == vmas[j];
      if k == None { return; }
      var v := vmas[k.value];
      vmas[k.value] := VmaTable.Vma(v.base, size, v.perm, v.typ);
      assert Table() == s[k.value := vmas[k.value]] && s[k.value].Contains(heapStart);
    }

    lemma FromRooted()
      requires Rooted()
      ensures vm.Valid() && p4 != 0 && IsP4(vm.Now(), p4) && LowDistinct(vm.Now(), p4)
    {
    }

    lemma ToRooted()
      requires vm.Valid() && p4 != 0 && IsP4(vm.Now(), p4) && LowDistinct(vm.Now(), p4)
      ensures Rooted()
    {
    }

    /** Fresh pages from `from` on, up to `to` or to the first page that another area covers. */
    method GrowPages(from: nat, to: nat) returns (pg: nat, halted: bool)
      requires Shaped() && TableOk(Table()) && Rooted() && from % PAGE_SIZE == 0 && to % PAGE_SIZE == 0
      requires from < to < WORD_LIMIT - PAGE_SIZE
      modifies vm, vm.pmm`freeFrames, vm.pmm`hint, vm.pmm.bm, vm.pmm.refs
      ensures halted ==> vm.pmm.bm.Length == BM_WORDS && vm.pmm.Free() == {}
      ensures !halted ==>
                && Rooted() && from <= pg <= to && pg % PAGE_SIZE == 0
                && Zeroed(old(vm.Now()), old(vm.data), vm.Now(), vm.data, p4, from, (pg - from) / PAGE_SIZE, true)
                && AllMapped(vm.Now(), p4, from, (pg - from) / PAGE_SIZE, Flags(true, true, false, false, NX))
                && (from < pg ==> NoOverlap(Table(), from, pg - from))
                && (pg < to ==> !NoOverlap(Table(), pg, PAGE_SIZE))
                && (from < pg <==> NoOverlap(Table(), from, PAGE_SIZE))
    {
      hide NoOverlap, TableOk, Zeroed, PagePath, PathOf, OnlyPage, OnlyUserPage, Rooted, VmOk, FrameManager.Valid;
      hide FrameManager.Free, LowDistinct, MappedWith, WaysKept;
      FromRooted();
      vm.pmm.FromValid();
      ghost var m0, data0 := vm.Now(), vm.data;
      pg, halted := from, false;
      ghost var k := 0;
      ZeroedNone(m0, data0, p4, from, true);
      while pg < to
        invariant Rooted() && from <= pg <= to && pg == from + PAGE_SIZE * k
        invariant Zeroed(m0, data0, vm.Now(), vm.data, p4, from, k, true)
        invariant AllMapped(vm.Now(), p4, from, k, Flags(true, true, false, false, NX))
        invariant from < pg ==> NoOverlap(Table(), from, pg - from) && NoOverlap(Table(), from, PAGE_SIZE)
        decreases PAGE_SIZE + to - pg
      {
        var overlap := HasOverlap(pg, PAGE_SIZE);
        if overlap { break; }
        OverlapNext(Table(), from, pg - from);
        FromRooted();
        ghost var m, data := vm.Now(), vm.data;
        HeapPage(from, k, pg);
        StepFits(pg, to);
        var r;
        ghost var g;
        r, g := MapZero(vm, p4, pg, HEAP_FLAGS);
        if r == Exhausted { halted := true; return; }
        ZeroedNext(m0, data0, m, data, vm.Now(), vm.data, p4, from, k, true, g);
        PathOfPage(from, k);
        MappedNext(m, vm.Now(), p4, from, k, HEAP_FLAGS);
        DistinctStays(m, vm.Now(), p4);
        ToRooted();
        pg := pg + PAGE_SIZE;
        k := k + 1;
        FirstPage(Table(), from, pg - from);
      }
    }

    /**
     Growing succeeds in keeping the heap exact when the heap exists, or gets its first page and a place in the
     table.
     */
    ghost predicate GrowthOk()
      requires Shaped()
      reads this, vmas
    {
      heapStart < heapEnd || (NoOverlap(Table(), heapEnd, PAGE_SIZE) <==> vmaCount < MAX_VMAS)
    }

    method GrowHeap(newEnd: nat) returns (halted: bool)
      requires Valid() && heapEnd < newEnd < WORD_LIMIT - PAGE_SIZE && newEnd % PAGE_SIZE == 0
      modifies vmas, `vmaCount, `heapEnd, vm, vm.pmm`freeFrames, vm.pmm`hint, vm.pmm.bm, vm.pmm.refs
      ensures halted ==> vm.pmm.bm.Length == BM_WORDS && vm.pmm.Free() == {}
      ensures !halted ==>
                && Shaped() && Rooted() && old(heapEnd) <= heapEnd <= newEnd && heapEnd % PAGE_SIZE == 0
                && Zeroed(old(vm.Now()), old(vm.data), vm.Now(), vm.data, p4, old(heapEnd),
                   (heapEnd - old(heapEnd)) / PAGE_SIZE, true)
                && AllMapped(vm.Now(), p4, old(heapEnd), (heapEnd - old(heapEnd)) / PAGE_SIZE,
                   Flags(true, true, false, false, NX))
                && (if heapStart < old(heapEnd) then Resized(old(Table()), Table(), heapStart, heapEnd - heapStart)
                    else HeapEntered(old(Table()), Table(), heapStart, heapEnd))
                && (heapEnd < newEnd ==> !NoOverlap(old(Table()), heapEnd, PAGE_SIZE))
                && (Areas() <==> old(GrowthOk()))
                && (heapEnd <= LOW_BYTES ==> (Valid() <==> old(GrowthOk())))
    {
      hide NoOverlap, HeapOk, GuardsBare, TableOk, Inserted, Resized, Zeroed, Shown, Rooted, LowDistinct;
      hide AllMapped, HeapEntered;
      HeapAligned(Table(), heapStart, heapEnd);
      FromRooted();
      ghost var m0, data0, s := vm.Now(), vm.data, Table();
      var oldEnd := heapEnd;
      var pg;
      pg, halted := GrowPages(oldEnd, newEnd);
      if halted { return; }
      heapEnd := pg;
      if pg <= LOW_BYTES { GrownBare(s, m0, data0, vm.Now(), vm.data, p4, oldEnd, pg); }
      if heapStart == oldEnd {
        EnterHeap();
      } else {
        ExtendHeap(oldEnd);
      }
    }

    /** The heap got its first pages: its area is entered in the table. */
    method EnterHeap()
      requires Shaped() && TableOk(Table()) && HeapOk(Table(), heapStart, heapStart) && Rooted()
      requires heapStart <= heapEnd < WORD_LIMIT && mmapNext < WORD_LIMIT && heapEnd % PAGE_SIZE == 0
      requires heapStart < heapEnd ==> NoOverlap(Table(), heapStart, heapEnd - heapStart)
      modifies vmas, `vmaCount
      ensures Shaped() && Rooted() && (Areas() <==> (heapStart < heapEnd <==> old(vmaCount) < MAX_VMAS))
      ensures Areas() && old(Guarded()) ==> Guarded()
      ensures HeapEntered(old(Table()), Table(), heapStart, heapEnd)
    {
      hide NoOverlap, HeapOk, GuardsBare, TableOk, Inserted, Shown, Rooted;
      ghost var s := Table();
      var vma := VmaTable.Vma(heapStart, heapEnd - heapStart, Perm(true, false, true, false, false, false), Heap);
      if heapStart < heapEnd { HeapStarted(s, heapStart, heapEnd, vma); }
      HeapNotStarted(s, heapStart, heapEnd, vma);
      var ok := AddVma(vma);
    }

    method ExtendHeap(ghost oldEnd: nat)
      requires Shaped() && TableOk(Table()) && HeapOk(Table(), heapStart, oldEnd) && Rooted()
      requires heapStart < oldEnd <= heapEnd < WORD_LIMIT && mmapNext < WORD_LIMIT && heapEnd % PAGE_SIZE == 0
      requires oldEnd < heapEnd ==> NoOverlap(Table(), oldEnd, heapEnd - oldEnd)
      modifies vmas
      ensures Areas() && Rooted() && (old(Guarded()) ==> Guarded())
      ensures Resized(old(Table()), Table(), heapStart, heapEnd - heapStart)
    {
      hide NoOverlap, HeapOk, GuardsBare, TableOk, Resized, Shown, Rooted;
      ghost var s := Table();
      SetHeapSize(heapEnd - heapStart);
      HeapMoved(s, Table(), heapStart, oldEnd, heapEnd);
    }

    ghost predicate ShrinkOk(newEnd: nat)
      requires Shaped()
      reads this, vmas
    {
      if heapStart < heapEnd then newEnd > heapStart else newEnd == heapStart && NoneContains(Table(), heapStart)
    }

    method ShrinkHeap(newEnd: nat)
      requires Valid() && newEnd <= heapEnd && newEnd % PAGE_SIZE == 0
      requires CanUnmap(vm.Now(), p4, newEnd, (heapEnd - newEnd) / PAGE_SIZE)
      modifies vmas, `heapEnd, vm, vm.pmm`freeFrames, vm.pmm`hint, vm.pmm.bm, vm.pmm.refs
      ensures Shaped() && Rooted() && heapEnd == newEnd
      ensures Emptied(old(vm.Now()), vm.Now(), p4, newEnd, (old(heapEnd) - newEnd) / PAGE_SIZE)
      ensures Resized(old(Table()), Table(), heapStart, (newEnd + WORD_LIMIT - heapStart) % WORD_LIMIT)
      ensures Valid() <==> old(ShrinkOk(newEnd))
    {
      hide NoOverlap, HeapOk, GuardsBare, TableOk, Resized, Emptied, Shown, Rooted, CanUnmap, LowDistinct;
      FromRooted();
      ghost var s, from, shown, m := Table(), heapEnd, Shown(vm.tables, p4), vm.Now();
      HeapAligned(s, heapStart, heapEnd);
      UnmapRange(vm, p4, newEnd, (heapEnd - newEnd) / PAGE_SIZE);
      ShownFewer(m, vm.Now(), p4, newEnd, (heapEnd - newEnd) / PAGE_SIZE);
      heapEnd := newEnd;
      var size := (heapEnd + WORD_LIMIT - heapStart) % WORD_LIMIT;
      SetHeapSize(size);
      ToRooted();
      ShrunkHeap(s, Table(), heapStart, from, newEnd, size, shown, Shown(vm.tables, p4));
    }

    /**
     Moves the end of the heap. The address space stays in order exactly when a growing heap exists or
     can be entered in the table, and a shrinking one keeps a page.
     */
    method Sbrk(increment: int) returns (r: nat, halted: bool, ghost to: nat)
      requires Valid() && heapEnd + increment < WORD_LIMIT - 2 * PAGE_SIZE
      requires increment < 0 ==>
                 var x := if heapEnd + increment < 0 then 0 else heapEnd + increment;
                 forall to: nat | x <= to < x + PAGE_SIZE && to % PAGE_SIZE == 0 && to <= heapEnd ::
                   CanUnmap(vm.Now(), p4, to, (heapEnd - to) / PAGE_SIZE)
      modifies vmas, `vmaCount, `heapEnd, vm, vm.pmm`freeFrames, vm.pmm`hint, vm.pmm.bm, vm.pmm.refs
      ensures halted ==> vm.pmm.bm.Length == BM_WORDS && vm.pmm.Free() == {} && increment > 0
      ensures !halted ==> r == old(heapEnd) && Shaped() && Rooted()
      ensures var x := if old(heapEnd) + increment < 0 then 0 else old(heapEnd) + increment;
              x <= to < x + PAGE_SIZE && to % PAGE_SIZE == 0
      ensures !halted ==>
                if to > old(heapEnd) then
                  && old(heapEnd) <= heapEnd <= to && (heapEnd < to ==> !NoOverlap(old(Table()), heapEnd, PAGE_SIZE))
                  && Zeroed(old(vm.Now()), old(vm.data), vm.Now(), vm.data, p4, r, (heapEnd - r) / PAGE_SIZE, true)
                  && AllMapped(vm.Now(), p4, r, (heapEnd - r) / PAGE_SIZE, Flags(true, true, false, false, NX))
                  && (if heapStart < r then Resized(old(Table()), Table(), heapStart, heapEnd - heapStart)
                      else if old(vmaCount) == MAX_VMAS then Table() == old(Table())
                      else Table() == Inserted(old(Table()), VmaTable.Vma(heapStart, heapEnd - heapStart,
                                          Perm(true, false, true, false, false, false), Heap)))
                  && (Areas() <==> old(GrowthOk())) && (heapEnd <= LOW_BYTES ==> (Valid() <==> old(GrowthOk())))
                else if increment < 0 then
                  && heapEnd == to <= r && Emptied(old(vm.Now()), vm.Now(), p4, to, (r - to) / PAGE_SIZE)
                  && Resized(old(Table()), Table(), heapStart, (to + WORD_LIMIT - heapStart) % WORD_LIMIT)
                  && (Valid() <==> old(ShrinkOk(to)))
                else Valid() && Table() == old(Table()) && vm.Now() == old(vm.Now()) && heapEnd == r
    {
      hide NoOverlap, HeapOk, GuardsBare, TableOk, GrowthOk, ShrinkOk, Zeroed, Emptied, CanUnmap, Shown, Rooted;
      HeapAligned(Table(), heapStart, heapEnd);
      hide AllMapped, Resized, Inserted, HeapEntered;
      ghost var s := Table();
      halted := false;
      var oldEnd := heapEnd;
      var newEnd := PageUp(if oldEnd + increment < 0 then 0 else oldEnd + increment);
      to := newEnd;
      UpIsWithin(oldEnd, increment);
      if newEnd <= oldEnd && increment >= 0 { return oldEnd, halted, to; }
      if newEnd > oldEnd {
        halted := GrowHeap(newEnd);
        if !halted && heapStart >= oldEnd { WasEntered(s, Table(), heapStart, heapEnd); }
      } else {
        ShrinkHeap(newEnd);
      }
      return oldEnd, halted, to;
    }

    /**
     A page fault on a missing page: the page is mapped with its area's flags when the area that
     contains the address is filled on demand, and never inside a guard area.
     */
    method HandleDemandFault(addr: nat) returns (ok: bool, halted: bool)
      requires Valid() && addr < WORD_LIMIT
      modifies vm, vm.pmm`freeFrames, vm.pmm`hint, vm.pmm.bm, vm.pmm.refs
      ensures halted ==> vm.pmm.bm.Length == BM_WORDS && vm.pmm.Free() == {}
      ensures !halted ==> Areas() && Rooted() && (addr < LOW_BYTES ==> Valid())
      ensures ok || halted <==>
              exists j :: && 0 <= j < vmaCount && vmas[j].base <= addr < (vmas[j].base + vmas[j].size) % WORD_LIMIT
                          && vmas[j].typ != GuardPage && vmas[j].perm.demand && !vmas[j].perm.guard
      ensures !ok && !halted ==> Valid() && vm.Now() == old(vm.Now())
      ensures ok ==> FaultFilled(Table(), old(vm.Now()), old(vm.data), vm.Now(), vm.data, p4, addr)
      ensures ok ==>
                var e := Way(vm.Now(), p4, PathOf(addr)).3;
                exists j :: && 0 <= j < vmaCount && vmas[j].base <= addr < (vmas[j].base + vmas[j].size) % WORD_LIMIT
                            && e.p && e.w == vmas[j].perm.w && e.u == vmas[j].perm.user && !e.cow
                            && e.rest == if vmas[j].perm.x then 0 else NX
    {
      hide HeapOk, GuardsBare, TableOk, Zeroed, Shown, Rooted, LowDistinct, AllMapped, MappedWith, Way, ShownAfter;
      var k := FindVma(addr);
      if k == None { return false, false; }
      var v := vmas[k.value];
      assert v == Table()[k.value];
      OnlyAreaAt(Table(), k.value, addr);
      UserArea(Table(), k.value);
      if v.typ == GuardPage || v.perm.guard || !v.perm.demand { return false, false; }
      FromRooted();
      ghost var m, data := vm.Now(), vm.data;
      var page := addr - addr % PAGE_SIZE;
      WholePage(addr);
      var mapped := MapZeros(vm, p4, page, 1, PteFlags(v.perm));
      if !mapped { return false, true; }
      RootStays(m, data, vm.Now(), vm.data, p4, page, 1, v.perm.w);
      OneMapped(vm.Now(), p4, addr, PteFlags(v.perm));
      assert vmas[k.value] == v && v.Contains(addr);
      ToRooted();
      if addr < LOW_BYTES { FaultBare(Table(), m, data, vm.Now(), vm.data, p4, k.value, addr, v.perm.w); }
      return true, false;
    }
  }

  /** The page of the address, and no other, was mapped, with the flags that its area asks for. */
  ghost predicate FaultFilled(s: seq<VmaTable.Vma>, m: Mem, data: map<nat, Page>, m': Mem, data': map<nat, Page>,
      p4: nat, addr: nat) {
    exists j ::
      && 0 <= j < |s| && s[j].Contains(addr)
      && Zeroed(m, data, m', data', p4, addr - addr % PAGE_SIZE, 1, s[j].perm.w)
      && MappedWith(m', p4, PathOf(addr),
         Flags(s[j].perm.w, s[j].perm.user, false, false, if s[j].perm.x then 0 else NX))
  }

  /** The area that mmap enters. */
  function NewArea(base: nat, size: nat, perm: Perm, demand: bool): VmaTable.Vma {
    VmaTable.Vma(base, size, perm.(user := true, demand := perm.demand || demand), Anonymous)
  }

  lemma AreaIs(base: nat, size: nat, perm: Perm, demand: bool)
    ensures var v := NewArea(base, size, perm, demand);
            && v.base == base && v.size == size && v.typ == Anonymous && v.perm.user && v.perm.w == perm.w
            && v.perm.x == perm.x && v.perm.guard == perm.guard && (v.perm.demand <==> perm.demand || demand)
            && PteFlags(v.perm) == Flags(perm.w, true, false, false, if perm.x then 0 else NX)
  {
  }

  ghost predicate HasArea(s: seq<VmaTable.Vma>, base: nat, size: nat) {
    exists k :: 0 <= k < |s| && s[k].base == base && s[k].size == size
  }

  /** The heap's area was entered, for user code to write and not to execute, unless the table was full. */
  ghost predicate HeapEntered(s: seq<VmaTable.Vma>, s': seq<VmaTable.Vma>, start: nat, end: nat)
    requires start <= end
  {
    s' == if |s| < MAX_VMAS
          then Inserted(s, VmaTable.Vma(start, end - start, Perm(true, false, true, false, false, false), Heap)) else s
  }

  lemma WasEntered(s: seq<VmaTable.Vma>, s': seq<VmaTable.Vma>, start: nat, end: nat)
    requires start <= end && HeapEntered(s, s', start, end)
    ensures |s| >= MAX_VMAS ==> s' == s
    ensures |s| < MAX_VMAS ==>
              s' == Inserted(s, VmaTable.Vma(start, end - start, Perm(true, false, true, false, false, false), Heap))
  {
  }

  /** The place that mmap decides on: a fixed hint unless another area is in the way, else what the search answers. */
  ghost predicate PlaceChosen(s: seq<VmaTable.Vma>, hint: nat, size: nat, fixed: bool, from: nat, place: Option<nat>) {
    if hint != 0 && fixed then place == if NoOverlap(s, hint, size) then Some(hint) else None
    else
      && from < WORD_LIMIT && from % PAGE_SIZE == 0
      && Search(s, size, from) != Back && place == PlaceOf(Search(s, size, from))
  }

  lemma PlaceDecided(s: seq<VmaTable.Vma>, hint: nat, size: nat, fixed: bool, from: nat, place: Option<nat>,
      free: Option<nat>)
    requires hint != 0 && fixed ==> place == Some(hint)
    requires !(hint != 0 && fixed) ==>
               && from < WORD_LIMIT && from % PAGE_SIZE == 0
               && Search(s, size, from) != Back && place == PlaceOf(Search(s, size, from))
    requires free == if place.Some? && NoOverlap(s, place.value, size) then place else None
    ensures PlaceChosen(s, hint, size, fixed, from, free)
  {
    if !(hint != 0 && fixed) { AnswerMeans(s, size, from); }
    hide NoOverlap, Climb, FirstFit;
  }

  /** In a table in order the search always ends. */
  lemma TidySearch(s: seq<VmaTable.Vma>, hint: nat, size: nat, fixed: bool, from: nat, place: Option<nat>, hung: bool)
    requires TidyEnds(s) && size < WORD_LIMIT && (hung ==> from < WORD_LIMIT && !Ends(s, size, from))
    requires !hung ==> PlaceChosen(s, hint, size, fixed, from, place)
    ensures !hung && (place.Some? && !(hint != 0 && fixed) ==> place.value % PAGE_SIZE == 0)
    ensures !(hint != 0 && fixed) ==>
              (place == Some(0) <==> from == 0 && size <= USER_STACK_TOP && NoOverlap(s, 0, size))
  {
    hide Climb, Ends, NoOverlap, TidyEnds;
    if hung {
      TidyNeverBack(s, size, from);
      SearchEnds(s, size, from);
    } else if !(hint != 0 && fixed) {
      TidyNeverBack(s, size, from);
      AnswerZero(s, size, from);
      if place.Some? { AnswerAligned(s, size, from); }
    }
  }

  /**
   A place that is not fixed is the first that fits, in a table whose areas do not end in the last page, exactly if
   its end does not wrap. That is so whenever neither the start nor the end of an area misleads the sum; and where all
   areas end below the top, exactly if the start, shift included, does not.
   */
  lemma PlaceIsGood(s: seq<VmaTable.Vma>, hint: nat, size: nat, fixed: bool, from: nat, place: Option<nat>)
    requires PlaceChosen(s, hint, size, fixed, from, place) && !(hint != 0 && fixed) && TidyEnds(s) && size < WORD_LIMIT
    ensures FirstFit(s, place, size, from) <==> (place.Some? ==> place.value + size < WORD_LIMIT)
    ensures Honest(s, size, from) ==> FirstFit(s, place, size, from)
    ensures EndsBelow(s) ==> (FirstFit(s, place, size, from) <==> !Misled(from, size))
  {
    TidyNeverBack(s, size, from);
    AnswerMeans(s, size, from);
    hide Climb, FirstFit, TidyEnds, EndsBelow, Misled, Honest;
    if Honest(s, size, from) { HonestIsFirstFit(s, size, from); }
    if EndsBelow(s) { BelowTheTop(s, size, from); }
  }

  /**
   An area lands at address 0, which also stands for a failure, exactly if the search comes to 0, at its start or sent
   back by an area that ends in the last page, and page 0 is free.
   */
  lemma PlaceAtZero(s: seq<VmaTable.Vma>, hint: nat, size: nat, fixed: bool, from: nat, place: Option<nat>)
    requires PlaceChosen(s, hint, size, fixed, from, place) && !(hint != 0 && fixed) && size < WORD_LIMIT
    ensures place == Some(0) <==>
            (from == 0 || Climb(s, size, from) == Back) && size <= USER_STACK_TOP && NoOverlap(s, 0, size)
  {
    AnswerZero(s, size, from);
    hide Climb, NoOverlap;
  }

  /**
   The search starts at 0 for a hint inside page 0 and no shift, and for one in the last page shifted by one; and then
   an empty table has room there.
   */
  lemma AreaAtZero(hint: nat)
    requires 0 < hint < PAGE_SIZE
    ensures IsShifted(0, hint) && IsShifted(0, WORD_LIMIT - PAGE_SIZE) && Search([], PAGE_SIZE, 0) == Found(0)
  {
    assert Shifted(hint, 0) == 0;
    assert Shifted(WORD_LIMIT - PAGE_SIZE, PAGE_SIZE) == 0;
    ZeroLook([], PAGE_SIZE);
  }

  /** The search starts at 0 exactly if the sum of hint and shift, in 64 bits, lies in page 0. */
  lemma StartsAtZero(start: nat, off: nat)
    ensures Shifted(start, off) == 0 <==> (start + off) % WORD_LIMIT < PAGE_SIZE
  {
  }

  /**
   On a fresh space, `mmap_anon(0, 2^64 - 2^20)` misleads the search from wherever it starts: an area is placed that
   ends below its base.
   */
  lemma HugeSizeMisleads(s: seq<VmaTable.Vma>, start: nat, from: nat, place: Option<nat>, perm: Perm, demand: bool)
    requires EndsBelow(s) && USER_MMAP_BASE <= start <= USER_MMAP_BASE + 65536 * PAGE_SIZE && IsShifted(from, start)
    requires PlaceChosen(s, 0, RoundedSize(WORD_LIMIT - 0x10_0000), perm.fixed, from, place)
    requires place.Some? ==> place.value < WORD_LIMIT
    ensures Misled(from, RoundedSize(WORD_LIMIT - 0x10_0000)) && place.Some?
    ensures NewArea(place.value, RoundedSize(WORD_LIMIT - 0x10_0000), perm, demand).End() < place.value
  {
    ShiftedNear(start, from);
    assert RoundedSize(WORD_LIMIT - 0x10_0000) == WORD_LIMIT - 0x10_0000;
    BelowTheTop(s, WORD_LIMIT - 0x10_0000, from);
    hide IsShifted, RoundedSize, Climb, FirstFit, EndsBelow;
  }

  lemma ShiftedNear(start: nat, from: nat)
    requires USER_MMAP_BASE <= start <= USER_MMAP_BASE + 65536 * PAGE_SIZE && IsShifted(from, start)
    ensures USER_MMAP_BASE - PAGE_SIZE < from <= USER_MMAP_BASE + 131072 * PAGE_SIZE
  {
    var off: nat :| off % PAGE_SIZE == 0 && off < 65536 * PAGE_SIZE && from == Shifted(start, off);
    assert from <= start + off && start + off < from + PAGE_SIZE;
  }

  lemma RoundedFits(n: nat)
    ensures RoundedSize(n) % PAGE_SIZE == 0 && RoundedSize(n) < WORD_LIMIT
    ensures n <= WORD_LIMIT - PAGE_SIZE ==> n <= RoundedSize(n) < n + PAGE_SIZE
    ensures WORD_LIMIT - PAGE_SIZE < n < WORD_LIMIT ==> RoundedSize(n) == 0
  {
    assert PageUp(n) % PAGE_SIZE == 0 && WORD_LIMIT % PAGE_SIZE == 0;
    UpNear(n);
  }

  lemma UpNear(n: nat)
    ensures n <= PageUp(n) < n + PAGE_SIZE && PageUp(n) % PAGE_SIZE == 0
  {
  }

  lemma StepFits(pg: nat, to: nat)
    requires pg % PAGE_SIZE == 0 && to % PAGE_SIZE == 0 && pg < to
    ensures pg + PAGE_SIZE <= to
  {
  }

  lemma HeapPage(from: nat, k: nat, pg: nat)
    requires from % PAGE_SIZE == 0 && pg == from + PAGE_SIZE * k
    ensures pg % PAGE_SIZE == 0 && PathOf(pg) == PagePath(from, k) && IsPath(PagePath(from, k), 4)
  {
  }

  lemma WholePage(addr: nat)
    ensures (addr - addr % PAGE_SIZE) % PAGE_SIZE == 0
  {
  }

  lemma UserArea(s: seq<VmaTable.Vma>, k: nat)
    requires TableOk(s) && k < |s|
    ensures s[k].perm.user
  {
    assert Proper(s[k]);
  }

  /** The root is there after pages were mapped. */
  lemma RootStays(m: Mem, data: map<nat, Page>, m': Mem, data': map<nat, Page>, p4: nat, base: nat, n: nat, open: bool)
    requires IsP4(m, p4) && LowDistinct(m, p4) && Zeroed(m, data, m', data', p4, base, n, open)
    ensures LowDistinct(m', p4)
  {
    DistinctStays(m, m', p4);
  }

  /** What is seen after a new area was mapped, or left to faults. */
  lemma StillRooted(m: Mem, data: map<nat, Page>, m': Mem, data': map<nat, Page>, p4: nat, base: nat, size: nat,
      demand: bool, open: bool)
    requires IsP4(m, p4) && LowDistinct(m, p4) && size % PAGE_SIZE == 0 && (demand ==> m' == m)
    requires !demand && base % PAGE_SIZE == 0 ==> Zeroed(m, data, m', data', p4, base, size / PAGE_SIZE, open)
    requires !demand && base % PAGE_SIZE != 0 ==> m'.tables == m.tables && m'.nodes == m.nodes
    ensures IsP4(m', p4) && LowDistinct(m', p4)
    ensures base % PAGE_SIZE == 0 && (demand || base + size <= LOW_BYTES) ==>
              && Shown(m.tables, p4) <= Shown(m'.tables, p4)
              && Shown(m'.tables, p4) - Shown(m.tables, p4) <= PagesOf(base, size)
  {
    hide UserAt, Sees;
    if !demand && base % PAGE_SIZE == 0 {
      assert PAGE_SIZE * (size / PAGE_SIZE) == size;
      DistinctStays(m, m', p4);
      if base + size <= LOW_BYTES { ShownZeroed(m, data, m', data', p4, base, size / PAGE_SIZE, open); }
    }
  }

  /** What a new area means for the table, depending on its place. */
  lemma AreaEntered(s: seq<VmaTable.Vma>, v: VmaTable.Vma, start: nat, end: nat, shown: set<nat>, shown': set<nat>)
    requires TableOk(s) && HeapOk(s, start, end) && GuardsBare(s, shown) && v.typ == Anonymous && v.perm.user
    requires v.size > 0 && v.size % PAGE_SIZE == 0
    requires NoOverlap(s, v.base, v.size)
    ensures v.base % PAGE_SIZE != 0 || v.base + v.size >= WORD_LIMIT ==> !TableOk(Inserted(s, v))
    ensures v.base % PAGE_SIZE == 0 && v.base + v.size < WORD_LIMIT ==>
              && TableOk(Inserted(s, v)) && HeapOk(Inserted(s, v), start, end)
              && (shown <= shown' && shown' - shown <= PagesOf(v.base, v.size) ==> GuardsBare(Inserted(s, v), shown'))
  {
    if v.base % PAGE_SIZE == 0 && v.base + v.size < WORD_LIMIT {
      NewAreaKeeps(s, v, start, end, shown, {});
      if shown <= shown' && shown' - shown <= PagesOf(v.base, v.size) {
        NewAreaKeeps(s, v, start, end, shown, shown' - shown);
        assert shown + (shown' - shown) == shown';
      }
    } else {
      InsertedHas(s, v);
      assert v in Inserted(s, v);
      var j :| 0 <= j < |Inserted(s, v)| && Inserted(s, v)[j] == v;
      assert !Proper(Inserted(s, v)[j]);
    }
  }

  lemma GrownBare(s: seq<VmaTable.Vma>, m: Mem, data: map<nat, Page>, m': Mem, data': map<nat, Page>, p4: nat,
      from: nat, to: nat)
    requires TableOk(s) && GuardsBare(s, Shown(m.tables, p4)) && IsP4(m, p4) && LowDistinct(m, p4)
    requires from % PAGE_SIZE == 0 && to % PAGE_SIZE == 0 && from <= to <= LOW_BYTES
    requires (from < to ==> NoOverlap(s, from, to - from))
    requires Zeroed(m, data, m', data', p4, from, (to - from) / PAGE_SIZE, true)
    ensures GuardsBare(s, Shown(m'.tables, p4))
  {
    hide Shown, GuardsBare, TableOk, NoOverlap, Zeroed, LowDistinct;
    assert PAGE_SIZE * ((to - from) / PAGE_SIZE) == to - from;
    ShownZeroed(m, data, m', data', p4, from, (to - from) / PAGE_SIZE, true);
    if from < to {
      FreshPagesBare(s, Shown(m.tables, p4), from, to - from, PagesOf(from, to - from));
    } else {
      NoPages(from);
      assert Shown(m'.tables, p4) == Shown(m.tables, p4);
    }
  }

  lemma NoPages(a: nat)
    ensures PagesOf(a, 0) == {}
  {
  }

  lemma FaultBare(s: seq<VmaTable.Vma>, m: Mem, data: map<nat, Page>, m': Mem, data': map<nat, Page>, p4: nat, k: nat,
      addr: nat, open: bool)
    requires TableOk(s) && GuardsBare(s, Shown(m.tables, p4)) && IsP4(m, p4) && LowDistinct(m, p4)
    requires k < |s| && s[k].Contains(addr) && s[k].typ != GuardPage && addr < LOW_BYTES
    requires Zeroed(m, data, m', data', p4, addr - addr % PAGE_SIZE, 1, open)
    ensures GuardsBare(s, Shown(m'.tables, p4))
  {
    hide Shown, GuardsBare, TableOk, Zeroed, LowDistinct;
    var page := addr - addr % PAGE_SIZE;
    WholePage(addr);
    FaultPage(addr);
    ShownZeroed(m, data, m', data', p4, page, 1, open);
    DemandBare(s, Shown(m.tables, p4), k, addr);
  }

  lemma OneMapped(m: Mem, p4: nat, addr: nat, f: Flags)
    requires AllMapped(m, p4, addr - addr % PAGE_SIZE, 1, f)
    ensures MappedWith(m, p4, PathOf(addr), f)
    ensures var e := Way(m, p4, PathOf(addr)).3; e.p && e.w == f.w && e.u == f.u && e.cow == f.cow && e.rest == f.rest
  {
    hide PathOf, Way;
    PageStart(addr);
    assert PagePath(addr - addr % PAGE_SIZE, 0) == PathOf(addr);
  }

  lemma FaultPage(addr: nat)
    requires addr < LOW_BYTES
    ensures addr - addr % PAGE_SIZE + PAGE_SIZE <= LOW_BYTES
    ensures PagesOf(addr - addr % PAGE_SIZE, PAGE_SIZE * 1) == {addr / PAGE_SIZE}
  {
    var a := addr - addr % PAGE_SIZE;
    assert a / PAGE_SIZE == addr / PAGE_SIZE && (a + PAGE_SIZE) / PAGE_SIZE == addr / PAGE_SIZE + 1;
    forall p: nat
      ensures p in PagesOf(a, PAGE_SIZE) <==> p == addr / PAGE_SIZE
    {
      assert p in PagesOf(a, PAGE_SIZE) <==> IsPageOf(p, a, PAGE_SIZE);
    }
  }

  lemma AreasApart(s: seq<VmaTable.Vma>, v: VmaTable.Vma, w: VmaTable.Vma)
    requires TableOk(s) && v in s && w in s && v != w
    ensures PagesOf(v.base, v.size) !! PagesOf(w.base, w.size)
  {
    hide PagesOf;
    var j :| 0 <= j < |s| && s[j] == v;
    var k :| 0 <= k < |s| && s[k] == w;
    assert Proper(s[j]) && Proper(s[k]);
    PagesApart(v.base, v.size, w.base, w.size);
  }

  lemma DemandBare(s: seq<VmaTable.Vma>, mapped: set<nat>, k: nat, addr: nat)
    requires TableOk(s) && GuardsBare(s, mapped) && k < |s| && s[k].Contains(addr) && s[k].typ != GuardPage
    ensures GuardsBare(s, mapped + {addr / PAGE_SIZE})
  {
    PageWithin(s[k], addr);
    forall v <- s | v.typ == GuardPage
      ensures PagesOf(v.base, v.size) !! mapped + {addr / PAGE_SIZE}
    {
      AreasApart(s, v, s[k]);
    }
  }

  /**
   A guard page with the stack right above it, together 8 MB that end at most 256 pages below the top. The stack is
   filled on demand, for user code to write and not to execute.
   */
  ghost predicate LaidOut(t: seq<VmaTable.Vma>) {
    && |t| == 2 && t[0].typ == GuardPage && t[0].size == PAGE_SIZE && t[0].perm.guard && t[0].base % PAGE_SIZE == 0
    && t[1].typ == Stack && t[1].base == t[0].base + PAGE_SIZE && t[1].size == USER_STACK_SIZE - PAGE_SIZE
    && USER_STACK_TOP - 256 * PAGE_SIZE < t[1].base + t[1].size <= USER_STACK_TOP
    && t[1].perm.w && !t[1].perm.x && t[1].perm.user && t[1].perm.demand && !t[1].perm.guard
  }

  lemma InitialTable(guard: VmaTable.Vma, stack: VmaTable.Vma, shown: set<nat>, start: nat)
    requires guard.base % PAGE_SIZE == 0 && guard.perm.user && guard.typ == GuardPage && guard.size == PAGE_SIZE
    requires USER_STACK_TOP - 256 * PAGE_SIZE < guard.base + USER_STACK_SIZE <= USER_STACK_TOP && guard.perm.guard
    requires stack.base == guard.base + PAGE_SIZE && stack.size == USER_STACK_SIZE - PAGE_SIZE && stack.typ == Stack
    requires stack.perm == Perm(true, false, true, true, false, false)
    requires start % PAGE_SIZE == 0
    ensures Inserted(Inserted([], guard), stack) == [guard, stack] && TableOk([guard, stack])
    ensures EndsBelow([guard, stack]) && LaidOut([guard, stack])
    ensures HeapOk([guard, stack], start, start)
    ensures GuardsBare([guard, stack], shown) <==> guard.base / PAGE_SIZE !in shown
  {
    ProperPair(guard, stack);
    OnePage(guard.base);
    hide Proper, PagesOf;
    assert forall v <- [guard, stack] | v.typ == GuardPage :: v == guard;
    assert guard in [guard, stack];
  }

  lemma ProperPair(guard: VmaTable.Vma, stack: VmaTable.Vma)
    requires guard.base % PAGE_SIZE == 0 && guard.perm.user && guard.typ == GuardPage && guard.size == PAGE_SIZE
    requires guard.base + USER_STACK_SIZE <= USER_STACK_TOP
    requires stack.base == guard.base + PAGE_SIZE && stack.size == USER_STACK_SIZE - PAGE_SIZE && stack.typ == Stack
    requires stack.perm.user
    ensures Proper(guard) && Proper(stack)
    ensures guard.End() == guard.base + PAGE_SIZE && stack.End() == stack.base + stack.size
  {
  }

  lemma OnePage(a: nat)
    requires a % PAGE_SIZE == 0
    ensures PagesOf(a, PAGE_SIZE) == {a / PAGE_SIZE}
  {
    assert (a + PAGE_SIZE) / PAGE_SIZE == a / PAGE_SIZE + 1;
    forall p: nat
      ensures p in PagesOf(a, PAGE_SIZE) <==> p == a / PAGE_SIZE
    {
      assert p in PagesOf(a, PAGE_SIZE) <==> IsPageOf(p, a, PAGE_SIZE);
    }
  }

  // ----- what is shared -----

  /**
   Every page of an area that is mapped at once is seen, also when the area carries the guard flag: only its
   type is looked at.
   */
  lemma EagerIsShown(m: Mem, data: map<nat, Page>, m': Mem, data': map<nat, Page>, p4: nat, base: nat, size: nat,
      open: bool)
    requires IsP4(m, p4) && LowDistinct(m, p4)
    requires base % PAGE_SIZE == 0 && size % PAGE_SIZE == 0 && base + size <= LOW_BYTES
    requires Zeroed(m, data, m', data', p4, base, size / PAGE_SIZE, open)
    ensures PagesOf(base, size) <= Shown(m'.tables, p4)
  {
    assert PAGE_SIZE * (size / PAGE_SIZE) == size;
    ShownZeroed(m, data, m', data', p4, base, size / PAGE_SIZE, open);
  }

  /** Only 48 bits of an address count: an area that is mapped at once 2^48 above a page is seen at that page. */
  lemma HighAreaIsSeenBelow(m: Mem, data: map<nat, Page>, m': Mem, data': map<nat, Page>, p4: nat, v: nat, n: nat,
      open: bool)
    requires IsP4(m, p4) && v % PAGE_SIZE == 0 && v < LOW_BYTES && n > 0
    requires Zeroed(m, data, m', data', p4, 0x1_0000_0000_0000 + v, n, open)
    ensures v / PAGE_SIZE in Shown(m'.tables, p4)
  {
    hide UserAt, OpenAt, Sees, PathOf;
    var base := 0x1_0000_0000_0000 + v;
    assert PAGE_SIZE * (v / PAGE_SIZE) == v;
    PathAbove(v, 1, base);
    PathOfPage(base, 0);
    SeesSelf(m.tables, p4, PagePath(base, 0)[0]);
    assert PagePath(0, v / PAGE_SIZE) == PathOf(v) == PagePath(base, 0);
    assert ShowsPage(m.tables, p4, p4, PagePath(0, v / PAGE_SIZE), base, 0);
    assert InRange(m.tables, p4, p4, PagePath(0, v / PAGE_SIZE), base, n);
  }

  /** A page of a guard area. */
  ghost predicate IsGuarded(s: seq<VmaTable.Vma>, p: nat) {
    exists k :: 0 <= k < |s| && s[k].typ == GuardPage && p in PagesOf(s[k].base, s[k].size)
  }

  /**
   Guard pages are filled from outside: after mmap, sbrk or a fault of another process the guard areas of a process
   are still bare exactly if no page of theirs shows one of the range that was mapped.
   */
  lemma GuardFilledByOthers(s: seq<VmaTable.Vma>, m: Mem, data: map<nat, Page>, m': Mem, data': map<nat, Page>, p4: nat,
      base: nat, n: nat, open: bool, x: nat)
    requires Zeroed(m, data, m', data', p4, base, n, open) && IsP4(m, x) && GuardsBare(s, Shown(m.tables, x))
    ensures GuardsBare(s, Shown(m'.tables, x))
            <==> !exists p: nat :: p < LOW_PAGES && IsGuarded(s, p) && Shows(m, p4, base, n, x, p)
  {
    ShownByOthers(m, data, m', data', p4, base, n, open, x);
    hide UserAt, PagePath, InRange, Zeroed, Shows;
    if p: nat :| p < LOW_PAGES && IsGuarded(s, p) && Shows(m, p4, base, n, x, p) {
      var k :| 0 <= k < |s| && s[k].typ == GuardPage && p in PagesOf(s[k].base, s[k].size);
      assert s[k] in s && p in Shown(m'.tables, x);
    } else {
      forall v <- s, p | v.typ == GuardPage && p in PagesOf(v.base, v.size)
        ensures p !in Shown(m'.tables, x)
      {
        assert p in Shown(m'.tables, x) ==> p in Shown(m.tables, x) || IsGuarded(s, p);
      }
    }
  }

  /** Forks clone the slots from 256 on, and an address of 48 bits is in one of them exactly when bit 47 is set. */
  lemma ClonedByBit47(v: nat)
    requires v < 0x1_0000_0000_0000
    ensures PathOf(v)[0] >= UPPER <==> v >= LOW_BYTES
  {
    assert v / 0x80_0000_0000 < 512;
  }

  /**
   A page of the heap is not isolated by a fork: when the parent had the slot of the heap, whatever is mapped or
   unmapped there later by one of the two shows in the other one's address space.
   */
  lemma HeapIsShared(m: Mem, m': Mem, src: nat, dst: nat, tables: Tables, f: Option<nat>)
    requires VmOk(m.tables, m.nodes, m.free) && IsP4(m, src) && F.IsFork(m, m', src, dst) && Entry(m, src, 0).p
    requires f != Translate(m.tables, src, 4, PathOf(USER_HEAP_BASE))
    ensures OnlyPage(m'.tables, m'.nodes, tables, src, PathOf(USER_HEAP_BASE), f) ==>
              Translate(tables, dst, 4, PathOf(USER_HEAP_BASE)) != Translate(m'.tables, dst, 4, PathOf(USER_HEAP_BASE))
    ensures OnlyPage(m'.tables, m'.nodes, tables, dst, PathOf(USER_HEAP_BASE), f) ==>
              Translate(tables, src, 4, PathOf(USER_HEAP_BASE)) != Translate(m'.tables, src, 4, PathOf(USER_HEAP_BASE))
  {
    hide Translate, F.IsFork, VmOk;
    assert PathOf(USER_HEAP_BASE)[0] == 0;
    F.LaterChangesShow(m, m', src, dst, tables, PathOf(USER_HEAP_BASE), f);
  }

  /** Shrinking the heap to nothing leaves an area without a page in the table. */
  lemma EmptyHeapAreaStays()
    ensures var v := VmaTable.Vma(USER_HEAP_BASE, PAGE_SIZE, Perm(true, false, true, false, false, false), Heap);
            var w := VmaTable.Vma(USER_HEAP_BASE, 0, v.perm, Heap);
            && TableOk([v]) && HeapOk([v], USER_HEAP_BASE, USER_HEAP_BASE + PAGE_SIZE)
            && Resized([v], [w], USER_HEAP_BASE, 0) && !TableOk([w])
  {
    var v := VmaTable.Vma(USER_HEAP_BASE, PAGE_SIZE, Perm(true, false, true, false, false, false), Heap);
    var w := VmaTable.Vma(USER_HEAP_BASE, 0, v.perm, Heap);
    assert v in [v];
    assert [v][0].Contains(USER_HEAP_BASE) && [v][0 := w] == [w];
    assert !Proper([w][0]);
  }

  /** With an empty heap, giving back one byte empties whatever other area covers the start of the heap. */
  lemma OtherAreaEmptied()
    ensures var v := VmaTable.Vma(USER_HEAP_BASE, PAGE_SIZE, Perm(true, false, true, false, false, false), Anonymous);
            var w := VmaTable.Vma(USER_HEAP_BASE, 0, v.perm, Anonymous);
            && TableOk([v]) && HeapOk([v], USER_HEAP_BASE, USER_HEAP_BASE)
               && PageUp(USER_HEAP_BASE - 1) == USER_HEAP_BASE
            && Resized([v], [w], USER_HEAP_BASE, 0) && !TableOk([w])
  {
    var v := VmaTable.Vma(USER_HEAP_BASE, PAGE_SIZE, Perm(true, false, true, false, false, false), Anonymous);
    var w := VmaTable.Vma(USER_HEAP_BASE, 0, v.perm, Anonymous);
    assert [v][0].Contains(USER_HEAP_BASE) && [v][0 := w] == [w];
    assert !Proper([w][0]);
  }

  lemma HeapAligned(s: seq<VmaTable.Vma>, start: nat, end: nat)
    requires HeapOk(s, start, end)
    ensures start % PAGE_SIZE == 0 && end % PAGE_SIZE == 0 && start <= end
  {
  }

  lemma NextPage(from: nat, k: nat)
    requires from % PAGE_SIZE == 0
    ensures (from + PAGE_SIZE * k) / PAGE_SIZE == from / PAGE_SIZE + k
  {
  }

  lemma FirstPage(s: seq<VmaTable.Vma>, from: nat, n: nat)
    requires TableOk(s) && NoOverlap(s, from, n) && n >= PAGE_SIZE && from + n < WORD_LIMIT
    ensures NoOverlap(s, from, PAGE_SIZE)
  {
    OverlapPlain(s, from, n);
    OverlapPlain(s, from, PAGE_SIZE);
  }

  lemma UpIsWithin(end: nat, increment: int)
    requires end % PAGE_SIZE == 0
    ensures var x := if end + increment < 0 then 0 else end + increment;
            var to := PageUp(x);
            && x <= to < x + PAGE_SIZE && to % PAGE_SIZE == 0
            && (increment < 0 ==> to <= end) && (increment >= 0 ==> to >= end)
  {
    UpNear(if end + increment < 0 then 0 else end + increment);
    if increment < 0 && end + increment >= 0 { UpBelow(end + increment, end); }
  }

  lemma UpBelow(a: nat, end: nat)
    requires a <= end && end % PAGE_SIZE == 0
    ensures PageUp(a) <= end
  {
    assert end == end / PAGE_SIZE * PAGE_SIZE;
    assert (a + PAGE_SIZE - 1) / PAGE_SIZE <= (end + PAGE_SIZE - 1) / PAGE_SIZE == end / PAGE_SIZE;
  }

  lemma ShrunkHeap(s: seq<VmaTable.Vma>, s': seq<VmaTable.Vma>, start: nat, end: nat, to: nat, size: nat,
      mapped: set<nat>, less: set<nat>)
    requires TableOk(s) && HeapOk(s, start, end) && GuardsBare(s, mapped) && less <= mapped && to <= end
    requires to % PAGE_SIZE == 0
    requires Resized(s, s', start, size) && (to >= start ==> size == to - start)
    ensures (TableOk(s') && HeapOk(s', start, to) && GuardsBare(s', less)) <==>
            (if start < end then to > start else to == start && NoneContains(s, start))
  {
    if start < end {
      if to > start {
        HeapMoved(s, s', start, end, to);
        assert GuardsBare(s', mapped);
      } else {
        HeapThere(s, start, end);
        Spoiled(s, s', start, to, size);
      }
    } else if to < start || !NoneContains(s, start) {
      Spoiled(s, s', start, to, size);
    }
  }

  lemma OnlyAreaAt(s: seq<VmaTable.Vma>, k: nat, addr: nat)
    requires TableOk(s) && k < |s| && s[k].Contains(addr)
    ensures forall j | 0 <= j < |s| && s[j].Contains(addr) :: j == k
  {
    forall j | 0 <= j < |s| && s[j].Contains(addr)
      ensures j == k
    {
      OneContains(s, addr, j, k);
    }
  }
}
