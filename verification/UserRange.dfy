/** `find_free_user_range`: the lowest run of pages that user code does not have mapped. */
module UserRange {
  import opened Sizes
  import opened Options
  import opened PageTables
  import opened Pmm
  import opened Vmm
  import opened VmaTable

  /** None of the pages of `n` bytes from the page-aligned `a` on is in use. */
  ghost predicate RunFree(used: set<nat>, a: nat, n: nat) {
    a % PAGE_SIZE == 0 && a + n <= USER_STACK_TOP && PagesOf(a, n) !! used
  }

  /** The pages below the top that user code may use. */
  ghost function Used(tables: Tables, p4: nat): set<nat> {
    set p: nat | p < USER_STACK_TOP / PAGE_SIZE && IsUsed(tables, p4, p)
  }

  predicate IsUsed(tables: Tables, p4: nat, p: nat) {
    p4 != 0 && UserOk(tables, p4, 4, PathOf(PAGE_SIZE * p))
  }

  /** The page translates, and user code may use it. */
  method IsMapped(vm: AddressSpaces, p4: nat, p: nat) returns (r: bool)
    requires vm.Valid() && (p4 == 0 || IsP4(vm.Now(), p4))
    ensures r <==> IsUsed(vm.tables, p4, p)
  {
    hide UserOk, PathOf, VmOk, FrameManager.Valid;
    var f := vm.VirtToPhys(p4, PAGE_SIZE * p);
    r := false;
    if f.Some? { r := vm.ValidUser(p4, PAGE_SIZE * p); }
    UsedTranslates(vm, p4, p);
  }

  lemma UsedTranslates(vm: AddressSpaces, p4: nat, p: nat)
    requires vm.Valid() && (p4 == 0 || IsP4(vm.Now(), p4))
    ensures IsUsed(vm.tables, p4, p) ==> Phys(vm.tables, p4, PAGE_SIZE * p).Some?
  {
    hide PathOf;
    if IsUsed(vm.tables, p4, p) { UserOkTranslates(vm.tables, vm.nodes, p4, 4, PathOf(PAGE_SIZE * p)); }
  }

  /** The sums stay below 2^64 for the sizes and the start that its caller passes. */
  method FindFreeUserRange(vm: AddressSpaces, p4: nat, size0: nat, start: nat) returns (r: Option<nat>)
    requires vm.Valid() && (p4 == 0 || IsP4(vm.Now(), p4)) && PageUp(start) + PageUp(size0) < WORD_LIMIT
    ensures r.Some? ==> r.value >= start && RunFree(Used(vm.tables, p4), r.value, PageUp(size0))
    ensures r.Some? ==> forall a | start <= a < r.value :: !RunFree(Used(vm.tables, p4), a, PageUp(size0))
    ensures r == None ==> forall a | start <= a :: !RunFree(Used(vm.tables, p4), a, PageUp(size0))
  {
    hide PageUp, RunFree, IsUsed, VmOk, FrameManager.Valid;
    ghost var used := Used(vm.tables, p4);
    var size := PageUp(size0);
    var addr := PageUp(start);
    NoneBetween(used, size0, 0);
    NoneBetween(used, start, size);
    while addr + size <= USER_STACK_TOP
      invariant addr >= start && addr % PAGE_SIZE == 0
      invariant forall a | start <= a < addr :: !RunFree(used, a, size)
      decreases USER_STACK_TOP + PAGE_SIZE - addr
    {
      var pg := 0;
      var taken := false;
      while pg < size / PAGE_SIZE && !taken
        invariant pg <= size / PAGE_SIZE && forall p | addr / PAGE_SIZE <= p < addr / PAGE_SIZE + pg :: p !in used
        invariant taken ==> pg < size / PAGE_SIZE && addr / PAGE_SIZE + pg in used
        decreases size / PAGE_SIZE - pg, !taken
      {
        BelowTop(addr, size, pg);
        taken := IsMapped(vm, p4, addr / PAGE_SIZE + pg);
        if !taken { pg := pg + 1; }
      }
      if !taken {
        AllFree(used, addr, size);
        return Some(addr);
      }
      SkipUsed(used, addr, size, pg);
      NextAligned(addr, pg);
      addr := addr + PAGE_SIZE * pg + PAGE_SIZE;
    }
    TooHigh(used, addr, size);
    return None;
  }

  lemma BelowTop(addr: nat, size: nat, pg: nat)
    requires addr % PAGE_SIZE == 0 && addr + size <= USER_STACK_TOP && pg < size / PAGE_SIZE
    ensures addr / PAGE_SIZE + pg < USER_STACK_TOP / PAGE_SIZE
  {
    assert (addr + size) / PAGE_SIZE <= USER_STACK_TOP / PAGE_SIZE;
    assert (addr + size) / PAGE_SIZE >= addr / PAGE_SIZE + size / PAGE_SIZE;
  }

  lemma TooHigh(used: set<nat>, addr: nat, n: nat)
    requires addr + n > USER_STACK_TOP
    ensures forall a | addr <= a :: !RunFree(used, a, n)
  {
  }

  lemma NoneBetween(used: set<nat>, start: nat, n: nat)
    ensures start <= PageUp(start) && PageUp(start) % PAGE_SIZE == 0
    ensures forall a | start <= a < PageUp(start) :: !RunFree(used, a, n)
  {
    forall a | start <= a < PageUp(start)
      ensures !RunFree(used, a, n)
    {
      if a % PAGE_SIZE == 0 { BetweenPages(a, start); }
    }
  }

  lemma NextAligned(addr: nat, pg: nat)
    requires addr % PAGE_SIZE == 0
    ensures (addr + PAGE_SIZE * pg + PAGE_SIZE) % PAGE_SIZE == 0
  {
  }

  lemma AllFree(used: set<nat>, addr: nat, n: nat)
    requires addr % PAGE_SIZE == 0 && n % PAGE_SIZE == 0 && addr + n <= USER_STACK_TOP
    requires forall p | addr / PAGE_SIZE <= p < addr / PAGE_SIZE + n / PAGE_SIZE :: p !in used
    ensures RunFree(used, addr, n)
  {
    assert (addr + n) / PAGE_SIZE == addr / PAGE_SIZE + n / PAGE_SIZE;
    forall p | p in PagesOf(addr, n) ensures p !in used { assert IsPageOf(p, addr, n); }
  }

  /** A used page is in every run of that length that starts at or before it and not before `addr`. */
  lemma SkipUsed(used: set<nat>, addr: nat, n: nat, pg: nat)
    requires addr % PAGE_SIZE == 0 && n % PAGE_SIZE == 0 && pg < n / PAGE_SIZE && addr / PAGE_SIZE + pg in used
    ensures forall a | addr <= a < addr + PAGE_SIZE * pg + PAGE_SIZE :: !RunFree(used, a, n)
  {
    forall a | addr <= a < addr + PAGE_SIZE * pg + PAGE_SIZE
      ensures !RunFree(used, a, n)
    {
      if a % PAGE_SIZE == 0 {
        var p := addr / PAGE_SIZE + pg;
        assert a / PAGE_SIZE <= p < a / PAGE_SIZE + n / PAGE_SIZE;
        assert (a + n) / PAGE_SIZE == a / PAGE_SIZE + n / PAGE_SIZE;
        assert IsPageOf(p, a, n) && p in PagesOf(a, n);
      }
    }
  }
}
