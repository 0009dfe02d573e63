/**
 `map_elf_segment`: the pages that a program segment touches are mapped fresh, and hold the bytes of
 the file at their addresses and zeroes everywhere else.
 */
module Elf {
  import opened Sizes
  import opened Options
  import opened PageTables
  import opened Pmm
  import opened Vmm
  import opened CopyOnWrite
  import opened UserPages

  const SEGMENT_MAX: nat := 0x400_0000

  /** `Stopped` stands for the panic of a kernel out of frames. */
  datatype LoadResult = Loaded(ok: bool) | Stopped

  function PageDown(a: nat): nat { a - a % PAGE_SIZE }

  /** The end of the last page, in 64-bit arithmetic. */
  function EndOf(vaddr: nat, memsz: nat): nat {
    PageDown((vaddr + memsz + PAGE_SIZE - 1) % WORD_LIMIT)
  }

  /** The byte that belongs at address `a`. */
  function ImageByte(src: seq<Byte>, vaddr: nat, filesz: nat, a: nat): Byte
    requires filesz <= |src|
  {
    if vaddr <= a < vaddr + filesz then src[a - vaddr] else 0
  }

  function PageImage(src: seq<Byte>, vaddr: nat, filesz: nat, w: nat): Page
    requires filesz <= |src|
  {
    seq(PAGE_SIZE, (o: nat) => ImageByte(src, vaddr, filesz, w + o))
  }

  /** `copy_nonoverlapping` into a page. */
  function CopyInto(page: Page, at: nat, bytes: seq<Byte>): Page
    requires at + |bytes| <= PAGE_SIZE
  {
    page[..at] + bytes + page[at + |bytes|..]
  }

  /** What is read at address `a` through the top-level table `p4`. */
  ghost function ByteAt(tables: Tables, data: map<nat, Page>, p4: nat, a: nat): Option<Byte> {
    match Translate(tables, p4, 4, PathOf(a))
    case None => None
    case Some(f) => Some(PageOf(data, f)[a % PAGE_SIZE])
  }

  /** Pages less than 2^27 apart have different indices below the top level. */
  lemma PathsDiffer(base: nat, j: nat, k: nat)
    requires base % PAGE_SIZE == 0 && j < k < j + 0x800_0000
    ensures PagePath(base, j)[1..] != PagePath(base, k)[1..]
  {
    hide PathOf, Tail;
    var first := base / PAGE_SIZE;
    TailOfPage(base, j);
    TailOfPage(base, k);
    TailsDiffer(first + j, first + k);
  }

  /** The last three digits of a page number in base 512. */
  function Tail(a: nat): seq<nat> {
    [a / 512 / 512 % 512, a / 512 % 512, a % 512]
  }

  lemma TailOfPage(base: nat, k: nat)
    requires base % PAGE_SIZE == 0
    ensures |PagePath(base, k)| == 4 && PagePath(base, k)[1..] == Tail(base / PAGE_SIZE + k)
  {
    var v := base + PAGE_SIZE * k;
    assert v / PAGE_SIZE == base / PAGE_SIZE + k;
    Divisions(v);
  }

  lemma TailsDiffer(a: nat, b: nat)
    requires a < b < a + 0x800_0000
    ensures Tail(a) != Tail(b)
  {
    if Tail(a) == Tail(b) { DigitsFix(a, b); }
  }

  /** Three equal base-512 digits make two numbers equal modulo 2^27. */
  lemma DigitsFix(a: nat, b: nat)
    requires Tail(a) == Tail(b)
    ensures a % 0x800_0000 == b % 0x800_0000
  {
    assert Tail(a)[0] == Tail(b)[0] && Tail(a)[1] == Tail(b)[1] && Tail(a)[2] == Tail(b)[2];
    Digits(a);
    Digits(b);
  }

  lemma Digits(a: nat)
    ensures a % 0x800_0000 == (a / 512 / 512 % 512 * 512 + a / 512 % 512) * 512 + a % 512
  {
    var b := a / 512;
    var c := b / 512;
    var d := c / 512;
    assert a == b * 512 + a % 512 && b == c * 512 + b % 512 && c == d * 512 + c % 512;
    var low := (c % 512 * 512 + b % 512) * 512 + a % 512;
    assert a == d * 0x800_0000 + low && low < 0x800_0000;
  }

  /** The copy that the loop makes for one page is that page's part of the image. */
  lemma PageFilled(src: seq<Byte>, vaddr: nat, filesz: nat, w: nat)
    requires filesz <= |src| && w % PAGE_SIZE == 0 && w + PAGE_SIZE > vaddr
    ensures var off := if w >= vaddr then w - vaddr else 0;
            var at := if w < vaddr then vaddr - w else 0;
            if off < filesz then
              var n := Min(PAGE_SIZE - at, filesz - off);
              && at + n <= PAGE_SIZE && off + n <= |src|
              && CopyInto(ZeroPage(), at, src[off..off + n]) == PageImage(src, vaddr, filesz, w)
            else ZeroPage() == PageImage(src, vaddr, filesz, w)
  {
    var off := if w >= vaddr then w - vaddr else 0;
    var at := if w < vaddr then vaddr - w else 0;
    var image := PageImage(src, vaddr, filesz, w);
    if off < filesz {
      var n := Min(PAGE_SIZE - at, filesz - off);
      var page := CopyInto(ZeroPage(), at, src[off..off + n]);
      forall o | 0 <= o < PAGE_SIZE
        ensures page[o] == image[o]
      {
        assert image[o] == ImageByte(src, vaddr, filesz, w + o);
      }
    } else {
      forall o | 0 <= o < PAGE_SIZE
        ensures image[o] == 0
      {
        assert image[o] == ImageByte(src, vaddr, filesz, w + o);
      }
    }
  }

  /** Page `k` of the range is mapped to a used frame that holds its part of the image. */
  ghost predicate PageLoaded(m: Mem, data: map<nat, Page>, p4: nat, src: seq<Byte>, vaddr: nat, filesz: nat, base: nat,
      k: nat)
    requires filesz <= |src|
  {
    match Translate(m.tables, p4, 4, PagePath(base, k))
    case None => false
    case Some(f) => f !in m.free && PageOf(data, f) == PageImage(src, vaddr, filesz, base + PAGE_SIZE * k)
  }

  /**
   No page but the first `n` of the range, and those that show the same, translates differently, in any address
   space.
   */
  ghost predicate Outside(m0: Mem, m: Mem, p4: nat, base: nat, n: nat) {
    && (forall x | IsP4(m0, x) :: IsP4(m, x)) && SeesKept(m0, m, p4)
    && forall x, q | IsP4(m0, x) && IsPath(q, 4) && !InRange(m0.tables, p4, x, q, base, n) ::
         Translate(m.tables, x, 4, q) == Translate(m0.tables, x, 4, q)
  }

  /** One page more: the earlier ones stay loaded. */
  lemma LoadedNext(m0: Mem, data0: map<nat, Page>, m: Mem, data: map<nat, Page>, m': Mem, data': map<nat, Page>,
      p4: nat, src: seq<Byte>, vaddr: nat, filesz: nat, base: nat, n: nat, g: FrameNumber)
    requires filesz <= |src| && IsP4(m, p4) && base % PAGE_SIZE == 0 && n < 0x10_0000
    requires forall k: nat | k < n :: PageLoaded(m, data, p4, src, vaddr, filesz, base, k)
    requires Outside(m0, m, p4, base, n) && OldDataKept(m0, data0, m, data)
    requires g in m.free && data' == data[g := PageImage(src, vaddr, filesz, base + PAGE_SIZE * n)]
    requires m'.free <= m.free - {g}
    requires (forall x | IsP4(m, x) :: IsP4(m', x)) && SeesKept(m, m', p4)
    requires IsPath(PagePath(base, n), 4) && OnlyPage(m.tables, m.nodes, m'.tables, p4, PagePath(base, n), Some(g))
    ensures forall k: nat | k < n + 1 :: PageLoaded(m', data', p4, src, vaddr, filesz, base, k)
    ensures Outside(m0, m', p4, base, n + 1) && OldDataKept(m0, data0, m', data')
  {
    hide Translate, PageImage, PagePath, Sees;
    SeesItself(m.tables, p4, PagePath(base, n)[0]);
    forall k: nat | k < n + 1
      ensures PageLoaded(m', data', p4, src, vaddr, filesz, base, k)
    {
      if k < n {
        assert PageLoaded(m, data, p4, src, vaddr, filesz, base, k);
        PathsDiffer(base, k, n);
        PathOfPage(base, k);
      }
    }
    hide PageLoaded, OldDataKept;
    forall x, q | IsP4(m0, x) && IsPath(q, 4) && !InRange(m0.tables, p4, x, q, base, n + 1)
      ensures Translate(m'.tables, x, 4, q) == Translate(m0.tables, x, 4, q)
    {
      assert !ShowsPage(m0.tables, p4, x, q, base, n);
      assert forall k: nat | k < n :: !ShowsPage(m0.tables, p4, x, q, base, k);
      assert Sees(m.tables, x, q[0], p4, PagePath(base, n)[0]) <==> Sees(m0.tables, x, q[0], p4, PagePath(base, n)[0]);
    }
    forall x, j, i | IsP4(m0, x) && 0 <= j < ENTRIES && 0 <= i < ENTRIES
      ensures Sees(m'.tables, x, j, p4, i) <==> Sees(m0.tables, x, j, p4, i)
    {
      assert IsP4(m, x);
    }
  }

  /** One iteration of the loop: a fresh frame with the page's bytes, mapped at `va`. */
  method LoadPage(vm: AddressSpaces, p4: nat, src: seq<Byte>, vaddr: nat, filesz: nat, flags: Flags, va: nat)
    returns (r: LoadResult, ghost g: FrameNumber)
    requires vm.Valid() && (p4 == 0 || IsP4(vm.Now(), p4)) && filesz <= |src| && va % PAGE_SIZE == 0
    requires va + PAGE_SIZE > vaddr
    modifies vm, vm.pmm`freeFrames, vm.pmm`hint, vm.pmm.bm, vm.pmm.refs
    ensures r == Stopped ==> vm.pmm.Free() == {}
    ensures r.Loaded? ==> vm.Valid() && (r.ok <==> p4 != 0)
    ensures r == Loaded(true) ==>
              && g in old(vm.pmm.Free()) && vm.data == old(vm.data)[g := PageImage(src, vaddr, filesz, va)]
              && vm.pmm.Free() <= old(vm.pmm.Free()) - {g}
              && (forall x | IsP4(old(vm.Now()), x) :: IsP4(vm.Now(), x)) && SeesKept(old(vm.Now()), vm.Now(), p4)
              && OnlyPage(old(vm.tables), old(vm.nodes), vm.tables, p4, PathOf(va), Some(g))
              && MappedWith(vm.Now(), p4, PathOf(va), flags) && WaysKept(old(vm.Now()), vm.Now(), p4, PathOf(va))
  {
    hide WaysKept, Way, SeesKept, CopyInto, SmallWay, LinkFrom, UserOk, Reaches, LastOfSlot, Make, IsPath;
    hide FrameManager.Valid, FrameManager.Free, VmOk, OnlyPage, OnlyUserPage, EntryStored, PathOf, PageImage, ZeroPage;
    vm.pmm.FromValid();
    vm.pmm.FreeBits();
    ghost var m := vm.Now();
    FreeFrames(m);
    g := 0;
    var a := vm.pmm.AllocNoLock();
    if a == OutOfMemory { return Stopped, g; }
    ghost var m1 := vm.Now();
    StillOk(m, m1);
    g := a.frame;
    var page := ZeroPage();
    var off := if va >= vaddr then va - vaddr else 0;
    PageFilled(src, vaddr, filesz, va);
    if off < filesz {
      var at := if va < vaddr then vaddr - va else 0;
      var n := Min(PAGE_SIZE - at, filesz - off);
      page := CopyInto(page, at, src[off..off + n]);
    }
    vm.data := vm.data[a.frame := page];
    ghost var mid, pt;
    var mapped;
    mapped, mid, pt := vm.Vmap(p4, va, a.frame * PAGE_SIZE, flags);
    if mapped == Exhausted { return Stopped, g; }
    if mapped == Mapped {
      StoredKeeps(m1, vm.Now(), p4, PathOf(va), Make(a.frame, flags), mid, pt);
      SameWaysKept(m, m1, vm.Now(), p4, PathOf(va));
    }
    return Loaded(mapped == Mapped), g;
  }

  /** The pages that a segment touches when its end does not pass the top of the address space. */
  function PageCount(vaddr: nat, memsz: nat): nat {
    (vaddr % PAGE_SIZE + memsz + PAGE_SIZE - 1) / PAGE_SIZE
  }

  lemma RangeOf(vaddr: nat, memsz: nat)
    requires vaddr < WORD_LIMIT && 0 < memsz <= SEGMENT_MAX
    ensures vaddr + memsz + PAGE_SIZE - 1 < WORD_LIMIT ==>
              EndOf(vaddr, memsz) == PageDown(vaddr) + PAGE_SIZE * PageCount(vaddr, memsz)
    ensures vaddr + memsz + PAGE_SIZE - 1 >= WORD_LIMIT ==> EndOf(vaddr, memsz) <= PageDown(vaddr)
    ensures 1 <= PageCount(vaddr, memsz) < 0x10_0000 && PageDown(vaddr) % PAGE_SIZE == 0
  {
    var q := vaddr / 4096;
    assert vaddr == q * 4096 + vaddr % 4096;
    var t := vaddr % 4096 + memsz + 4095;
    assert vaddr + memsz + 4095 == q * 4096 + t;
    assert (q * 4096 + t) % 4096 == t % 4096;
    if vaddr + memsz + PAGE_SIZE - 1 < WORD_LIMIT {
      assert EndOf(vaddr, memsz) == q * 4096 + (t - t % 4096);
    }
  }

  /**
   Maps one segment. Below the top of the 64-bit address space every address of the touched pages
   reads its byte of the image; a segment that passes the top is reported loaded with nothing mapped.
   */
  method MapElfSegment(vm: AddressSpaces, p4: nat, src: seq<Byte>, vaddr: nat, filesz: nat, memsz0: nat, flags: Flags)
      returns (r: LoadResult)
    requires vm.Valid() && (p4 == 0 || IsP4(vm.Now(), p4)) && filesz <= |src| && vaddr < WORD_LIMIT
    modifies vm, vm.pmm`freeFrames, vm.pmm`hint, vm.pmm.bm, vm.pmm.refs
    ensures r == Stopped ==> vm.pmm.bm.Length == BM_WORDS && vm.pmm.Free() == {}
    ensures r.Loaded? ==> vm.Valid()
    ensures var memsz := Min(memsz0, 64 * 1024 * 1024);
            var n := PageCount(vaddr, memsz);
            if memsz == 0 || vaddr + memsz + PAGE_SIZE - 1 >= WORD_LIMIT
            then r == Loaded(true) && vm.Now() == old(vm.Now()) && vm.data == old(vm.data)
            else r.Loaded? ==>
                   && (r.ok <==> p4 != 0)
                   && (r.ok ==>
                         && (forall k: nat | k < n ::
                               PageLoaded(vm.Now(), vm.data, p4, src, vaddr, filesz, PageDown(vaddr), k))
                         && AllMapped(vm.Now(), p4, PageDown(vaddr), n, flags)
                         && Outside(old(vm.Now()), vm.Now(), p4, PageDown(vaddr), n)
                         && OldDataKept(old(vm.Now()), old(vm.data), vm.Now(), vm.data))
  {
    hide FrameManager.Valid, FrameManager.Free, VmOk, OnlyPage, PathOf, PageImage, PageLoaded, Outside;
    hide OldDataKept, PageCount, EndOf, PageDown, PagePath, MappedWith, WaysKept;
    vm.pmm.FromValid();
    if memsz0 == 0 { return Loaded(true); }
    var memsz := Min(memsz0, SEGMENT_MAX);
    var base := PageDown(vaddr);
    var end := EndOf(vaddr, memsz);
    RangeOf(vaddr, memsz);
    ghost var m0, data0 := vm.Now(), vm.data;
    NothingYet(m0, data0, p4, base);
    var va := base;
    ghost var k := 0;
    while va < end
      invariant va == base + PAGE_SIZE * k && vm.Valid() && (k > 0 ==> p4 != 0) && (p4 == 0 || IsP4(vm.Now(), p4))
      invariant va < end ==> vaddr + memsz + PAGE_SIZE - 1 < WORD_LIMIT && k < PageCount(vaddr, memsz)
      invariant vaddr + memsz + PAGE_SIZE - 1 < WORD_LIMIT ==> k <= PageCount(vaddr, memsz)
      invariant vaddr + memsz + PAGE_SIZE - 1 >= WORD_LIMIT ==> k == 0
      invariant k == 0 ==> vm.Now() == m0 && vm.data == data0
      invariant forall j: nat | j < k :: PageLoaded(vm.Now(), vm.data, p4, src, vaddr, filesz, base, j)
      invariant AllMapped(vm.Now(), p4, base, k, flags)
      invariant Outside(m0, vm.Now(), p4, base, k) && OldDataKept(m0, data0, vm.Now(), vm.data)
      decreases end - va
    {
      ghost var m, data := vm.Now(), vm.data;
      AfterStart(vaddr, base, k, va);
      ghost var g;
      r, g := LoadPage(vm, p4, src, vaddr, filesz, flags, va);
      if r != Loaded(true) { return; }
      LoadedNext(m0, data0, m, data, vm.Now(), vm.data, p4, src, vaddr, filesz, base, k, g);
      PathOfPage(base, k);
      MappedNext(m, vm.Now(), p4, base, k, flags);
      va := va + PAGE_SIZE;
      k := k + 1;
    }
    return Loaded(true);
  }

  lemma AfterStart(vaddr: nat, base: nat, k: nat, va: nat)
    requires base == PageDown(vaddr) && va == base + PAGE_SIZE * k
    ensures va % PAGE_SIZE == 0 && va + PAGE_SIZE > vaddr && PagePath(base, k) == PathOf(va)
  {
  }

  lemma NothingYet(m: Mem, data: map<nat, Page>, p4: nat, base: nat)
    ensures Outside(m, m, p4, base, 0) && OldDataKept(m, data, m, data)
  {
  }

  /** Loaded pages, byte by byte: the file's bytes, then zeroes. */
  lemma SegmentReads(m: Mem, data: map<nat, Page>, p4: nat, src: seq<Byte>, vaddr: nat, filesz: nat, memsz: nat, i: nat)
    requires filesz <= memsz && filesz <= |src| && i < memsz
    requires forall k: nat | k < PageCount(vaddr, memsz) ::
             PageLoaded(m, data, p4, src, vaddr, filesz, PageDown(vaddr), k)
    ensures ByteAt(m.tables, data, p4, vaddr + i) == Some(if i < filesz then src[i] else 0)
  {
    hide Translate, PathOf, PagePath;
    var a, base := vaddr + i, PageDown(vaddr);
    var k := (a - base) / PAGE_SIZE;
    PageOfByte(vaddr, memsz, i);
    assert PageLoaded(m, data, p4, src, vaddr, filesz, base, k);
    assert PageImage(src, vaddr, filesz, base + PAGE_SIZE * k)[a % PAGE_SIZE] == ImageByte(src, vaddr, filesz, a);
  }

  lemma PageOfByte(vaddr: nat, memsz: nat, i: nat)
    requires i < memsz
    ensures var a, base := vaddr + i, PageDown(vaddr);
            var k := (a - base) / PAGE_SIZE;
            k < PageCount(vaddr, memsz) && base + PAGE_SIZE * k + a % PAGE_SIZE == a && PathOf(a) == PagePath(base, k)
  {
    var a := vaddr + i;
    var base := PageDown(vaddr);
    var k := (a - base) / 4096;
    assert base + 4096 * k == a - a % 4096;
    PageStart(a);
  }
}
