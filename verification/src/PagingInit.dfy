/**
 `paging_init`: the kernel's own address space.
 */
module PagingInit {
  import opened PageEntries
  import opened PageTables
  import opened TreeEdits
  import opened PageFrames
  import opened Paging
  import opened AddressSpaces

  /** An entry of the memory map. */
  datatype Region = Region(base: nat, pages: nat, usable: bool)

  /** Pages from `address` on were mapped to frames from `frame` on. */
  ghost predicate Extended(sp: Space, sp': Space, address: nat, frame: nat, pages: nat) {
    && sp'.writable == sp.writable
    && (forall i: nat :: i < pages ==> Nth(address, i) in sp'.frames && sp'.frames[Nth(address, i)] == (frame + i) % FRAMES)
    && (forall path :: !InRange(path, address, pages) ==>
          (path in sp'.frames <==> path in sp.frames) && (path in sp.frames ==> sp'.frames[path] == sp.frames[path]))
  }

  lemma ExtendedNone(sp: Space, address: nat, frame: nat)
    ensures Extended(sp, sp, address, frame, 0)
  {
  }

  lemma ExtendedMore(sp: Space, sp': Space, address: nat, frame: nat, pages: nat)
    requires Extended(sp, sp', address, frame, pages) && pages < VIRTUAL_PAGES
    ensures Extended(sp, Mapping(sp', address + 4096 * pages, frame + pages), address, frame, pages + 1)
  {
    hide Indexes;
    var sp2 := Mapping(sp', address + 4096 * pages, frame + pages);
    var last := Nth(address, pages);
    forall i: nat | i < pages
      ensures Nth(address, i) != last
    {
      DifferentPages(address, i, pages);
    }
    forall path
      ensures InRange(path, address, pages + 1) <==> InRange(path, address, pages) || path == last
    {
      OneMore(path, address, pages);
    }
  }

  /** The `i`th page of a range, after the pages before it. */
  method MapNthOne(m: Pager, address: nat, physical: nat, i: nat, ghost k0: set<Path>, ghost sp: Space, ghost budget: nat)
    returns (ok: bool, ghost sp': Space)
    requires Funded(m, sp, budget) && Built(k0, m.at.Keys, TablesFor(address, i), budget, true)
    modifies m`tables, m`at, m.alloc, m.alloc.frames.buffer
    ensures Funded(m, sp', budget) && Built(k0, m.at.Keys, TablesFor(address, i + 1), budget, ok)
    ensures sp' == if ok then Mapping(sp, address + 4096 * i, physical / MEMORY_PAGE_SIZE + i) else sp
  {
    hide Funded, Mapping, Built, TablesFor, Above, Indexes;
    Consecutive(physical, i);
    ghost var k1 := m.at.Keys;
    ok, sp' := MapOne(m, address + 4096 * i, physical + MEMORY_PAGE_SIZE * i, sp, budget);
    BuiltNext(k0, k1, m.at.Keys, address, i, budget, ok);
  }

  lemma TooMany(k: set<Path>, k': set<Path>, address: nat, i: nat, pages: nat, budget: nat)
    requires i <= pages && Built(k, k', TablesFor(address, i), budget, false)
    ensures Built(k, k', TablesFor(address, pages), budget, false)
  {
    hide Built, TablesFor;
    TablesGrow(address, i, pages);
    BuiltNever(k, k', TablesFor(address, i), TablesFor(address, pages), budget);
  }

  lemma NoTables(m: Pager, sp: Space, address: nat, budget: nat)
    requires Funded(m, sp, budget)
    ensures Built(m.at.Keys, m.at.Keys, TablesFor(address, 0), budget, true)
  {
    hide Built, Funded, TablesFor;
    TablesForMore(address, 0);
    FundedBuilt(m, sp, budget);
  }

  /** `paging_identity_map` */
  method IdentityMap(m: Pager, address: nat, pages: nat, ghost sp: Space, ghost budget: nat) returns (ok: bool, ghost sp': Space)
    requires Funded(m, sp, budget) && pages <= VIRTUAL_PAGES
    modifies m`tables, m`at, m.alloc, m.alloc.frames.buffer
    ensures Funded(m, sp', budget) && (ok ==> Extended(sp, sp', address, address / MEMORY_PAGE_SIZE, pages))
    ensures Built(old(m.at.Keys), m.at.Keys, TablesFor(address, pages), budget, ok)
  {
    hide Funded, Extended, Mapping, Built, TablesFor;
    ok, sp' := true, sp;
    NoTables(m, sp, address, budget);
    ExtendedNone(sp, address, address / MEMORY_PAGE_SIZE);
    var i := 0;
    while address + MEMORY_PAGE_SIZE * i < address + pages * MEMORY_PAGE_SIZE
      invariant i <= pages && ok && Funded(m, sp', budget) && Extended(sp, sp', address, address / MEMORY_PAGE_SIZE, i)
      invariant Built(old(m.at.Keys), m.at.Keys, TablesFor(address, i), budget, true)
      decreases pages - i
    {
      ExtendedMore(sp, sp', address, address / MEMORY_PAGE_SIZE, i);
      ok, sp' := MapNthOne(m, address, address, i, old(m.at.Keys), sp', budget);
      i := i + 1;
      if !ok {
        TooMany(old(m.at.Keys), m.at.Keys, address, i, pages, budget);
        return;
      }
    }
  }

  // ---------------------------------------------------------------- the kernel image

  /** Where the linker put the kernel, in physical memory. */
  datatype Image = Image(start: nat, end: nat, writableStart: nat, writableEnd: nat, virtualBase: nat)

  predicate ImageOk(k: Image) { k.start % 4096 == 0 && k.start <= k.end && k.end - k.start <= 4096 * VIRTUAL_PAGES }

  /** How many pages the image has. */
  function KernelPages(k: Image): nat
    requires ImageOk(k)
  {
    NearestPage(k.end - k.start)
  }

  /** The path to the `i`th page of the image. */
  function KernelPage(k: Image, i: nat): Path { Nth(k.virtualBase + k.start, i) }

  predicate IsKernelPage(k: Image, i: nat) { k.start + 4096 * i < k.end }

  predicate IsWritablePage(k: Image, i: nat) {
    IsKernelPage(k, i) && k.writableStart <= k.start + 4096 * i < k.writableEnd
  }

  /** The first `n` pages of the image are mapped, and those in its writable part can be written to. */
  ghost predicate KernelMapped(sp: Space, k: Image, n: nat) {
    && (forall i: nat :: i < n ==> KernelPage(k, i) in sp.frames && sp.frames[KernelPage(k, i)] == (k.start / 4096 + i) % FRAMES)
    && (forall path :: path in sp.frames ==> OfKernel(k, n, path))
    && (forall path :: path in sp.writable <==> OfWritableKernel(k, n, path))
  }

  ghost predicate OfKernel(k: Image, n: nat, path: Path) { exists i: nat :: i < n && path == KernelPage(k, i) }

  ghost predicate OfWritableKernel(k: Image, n: nat, path: Path) {
    exists i: nat :: i < n && IsWritablePage(k, i) && path == KernelPage(k, i)
  }

  lemma OneMoreKernel(k: Image, n: nat, path: Path)
    ensures OfKernel(k, n + 1, path) <==> OfKernel(k, n, path) || path == KernelPage(k, n)
    ensures OfWritableKernel(k, n + 1, path) <==> OfWritableKernel(k, n, path) || (IsWritablePage(k, n) && path == KernelPage(k, n))
  {
    hide KernelPage, IsWritablePage;
  }

  lemma KernelMore(sp: Space, k: Image, n: nat)
    requires KernelMapped(sp, k, n) && n < VIRTUAL_PAGES && IsKernelPage(k, n)
    ensures var sp' := Mapping(sp, k.virtualBase + k.start + 4096 * n, k.start / 4096 + n);
            KernelMapped(if IsWritablePage(k, n) then Making(sp', {KernelPage(k, n)}) else sp', k, n + 1)
  {
    hide Indexes, OfKernel, OfWritableKernel, IsWritablePage, IsKernelPage;
    forall i: nat | i < n
      ensures KernelPage(k, i) != KernelPage(k, n)
    {
      DifferentPages(k.virtualBase + k.start, i, n);
    }
    forall path
      ensures OfKernel(k, n + 1, path) <==> OfKernel(k, n, path) || path == KernelPage(k, n)
      ensures OfWritableKernel(k, n + 1, path) <==> OfWritableKernel(k, n, path) || (IsWritablePage(k, n) && path == KernelPage(k, n))
    {
      OneMoreKernel(k, n, path);
    }
    var last := KernelPage(k, n);
    var sp' := Mapping(sp, k.virtualBase + k.start + 4096 * n, k.start / 4096 + n);
    assert sp'.frames == sp.frames[last := (k.start / 4096 + n) % FRAMES];
    assert sp'.writable == sp.writable;
    if IsWritablePage(k, n) {
      assert KernelMapped(Making(sp', {last}), k, n + 1);
    } else {
      assert KernelMapped(sp', k, n + 1);
    }
  }

  lemma OnePage(address: nat)
    ensures Range(address, 1) == {Indexes(address)}
  {
    assert Nth(address, 0) == Indexes(address);
  }

  method MapKernel(m: Pager, k: Image, ghost sp: Space, ghost budget: nat) returns (ok: bool, ghost sp': Space)
    requires Funded(m, sp, budget) && sp == Space(map[], {}) && ImageOk(k)
    modifies m`tables, m`at, m.alloc, m.alloc.frames.buffer
    ensures Funded(m, sp', budget) && (ok ==> KernelMapped(sp', k, KernelPages(k)))
    ensures Built(old(m.at.Keys), m.at.Keys, TablesFor(k.virtualBase + k.start, KernelPages(k)), budget, ok)
  {
    hide Funded, KernelMapped, Mapping, Making, Range, Built, TablesFor, Indexes, IsWritablePage, NearestPage;
    ok, sp' := true, sp;
    var n := 0;
    NoPages(k);
    KernelPagesAre(k);
    NoTables(m, sp, k.virtualBase + k.start, budget);
    while k.start + 4096 * n < k.end
      invariant ok && n <= KernelPages(k) && Funded(m, sp', budget) && KernelMapped(sp', k, n)
      invariant Built(old(m.at.Keys), m.at.Keys, TablesFor(k.virtualBase + k.start, n), budget, true)
      decreases KernelPages(k) - n
    {
      assert IsKernelPage(k, n);
      var ptr := k.start + 4096 * n;
      KernelMore(sp', k, n);
      ok, sp' := MapNthOne(m, k.virtualBase + k.start, k.start, n, old(m.at.Keys), sp', budget);
      if !ok {
        TooMany(old(m.at.Keys), m.at.Keys, k.virtualBase + k.start, n + 1, KernelPages(k), budget);
        return;
      }
      IsWritableIf(k, n);
      if ptr >= k.writableStart && ptr < k.writableEnd {
        OnePage(ptr + k.virtualBase);
        JustMapped(sp', ptr + k.virtualBase, k, n);
        sp' := MakeWritable(m, ptr + k.virtualBase, 1, sp', budget);
      }
      n := n + 1;
    }
    assert !IsKernelPage(k, n);
  }

  lemma IsWritableIf(k: Image, n: nat)
    requires IsKernelPage(k, n)
    ensures IsWritablePage(k, n) <==> k.writableStart <= k.start + 4096 * n < k.writableEnd
  {
  }

  lemma NoPages(k: Image)
    ensures KernelMapped(Space(map[], {}), k, 0)
  {
  }

  lemma JustMapped(sp: Space, address: nat, k: Image, n: nat)
    requires address == k.virtualBase + k.start + 4096 * n
    requires KernelMapped(sp, k, n + 1) || KernelMapped(Making(sp, {KernelPage(k, n)}), k, n + 1)
    ensures Indexes(address) in sp.frames && KernelPage(k, n) == Indexes(address)
  {
    assert KernelPage(k, n) == Indexes(address);
    assert n < n + 1;
  }

  // ---------------------------------------------------------------- the regions of physical memory

  /** Some usable region among the first `n` contains the page. */
  ghost predicate Usable(regions: seq<Region>, n: nat, path: Path) {
    exists j :: 0 <= j < n && j < |regions| && regions[j].usable && InRange(path, regions[j].base, regions[j].pages)
  }

  lemma OneMoreRegion(regions: seq<Region>, n: nat, path: Path)
    requires n < |regions|
    ensures Usable(regions, n + 1, path) <==>
              Usable(regions, n, path) || (regions[n].usable && InRange(path, regions[n].base, regions[n].pages))
  {
  }

  /** After the kernel, the first `n` regions: pages outside them are as they were, and those inside can be written to. */
  ghost predicate RegionsMapped(sp: Space, sp': Space, regions: seq<Region>, n: nat) {
    && (forall path :: !Usable(regions, n, path) && path in sp.frames ==> path in sp'.frames && sp'.frames[path] == sp.frames[path])
    && (forall path :: path in sp'.writable <==> path in sp.writable || Usable(regions, n, path))
  }

  lemma RegionMore(sp: Space, sp1: Space, sp2: Space, regions: seq<Region>, n: nat)
    requires RegionsMapped(sp, sp1, regions, n) && n < |regions| && regions[n].usable
    requires Extended(sp1, sp2, regions[n].base, regions[n].base / MEMORY_PAGE_SIZE, regions[n].pages)
    ensures Range(regions[n].base, regions[n].pages) <= sp2.frames.Keys
    ensures RegionsMapped(sp, Making(sp2, Range(regions[n].base, regions[n].pages)), regions, n + 1)
  {
    hide Indexes;
    forall path
      ensures path in Range(regions[n].base, regions[n].pages) <==> InRange(path, regions[n].base, regions[n].pages)
      ensures Usable(regions, n + 1, path) <==> Usable(regions, n, path) || InRange(path, regions[n].base, regions[n].pages)
    {
      RangeIs(path, regions[n].base, regions[n].pages);
      OneMoreRegion(regions, n, path);
    }
  }

  lemma RegionSkipped(sp: Space, sp': Space, regions: seq<Region>, n: nat)
    requires RegionsMapped(sp, sp', regions, n) && n < |regions| && !regions[n].usable
    ensures RegionsMapped(sp, sp', regions, n + 1)
  {
    forall path
      ensures Usable(regions, n + 1, path) <==> Usable(regions, n, path)
    {
      OneMoreRegion(regions, n, path);
    }
  }

  lemma NoRegions(sp: Space, regions: seq<Region>)
    ensures RegionsMapped(sp, sp, regions, 0)
  {
  }

  /** The tables that the first `n` regions need, as far as they are usable. */
  ghost function RegionTables(regions: seq<Region>, n: nat): set<Path>
    requires n <= |regions|
  {
    if n == 0 then {}
    else RegionTables(regions, n - 1) + if regions[n - 1].usable then TablesFor(regions[n - 1].base, regions[n - 1].pages) else {}
  }

  lemma {:induction false} RegionTablesGrow(regions: seq<Region>, n: nat, all: nat)
    requires n <= all <= |regions|
    ensures RegionTables(regions, n) <= RegionTables(regions, all)
    decreases all
  {
    hide TablesFor;
    if n < all {
      RegionTablesGrow(regions, n, all - 1);
    }
  }

  lemma RegionBuilt(k0: set<Path>, k1: set<Path>, k2: set<Path>, regions: seq<Region>, n: nat, budget: nat, ok: bool)
    requires n < |regions| && Built(k0, k1, RegionTables(regions, n), budget, true)
    requires if regions[n].usable then Built(k1, k2, TablesFor(regions[n].base, regions[n].pages), budget, ok) else k2 == k1 && ok
    ensures Built(k0, k2, RegionTables(regions, n + 1), budget, ok)
    ensures !ok ==> Built(k0, k2, RegionTables(regions, |regions|), budget, false)
  {
    hide TablesFor, Built;
    if regions[n].usable {
      BuiltMore(k0, k1, k2, RegionTables(regions, n), TablesFor(regions[n].base, regions[n].pages), budget, ok);
    } else {
      assert RegionTables(regions, n + 1) == RegionTables(regions, n);
    }
    RegionTablesGrow(regions, n + 1, |regions|);
    if !ok {
      BuiltNever(k0, k2, RegionTables(regions, n + 1), RegionTables(regions, |regions|), budget);
    }
  }

  method MapRegions(m: Pager, regions: seq<Region>, ghost sp: Space, ghost budget: nat) returns (ok: bool, ghost sp': Space)
    requires Funded(m, sp, budget) && forall j :: 0 <= j < |regions| ==> regions[j].pages <= VIRTUAL_PAGES
    modifies m`tables, m`at, m.alloc, m.alloc.frames.buffer
    ensures Funded(m, sp', budget) && (ok ==> RegionsMapped(sp, sp', regions, |regions|))
    ensures Built(old(m.at.Keys), m.at.Keys, RegionTables(regions, |regions|), budget, ok)
  {
    hide Funded, Extended, RegionsMapped, Making, Range, Built, TablesFor, RegionTables;
    ok, sp' := true, sp;
    NoRegionTables(regions);
    FundedBuilt(m, sp, budget);
    NoRegions(sp, regions);
    for j := 0 to |regions|
      invariant ok && Funded(m, sp', budget) && RegionsMapped(sp, sp', regions, j)
      invariant Built(old(m.at.Keys), m.at.Keys, RegionTables(regions, j), budget, true)
    {
      ghost var sp1, k1 := sp', m.at.Keys;
      if !regions[j].usable {
        RegionSkipped(sp, sp', regions, j);
        RegionBuilt(old(m.at.Keys), k1, k1, regions, j, budget, true);
        continue;
      }
      ok, sp' := IdentityMap(m, regions[j].base, regions[j].pages, sp', budget);
      RegionBuilt(old(m.at.Keys), k1, m.at.Keys, regions, j, budget, ok);
      if !ok {
        return;
      }
      RegionMore(sp, sp1, sp', regions, j);
      sp' := MakeWritable(m, regions[j].base, regions[j].pages, sp', budget);
    }
  }

  lemma NoRegionTables(regions: seq<Region>)
    ensures RegionTables(regions, 0) == {}
  {
  }

  // ---------------------------------------------------------------- all of it

  /** The tables that `paging_init` needs. */
  ghost function InitTables(k: Image, regions: seq<Region>, total: nat): set<Path>
    requires ImageOk(k)
  {
    {[]} + (TablesFor(k.virtualBase + k.start, KernelPages(k)) + RegionTables(regions, |regions|) + TablesFor(0, total))
  }

  /** The three parts of `paging_init`, of which the later ones may not have been reached. */
  lemma InitBuilt(k0: set<Path>, k1: set<Path>, k2: set<Path>, k3: set<Path>, k: Image, regions: seq<Region>, total: nat, budget: nat, ok1: bool, ok2: bool, ok3: bool)
    requires ImageOk(k) && k0 == {[]}
    requires Built(k0, k1, TablesFor(k.virtualBase + k.start, KernelPages(k)), budget, ok1)
    requires ok1 ==> Built(k1, k2, RegionTables(regions, |regions|), budget, ok2)
    requires ok1 && ok2 ==> Built(k2, k3, TablesFor(0, total), budget, ok3)
    ensures ok1 && ok2 && ok3 <==> |InitTables(k, regions, total)| <= budget
  {
    hide TablesFor, RegionTables;
    var p1, p2, p3 := TablesFor(k.virtualBase + k.start, KernelPages(k)), RegionTables(regions, |regions|), TablesFor(0, total);
    assert k0 + (p1 + p2 + p3) == InitTables(k, regions, total);
    if ok1 {
      BuiltMore(k0, k1, k2, p1, p2, budget, ok2);
      if ok2 {
        BuiltMore(k0, k2, k3, p1 + p2, p3, budget, ok3);
      } else {
        BuiltNever(k0, k2, p1 + p2, p1 + p2 + p3, budget);
      }
    } else {
      BuiltNever(k0, k1, p1, p1 + p2 + p3, budget);
    }
  }

  /** The kernel's pages are none of those that are mapped to themselves. */
  ghost predicate Separate(k: Image, regions: seq<Region>, total: nat) {
    forall i: nat :: IsKernelPage(k, i) ==>
      !InRange(KernelPage(k, i), 0, total) && !Usable(regions, |regions|, KernelPage(k, i))
  }

  /** What `paging_init` promises to the rest of the kernel. */
  ghost predicate Initialised(tables: Tables, root: nat, k: Image, regions: seq<Region>, total: nat) {
    && (forall i: nat :: i < total ==> Mapped(tables, root, Nth(0, i)) && Frame(tables, root, Nth(0, i)) == i)
    && (forall i: nat :: IsKernelPage(k, i) ==>
          Mapped(tables, root, KernelPage(k, i)) && Frame(tables, root, KernelPage(k, i)) == (k.start / 4096 + i) % FRAMES)
    && (forall path :: |path| == 4 && PathOk(path) ==>
          (CanWrite(tables, root, path) <==>
             Usable(regions, |regions|, path) || exists i: nat :: IsWritablePage(k, i) && path == KernelPage(k, i)))
  }

  lemma InitialisedIf(m: Pager, sp1: Space, sp2: Space, sp3: Space, k: Image, n: nat, regions: seq<Region>, total: nat)
    requires Stands(m, sp3) && ImageOk(k) && n == KernelPages(k) && KernelMapped(sp1, k, n)
    requires RegionsMapped(sp1, sp2, regions, |regions|) && Extended(sp2, sp3, 0, 0, total) && total <= FRAMES
    requires Separate(k, regions, total)
    ensures Initialised(m.tables, m.root, k, regions, total)
  {
    hide Stands, Mapped, Frame, CanWrite, Indexes, Usable, InRange;
    KernelPagesAre(k);
    forall i: nat | i < total
      ensures Mapped(m.tables, m.root, Nth(0, i)) && Frame(m.tables, m.root, Nth(0, i)) == i
    {
      NthInRange(0, i, total);
      WalksFollow(m, sp3, Nth(0, i));
    }
    forall i: nat | IsKernelPage(k, i)
      ensures Mapped(m.tables, m.root, KernelPage(k, i)) && Frame(m.tables, m.root, KernelPage(k, i)) == (k.start / 4096 + i) % FRAMES
    {
      NthInRange(k.virtualBase + k.start, i, i + 1);
      WalksFollow(m, sp3, KernelPage(k, i));
    }
    forall path | |path| == 4 && PathOk(path)
      ensures CanWrite(m.tables, m.root, path) <==>
                Usable(regions, |regions|, path) || exists i: nat :: IsWritablePage(k, i) && path == KernelPage(k, i)
    {
      WalksFollow(m, sp3, path);
      assert OfWritableKernel(k, n, path) <==> exists i: nat :: IsWritablePage(k, i) && path == KernelPage(k, i);
    }
  }

  lemma KernelPagesAre(k: Image)
    requires ImageOk(k)
    ensures forall i: nat :: i < KernelPages(k) <==> IsKernelPage(k, i)
  {
  }

  /** The three mappings, one after the other. */
  method MapAll(pager: Pager, k: Image, regions: seq<Region>, total: nat, ghost budget: nat) returns (ok: bool)
    requires Funded(pager, Space(map[], {}), budget) && pager.at.Keys == {[]} && ImageOk(k) && total <= VIRTUAL_PAGES
    requires forall j :: 0 <= j < |regions| ==> regions[j].pages <= VIRTUAL_PAGES
    requires Separate(k, regions, total)
    modifies pager`tables, pager`at, pager.alloc, pager.alloc.frames.buffer
    ensures pager.Valid()
    ensures ok <==> |InitTables(k, regions, total)| <= budget
    ensures ok ==> Initialised(pager.tables, pager.root, k, regions, total)
  {
    hide Funded, Stands, Extended, RegionsMapped, KernelMapped, Initialised, Separate, Built, TablesFor, RegionTables, InitTables;
    ghost var sp1, sp2, sp3 := Space(map[], {}), Space(map[], {}), Space(map[], {});
    ghost var k0 := pager.at.Keys;
    var ok1, ok2, ok3 := false, false, false;
    ok1, sp1 := MapKernel(pager, k, sp1, budget);
    ghost var k1, k2, k3 := pager.at.Keys, k0, k0;
    FundedStands(pager, sp1, budget);
    if ok1 {
      ok2, sp2 := MapRegions(pager, regions, sp1, budget);
      FundedStands(pager, sp2, budget);
      k2 := pager.at.Keys;
      if ok2 {
        ok3, sp3 := IdentityMap(pager, 0, total, sp2, budget);
        FundedStands(pager, sp3, budget);
        k3 := pager.at.Keys;
        if ok3 {
          InitialisedIf(pager, sp1, sp2, sp3, k, KernelPages(k), regions, total);
        }
      }
    }
    InitBuilt(k0, k1, k2, k3, k, regions, total, budget, ok1, ok2, ok3);
    ok := ok1 && ok2 && ok3;
  }

  lemma FundedStands(m: Pager, sp: Space, budget: nat)
    requires Funded(m, sp, budget)
    ensures Stands(m, sp) && m.Valid()
  {
  }

  /**
   `paging_init`: every page of physical memory translates to itself, every page of the kernel image to its address
   minus the virtual base, and the pages that can be written to are exactly the usable regions and the writable part
   of the image. It gets there exactly if as many frames are free from the index on as it needs tables.
   */
  method Init(alloc: PageFrameAllocator, k: Image, regions: seq<Region>, totalSize: nat) returns (ok: bool, m: Pager?)
    requires alloc.Valid() && |alloc.Bits()| <= FRAMES && ImageOk(k) && totalSize <= 4096 * VIRTUAL_PAGES
    requires forall j :: 0 <= j < |regions| ==> regions[j].pages <= VIRTUAL_PAGES
    requires Separate(k, regions, NearestPage(totalSize))
    modifies alloc, alloc.frames.buffer
    ensures ok <==> |InitTables(k, regions, NearestPage(totalSize))| <= old(FreeFrom(alloc.Bits(), alloc.current))
    ensures ok ==> m != null && m.alloc == alloc && m.Valid() && Initialised(m.tables, m.root, k, regions, NearestPage(totalSize))
  {
    hide Stands, Initialised, Separate, IsFirstRun, InitTables, FreeFrom, IsLowest, BelowUsed, ImageOk, TreeOk, FramesInUse, Leaf, ParentsWritable;
    ghost var bits, hint := alloc.Bits(), alloc.current;
    AtLeastOne(k, regions, NearestPage(totalSize));
    var used := alloc.used;
    var page;
    ghost var index;
    page, index := alloc.Request();
    if alloc.used == used {
      NoneLeft(bits, hint);
      return false, null;
    }
    FirstIsFirst(bits, alloc.Behind(), hint, index);
    OneFewer(bits, hint, index);
    var pager := new Pager(alloc, page / MEMORY_PAGE_SIZE);
    StandsEmpty(pager);
    ok := MapAll(pager, k, regions, NearestPage(totalSize), FreeFrom(bits, hint));
    m := pager;
  }

  /**
   The same, said of addresses: physical memory translates to itself, the image to its address minus the virtual base, and
   the processor can write to exactly the pages of usable regions and of the writable part of the image.
   */
  lemma InitialisedMeans(tables: Tables, root: nat, k: Image, regions: seq<Region>, total: nat)
    requires Initialised(tables, root, k, regions, total) && ImageOk(k)
    ensures forall v: nat :: v < 4096 * total ==> Mapped(tables, root, Indexes(v)) && Frame(tables, root, Indexes(v)) == v / 4096
    ensures forall v: nat :: k.virtualBase + k.start <= v < k.virtualBase + k.end && (v - k.virtualBase) % 4096 == 0 ==>
              Mapped(tables, root, Indexes(v)) && Frame(tables, root, Indexes(v)) == (v - k.virtualBase) / 4096 % 0x100_0000_0000
    ensures forall path :: |path| == 4 && PathOk(path) ==>
              (CanWrite(tables, root, path) <==>
                 || (exists j, v: nat :: 0 <= j < |regions| && regions[j].usable && path == Indexes(v) &&
                       regions[j].base <= v < regions[j].base + 4096 * regions[j].pages && (v - regions[j].base) % 4096 == 0)
                 || (exists v: nat :: path == Indexes(v) && k.virtualBase + k.start <= v < k.virtualBase + k.end &&
                       (v - k.virtualBase) % 4096 == 0 && k.writableStart <= v - k.virtualBase < k.writableEnd))
  {
    hide Mapped, Frame, CanWrite, Indexes;
    forall v: nat | v < 4096 * total
      ensures Mapped(tables, root, Indexes(v)) && Frame(tables, root, Indexes(v)) == v / 4096
    {
      SamePage(v, 4096 * (v / 4096));
      assert Nth(0, v / 4096) == Indexes(0 + 4096 * (v / 4096));
    }
    forall v: nat | k.virtualBase + k.start <= v < k.virtualBase + k.end && (v - k.virtualBase) % 4096 == 0
      ensures Mapped(tables, root, Indexes(v)) && Frame(tables, root, Indexes(v)) == (v - k.virtualBase) / 4096 % 0x100_0000_0000
    {
      var i := ImageAddress(k, v);
    }
    forall path | |path| == 4 && PathOk(path)
      ensures CanWrite(tables, root, path) <==>
                || (exists j, v: nat :: 0 <= j < |regions| && regions[j].usable && path == Indexes(v) &&
                      regions[j].base <= v < regions[j].base + 4096 * regions[j].pages && (v - regions[j].base) % 4096 == 0)
                || (exists v: nat :: path == Indexes(v) && k.virtualBase + k.start <= v < k.virtualBase + k.end &&
                      (v - k.virtualBase) % 4096 == 0 && k.writableStart <= v - k.virtualBase < k.writableEnd)
    {
      UsableMeans(regions, path);
      WritableImageMeans(k, path);
    }
  }

  /** The page of the image that an address belongs to. */
  lemma ImageAddress(k: Image, v: nat) returns (i: nat)
    requires ImageOk(k) && k.virtualBase + k.start <= v < k.virtualBase + k.end && (v - k.virtualBase) % 4096 == 0
    ensures IsKernelPage(k, i) && Indexes(v) == KernelPage(k, i) && v == k.virtualBase + k.start + 4096 * i
    ensures k.start / 4096 + i == (v - k.virtualBase) / 4096
  {
    var a := v - k.virtualBase;
    i := a / 4096 - k.start / 4096;
    assert a == 4096 * (a / 4096) && k.start == 4096 * (k.start / 4096);
  }

  lemma UsableMeans(regions: seq<Region>, path: Path)
    ensures Usable(regions, |regions|, path) <==>
              exists j, v: nat :: 0 <= j < |regions| && regions[j].usable && path == Indexes(v) &&
                regions[j].base <= v < regions[j].base + 4096 * regions[j].pages && (v - regions[j].base) % 4096 == 0
  {
    hide Indexes;
    if Usable(regions, |regions|, path) {
      var j :| 0 <= j < |regions| && regions[j].usable && InRange(path, regions[j].base, regions[j].pages);
      var i: nat :| i < regions[j].pages && path == Nth(regions[j].base, i);
      var v := regions[j].base + 4096 * i;
      assert path == Indexes(v) && (v - regions[j].base) % 4096 == 0;
    }
    if j, v: nat :| 0 <= j < |regions| && regions[j].usable && path == Indexes(v) &&
                    regions[j].base <= v < regions[j].base + 4096 * regions[j].pages && (v - regions[j].base) % 4096 == 0 {
      var i := (v - regions[j].base) / 4096;
      assert path == Nth(regions[j].base, i);
      assert InRange(path, regions[j].base, regions[j].pages);
    }
  }

  lemma WritableImageMeans(k: Image, path: Path)
    requires ImageOk(k)
    ensures (exists i: nat :: IsWritablePage(k, i) && path == KernelPage(k, i)) <==>
              exists v: nat :: path == Indexes(v) && k.virtualBase + k.start <= v < k.virtualBase + k.end &&
                (v - k.virtualBase) % 4096 == 0 && k.writableStart <= v - k.virtualBase < k.writableEnd
  {
    hide Indexes;
    if i: nat :| IsWritablePage(k, i) && path == KernelPage(k, i) {
      var v := k.virtualBase + k.start + 4096 * i;
      assert path == Indexes(v) && (v - k.virtualBase) % 4096 == 0;
    }
    if v: nat :| path == Indexes(v) && k.virtualBase + k.start <= v < k.virtualBase + k.end &&
                 (v - k.virtualBase) % 4096 == 0 && k.writableStart <= v - k.virtualBase < k.writableEnd {
      var i := ImageAddress(k, v);
      assert IsWritablePage(k, i) && path == KernelPage(k, i);
    }
  }

  /** The tables that `paging_init` needs, one by one. */
  lemma InitTablesMeans(k: Image, regions: seq<Region>, total: nat, p: Path)
    requires ImageOk(k)
    ensures p in InitTables(k, regions, total) <==>
              || p == [] || p in TablesFor(k.virtualBase + k.start, NearestPage(k.end - k.start)) || p in TablesFor(0, total)
              || exists j :: 0 <= j < |regions| && regions[j].usable && p in TablesFor(regions[j].base, regions[j].pages)
  {
    hide TablesFor;
    RegionTablesMean(regions, |regions|, p);
  }

  lemma {:induction false} RegionTablesMean(regions: seq<Region>, n: nat, p: Path)
    requires n <= |regions|
    ensures p in RegionTables(regions, n) <==>
              exists j :: 0 <= j < n && regions[j].usable && p in TablesFor(regions[j].base, regions[j].pages)
  {
    hide TablesFor;
    if n > 0 {
      RegionTablesMean(regions, n - 1, p);
    }
  }

  lemma AtLeastOne(k: Image, regions: seq<Region>, total: nat)
    requires ImageOk(k)
    ensures |InitTables(k, regions, total)| >= 1
  {
    assert [] in InitTables(k, regions, total);
  }

  /** `NEAREST_PAGE` */
  function NearestPage(size: nat): (n: nat)
    ensures 4096 * n >= size && (n > 0 ==> 4096 * (n - 1) < size)
  {
    (if size % 4096 == 0 then size else size - size % 4096 + 4096) / 4096
  }

  lemma StandsEmpty(m: Pager)
    requires m.Valid() && m.Orderly() && forall path :: |path| == 4 ==> m.LeafOf(path) == EMPTY
    ensures Stands(m, Space(map[], {}))
  {
    EmptyIs();
  }
}
