/**
 `paging.c`: mapping pages and changing their attributes in a tree of page tables, whose frames come from the page
 frame allocator.
 */
module Paging {
  import opened PageEntries
  import opened PageTables
  import opened TreeEdits
  import opened PageFrames
  import opened Bitmaps

  class Pager {
    const alloc: PageFrameAllocator
    /** The tables in memory. */
    var tables: Tables
    /** The frame of `s_pagetable_l4` */
    var root: nat
    ghost var at: Places

    /** The tables form an unshared tree, in frames that the frame allocator knows to be in use. */
    ghost predicate Valid()
      reads this, alloc, alloc.frames, alloc.frames.buffer
    {
      && alloc.Valid() && |alloc.Bits()| <= FRAMES
      && TreeOk(tables, root, at)
      && FramesInUse(at, alloc.Bits())
    }

    /** No entry allows writing below one that does not. */
    ghost predicate Orderly()
      reads this
    {
      ParentsWritable(tables, at)
    }

    /** The leaf entry for a page, as the tree has it. */
    ghost function LeafOf(path: Path): Entry
      requires |path| == 4
      reads this
    {
      Leaf(tables, at, path)
    }

    /** How many more frames the frame allocator can hand out. */
    ghost function Left(): nat
      requires alloc.Valid()
      reads this, alloc, alloc.frames, alloc.frames.buffer
    {
      FreeFrom(alloc.Bits(), alloc.current)
    }

    /** Tables that exist and frames that are left for more; no operation changes their sum. */
    ghost function Budget(): (n: nat)
      requires alloc.Valid()
      reads this, alloc, alloc.frames, alloc.frames.buffer
      ensures n >= |at.Keys|
    {
      |at.Keys| + Left()
    }

    /** The first steps of `paging_init`: the top-level table in a frame of its own. */
    constructor (a: PageFrameAllocator, frame: nat)
      requires a.Valid() && |a.Bits()| <= FRAMES && frame < |a.Bits()| && a.Bits()[frame]
      ensures Valid() && Orderly() && alloc == a && root == frame
      ensures forall path :: |path| == 4 ==> LeafOf(path) == EMPTY
      ensures at.Keys == {[]}
    {
      alloc, root := a, frame;
      tables := map[frame := EMPTY_TABLE];
      at := map[[] := frame];
      EmptyIs();
    }

    /**
     `pageframe_request`, for a table: the frame belongs to no table yet. The source does not look at the result;
     whether a frame was found can be told from the account.
     */
    method NewFrame() returns (g: nat, ok: bool)
      requires Valid()
      modifies alloc, alloc.frames.buffer
      ensures Valid() && |alloc.Bits()| == old(|alloc.Bits()|)
      ensures ok <==> old(Left()) > 0
      ensures Left() == old(Left()) - if ok then 1 else 0
      ensures ok ==> g !in at.Values && g < |alloc.Bits()| && alloc.Bits()[g]
    {
      hide IsFirstRun, FreeFrom, IsLowest, BelowUsed;
      ghost var bits, hint := alloc.Bits(), alloc.current;
      var used := alloc.used;
      var page;
      ghost var index;
      page, index := alloc.Request();
      g := page / MEMORY_PAGE_SIZE;
      ok := alloc.used != used;
      if ok {
        FreshFrame(at, bits, alloc.Behind(), hint, index);
        FirstIsFirst(bits, alloc.Behind(), hint, index);
        OneFewer(bits, hint, index);
      } else {
        NoneLeft(bits, hint);
        NoneLeft(alloc.Bits(), alloc.current);
      }
    }

    /**
     One level of `paging_map_page`: the table that entry `i` of the table `f` leads to, which is created if the entry
     is not present. Fails exactly if a table is missing and no frame is left for it.
     */
    method Descend(f: nat, i: nat, ghost p: Path) returns (g: nat, ok: bool)
      requires Valid() && p in at && at[p] == f && |p| < 3 && i < ENTRIES
      modifies this`tables, this`at, alloc, alloc.frames.buffer
      ensures Valid() && (ok ==> p + [i] in at && at[p + [i]] == g) && (old(Orderly()) ==> Orderly())
      ensures forall path :: |path| == 4 && PathOk(path) ==> LeafOf(path) == old(LeafOf(path))
      ensures Built(old(at.Keys), at.Keys, {p + [i]}, old(Budget()), ok) && Budget() == old(Budget())
    {
      hide TreeOk, ParentsWritable, Leaf, FramesInUse, Present, Writable, FreeFrom, Built, Word, StoredWord, WithBit, EntryOk;
      TableFacts(tables, root, at, p, i);
      var entry := tables[f][i];
      if Present(entry) {
        BuiltAlready(at.Keys, p + [i], Budget());
        return entry.frame, true;
      }
      g, ok := NewFrame();
      BuiltHere(old(at.Keys), p + [i], old(Left()), ok);
      if !ok {
        return;
      }
      var entry' := PresentEntry(entry, g);
      assert Word(entry') == StoredWord(Word(entry), g) by { StoresPresent(entry, g); }
      NewEntry(entry, g);
      NewTable(tables, root, at, p, i, g, entry');
      OneMoreInUse(at, alloc.Bits(), p + [i], g);
      tables := WithEntry(tables[g := EMPTY_TABLE], f, i, entry');
      at := at[p + [i] := g];
      assert at.Keys == old(at.Keys) + {p + [i]};
    }

    /**
     `paging_map_page`: whichever tables had to be created, exactly one page translates differently, to the given
     frame, and its flags are kept. It succeeds exactly if there are frames for the tables that are missing.
     */
    method MapPage(address: nat, physical: nat) returns (ok: bool)
      requires Valid()
      modifies this`tables, this`at, alloc, alloc.frames.buffer
      ensures Valid() && (old(Orderly()) ==> Orderly())
      ensures forall path :: |path| == 4 && PathOk(path) ==>
                LeafOf(path) == if ok && path == Indexes(address) then PresentEntry(old(LeafOf(path)), physical / MEMORY_PAGE_SIZE)
                                else old(LeafOf(path))
      ensures ok ==> Mapped(tables, root, Indexes(address)) &&
                     Frame(tables, root, Indexes(address)) == physical / 4096 % 0x100_0000_0000
      ensures forall path :: |path| == 4 && PathOk(path) && !(ok && path == Indexes(address)) ==>
                && (Mapped(tables, root, path) <==> old(Mapped(tables, root, path)))
                && (Mapped(tables, root, path) ==> Frame(tables, root, path) == old(Frame(tables, root, path)))
      ensures Built(old(at.Keys), at.Keys, Above(Indexes(address)), old(Budget()), ok) && Budget() == old(Budget())
      ensures var path := Indexes(address);
              ok <==> (if path[..1] in old(at) then 0 else 1) + (if path[..2] in old(at) then 0 else 1) + (if path[..3] in old(at) then 0 else 1)
                      <= old(|set i | alloc.current <= i < |alloc.Bits()| && !alloc.Bits()[i]|)
    {
      hide Mapped, Frame, Leaf, TreeOk, ParentsWritable, FramesInUse, PresentEntry, Indexes, Above, FreeFrom;
      MissingTables(at.Keys, Indexes(address));
      FreeFromMeans(alloc.Bits(), alloc.current);
      ok := MapLeaf(address, physical);
      Translates(old(tables), old(at), tables, at, root, Indexes(address), physical / MEMORY_PAGE_SIZE, ok);
    }

    /** The table for the leaf of a page, with the tables above it. */
    method Reach(path: Path) returns (l1: nat, ok: bool)
      requires Valid() && |path| == 4 && PathOk(path)
      modifies this`tables, this`at, alloc, alloc.frames.buffer
      ensures Valid() && (old(Orderly()) ==> Orderly()) && (ok ==> path[..3] in at && at[path[..3]] == l1)
      ensures forall q :: |q| == 4 && PathOk(q) ==> LeafOf(q) == old(LeafOf(q))
      ensures Built(old(at.Keys), at.Keys, Above(path), old(Budget()), ok) && Budget() == old(Budget())
    {
      hide TreeOk, ParentsWritable, Leaf, FramesInUse, FreeFrom, Built, Above, Budget;
      ghost var k0 := at.Keys;
      ghost var n1, n2, n3 := path[..1], path[..2], path[..3];
      assert n1 == [] + [path[0]] && n2 == n1 + [path[1]] && n3 == n2 + [path[2]];
      TopTable(tables, root, at);
      var l3, l2;
      l1 := 0;
      l3, ok := Descend(root, path[0], []);
      ghost var k1 := at.Keys;
      if !ok {
        BuiltOne(k0, k1, path, Budget());
        return;
      }
      l2, ok := Descend(l3, path[1], n1);
      ghost var k2 := at.Keys;
      if !ok {
        BuiltTwo(k0, k1, k2, path, Budget());
        return;
      }
      l1, ok := Descend(l2, path[2], n2);
      BuiltThree(k0, k1, k2, at.Keys, path, Budget(), ok);
    }

    method MapLeaf(address: nat, physical: nat) returns (ok: bool)
      requires Valid()
      modifies this`tables, this`at, alloc, alloc.frames.buffer
      ensures Valid() && (old(Orderly()) ==> Orderly())
      ensures forall path :: |path| == 4 && PathOk(path) ==>
                LeafOf(path) == if ok && path == Indexes(address) then PresentEntry(old(LeafOf(path)), physical / MEMORY_PAGE_SIZE)
                                else old(LeafOf(path))
      ensures Built(old(at.Keys), at.Keys, Above(Indexes(address)), old(Budget()), ok) && Budget() == old(Budget())
    {
      hide TreeOk, ParentsWritable, Leaf, FramesInUse, Present, Writable, Indexes, TableOk, AllowedHere, FreeFrom, Built, Above;
      var path := Indexes(address);
      var l1;
      l1, ok := Reach(path);
      if !ok {
        return;
      }
      ghost var p := path[..3];
      TableFacts(tables, root, at, p, path[3]);
      var entry := tables[l1][path[3]];
      var entry' := PresentEntry(entry, physical / MEMORY_PAGE_SIZE);
      assert Word(entry') == StoredWord(Word(entry), physical / MEMORY_PAGE_SIZE) by {
        StoresPresent(entry, physical / MEMORY_PAGE_SIZE);
      }
      NewEntry(entry, physical / MEMORY_PAGE_SIZE);
      SameWritable(tables, at, p, path[3], entry');
      Update(tables, root, at, p, path[3], entry');
      assert p + [path[3]] == path && path[..3] == p;
      LeafIs(tables, at, path);
      tables := WithEntry(tables, l1, path[3], entry');
    }

    /** One level of `paging_set_attribute`, which follows entries whether they are present or not. */
    method SetEntryBit(f: nat, i: nat, b: nat, value: bool, ghost places: Places, ghost p: Path) returns (g: nat)
      requires ShapeOk(tables, root, places) && p in places && places[p] == f && i < ENTRIES && b < 12
      modifies this`tables
      ensures ShapeOk(tables, root, places) && (|p| < 3 && p + [i] in places ==> g == places[p + [i]])
      ensures forall q, j :: q in places && 0 <= j < ENTRIES ==>
                EntryAt(tables, places[q], j) == if q == p && j == i then WithBit(old(EntryAt(tables, places[q], j)), b, value)
                                                 else old(EntryAt(tables, places[q], j))
    {
      hide TableShape, Unshared;
      ShapeFacts(tables, root, places, p, i);
      var entry := tables[f][i];
      var entry' := WithBit(entry, b, value);
      WithBitOk(entry, b, value);
      FlagInShape(tables, root, places, p, i, entry');
      tables := WithEntry(tables, f, i, entry');
      g := entry'.frame;
    }

    /** `paging_set_attribute` for one page: the four entries on the way to the page, and no others. */
    method SetPageAttribute(address: nat, b: nat, value: bool, ghost places: Places)
      requires ShapeOk(tables, root, places) && b < 12 && Indexes(address)[..3] in places
      modifies this`tables
      ensures ShapeOk(tables, root, places) && FlaggedAlong(old(tables), tables, places, Indexes(address), b, value)
      ensures forall n: nat :: n < 4 ==>
                && Indexes(address)[..n] in places
                && EntryAt(tables, places[Indexes(address)[..n]], Indexes(address)[n])
                   == WithBit(EntryAt(old(tables), places[Indexes(address)[..n]], Indexes(address)[n]), b, value)
      ensures forall q, j :: q in places && 0 <= j < 512 && !(|q| < 4 && q == Indexes(address)[..|q|] && j == Indexes(address)[|q|]) ==>
                EntryAt(tables, places[q], j) == EntryAt(old(tables), places[q], j)
    {
      hide ShapeOk, Indexes, WithBit;
      var path := Indexes(address);
      ShapeTop(tables, root, places);
      ShapePrefixes(tables, root, places, path[..3], 1);
      ShapePrefixes(tables, root, places, path[..3], 2);
      assert path[..3][..1] == path[..1] && path[..3][..2] == path[..2];
      assert path[..0] == [] && path[..1] == [] + [path[0]] && path[..2] == path[..1] + [path[1]] && path[..3] == path[..2] + [path[2]];
      var l3 := SetEntryBit(root, path[0], b, value, places, path[..0]);
      var l2 := SetEntryBit(l3, path[1], b, value, places, path[..1]);
      var l1 := SetEntryBit(l2, path[2], b, value, places, path[..2]);
      var f := SetEntryBit(l1, path[3], b, value, places, path[..3]);
      FourEntries(old(tables), tables, places, path, b, value);
      AlongMeans(old(tables), tables, places, path, b, value);
    }

    /** The loop of `paging_set_attribute`: exactly the entries on the way to some page of the range. */
    method SetRange(address: nat, pages: nat, b: nat, value: bool)
      requires Valid() && b < 12 && AllMapped(tables, at, address, pages)
      modifies this`tables
      ensures ShapeOk(tables, root, at) && FlaggedIn(old(tables), tables, at, address, pages, b, value)
    {
      hide ShapeOk, TreeOk, Indexes, WithBit, FlaggedIn, FlaggedAlong, FramesInUse, Leaf, Present;
      TreeHasShape(tables, root, at);
      NoneFlagged(tables, at, address, b, value);
      var i := 0;
      while i < pages
        invariant i <= pages && ShapeOk(tables, root, at) && FlaggedIn(old(tables), tables, at, address, i, b, value)
      {
        assert Present(Leaf(old(tables), at, Nth(address, i)));
        AllTables(old(tables), root, at, Nth(address, i));
        ghost var before := tables;
        SetPageAttribute(address + 4096 * i, b, value, at);
        FlaggedMore(old(tables), before, tables, at, address, i, b, value);
        i := i + 1;
      }
    }

    /**
     `paging_set_attribute` for pages that are mapped. No attribute changes where a page translates to. Taking away the
     writability or the presence of pages takes it away from exactly the pages below the same top-level entries.
     */
    method SetAttribute(address: nat, pages: nat, b: nat, value: bool)
      requires Valid() && b < 12 && AllMapped(tables, at, address, pages)
      modifies this`tables, this`at
      ensures Valid() && (old(Orderly()) && (b == 1 ==> value) ==> Orderly())
      ensures !(b == 0 && !value) ==> at == old(at) && forall path :: |path| == 4 && PathOk(path) ==>
                && LeafOf(path) == (if InRange(path, address, pages) then WithBit(old(LeafOf(path)), b, value) else old(LeafOf(path)))
                && (Mapped(tables, root, path) <==> old(Mapped(tables, root, path)))
                && (Mapped(tables, root, path) ==> Frame(tables, root, path) == old(Frame(tables, root, path)))
      ensures b == 1 && !value ==> forall path :: |path| == 4 && PathOk(path) ==>
                (CanWrite(tables, root, path) <==> old(CanWrite(tables, root, path)) && !SharesTop(path, address, pages))
      ensures b == 0 && !value ==> forall path :: |path| == 4 && PathOk(path) ==>
                && (Mapped(tables, root, path) <==> old(Mapped(tables, root, path)) && !SharesTop(path, address, pages))
                && (Mapped(tables, root, path) ==> Frame(tables, root, path) == old(Frame(tables, root, path)))
    {
      hide TreeOk, ParentsWritable, Leaf, FramesInUse, Present, Writable, Indexes, WithBit, Mapped, Frame, InRange, CanWrite, FlaggedIn, AllMapped, SharesTop, ShapeOk;
      SetRange(address, pages, b, value);
      if b == PRESENT && !value {
        at := Pruned(at, address, pages);
        PrunedTree(old(tables), tables, root, old(at), address, pages);
        PrunedInUse(old(at), address, pages, alloc.Bits());
        Unmapped(old(tables), tables, root, old(at), address, pages);
        if ParentsWritable(old(tables), old(at)) {
          PrunedParents(old(tables), tables, root, old(at), address, pages);
        }
      } else {
        FlaggedTree(old(tables), tables, root, at, address, pages, b, value);
        Unmoved(old(tables), tables, root, at, address, pages, b, value);
        if ParentsWritable(old(tables), at) && (b == WRITABLE ==> value) {
          FlaggedParents(old(tables), tables, root, at, address, pages, b, value);
        }
        if b == WRITABLE && !value {
          forall path | |path| == 4 && PathOk(path)
            ensures CanWrite(tables, root, path) <==> CanWrite(old(tables), root, path) && !SharesTop(path, address, pages)
          {
            ClearedExactly(old(tables), tables, root, at, address, pages, path);
          }
        }
      }
    }

    method MapNth(address: nat, physical: nat, i: nat) returns (ok: bool)
      requires Valid()
      modifies this`tables, this`at, alloc, alloc.frames.buffer
      ensures Valid() && (old(Orderly()) ==> Orderly())
      ensures forall path :: |path| == 4 && PathOk(path) ==>
                Leaf(tables, at, path) == if ok && path == Nth(address, i) then PresentEntry(Leaf(old(tables), old(at), path), physical / MEMORY_PAGE_SIZE + i)
                                          else Leaf(old(tables), old(at), path)
      ensures Built(old(at.Keys), at.Keys, Above(Nth(address, i)), old(Budget()), ok) && Budget() == old(Budget())
    {
      hide TreeOk, ParentsWritable, Leaf, FramesInUse, PresentEntry, Indexes, Mapped, Frame, Built, Above, FreeFrom;
      Consecutive(physical, i);
      ok := MapLeaf(address + 4096 * i, physical + MEMORY_PAGE_SIZE * i);
    }

    /** One more page of a run that started with the tables `t0` at `a0`. */
    method MapNext(address: nat, physical: nat, i: nat, ghost t0: Tables, ghost a0: Places) returns (ok: bool)
      requires Valid() && i < VIRTUAL_PAGES
      requires RunMapped(t0, a0, tables, at, address, physical / MEMORY_PAGE_SIZE, i)
      requires Built(a0.Keys, at.Keys, TablesFor(address, i), Budget(), true)
      modifies this`tables, this`at, alloc, alloc.frames.buffer
      ensures Valid() && (old(Orderly()) ==> Orderly()) && Budget() == old(Budget())
      ensures RunMapped(t0, a0, tables, at, address, physical / MEMORY_PAGE_SIZE, if ok then i + 1 else i)
      ensures Built(a0.Keys, at.Keys, TablesFor(address, i + 1), Budget(), ok)
    {
      hide TreeOk, ParentsWritable, Leaf, FramesInUse, PresentEntry, Indexes, Built, Above, TablesFor, FreeFrom, RunMapped, Nth, PathOk, InRange, Budget;
      ok := MapNth(address, physical, i);
      BuiltNext(a0.Keys, old(at.Keys), at.Keys, address, i, Budget(), ok);
      OneMoreMapped(t0, a0, old(tables), old(at), tables, at, address, physical / MEMORY_PAGE_SIZE, i, ok);
    }

    /** Consecutive pages are mapped to consecutive frames, until there is no memory for a table. */
    method MapRun(address: nat, physical: nat, pages: nat) returns (ok: bool, ghost n: nat)
      requires Valid() && pages <= VIRTUAL_PAGES
      modifies this`tables, this`at, alloc, alloc.frames.buffer
      ensures Valid() && (old(Orderly()) ==> Orderly()) && Budget() == old(Budget())
      ensures n <= pages && (ok ==> n == pages)
      ensures RunMapped(old(tables), old(at), tables, at, address, physical / MEMORY_PAGE_SIZE, n)
      ensures Built(old(at.Keys), at.Keys, TablesFor(address, pages), Budget(), ok)
    {
      hide TreeOk, ParentsWritable, Leaf, FramesInUse, PresentEntry, Built, TablesFor, FreeFrom, RunMapped, Budget;
      TablesForMore(address, 0);
      NothingBuilt(at.Keys, Budget());
      NoneMapped(tables, at, address, physical / MEMORY_PAGE_SIZE);
      ok, n := true, 0;
      var i := 0;
      while i < pages && ok
        invariant i <= pages && n <= i && (ok ==> n == i) && Valid() && (old(Orderly()) ==> Orderly())
        invariant Built(old(at.Keys), at.Keys, TablesFor(address, i), Budget(), ok) && Budget() == old(Budget())
        invariant RunMapped(old(tables), old(at), tables, at, address, physical / MEMORY_PAGE_SIZE, n)
        decreases pages - i
      {
        ok := MapNext(address, physical, i, old(tables), old(at));
        i, n := i + 1, if ok then n + 1 else n;
      }
      if !ok {
        TablesGrow(address, i, pages);
        BuiltNever(old(at.Keys), at.Keys, TablesFor(address, i), TablesFor(address, pages), Budget());
      }
    }

    /** `paging_map`, whose offset is an `int`. */
    method Map(address: nat, physical: nat, pages: nat) returns (ok: bool)
      requires Valid() && pages < 0x8_0000
      modifies this`tables, this`at, alloc, alloc.frames.buffer
      ensures Valid() && (old(Orderly()) ==> Orderly())
      ensures ok ==> forall i: nat :: i < pages ==>
                Mapped(tables, root, Nth(address, i)) && Frame(tables, root, Nth(address, i)) == (physical / MEMORY_PAGE_SIZE + i) % FRAMES
      ensures forall path :: |path| == 4 && PathOk(path) && !InRange(path, address, pages) ==>
                && (Mapped(tables, root, path) <==> old(Mapped(tables, root, path)))
                && (Mapped(tables, root, path) ==> Frame(tables, root, path) == old(Frame(tables, root, path)))
      ensures Built(old(at.Keys), at.Keys, TablesFor(address, pages), Budget(), ok) && Budget() == old(Budget())
    {
      hide TreeOk, ParentsWritable, Leaf, FramesInUse, PresentEntry, Indexes, Mapped, Frame, InRange, Built, TablesFor, RunMapped;
      ghost var n;
      ok, n := MapRun(address, physical, pages);
      RunTranslates(old(tables), old(at), tables, at, root, address, physical / MEMORY_PAGE_SIZE, n, pages);
    }
  }

  lemma AlongMeans(tables: Tables, tables': Tables, at: Places, path: Path, b: nat, value: bool)
    requires FlaggedAlong(tables, tables', at, path, b, value) && |path| == 4 && PathOk(path)
    requires path[..0] in at && path[..1] in at && path[..2] in at && path[..3] in at
    ensures forall n: nat :: n < 4 ==> path[..n] in at && EntryAt(tables', at[path[..n]], path[n]) == WithBit(EntryAt(tables, at[path[..n]], path[n]), b, value)
    ensures forall q, j :: q in at && 0 <= j < 512 && !(|q| < 4 && q == path[..|q|] && j == path[|q|]) ==>
              EntryAt(tables', at[q], j) == EntryAt(tables, at[q], j)
  {
    forall n: nat | n < 4
      ensures path[..n] in at && EntryAt(tables', at[path[..n]], path[n]) == WithBit(EntryAt(tables, at[path[..n]], path[n]), b, value)
    {
      assert n == 0 || n == 1 || n == 2 || n == 3;
      assert OnTheWay(path, path[..n], path[n]);
    }
  }

  // ---------------------------------------------------------------- memory for tables

  /**
   The tables for `paths` were added to the tables `k`: this succeeds exactly if there are as many frames as tables.
   Every frame taken has become a table, and the tables are those needed and no others.
   */
  ghost predicate Built(k: set<Path>, k': set<Path>, paths: set<Path>, budget: nat, ok: bool) {
    && (ok <==> |k + paths| <= budget)
    && k <= k' <= k + paths && (ok ==> k' == k + paths)
  }

  lemma NothingBuilt(k: set<Path>, budget: nat)
    requires |k| <= budget
    ensures Built(k, k, {}, budget, true)
  {
    assert k + {} == k;
  }

  lemma BuiltAlready(k: set<Path>, path: Path, budget: nat)
    requires path in k && |k| <= budget
    ensures Built(k, k, {path}, budget, true)
  {
    assert k + {path} == k;
  }

  lemma BuiltHere(k: set<Path>, path: Path, left: nat, ok: bool)
    requires path !in k && (ok <==> left > 0)
    ensures |k + {path}| == |k| + 1
    ensures Built(k, if ok then k + {path} else k, {path}, |k| + left, ok)
  {
  }

  lemma {:induction false} Fewer(a: set<Path>, b: set<Path>)
    requires a <= b
    ensures |a| <= |b|
  {
    if a != {} {
      var x :| x in a;
      Fewer(a - {x}, b - {x});
    }
  }

  lemma NotBuilt(k': set<Path>, path: Path, ok: bool)
    requires |path| == 4 && Built({[]}, k', Above(path), 1, ok) && |k'| <= 1
    ensures !ok && k' == {[]}
  {
    Fewer({[], path[..1]}, {[]} + Above(path));
    forall x | x in k'
      ensures x == []
    {
      Fewer({[], x}, k');
    }
  }

  /**
   With one page left for the top-level table and none for the next, every mapping fails: the source takes page 0 from
   a request that found nothing, and that is where the top-level table is.
   */
  method OutOfFrames(address: nat, physical: nat) returns (m: Pager, ok: bool, page: nat)
    ensures m.Valid() && m.at.Keys == {[]} && m.Left() == 0
    ensures !ok && page == 0 && m.root == page / MEMORY_PAGE_SIZE
  {
    hide TreeOk, FramesInUse, Leaf, Mapped, Frame, ParentsWritable, PresentEntry, Indexes, Above, Built, FreeFrom;
    var a := LastFrame();
    m := new Pager(a, 0);
    ok := MapWithout(m, address, physical);
    page := NoFrame(a);
  }

  /** A mapping when there is only the top-level table and no frame is left. */
  method MapWithout(m: Pager, address: nat, physical: nat) returns (ok: bool)
    requires m.Valid() && m.at.Keys == {[]} && m.Left() == 0
    modifies m`tables, m`at, m.alloc, m.alloc.frames.buffer
    ensures m.Valid() && !ok && m.at.Keys == {[]} && m.Left() == 0
  {
    hide TreeOk, FramesInUse, Leaf, Mapped, Frame, ParentsWritable, PresentEntry, Indexes, Above, Built, FreeFrom;
    ok := m.MapPage(address, physical);
    NotBuilt(m.at.Keys, Indexes(address), ok);
  }

  /** All of eight pages are in use, the first one for the request just made. */
  method LastFrame() returns (a: PageFrameAllocator)
    ensures fresh(a) && fresh(a.frames) && fresh(a.frames.buffer)
    ensures a.Valid() && |a.Bits()| == 8 && a.Bits()[0] && FreeFrom(a.Bits(), a.current) == 0
  {
    hide IsFirstRun, FreeFrom, IsLowest, BelowUsed;
    var buffer := new nat[2](_ => 0);
    var b := new Bitmap(buffer, 1);
    a := new PageFrameAllocator(b);
    a.Lock(1, 7);
    assert !a.Bits()[0];
    ghost var bits, behind := a.Bits(), a.Behind();
    ghost var index;
    var page;
    page, index := a.Request();
    FirstIsFirst(bits, behind, 0, index);
    NoneLeft(a.Bits(), a.current);
  }

  method NoFrame(a: PageFrameAllocator) returns (page: nat)
    requires a.Valid() && FreeFrom(a.Bits(), a.current) == 0
    modifies a, a.frames.buffer
    ensures page == 0 && a.Valid() && a.Bits() == old(a.Bits()) && FreeFrom(a.Bits(), a.current) == 0
  {
    hide FreeFrom, IsLowest, BelowUsed;
    ghost var bits, hint, behind := a.Bits(), a.current, a.Behind();
    ghost var index;
    page, index := a.Request();
    if index < |bits| {
      FirstIsFirst(bits, behind, hint, index);
      OneFewer(bits, hint, index);
      assert false;
    }
    NoneLeft(a.Bits(), a.current);
  }

  lemma BuiltMore(k0: set<Path>, k1: set<Path>, k2: set<Path>, p1: set<Path>, p2: set<Path>, budget: nat, ok: bool)
    requires Built(k0, k1, p1, budget, true) && Built(k1, k2, p2, budget, ok)
    ensures Built(k0, k2, p1 + p2, budget, ok)
  {
    assert k0 + p1 + p2 == k0 + (p1 + p2);
  }

  lemma BuiltOne(k0: set<Path>, k1: set<Path>, path: Path, budget: nat)
    requires |path| == 4 && Built(k0, k1, {path[..1]}, budget, false)
    ensures Built(k0, k1, Above(path), budget, false)
  {
    BuiltNever(k0, k1, {path[..1]}, Above(path), budget);
  }

  lemma BuiltTwo(k0: set<Path>, k1: set<Path>, k2: set<Path>, path: Path, budget: nat)
    requires |path| == 4 && Built(k0, k1, {path[..1]}, budget, true) && Built(k1, k2, {path[..2]}, budget, false)
    ensures Built(k0, k2, Above(path), budget, false)
  {
    hide Built;
    BuiltMore(k0, k1, k2, {path[..1]}, {path[..2]}, budget, false);
    BuiltNever(k0, k2, {path[..1]} + {path[..2]}, Above(path), budget);
  }

  lemma BuiltThree(k0: set<Path>, k1: set<Path>, k2: set<Path>, k3: set<Path>, path: Path, budget: nat, ok: bool)
    requires |path| == 4 && Built(k0, k1, {path[..1]}, budget, true) && Built(k1, k2, {path[..2]}, budget, true)
    requires Built(k2, k3, {path[..3]}, budget, ok)
    ensures Built(k0, k3, Above(path), budget, ok)
  {
    hide Built;
    BuiltMore(k0, k1, k2, {path[..1]}, {path[..2]}, budget, true);
    BuiltMore(k0, k2, k3, {path[..1]} + {path[..2]}, {path[..3]}, budget, ok);
    assert {path[..1]} + {path[..2]} + {path[..3]} == Above(path);
  }

  lemma BuiltNext(k0: set<Path>, k1: set<Path>, k2: set<Path>, address: nat, i: nat, budget: nat, ok: bool)
    requires Built(k0, k1, TablesFor(address, i), budget, true) && Built(k1, k2, Above(Nth(address, i)), budget, ok)
    ensures Built(k0, k2, TablesFor(address, i + 1), budget, ok)
  {
    hide Built, TablesFor, Above;
    TablesForMore(address, i);
    BuiltMore(k0, k1, k2, TablesFor(address, i), Above(Nth(address, i)), budget, ok);
  }

  /** Where there is no memory for some tables there is none for more. */
  lemma BuiltNever(k: set<Path>, k': set<Path>, p: set<Path>, more: set<Path>, budget: nat)
    requires Built(k, k', p, budget, false) && p <= more
    ensures Built(k, k', more, budget, false)
  {
    Fewer(k + p, k + more);
  }

  lemma TablesGrow(address: nat, i: nat, pages: nat)
    requires i <= pages
    ensures TablesFor(address, i) <= TablesFor(address, pages)
  {
    hide Indexes, Above;
  }

  ghost predicate FramesInUse(at: Places, bits: seq<bool>) {
    forall p :: p in at ==> at[p] < |bits| && bits[at[p]]
  }

  lemma OneMoreInUse(at: Places, bits: seq<bool>, p: Path, g: nat)
    requires FramesInUse(at, bits) && g < |bits| && bits[g]
    ensures FramesInUse(at[p := g], bits)
  {
  }

  lemma TableFacts(tables: Tables, root: nat, at: Places, p: Path, i: nat)
    requires TreeOk(tables, root, at) && p in at && i < ENTRIES
    ensures at[p] in tables && |tables[at[p]]| == ENTRIES && EntryOk(tables[at[p]][i]) && |p| <= 3 && PathOk(p)
    ensures EntryAt(tables, at[p], i) == tables[at[p]][i]
    ensures |p| < 3 ==> (Present(tables[at[p]][i]) <==> p + [i] in at)
    ensures |p| < 3 && p + [i] in at ==> at[p + [i]] == tables[at[p]][i].frame
  {
    assert TableOk(tables, at, p);
  }

  /** A frame that was free is not the frame of a table. */
  lemma FreshFrame(at: Places, bits: seq<bool>, behind: bool, hint: nat, index: nat)
    requires FramesInUse(at, bits) && IsFirstRun(bits, behind, hint, 1, index)
    ensures index !in at.Values && FramesInUse(at, bits[index := true])
  {
    assert !InUse(bits, behind, index);
  }

  lemma NewEntry(e: Entry, frame: nat)
    requires EntryOk(e)
    ensures EntryOk(PresentEntry(e, frame)) && Present(PresentEntry(e, frame)) && (Writable(PresentEntry(e, frame)) <==> Writable(e))
    ensures PresentEntry(e, frame).frame == frame % FRAMES
  {
    WithBitOk(e.(frame := frame % FRAMES), PRESENT, true);
  }

  /** All that a new table changes and keeps. */
  lemma NewTable(tables: Tables, root: nat, at: Places, p: Path, i: nat, g: nat, e: Entry)
    requires TreeOk(tables, root, at) && p in at && |p| < 3 && i < ENTRIES
    requires !Present(EntryAt(tables, at[p], i)) && g !in at.Values
    requires EntryOk(e) && e.frame == g && Present(e) && (Writable(e) <==> Writable(EntryAt(tables, at[p], i)))
    ensures at[p] in tables && at[p] != g && |tables[at[p]]| == ENTRIES
    ensures var tables', at' := WithEntry(tables[g := EMPTY_TABLE], at[p], i, e), at[p + [i] := g];
            && TreeOk(tables', root, at') && (ParentsWritable(tables, at) ==> ParentsWritable(tables', at'))
            && forall path :: |path| == 4 && PathOk(path) ==> Leaf(tables', at', path) == Leaf(tables, at, path)
  {
    hide ParentsWritable;
    assert p + [i] !in at by { assert TableOk(tables, at, p); }
    NewTableKeepsTree(tables, root, at, p, i, g, e);
    if ParentsWritable(tables, at) {
      NewTableParents(tables, root, at, p, i, g, e);
    }
    forall path | |path| == 4 && PathOk(path)
      ensures Leaf(WithEntry(tables[g := EMPTY_TABLE], at[p], i, e), at[p + [i] := g], path) == Leaf(tables, at, path)
    {
      NewTableLeaf(tables, root, at, p, i, g, e, path);
    }
  }

  lemma TopTable(tables: Tables, root: nat, at: Places)
    requires TreeOk(tables, root, at)
    ensures [] in at && at[[]] == root
  {
  }

  lemma SameWritable(tables: Tables, at: Places, p: Path, i: nat, e: Entry)
    requires p in at && (Writable(e) <==> Writable(EntryAt(tables, at[p], i)))
    ensures AllowedHere(tables, at, p, i, e)
  {
  }

  /** The four entries that were changed, one in each of the tables on the way. */
  lemma FourEntries(tables: Tables, tables': Tables, at: Places, path: Path, b: nat, value: bool)
    requires |path| == 4 && PathOk(path)
    requires forall q, j :: q in at && 0 <= j < ENTRIES ==>
               EntryAt(tables', at[q], j) ==
               if (q == path[..0] && j == path[0]) || (q == path[..1] && j == path[1]) || (q == path[..2] && j == path[2]) || (q == path[..3] && j == path[3])
               then WithBit(EntryAt(tables, at[q], j), b, value) else EntryAt(tables, at[q], j)
    ensures FlaggedAlong(tables, tables', at, path, b, value)
  {
    hide WithBit, EntryAt;
    forall q: Path, j: nat
      ensures OnTheWay(path, q, j) <==> (q == path[..0] && j == path[0]) || (q == path[..1] && j == path[1]) || (q == path[..2] && j == path[2]) || (q == path[..3] && j == path[3])
    {
    }
  }

  lemma LeafIs(tables: Tables, at: Places, path: Path)
    requires |path| == 4 && path[..3] in at
    ensures Leaf(tables, at, path) == EntryAt(tables, at[path[..3]], path[3])
  {
  }

  lemma ShapeFacts(tables: Tables, root: nat, at: Places, p: Path, i: nat)
    requires ShapeOk(tables, root, at) && p in at && i < ENTRIES
    ensures at[p] in tables && |tables[at[p]]| == ENTRIES && EntryOk(tables[at[p]][i])
    ensures EntryAt(tables, at[p], i) == tables[at[p]][i]
    ensures |p| < 3 && p + [i] in at ==> tables[at[p]][i].frame == at[p + [i]]
  {
    assert TableShape(tables, at, p);
  }

  lemma ShapeTop(tables: Tables, root: nat, at: Places)
    requires ShapeOk(tables, root, at)
    ensures [] in at && at[[]] == root
  {
  }

  lemma FlagsOnly(e: Entry, b: nat, value: bool)
    requires EntryOk(e) && 0 < b < 12
    ensures SameTarget(e, WithBit(e, b, value))
    ensures Writable(WithBit(e, b, value)) <==> if b == WRITABLE then value else Writable(e)
  {
    WithBitOk(e, b, value);
  }

  /** What a new leaf means for the walks of the processor. */
  lemma Translates(tables: Tables, at: Places, tables': Tables, at': Places, root: nat, path: Path, frame: nat, ok: bool)
    requires TreeOk(tables, root, at) && TreeOk(tables', root, at') && |path| == 4 && PathOk(path)
    requires forall q :: |q| == 4 && PathOk(q) ==>
               Leaf(tables', at', q) == if ok && q == path then PresentEntry(Leaf(tables, at, q), frame) else Leaf(tables, at, q)
    ensures ok ==> Mapped(tables', root, path) && Frame(tables', root, path) == frame % FRAMES
    ensures forall q :: |q| == 4 && PathOk(q) && !(ok && q == path) ==>
              && (Mapped(tables', root, q) <==> Mapped(tables, root, q))
              && (Mapped(tables', root, q) ==> Frame(tables', root, q) == Frame(tables, root, q))
  {
    hide Mapped, Frame, Leaf, TreeOk;
    if ok {
      LeafOk(tables, root, at, path);
      NewEntry(Leaf(tables, at, path), frame);
      MappedIs(tables', root, at', path);
    }
    forall q | |q| == 4 && PathOk(q) && !(ok && q == path)
      ensures Mapped(tables', root, q) <==> Mapped(tables, root, q)
      ensures Mapped(tables', root, q) ==> Frame(tables', root, q) == Frame(tables, root, q)
    {
      LeafDecides(tables, at, tables', at', root, q);
    }
  }

  lemma LeafOk(tables: Tables, root: nat, at: Places, path: Path)
    requires TreeOk(tables, root, at) && |path| == 4 && PathOk(path)
    ensures EntryOk(Leaf(tables, at, path))
  {
    EmptyIs();
    if path[..3] in at {
      assert TableOk(tables, at, path[..3]);
    }
  }

  lemma NthInRange(address: nat, i: nat, pages: nat)
    requires i < pages
    ensures InRange(Nth(address, i), address, pages) && |Nth(address, i)| == 4 && PathOk(Nth(address, i))
  {
  }

  /** Every table on the way to a mapped page exists. */
  lemma AllTables(tables: Tables, root: nat, at: Places, path: Path)
    requires TreeOk(tables, root, at) && |path| == 4 && Present(Leaf(tables, at, path))
    ensures path[..0] in at && path[..1] in at && path[..2] in at && path[..3] in at
  {
    EmptyIs();
    assert path[..3] in at;
    Prefixes(tables, root, at, path[..3], 0);
    Prefixes(tables, root, at, path[..3], 1);
    Prefixes(tables, root, at, path[..3], 2);
    assert path[..3][..0] == path[..0] && path[..3][..1] == path[..1] && path[..3][..2] == path[..2];
  }

  /** Flags other than presence, and presence of what is present, do not change translations. */
  lemma Unmoved(tables: Tables, tables': Tables, root: nat, at: Places, address: nat, pages: nat, b: nat, value: bool)
    requires TreeOk(tables, root, at) && TreeOk(tables', root, at) && b < 12 && !(b == PRESENT && !value)
    requires FlaggedIn(tables, tables', at, address, pages, b, value) && AllMapped(tables, at, address, pages)
    ensures forall path :: |path| == 4 && PathOk(path) ==>
              && Leaf(tables', at, path) == (if InRange(path, address, pages) then WithBit(Leaf(tables, at, path), b, value) else Leaf(tables, at, path))
              && (Mapped(tables', root, path) <==> Mapped(tables, root, path))
              && (Mapped(tables', root, path) ==> Frame(tables', root, path) == Frame(tables, root, path))
  {
    hide Mapped, Frame, TreeOk, InRange, AllMapped, FlaggedIn, Present, WithBit, Leaf;
    forall path | |path| == 4 && PathOk(path)
      ensures Leaf(tables', at, path) == if InRange(path, address, pages) then WithBit(Leaf(tables, at, path), b, value) else Leaf(tables, at, path)
      ensures Mapped(tables', root, path) <==> Mapped(tables, root, path)
      ensures Mapped(tables', root, path) ==> Frame(tables', root, path) == Frame(tables, root, path)
    {
      UnmovedLeaf(tables, tables', root, at, address, pages, b, value, path);
      LeafDecides(tables, at, tables', at, root, path);
    }
  }

  lemma UnmovedLeaf(tables: Tables, tables': Tables, root: nat, at: Places, address: nat, pages: nat, b: nat, value: bool, path: Path)
    requires TreeOk(tables, root, at) && b < 12 && !(b == PRESENT && !value) && |path| == 4 && PathOk(path)
    requires FlaggedIn(tables, tables', at, address, pages, b, value) && AllMapped(tables, at, address, pages)
    ensures Leaf(tables', at, path) == if InRange(path, address, pages) then WithBit(Leaf(tables, at, path), b, value) else Leaf(tables, at, path)
    ensures Present(Leaf(tables', at, path)) <==> Present(Leaf(tables, at, path))
    ensures Leaf(tables', at, path).frame == Leaf(tables, at, path).frame
  {
    hide TreeOk, FlaggedIn, Present, WithBit, Indexes;
    if path[..3] in at {
      FlaggedLeaf(tables, tables', at, address, pages, b, value, path);
      StaysPresent(tables, tables', root, at, address, pages, b, value, path[..3], path[3]);
    } else if InRange(path, address, pages) {
      var n: nat :| n < pages && path == Nth(address, n);
      assert Present(Leaf(tables, at, path));
      AllTables(tables, root, at, path);
    }
  }

  lemma PrunedInUse(at: Places, address: nat, pages: nat, bits: seq<bool>)
    requires FramesInUse(at, bits)
    ensures FramesInUse(Pruned(at, address, pages), bits)
  {
  }

  lemma PrunedParents(tables: Tables, tables': Tables, root: nat, at: Places, address: nat, pages: nat)
    requires TreeOk(tables, root, at) && ParentsWritable(tables, at) && FlaggedIn(tables, tables', at, address, pages, PRESENT, false)
    requires TreeOk(tables', root, Pruned(at, address, pages))
    ensures ParentsWritable(tables', Pruned(at, address, pages))
  {
    hide FlaggedIn, SharesTop;
    var at' := Pruned(at, address, pages);
    FlaggedParents(tables, tables', root, at, address, pages, PRESENT, false);
    forall p, i | p in at' && 0 < |p| && 0 <= i < ENTRIES && Writable(EntryAt(tables', at'[p], i))
      ensures p[..|p| - 1] in at' && Writable(EntryAt(tables', at'[p[..|p| - 1]], p[|p| - 1]))
    {
      assert TableOk(tables', at', p);
      assert Writable(EntryAt(tables', at[p], i));
    }
  }

  /** Without the presence of their top-level entries, exactly the pages below them are gone. */
  lemma Unmapped(tables: Tables, tables': Tables, root: nat, at: Places, address: nat, pages: nat)
    requires TreeOk(tables, root, at) && FlaggedIn(tables, tables', at, address, pages, PRESENT, false)
    requires TreeOk(tables', root, Pruned(at, address, pages))
    ensures forall path :: |path| == 4 && PathOk(path) ==>
              && (Mapped(tables', root, path) <==> Mapped(tables, root, path) && !SharesTop(path, address, pages))
              && (Mapped(tables', root, path) ==> Frame(tables', root, path) == Frame(tables, root, path))
  {
    hide Mapped, Frame, TreeOk, FlaggedIn, Present, Leaf, Pruned, SharesTop;
    assert !Present(EMPTY) by { EmptyIs(); }
    forall path | |path| == 4 && PathOk(path)
      ensures Mapped(tables', root, path) <==> Mapped(tables, root, path) && !SharesTop(path, address, pages)
      ensures Mapped(tables', root, path) ==> Frame(tables', root, path) == Frame(tables, root, path)
    {
      PrunedLeaf(tables, tables', root, at, address, pages, path);
      MappedIs(tables, root, at, path);
      MappedIs(tables', root, Pruned(at, address, pages), path);
    }
  }

  lemma Consecutive(physical: nat, i: nat)
    ensures (physical + MEMORY_PAGE_SIZE * i) / MEMORY_PAGE_SIZE == physical / MEMORY_PAGE_SIZE + i
  {
  }

  /** The first `n` pages from `address` on were mapped, and no others. */
  ghost predicate RunMapped(tables: Tables, at: Places, tables': Tables, at': Places, address: nat, frame: nat, n: nat) {
    && (forall i: nat :: i < n ==> Leaf(tables', at', Nth(address, i)) == PresentEntry(Leaf(tables, at, Nth(address, i)), frame + i))
    && (forall path :: |path| == 4 && PathOk(path) && !InRange(path, address, n) ==> Leaf(tables', at', path) == Leaf(tables, at, path))
  }

  lemma NoneMapped(tables: Tables, at: Places, address: nat, frame: nat)
    ensures RunMapped(tables, at, tables, at, address, frame, 0)
  {
  }

  lemma OneMoreMapped(tables: Tables, at: Places, t1: Tables, a1: Places, t2: Tables, a2: Places, address: nat, frame: nat, n: nat, ok: bool)
    requires RunMapped(tables, at, t1, a1, address, frame, n) && n < VIRTUAL_PAGES
    requires forall path :: |path| == 4 && PathOk(path) ==>
               Leaf(t2, a2, path) == if ok && path == Nth(address, n) then PresentEntry(Leaf(t1, a1, path), frame + n) else Leaf(t1, a1, path)
    ensures RunMapped(tables, at, t2, a2, address, frame, if ok then n + 1 else n)
  {
    hide Leaf, PresentEntry, Indexes, InRange;
    forall i: nat | i < n
      ensures Nth(address, i) != Nth(address, n) && InRange(Nth(address, i), address, n)
    {
      DifferentPages(address, i, n);
      NthInRange(address, i, n);
    }
    NotYetInRange(address, n);
    forall path | |path| == 4 && PathOk(path)
      ensures InRange(path, address, n + 1) <==> InRange(path, address, n) || path == Nth(address, n)
    {
      OneMore(path, address, n);
    }
  }

  lemma NotYetInRange(address: nat, n: nat)
    requires n < VIRTUAL_PAGES
    ensures !InRange(Nth(address, n), address, n) && |Nth(address, n)| == 4 && PathOk(Nth(address, n))
  {
    hide Indexes;
    forall i: nat | i < n
      ensures Nth(address, i) != Nth(address, n)
    {
      DifferentPages(address, i, n);
    }
    NthInRange(address, n, n + 1);
  }

  lemma RunTranslates(tables: Tables, at: Places, tables': Tables, at': Places, root: nat, address: nat, frame: nat, n: nat, pages: nat)
    requires TreeOk(tables, root, at) && TreeOk(tables', root, at') && n <= pages
    requires RunMapped(tables, at, tables', at', address, frame, n)
    ensures forall i: nat :: i < n ==>
              Mapped(tables', root, Nth(address, i)) && Frame(tables', root, Nth(address, i)) == (frame + i) % FRAMES
    ensures forall path :: |path| == 4 && PathOk(path) && !InRange(path, address, pages) ==>
              && (Mapped(tables', root, path) <==> Mapped(tables, root, path))
              && (Mapped(tables', root, path) ==> Frame(tables', root, path) == Frame(tables, root, path))
  {
    hide Mapped, Frame, Leaf, TreeOk, InRange;
    forall i: nat | i < n
      ensures Mapped(tables', root, Nth(address, i)) && Frame(tables', root, Nth(address, i)) == (frame + i) % FRAMES
    {
      NthInRange(address, i, pages);
      LeafOk(tables, root, at, Nth(address, i));
      NewEntry(Leaf(tables, at, Nth(address, i)), frame + i);
      MappedIs(tables', root, at', Nth(address, i));
    }
    forall path | |path| == 4 && PathOk(path) && !InRange(path, address, pages)
      ensures Mapped(tables', root, path) <==> Mapped(tables, root, path)
      ensures Mapped(tables', root, path) ==> Frame(tables', root, path) == Frame(tables, root, path)
    {
      LargerRange(path, address, n, pages);
      LeafDecides(tables, at, tables', at', root, path);
    }
  }

  lemma LargerRange(path: Path, address: nat, n: nat, pages: nat)
    requires n <= pages && !InRange(path, address, pages)
    ensures !InRange(path, address, n)
  {
  }
}
