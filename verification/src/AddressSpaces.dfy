/**
 The simple thing that the page tables stand for: a map from virtual pages to frames, and a set of pages that can be
 written to. `paging_init` and every run of mappings and of calls that make pages writable are followed on it.
 */
module AddressSpaces {
  import opened PageEntries
  import opened PageTables
  import opened TreeEdits
  import opened PageFrames
  import opened Paging

  datatype Space = Space(frames: map<Path, nat>, writable: set<Path>)

  /** The pages from an address on. */
  ghost function Range(address: nat, pages: nat): set<Path> { set i: nat | i < pages :: Nth(address, i) }

  ghost function Mapping(sp: Space, address: nat, frame: nat): Space {
    sp.(frames := sp.frames[Indexes(address) := frame % FRAMES])
  }

  ghost function Making(sp: Space, pages: set<Path>): Space { sp.(writable := sp.writable + pages) }

  /** The leaf for a path says what the space says. */
  ghost predicate Agrees(e: Entry, sp: Space, path: Path) {
    && (Present(e) <==> path in sp.frames)
    && (path in sp.frames ==> e.frame == sp.frames[path])
    && (Writable(e) <==> path in sp.writable)
    && (path in sp.writable ==> path in sp.frames)
  }

  ghost predicate Stands(m: Pager, sp: Space)
    reads m, m.alloc, m.alloc.frames, m.alloc.frames.buffer
  {
    m.Valid() && m.Orderly() && forall path :: |path| == 4 && PathOk(path) ==> Agrees(m.LeafOf(path), sp, path)
  }

  /** With so many frames for tables, counting those that are tables already. */
  ghost predicate Funded(m: Pager, sp: Space, budget: nat)
    reads m, m.alloc, m.alloc.frames, m.alloc.frames.buffer
  {
    Stands(m, sp) && m.Budget() == budget
  }

  /** What the processor finds is what the space says: its translation, and whether it can be written to. */
  lemma WalksFollow(m: Pager, sp: Space, path: Path)
    requires Stands(m, sp) && |path| == 4 && PathOk(path)
    ensures Mapped(m.tables, m.root, path) <==> path in sp.frames
    ensures path in sp.frames ==> Frame(m.tables, m.root, path) == sp.frames[path]
    ensures CanWrite(m.tables, m.root, path) <==> path in sp.writable
  {
    hide Mapped, Frame, CanWrite, TreeOk, ParentsWritable, FramesInUse, Leaf;
    MappedIs(m.tables, m.root, m.at, path);
    CanWriteIs(m.tables, m.root, m.at, path);
    assert Agrees(m.LeafOf(path), sp, path);
  }

  // ---------------------------------------------------------------- one page

  lemma MappingAgrees(e: Entry, sp: Space, address: nat, frame: nat, path: Path)
    requires EntryOk(e) && Agrees(e, sp, path)
    ensures Agrees(if path == Indexes(address) then PresentEntry(e, frame) else e, Mapping(sp, address, frame), path)
  {
    hide Present, Writable, Indexes;
    NewEntry(e, frame);
  }

  method MapOne(m: Pager, address: nat, physical: nat, ghost sp: Space, ghost budget: nat) returns (ok: bool, ghost sp': Space)
    requires Funded(m, sp, budget)
    modifies m`tables, m`at, m.alloc, m.alloc.frames.buffer
    ensures Funded(m, sp', budget) && sp' == if ok then Mapping(sp, address, physical / MEMORY_PAGE_SIZE) else sp
    ensures Built(old(m.at.Keys), m.at.Keys, Above(Indexes(address)), budget, ok)
  {
    hide TreeOk, ParentsWritable, Leaf, FramesInUse, PresentEntry, Indexes, Mapped, Frame, Agrees, Built, Above, Pager.Budget;
    ok := m.MapPage(address, physical);
    sp' := if ok then Mapping(sp, address, physical / MEMORY_PAGE_SIZE) else sp;
    if ok {
      forall path | |path| == 4 && PathOk(path)
        ensures Agrees(m.LeafOf(path), sp', path)
      {
        LeafOk(old(m.tables), m.root, old(m.at), path);
        MappingAgrees(old(m.LeafOf(path)), sp, address, physical / MEMORY_PAGE_SIZE, path);
      }
    }
  }

  // ---------------------------------------------------------------- writable pages

  lemma MakingAgrees(e: Entry, sp: Space, pages: set<Path>, path: Path)
    requires EntryOk(e) && Agrees(e, sp, path) && (path in pages ==> path in sp.frames)
    ensures Agrees(if path in pages then WithBit(e, WRITABLE, true) else e, Making(sp, pages), path)
  {
    FlagsOnly(e, WRITABLE, true);
  }

  lemma RangeIs(path: Path, address: nat, pages: nat)
    ensures path in Range(address, pages) <==> InRange(path, address, pages)
  {
  }

  /** `paging_set_writable` */
  method MakeWritable(m: Pager, address: nat, pages: nat, ghost sp: Space, ghost budget: nat) returns (ghost sp': Space)
    requires Funded(m, sp, budget) && forall path :: path in Range(address, pages) ==> path in sp.frames
    modifies m`tables, m`at
    ensures Funded(m, sp', budget) && sp' == Making(sp, Range(address, pages)) && m.at == old(m.at)
  {
    hide TreeOk, ParentsWritable, Leaf, FramesInUse, PresentEntry, Indexes, Mapped, Frame, Agrees, InRange, WithBit, Range, FreeFrom, SharesTop, CanWrite;
    forall n: nat | n < pages
      ensures Present(Leaf(m.tables, m.at, Nth(address, n)))
    {
      NthInRange(address, n, pages);
      RangeIs(Nth(address, n), address, pages);
      PresentIf(m.LeafOf(Nth(address, n)), sp, Nth(address, n));
    }
    m.SetAttribute(address, pages, WRITABLE, true);
    sp' := Making(sp, Range(address, pages));
    forall path | |path| == 4 && PathOk(path)
      ensures Agrees(m.LeafOf(path), sp', path)
    {
      LeafOk(old(m.tables), m.root, m.at, path);
      RangeIs(path, address, pages);
      MakingAgrees(old(m.LeafOf(path)), sp, Range(address, pages), path);
    }
  }

  lemma PresentIf(e: Entry, sp: Space, path: Path)
    requires Agrees(e, sp, path) && path in sp.frames
    ensures Present(e)
  {
  }

  // ---------------------------------------------------------------- runs

  datatype Command = MapPage(address: nat, physical: nat) | SetWritable(address: nat, pages: nat)

  /** The simple machine. */
  ghost function After(cmds: seq<Command>): Space
    decreases |cmds|
  {
    if cmds == [] then Space(map[], {})
    else
      var sp := After(cmds[..|cmds| - 1]);
      match cmds[|cmds| - 1]
      case MapPage(address, physical) => Mapping(sp, address, physical / MEMORY_PAGE_SIZE)
      case SetWritable(address, pages) => Making(sp, Range(address, pages))
  }

  /** "Assumes the page has been mapped previously" */
  ghost predicate Proper(cmds: seq<Command>) {
    forall j :: 0 <= j < |cmds| && cmds[j].SetWritable? ==>
      Range(cmds[j].address, cmds[j].pages) <= After(cmds[..j]).frames.Keys
  }

  /** The tables that the mappings need. */
  ghost function Needed(cmds: seq<Command>): set<Path>
    decreases |cmds|
  {
    if cmds == [] then {}
    else
      Needed(cmds[..|cmds| - 1]) +
      match cmds[|cmds| - 1]
      case MapPage(address, _) => Above(Indexes(address))
      case SetWritable(_, _) => {}
  }

  lemma {:induction false} NeededGrows(cmds: seq<Command>, i: nat)
    requires i <= |cmds|
    ensures Needed(cmds[..i]) <= Needed(cmds)
    decreases |cmds|
  {
    hide Indexes, Above;
    if i < |cmds| {
      var front := cmds[..|cmds| - 1];
      NeededGrows(front, i);
      assert front[..i] == cmds[..i];
    } else {
      assert cmds[..i] == cmds;
    }
  }

  lemma NeededMore(k0: set<Path>, k1: set<Path>, k2: set<Path>, cmds: seq<Command>, i: nat, budget: nat, ok: bool)
    requires i < |cmds| && Built(k0, k1, Needed(cmds[..i]), budget, true)
    requires if cmds[i].MapPage? then Built(k1, k2, Above(Indexes(cmds[i].address)), budget, ok) else k2 == k1 && ok
    ensures Built(k0, k2, Needed(cmds[..i + 1]), budget, ok)
    ensures !ok ==> Built(k0, k2, Needed(cmds), budget, false)
  {
    hide Indexes, Above, Built;
    assert cmds[..i + 1][..i] == cmds[..i];
    if cmds[i].MapPage? {
      BuiltMore(k0, k1, k2, Needed(cmds[..i]), Above(Indexes(cmds[i].address)), budget, ok);
    } else {
      assert Needed(cmds[..i + 1]) == Needed(cmds[..i]);
    }
    NeededGrows(cmds, i + 1);
    if !ok {
      BuiltNever(k0, k2, Needed(cmds[..i + 1]), Needed(cmds), budget);
    }
  }

  lemma AfterMore(cmds: seq<Command>, i: nat)
    requires i < |cmds|
    ensures After(cmds[..i + 1]) ==
              match cmds[i]
              case MapPage(address, physical) => Mapping(After(cmds[..i]), address, physical / MEMORY_PAGE_SIZE)
              case SetWritable(address, pages) => Making(After(cmds[..i]), Range(address, pages))
  {
    assert cmds[..i + 1][..i] == cmds[..i];
  }

  /**
   Every run on the tables does what the simple machine does. It gets through exactly if there are as many frames as
   the mappings need tables, and otherwise stops at the first mapping for which there are not enough.
   */
  method Run(m: Pager, cmds: seq<Command>, ghost budget: nat) returns (ok: bool, ghost done: nat)
    requires Funded(m, Space(map[], {}), budget) && Proper(cmds)
    modifies m`tables, m`at, m.alloc, m.alloc.frames.buffer
    ensures Built(old(m.at.Keys), m.at.Keys, Needed(cmds), budget, ok)
    ensures done <= |cmds| && (ok <==> done == |cmds|) && Funded(m, After(cmds[..done]), budget)
  {
    hide Funded, Mapping, Making, Range, Built, Needed, After, Above;
    NothingDone();
    assert cmds[..0] == [];
    ghost var sp := After([]);
    FundedBuilt(m, sp, budget);
    ok, done := true, 0;
    var i := 0;
    while i < |cmds|
      invariant ok && i <= |cmds| && sp == After(cmds[..i]) && Funded(m, sp, budget)
      invariant Built(old(m.at.Keys), m.at.Keys, Needed(cmds[..i]), budget, true)
    {
      ghost var k1 := m.at.Keys;
      AfterMore(cmds, i);
      match cmds[i] {
        case MapPage(address, physical) =>
          ok, sp := MapOne(m, address, physical, sp, budget);
        case SetWritable(address, pages) =>
          sp := MakeWritable(m, address, pages, sp, budget);
      }
      NeededMore(old(m.at.Keys), k1, m.at.Keys, cmds, i, budget, ok);
      if !ok {
        done := i;
        return;
      }
      i := i + 1;
    }
    done := i;
    assert cmds[..i] == cmds;
  }

  lemma FundedBuilt(m: Pager, sp: Space, budget: nat)
    requires Funded(m, sp, budget)
    ensures Built(m.at.Keys, m.at.Keys, {}, budget, true)
  {
    NothingBuilt(m.at.Keys, budget);
  }

  lemma NothingDone()
    ensures After([]) == Space(map[], {}) && Needed([]) == {}
  {
  }

  /** The pages that can be written to are exactly those that some call named. */
  lemma {:induction false} WritableExactly(cmds: seq<Command>, path: Path)
    ensures path in After(cmds).writable <==>
              exists j :: 0 <= j < |cmds| && cmds[j].SetWritable? && InRange(path, cmds[j].address, cmds[j].pages)
    decreases |cmds|
  {
    if cmds != [] {
      var last := |cmds| - 1;
      var front := cmds[..last];
      WritableExactly(front, path);
      assert forall j :: 0 <= j < last ==> front[j] == cmds[j];
      if cmds[last].SetWritable? {
        RangeIs(path, cmds[last].address, cmds[last].pages);
      }
    }
  }

  /** A page translates to the frame of the last mapping for it. */
  lemma {:induction false} LastMappingWins(cmds: seq<Command>, j: nat)
    requires j < |cmds| && cmds[j].MapPage?
    requires forall k :: j < k < |cmds| && cmds[k].MapPage? ==> Indexes(cmds[k].address) != Indexes(cmds[j].address)
    ensures var path := Indexes(cmds[j].address);
            path in After(cmds).frames && After(cmds).frames[path] == cmds[j].physical / MEMORY_PAGE_SIZE % FRAMES
    decreases |cmds|
  {
    hide Indexes;
    var last := |cmds| - 1;
    if j < last {
      LastMappingWins(cmds[..last], j);
    }
  }

  /** The tables that a run needs are those on the way to some page that it maps. */
  lemma {:induction false} NeededMeans(cmds: seq<Command>, p: Path)
    ensures p in Needed(cmds) <==>
              exists j, n :: 0 <= j < |cmds| && cmds[j].MapPage? && 1 <= n <= 3 && p == Indexes(cmds[j].address)[..n]
    decreases |cmds|
  {
    hide Indexes;
    if cmds != [] {
      var last := |cmds| - 1;
      var front := cmds[..last];
      NeededMeans(front, p);
      assert forall j :: 0 <= j < last ==> front[j] == cmds[j];
      if cmds[last].MapPage? {
        var path := Indexes(cmds[last].address);
        assert p in Above(path) <==> p == path[..1] || p == path[..2] || p == path[..3];
      }
    }
  }

  /** What a run can spend: the tables that exist and the free frames from the index on. */
  lemma BudgetMeans(m: Pager)
    requires m.Valid()
    ensures m.Budget() == |m.at.Keys| + |set i | m.alloc.current <= i < |m.alloc.Bits()| && !m.alloc.Bits()[i]|
  {
    hide FreeFrom, TreeOk, FramesInUse;
    FreeFromMeans(m.alloc.Bits(), m.alloc.current);
  }

  /** A run of mappings and of calls that make pages writable, as the processor sees it. */
  lemma RunSeen(m: Pager, cmds: seq<Command>, path: Path)
    requires Stands(m, After(cmds)) && |path| == 4 && PathOk(path)
    ensures CanWrite(m.tables, m.root, path) <==>
              exists j :: 0 <= j < |cmds| && cmds[j].SetWritable? && InRange(path, cmds[j].address, cmds[j].pages)
    ensures Mapped(m.tables, m.root, path) <==> exists j :: 0 <= j < |cmds| && cmds[j].MapPage? && path == Indexes(cmds[j].address)
  {
    hide Stands, CanWrite, Mapped;
    WalksFollow(m, After(cmds), path);
    WritableExactly(cmds, path);
    MappedExactly(cmds, path);
  }

  lemma {:induction false} MappedExactly(cmds: seq<Command>, path: Path)
    ensures path in After(cmds).frames <==> exists j :: 0 <= j < |cmds| && cmds[j].MapPage? && path == Indexes(cmds[j].address)
    decreases |cmds|
  {
    hide Indexes;
    if cmds != [] {
      var last := |cmds| - 1;
      var front := cmds[..last];
      MappedExactly(front, path);
      assert forall j :: 0 <= j < last ==> front[j] == cmds[j];
    }
  }
}
