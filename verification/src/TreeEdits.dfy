/**
 The three ways in which `paging.c` edits the tables: a new table below an entry, a new leaf, and new flags.
 */
module TreeEdits {
  import opened BinMaps
  import opened PageEntries
  import opened PageTables

  function WithEntry(tables: Tables, f: nat, i: nat, e: Entry): Tables
    requires f in tables && i < |tables[f]|
  {
    tables[f := tables[f][i := e]]
  }

  const EMPTY_TABLE: seq<Entry> := seq(ENTRIES, _ => EMPTY)

  /** An entry that allows writing has only such entries above it. */
  ghost predicate ParentsWritable(tables: Tables, at: Places) {
    forall p, i {:trigger EntryAt(tables, at[p], i)} :: p in at && 0 < |p| && 0 <= i < ENTRIES && Writable(EntryAt(tables, at[p], i)) ==>
      p[..|p| - 1] in at && Writable(EntryAt(tables, at[p[..|p| - 1]], p[|p| - 1]))
  }

  lemma EmptyIs()
    ensures !Present(EMPTY) && !Writable(EMPTY) && EntryOk(EMPTY)
  {
    BitZero(0);
    BitZero(1);
  }

  // ---------------------------------------------------------------- an entry changes, its table and the tables below stay

  /** The new entry leads where the old one led. */
  ghost predicate SameTarget(e: Entry, e': Entry) { EntryOk(e') && e'.frame == e.frame && (Present(e') <==> Present(e)) }

  lemma UpdateKeepsTree(tables: Tables, root: nat, at: Places, p: Path, i: nat, e: Entry)
    requires TreeOk(tables, root, at) && p in at && i < ENTRIES && EntryOk(e)
    requires |p| < 3 ==> SameTarget(EntryAt(tables, at[p], i), e)
    ensures at[p] in tables && |tables[at[p]]| == ENTRIES && TreeOk(WithEntry(tables, at[p], i, e), root, at)
  {
    assert TableOk(tables, at, p);
    var tables' := WithEntry(tables, at[p], i, e);
    forall q | q in at
      ensures TableOk(tables', at, q)
    {
      assert TableOk(tables, at, q);
      if q != p {
        assert at[q] != at[p];
      }
    }
  }

  /** Only the entry itself changes. */
  lemma UpdateEntries(tables: Tables, root: nat, at: Places, p: Path, i: nat, e: Entry, q: Path, j: nat)
    requires TreeOk(tables, root, at) && p in at && i < ENTRIES && q in at && j < ENTRIES
    ensures at[p] in tables && |tables[at[p]]| == ENTRIES
    ensures EntryAt(WithEntry(tables, at[p], i, e), at[q], j) == if q == p && j == i then e else EntryAt(tables, at[q], j)
  {
    assert TableOk(tables, at, p) && TableOk(tables, at, q);
    if q != p {
      assert at[q] != at[p];
    }
  }

  lemma UpdateLeaf(tables: Tables, root: nat, at: Places, p: Path, i: nat, e: Entry, path: Path)
    requires TreeOk(tables, root, at) && p in at && i < ENTRIES && |path| == 4 && PathOk(path)
    ensures at[p] in tables && |tables[at[p]]| == ENTRIES
    ensures Leaf(WithEntry(tables, at[p], i, e), at, path) == if path == p + [i] then e else Leaf(tables, at, path)
  {
    assert TableOk(tables, at, p);
    var q := path[..3];
    assert path == q + [path[3]];
    OneParent(p, q, i);
    if q in at {
      UpdateEntries(tables, root, at, p, i, e, q, path[3]);
    }
  }

  // ---------------------------------------------------------------- a new table

  /** A table for `p + [i]` in the unused frame `g`. */
  lemma NewTableKeepsTree(tables: Tables, root: nat, at: Places, p: Path, i: nat, g: nat, e: Entry)
    requires TreeOk(tables, root, at) && p in at && |p| < 3 && i < ENTRIES && p + [i] !in at
    requires g !in at.Values && EntryOk(e) && e.frame == g && Present(e)
    ensures at[p] in tables && at[p] != g && |tables[at[p]]| == ENTRIES
    ensures TreeOk(WithEntry(tables[g := EMPTY_TABLE], at[p], i, e), root, at[p + [i] := g])
  {
    EmptyIs();
    assert TableOk(tables, at, p);
    assert at[p] in at.Values;
    var tables' := WithEntry(tables[g := EMPTY_TABLE], at[p], i, e);
    var n := p + [i];
    var at' := at[n := g];
    forall q | q in at'
      ensures TableOk(tables', at', q)
    {
      if q == n {
        assert n[..|n| - 1] == p;
        NothingBelow(tables, root, at, n);
      } else {
        assert TableOk(tables, at, q) && at[q] in at.Values;
        OneParent(p, q, i);
      }
    }
    forall q, r | q in at' && r in at' && at'[q] == at'[r]
      ensures q == r
    {
      assert q in at ==> at[q] in at.Values;
      assert r in at ==> at[r] in at.Values;
    }
  }

  lemma NothingBelow(tables: Tables, root: nat, at: Places, n: Path)
    requires TreeOk(tables, root, at) && n !in at
    ensures forall j: nat :: n + [j] !in at
  {
    forall j: nat
      ensures n + [j] !in at
    {
      if n + [j] in at {
        ParentThere(tables, root, at, n, j);
      }
    }
  }

  lemma ParentThere(tables: Tables, root: nat, at: Places, n: Path, j: nat)
    requires TreeOk(tables, root, at) && n + [j] in at
    ensures n in at
  {
    assert TableOk(tables, at, n + [j]);
    assert (n + [j])[..|n|] == n;
  }

  lemma OneParent(p: Path, q: Path, i: nat)
    ensures forall j :: q + [j] == p + [i] ==> q == p && j == i
  {
    forall j | q + [j] == p + [i]
      ensures q == p && j == i
    {
      assert (q + [j])[|q|] == j && (p + [i])[|p|] == i;
      assert (q + [j])[..|q|] == q && (p + [i])[..|p|] == p;
    }
  }

  lemma NewTableLeaf(tables: Tables, root: nat, at: Places, p: Path, i: nat, g: nat, e: Entry, path: Path)
    requires TreeOk(tables, root, at) && p in at && |p| < 3 && i < ENTRIES && p + [i] !in at && g !in at.Values
    requires |path| == 4 && PathOk(path)
    ensures at[p] in tables && at[p] != g && |tables[at[p]]| == ENTRIES
    ensures Leaf(WithEntry(tables[g := EMPTY_TABLE], at[p], i, e), at[p + [i] := g], path) == Leaf(tables, at, path)
  {
    assert TableOk(tables, at, p) && at[p] in at.Values;
    var q := path[..3];
    if q in at {
      assert TableOk(tables, at, q) && at[q] in at.Values;
      assert q != p;
      assert at[q] != at[p];
    }
  }

  lemma NewTableParents(tables: Tables, root: nat, at: Places, p: Path, i: nat, g: nat, e: Entry)
    requires TreeOk(tables, root, at) && p in at && |p| < 3 && i < ENTRIES && p + [i] !in at && g !in at.Values
    requires ParentsWritable(tables, at) && (Writable(e) <==> Writable(EntryAt(tables, at[p], i)))
    ensures at[p] in tables && at[p] != g && |tables[at[p]]| == ENTRIES
    ensures ParentsWritable(WithEntry(tables[g := EMPTY_TABLE], at[p], i, e), at[p + [i] := g])
  {
    EmptyIs();
    assert TableOk(tables, at, p) && at[p] in at.Values;
    var tables' := WithEntry(tables[g := EMPTY_TABLE], at[p], i, e);
    var n := p + [i];
    var at' := at[n := g];
    forall q, j | q in at' && 0 <= j < ENTRIES
      ensures Writable(EntryAt(tables', at'[q], j)) == (q != n && Writable(EntryAt(tables, at[q], j)))
    {
      if q != n {
        assert TableOk(tables, at, q) && at[q] in at.Values;
        assert q == p || at[q] != at[p];
      }
    }
    forall q, j | q in at' && 0 < |q| && 0 <= j < ENTRIES && Writable(EntryAt(tables', at'[q], j))
      ensures q[..|q| - 1] in at' && Writable(EntryAt(tables', at'[q[..|q| - 1]], q[|q| - 1]))
    {
      var r := q[..|q| - 1];
      assert Writable(EntryAt(tables, at[q], j));
      assert r in at && TableOk(tables, at, q);
      assert r != n;
    }
  }

  // ---------------------------------------------------------------- writability

  /** Writing is not taken away, and is allowed only below entries that allow it. */
  ghost predicate AllowedHere(tables: Tables, at: Places, p: Path, i: nat, e: Entry)
    requires p in at
  {
    || (Writable(e) <==> Writable(EntryAt(tables, at[p], i)))
    || (Writable(e) && AboveWritable(tables, at, p))
  }

  /** The entry that leads to the table for `p`, if there is one, allows writing. */
  ghost predicate AboveWritable(tables: Tables, at: Places, p: Path) {
    |p| == 0 || (p[..|p| - 1] in at && Writable(EntryAt(tables, at[p[..|p| - 1]], p[|p| - 1])))
  }

  lemma UpdateParents(tables: Tables, root: nat, at: Places, p: Path, i: nat, e: Entry)
    requires TreeOk(tables, root, at) && ParentsWritable(tables, at) && p in at && i < ENTRIES && AllowedHere(tables, at, p, i, e)
    ensures at[p] in tables && |tables[at[p]]| == ENTRIES && ParentsWritable(WithEntry(tables, at[p], i, e), at)
  {
    assert TableOk(tables, at, p);
    var tables' := WithEntry(tables, at[p], i, e);
    forall q, j | q in at && 0 < |q| && 0 <= j < ENTRIES && Writable(EntryAt(tables', at[q], j))
      ensures q[..|q| - 1] in at && Writable(EntryAt(tables', at[q[..|q| - 1]], q[|q| - 1]))
    {
      var r := q[..|q| - 1];
      assert TableOk(tables, at, q);
      UpdateEntries(tables, root, at, p, i, e, q, j);
      UpdateEntries(tables, root, at, p, i, e, r, q[|q| - 1]);
      assert q != p || j != i ==> Writable(EntryAt(tables, at[q], j));
      assert Writable(EntryAt(tables, at[r], q[|q| - 1]));
    }
  }

  /** All that changing one entry changes and keeps. */
  lemma Update(tables: Tables, root: nat, at: Places, p: Path, i: nat, e: Entry)
    requires TreeOk(tables, root, at) && p in at && i < ENTRIES && EntryOk(e)
    requires |p| < 3 ==> SameTarget(EntryAt(tables, at[p], i), e)
    ensures at[p] in tables && |tables[at[p]]| == ENTRIES
    ensures var tables' := WithEntry(tables, at[p], i, e);
            && TreeOk(tables', root, at)
            && (ParentsWritable(tables, at) && AllowedHere(tables, at, p, i, e) ==> ParentsWritable(tables', at))
            && (forall q, j :: q in at && 0 <= j < ENTRIES ==>
                  EntryAt(tables', at[q], j) == if q == p && j == i then e else EntryAt(tables, at[q], j))
            && forall path :: |path| == 4 && PathOk(path) ==> Leaf(tables', at, path) == if path == p + [i] then e else Leaf(tables, at, path)
  {
    hide ParentsWritable, AllowedHere;
    UpdateKeepsTree(tables, root, at, p, i, e);
    if ParentsWritable(tables, at) && AllowedHere(tables, at, p, i, e) {
      UpdateParents(tables, root, at, p, i, e);
    }
    var tables' := WithEntry(tables, at[p], i, e);
    forall q, j | q in at && 0 <= j < ENTRIES
      ensures EntryAt(tables', at[q], j) == if q == p && j == i then e else EntryAt(tables, at[q], j)
    {
      UpdateEntries(tables, root, at, p, i, e, q, j);
    }
    forall path | |path| == 4 && PathOk(path)
      ensures Leaf(WithEntry(tables, at[p], i, e), at, path) == if path == p + [i] then e else Leaf(tables, at, path)
    {
      UpdateLeaf(tables, root, at, p, i, e, path);
    }
  }

  /**
   With all parents writable, the leaf alone decides whether a page can be written to, although the entries above it
   are shared with other pages.
   */
  lemma CanWriteIs(tables: Tables, root: nat, at: Places, path: Path)
    requires TreeOk(tables, root, at) && ParentsWritable(tables, at) && |path| == 4 && PathOk(path)
    ensures CanWrite(tables, root, path) <==> Present(Leaf(tables, at, path)) && Writable(Leaf(tables, at, path))
  {
    hide Mapped, CanWrite, Present, Writable;
    FlagsOnTheWay(tables, root, path);
    MappedIs(tables, root, at, path);
    if path[..3] in at {
      assert path[..0] == [] && path[0..] == path;
      WalkAt(tables, root, at, path, 0);
      var w := Walk(tables, root, path);
      assert w[3] == EntryOn(tables, at, path, 3) == Leaf(tables, at, path);
      assert w[3] in w;
      if Writable(w[3]) {
        UpperWritable(tables, root, at, path, 2);
        UpperWritable(tables, root, at, path, 1);
        UpperWritable(tables, root, at, path, 0);
        forall e | e in w
          ensures Writable(e)
        {
          var j :| 0 <= j < |w| && w[j] == e;
        }
      }
    }
  }

  lemma UpperWritable(tables: Tables, root: nat, at: Places, path: Path, k: nat)
    requires TreeOk(tables, root, at) && ParentsWritable(tables, at) && |path| == 4 && PathOk(path) && k < 3 && path[..3] in at
    requires Writable(EntryOn(tables, at, path, k + 1))
    ensures Writable(EntryOn(tables, at, path, k))
  {
    EmptyIs();
    var p := path[..k + 1];
    assert p in at;
    assert p[..|p| - 1] == path[..k] && p[|p| - 1] == path[k];
    assert Writable(EntryAt(tables, at[p], path[k + 1]));
  }

  // ---------------------------------------------------------------- taking writability away

  /** What the processor needs to write to a page. */
  lemma CanWriteNeeds(tables: Tables, root: nat, at: Places, path: Path)
    requires TreeOk(tables, root, at) && |path| == 4 && PathOk(path)
    ensures CanWrite(tables, root, path) <==>
              && Present(Leaf(tables, at, path)) && path[..3] in at
              && forall k :: 0 <= k < 4 ==> Writable(EntryOn(tables, at, path, k))
  {
    hide TreeOk, Present, Writable, EntryOn, Mapped, CanWrite;
    FlagsOnTheWay(tables, root, path);
    MappedIs(tables, root, at, path);
    if path[..3] in at {
      assert path[..0] == [] && path[0..] == path;
      TopIsRoot(tables, root, at);
      WalkAt(tables, root, at, path, 0);
      var w := Walk(tables, root, path);
      forall k | 0 <= k < 4
        ensures w[k] == EntryOn(tables, at, path, k) && w[k] in w
      {
      }
    } else {
      NoLeaf(tables, at, path);
    }
  }

  lemma TopIsRoot(tables: Tables, root: nat, at: Places)
    requires TreeOk(tables, root, at)
    ensures [] in at && at[[]] == root
  {
  }

  lemma NoLeaf(tables: Tables, at: Places, path: Path)
    requires |path| == 4 && path[..3] !in at
    ensures !Present(Leaf(tables, at, path))
  {
    EmptyIs();
  }

  /** The entry for `i` in the table for `p` is one of those on the way to the page. */
  ghost predicate OnTheWay(path: Path, p: Path, i: nat) { |p| < |path| && p == path[..|p|] && i == path[|p|] }

  ghost predicate OnSomeWay(address: nat, pages: nat, p: Path, i: nat) {
    exists n: nat :: n < pages && OnTheWay(Nth(address, n), p, i)
  }

  /** All four entries on the way to a page have a flag set or cleared, and no others. */
  ghost predicate FlaggedAlong(tables: Tables, tables': Tables, at: Places, path: Path, b: nat, value: bool) {
    forall q, j :: q in at && 0 <= j < ENTRIES ==>
      EntryAt(tables', at[q], j) == if OnTheWay(path, q, j) then WithBit(EntryAt(tables, at[q], j), b, value) else EntryAt(tables, at[q], j)
  }

  /** All entries on the way to some page of a range have a flag set or cleared, and no others. */
  ghost predicate FlaggedIn(tables: Tables, tables': Tables, at: Places, address: nat, pages: nat, b: nat, value: bool) {
    forall q, j :: q in at && 0 <= j < ENTRIES ==>
      EntryAt(tables', at[q], j) == if OnSomeWay(address, pages, q, j) then WithBit(EntryAt(tables, at[q], j), b, value) else EntryAt(tables, at[q], j)
  }

  lemma NoneFlagged(tables: Tables, at: Places, address: nat, b: nat, value: bool)
    ensures FlaggedIn(tables, tables, at, address, 0, b, value)
  {
  }

  lemma OneMoreWay(address: nat, pages: nat, q: Path, j: nat)
    ensures OnSomeWay(address, pages + 1, q, j) <==> OnSomeWay(address, pages, q, j) || OnTheWay(Nth(address, pages), q, j)
  {
    hide Indexes, OnTheWay;
    if OnSomeWay(address, pages + 1, q, j) {
      var n: nat :| n < pages + 1 && OnTheWay(Nth(address, n), q, j);
      assert n == pages || n < pages;
    }
  }

  /** Setting a flag once more changes nothing. */
  lemma FlaggedTwice(e: Entry, b: nat, value: bool)
    ensures WithBit(WithBit(e, b, value), b, value) == WithBit(e, b, value)
  {
    SetBitSets(e.flags, b, value, b);
  }

  lemma FlaggedMore(t0: Tables, t1: Tables, t2: Tables, at: Places, address: nat, pages: nat, b: nat, value: bool)
    requires FlaggedIn(t0, t1, at, address, pages, b, value) && FlaggedAlong(t1, t2, at, Nth(address, pages), b, value)
    ensures FlaggedIn(t0, t2, at, address, pages + 1, b, value)
  {
    hide Indexes, OnTheWay, OnSomeWay, WithBit;
    forall q, j | q in at && 0 <= j < ENTRIES
      ensures EntryAt(t2, at[q], j) == if OnSomeWay(address, pages + 1, q, j) then WithBit(EntryAt(t0, at[q], j), b, value) else EntryAt(t0, at[q], j)
    {
      OneMoreWay(address, pages, q, j);
      FlaggedTwice(EntryAt(t0, at[q], j), b, value);
    }
  }

  /** An entry changes in flags only: the shape is kept, and no other entry changes. */
  lemma FlagInShape(tables: Tables, root: nat, at: Places, p: Path, i: nat, e: Entry)
    requires ShapeOk(tables, root, at) && p in at && i < ENTRIES && EntryOk(e) && e.frame == EntryAt(tables, at[p], i).frame
    ensures at[p] in tables && |tables[at[p]]| == ENTRIES && ShapeOk(WithEntry(tables, at[p], i, e), root, at)
    ensures forall q, j :: q in at && 0 <= j < ENTRIES ==>
              EntryAt(WithEntry(tables, at[p], i, e), at[q], j) == if q == p && j == i then e else EntryAt(tables, at[q], j)
  {
    assert TableShape(tables, at, p);
    var tables' := WithEntry(tables, at[p], i, e);
    forall q | q in at
      ensures TableShape(tables', at, q)
      ensures forall j :: 0 <= j < ENTRIES ==> EntryAt(tables', at[q], j) == if q == p && j == i then e else EntryAt(tables, at[q], j)
    {
      assert TableShape(tables, at, q);
      if q != p {
        assert at[q] != at[p];
      }
    }
  }

  lemma {:induction false} ShapePrefixes(tables: Tables, root: nat, at: Places, p: Path, k: nat)
    requires ShapeOk(tables, root, at) && p in at && k <= |p|
    ensures p[..k] in at
    decreases |p| - k
  {
    if k == |p| {
      assert p[..k] == p;
    } else {
      ShapePrefixes(tables, root, at, p, k + 1);
      var q := p[..k + 1];
      assert TableShape(tables, at, q) && q[..|q| - 1] == p[..k];
    }
  }

  // ---------------------------------------------------------------- flags that do not take presence away

  /** The pages of the range are mapped. */
  ghost predicate AllMapped(tables: Tables, at: Places, address: nat, pages: nat) {
    forall n: nat :: n < pages ==> Present(Leaf(tables, at, Nth(address, n)))
  }

  /** Every entry on the way to a mapped page is present. */
  lemma WayIsPresent(tables: Tables, root: nat, at: Places, path: Path, q: Path, j: nat)
    requires TreeOk(tables, root, at) && |path| == 4 && PathOk(path) && Present(Leaf(tables, at, path)) && OnTheWay(path, q, j)
    ensures q in at && Present(EntryAt(tables, at[q], j))
  {
    MappedIs(tables, root, at, path);
    if path[..3] !in at {
      NoLeaf(tables, at, path);
    } else if |q| == 3 {
      assert q == path[..3];
    } else {
      UpperPresent(tables, root, at, path, |q|);
    }
  }

  lemma StaysPresent(tables: Tables, tables': Tables, root: nat, at: Places, address: nat, pages: nat, b: nat, value: bool, q: Path, j: nat)
    requires TreeOk(tables, root, at) && AllMapped(tables, at, address, pages) && b < 12 && !(b == PRESENT && !value)
    requires FlaggedIn(tables, tables', at, address, pages, b, value) && q in at && j < ENTRIES
    ensures Present(EntryAt(tables', at[q], j)) <==> Present(EntryAt(tables, at[q], j))
    ensures EntryAt(tables', at[q], j).frame == EntryAt(tables, at[q], j).frame
  {
    hide Indexes, Leaf, TreeOk;
    if OnSomeWay(address, pages, q, j) {
      var n: nat :| n < pages && OnTheWay(Nth(address, n), q, j);
      WayIsPresent(tables, root, at, Nth(address, n), q, j);
      SetBitSets(EntryAt(tables, at[q], j).flags, b, value, PRESENT);
    }
  }

  lemma FlaggedTree(tables: Tables, tables': Tables, root: nat, at: Places, address: nat, pages: nat, b: nat, value: bool)
    requires TreeOk(tables, root, at) && AllMapped(tables, at, address, pages) && b < 12 && !(b == PRESENT && !value)
    requires FlaggedIn(tables, tables', at, address, pages, b, value) && ShapeOk(tables', root, at)
    ensures TreeOk(tables', root, at)
  {
    hide FlaggedIn, AllMapped, ShapeOk;
    forall p | p in at
      ensures TableOk(tables', at, p)
    {
      assert TableOk(tables, at, p);
      ShapeAt(tables', root, at, p);
      forall i | 0 <= i < ENTRIES
        ensures Present(EntryAt(tables', at[p], i)) <==> Present(EntryAt(tables, at[p], i))
      {
        StaysPresent(tables, tables', root, at, address, pages, b, value, p, i);
      }
      EntriesRead(tables, at[p]);
      EntriesRead(tables', at[p]);
    }
  }

  lemma ShapeAt(tables: Tables, root: nat, at: Places, p: Path)
    requires ShapeOk(tables, root, at) && p in at
    ensures TableShape(tables, at, p)
  {
  }

  lemma EntriesRead(tables: Tables, f: nat)
    requires f in tables && |tables[f]| == ENTRIES
    ensures forall i :: 0 <= i < ENTRIES ==> EntryAt(tables, f, i) == tables[f][i]
  {
  }

  lemma FlaggedLeaf(tables: Tables, tables': Tables, at: Places, address: nat, pages: nat, b: nat, value: bool, path: Path)
    requires FlaggedIn(tables, tables', at, address, pages, b, value) && |path| == 4 && PathOk(path) && path[..3] in at
    ensures Leaf(tables', at, path) == if InRange(path, address, pages) then WithBit(Leaf(tables, at, path), b, value) else Leaf(tables, at, path)
  {
    hide Indexes, WithBit;
    forall n: nat
      ensures OnTheWay(Nth(address, n), path[..3], path[3]) <==> path == Nth(address, n)
    {
      var p := Nth(address, n);
      if OnTheWay(p, path[..3], path[3]) {
        assert p == p[..3] + [p[3]] && path == path[..3] + [path[3]];
      }
    }
    assert OnSomeWay(address, pages, path[..3], path[3]) <==> InRange(path, address, pages);
  }

  lemma FlaggedParents(tables: Tables, tables': Tables, root: nat, at: Places, address: nat, pages: nat, b: nat, value: bool)
    requires TreeOk(tables, root, at) && ParentsWritable(tables, at) && b < 12 && (b == WRITABLE ==> value)
    requires FlaggedIn(tables, tables', at, address, pages, b, value)
    ensures ParentsWritable(tables', at)
  {
    hide Indexes;
    forall p, i | p in at && 0 < |p| && 0 <= i < ENTRIES && Writable(EntryAt(tables', at[p], i))
      ensures p[..|p| - 1] in at && Writable(EntryAt(tables', at[p[..|p| - 1]], p[|p| - 1]))
    {
      assert TableOk(tables, at, p);
      var q, j := p[..|p| - 1], p[|p| - 1];
      SetBitSets(EntryAt(tables, at[p], i).flags, b, value, WRITABLE);
      SetBitSets(EntryAt(tables, at[q], j).flags, b, value, WRITABLE);
      if OnSomeWay(address, pages, p, i) {
        var n: nat :| n < pages && OnTheWay(Nth(address, n), p, i);
        assert OnTheWay(Nth(address, n), q, j);
      }
      assert b != WRITABLE || !OnSomeWay(address, pages, p, i) ==> Writable(EntryAt(tables, at[p], i));
    }
  }

  // ---------------------------------------------------------------- writability or presence is taken away

  /** Some page of the range lies below the same top-level entry. */
  ghost predicate SharesTop(path: Path, address: nat, pages: nat)
    requires |path| > 0
  {
    exists n: nat :: n < pages && Nth(address, n)[0] == path[0]
  }

  lemma TopFlagged(tables: Tables, tables': Tables, root: nat, at: Places, address: nat, pages: nat, b: nat, value: bool, path: Path)
    requires [] in at && FlaggedIn(tables, tables', at, address, pages, b, value) && |path| == 4 && PathOk(path)
    ensures EntryOn(tables', at, path, 0) ==
              if SharesTop(path, address, pages) then WithBit(EntryOn(tables, at, path, 0), b, value) else EntryOn(tables, at, path, 0)
  {
    hide Indexes, WithBit;
    assert path[..0] == [];
    forall n: nat
      ensures OnTheWay(Nth(address, n), [], path[0]) <==> Nth(address, n)[0] == path[0]
    {
      assert Nth(address, n)[..0] == [];
    }
    assert OnSomeWay(address, pages, [], path[0]) <==> SharesTop(path, address, pages);
  }

  /** Below other top-level entries nothing changes. */
  lemma ElsewhereSame(tables: Tables, tables': Tables, at: Places, address: nat, pages: nat, b: nat, value: bool, q: Path, j: nat)
    requires FlaggedIn(tables, tables', at, address, pages, b, value) && q in at && |q| > 0 && j < ENTRIES && !SharesTop(q, address, pages)
    ensures EntryAt(tables', at[q], j) == EntryAt(tables, at[q], j)
  {
    hide WithBit, OnSomeWay, SharesTop;
    WayShares(address, pages, q, j);
  }

  lemma WayShares(address: nat, pages: nat, q: Path, j: nat)
    requires |q| > 0
    ensures OnSomeWay(address, pages, q, j) ==> SharesTop(q, address, pages)
  {
    hide Indexes;
    if OnSomeWay(address, pages, q, j) {
      var n: nat :| n < pages && OnTheWay(Nth(address, n), q, j);
      assert Nth(address, n)[0] == q[0];
    }
  }

  lemma OtherWay(tables: Tables, tables': Tables, at: Places, address: nat, pages: nat, b: nat, value: bool, q: Path, k: nat)
    requires [] in at && FlaggedIn(tables, tables', at, address, pages, b, value) && |q| == 4 && PathOk(q) && !SharesTop(q, address, pages) && k < 4
    ensures EntryOn(tables', at, q, k) == EntryOn(tables, at, q, k)
  {
    hide Indexes, WithBit, FlaggedIn, EntryAt;
    if k == 0 {
      TopFlagged(tables, tables', 0, at, address, pages, b, value, q);
    } else if q[..k] in at {
      assert q[..k][0] == q[0];
      ElsewhereSame(tables, tables', at, address, pages, b, value, q[..k], q[k]);
    }
  }

  /**
   Taking writability away from pages takes it away from exactly the pages below the same top-level entries: the
   entries on the way are shared.
   */
  lemma ClearedExactly(tables: Tables, tables': Tables, root: nat, at: Places, address: nat, pages: nat, q: Path)
    requires TreeOk(tables, root, at) && TreeOk(tables', root, at) && |q| == 4 && PathOk(q)
    requires FlaggedIn(tables, tables', at, address, pages, WRITABLE, false)
    ensures CanWrite(tables', root, q) <==> CanWrite(tables, root, q) && !SharesTop(q, address, pages)
  {
    hide TreeOk, Present, FlaggedIn, CanWrite, SharesTop;
    CanWriteNeeds(tables, root, at, q);
    CanWriteNeeds(tables', root, at, q);
    TopIsRoot(tables, root, at);
    if SharesTop(q, address, pages) {
      TopFlagged(tables, tables', root, at, address, pages, WRITABLE, false, q);
      SetBitSets(EntryOn(tables, at, q, 0).flags, WRITABLE, false, WRITABLE);
      assert !Writable(EntryOn(tables', at, q, 0));
    } else {
      forall k | 0 <= k < 4
        ensures EntryOn(tables', at, q, k) == EntryOn(tables, at, q, k)
      {
        OtherWay(tables, tables', at, address, pages, WRITABLE, false, q, k);
      }
      OtherWay(tables, tables', at, address, pages, WRITABLE, false, q, 3);
      assert Leaf(tables', at, q) == EntryOn(tables', at, q, 3) && Leaf(tables, at, q) == EntryOn(tables, at, q, 3);
    }
  }

  /** The tables that can still be reached: those below other top-level entries. */
  ghost function Pruned(at: Places, address: nat, pages: nat): Places {
    map q | q in at && (|q| == 0 || !SharesTop(q, address, pages)) :: at[q]
  }

  lemma PrunedTable(tables: Tables, tables': Tables, root: nat, at: Places, address: nat, pages: nat, q: Path)
    requires TreeOk(tables, root, at) && ShapeOk(tables', root, at) && FlaggedIn(tables, tables', at, address, pages, PRESENT, false)
    requires q in Pruned(at, address, pages)
    ensures TableOk(tables', Pruned(at, address, pages), q)
  {
    hide FlaggedIn, Indexes, WithBit;
    var at' := Pruned(at, address, pages);
    assert TableOk(tables, at, q) && TableShape(tables', at, q);
    forall i | 0 <= i < ENTRIES && |q| < 3
      ensures Present(EntryAt(tables', at[q], i)) <==> q + [i] in at'
    {
      if |q| == 0 {
        var path := [i, 0, 0, 0];
        assert q == [] && path[..0] == [] && q + [i] == [i];
        TopFlagged(tables, tables', root, at, address, pages, PRESENT, false, path);
        SetBitSets(EntryAt(tables, at[q], i).flags, PRESENT, false, PRESENT);
        assert SharesTop(path, address, pages) <==> SharesTop([i], address, pages);
        WithBitIs(EntryAt(tables, at[q], i), PRESENT, false);
      } else {
        ElsewhereSame(tables, tables', at, address, pages, PRESENT, false, q, i);
        assert (q + [i])[0] == q[0];
        assert SharesTop(q + [i], address, pages) <==> SharesTop(q, address, pages);
      }
    }
    EntriesRead(tables, at[q]);
    EntriesRead(tables', at[q]);
    if |q| > 1 {
      assert q[..|q| - 1][0] == q[0];
      assert SharesTop(q[..|q| - 1], address, pages) <==> SharesTop(q, address, pages);
    }
  }

  lemma WithBitIs(e: Entry, b: nat, value: bool)
    ensures WithBit(e, b, value).flags == SetBit(e.flags, b, value)
  {
  }

  lemma PrunedTree(tables: Tables, tables': Tables, root: nat, at: Places, address: nat, pages: nat)
    requires TreeOk(tables, root, at) && ShapeOk(tables', root, at) && FlaggedIn(tables, tables', at, address, pages, PRESENT, false)
    ensures TreeOk(tables', root, Pruned(at, address, pages))
  {
    hide FlaggedIn, SharesTop;
    var at' := Pruned(at, address, pages);
    forall q | q in at'
      ensures TableOk(tables', at', q)
    {
      PrunedTable(tables, tables', root, at, address, pages, q);
    }
  }

  lemma PrunedLeaf(tables: Tables, tables': Tables, root: nat, at: Places, address: nat, pages: nat, path: Path)
    requires TreeOk(tables, root, at) && FlaggedIn(tables, tables', at, address, pages, PRESENT, false) && |path| == 4 && PathOk(path)
    ensures Leaf(tables', Pruned(at, address, pages), path) == if SharesTop(path, address, pages) then EMPTY else Leaf(tables, at, path)
  {
    hide FlaggedIn, Indexes, WithBit;
    var q := path[..3];
    assert q[0] == path[0];
    assert SharesTop(q, address, pages) <==> SharesTop(path, address, pages);
    if q in Pruned(at, address, pages) {
      ElsewhereSame(tables, tables', at, address, pages, PRESENT, false, q, path[3]);
    }
  }
}
