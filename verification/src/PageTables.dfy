/**
 Four levels of page tables in physical frames: what a walk finds, and what makes the tables an unshared tree.
 */
module PageTables {
  import opened PageEntries

  const ENTRIES: nat := 512
  const VIRTUAL_PAGES: nat := 0x10_0000_0000

  /** The tables in memory, by frame number. */
  type Tables = map<nat, seq<Entry>>

  /** Indices from the top level down. */
  type Path = seq<nat>

  // ---------------------------------------------------------------- addresses

  /** The page of a virtual address; only 36 bits of the page number matter to the tables. */
  function PageOf(address: nat): nat { address / 4096 % VIRTUAL_PAGES }

  /** `paging_get_indexes` */
  function Indexes(address: nat): (path: Path)
    ensures |path| == 4 && forall k :: 0 <= k < 4 ==> path[k] < ENTRIES
  {
    var a1 := address / 4096;
    var a2 := a1 / 512;
    var a3 := a2 / 512;
    var a4 := a3 / 512;
    [a4 % 512, a3 % 512, a2 % 512, a1 % 512]
  }

  /** The page that a path leads to. */
  function PageAt(path: Path): nat
    requires |path| == 4
  {
    path[0] * 0x800_0000 + path[1] * 0x4_0000 + path[2] * 0x200 + path[3]
  }

  /** In numbers: nine bits each, the highest first. */
  lemma PathSpells(address: nat)
    ensures var p := Indexes(address);
            p[0] * 0x800_0000 + p[1] * 0x4_0000 + p[2] * 0x200 + p[3] == address / 4096 % 0x10_0000_0000 && forall k :: 0 <= k < 4 ==> p[k] < 512
  {
    hide Indexes;
    IndexesOfPage(address);
  }

  /** The four indices are the 36 bits of the page number. */
  lemma IndexesOfPage(address: nat)
    ensures PageAt(Indexes(address)) == PageOf(address)
  {
    var a := address / 4096;
    var b := a / 512;
    var c := b / 512;
    assert a == b * 512 + a % 512 && b == c * 512 + b % 512;
    assert c == c / 512 * 512 + c % 512;
    var d := c / 512;
    assert d == d / 512 * 512 + d % 512;
    assert a == d / 512 * VIRTUAL_PAGES + PageAt(Indexes(address));
  }

  /** Two addresses take the same path exactly if they are on the same page. */
  lemma SamePage(a: nat, b: nat)
    ensures Indexes(a) == Indexes(b) <==> PageOf(a) == PageOf(b)
  {
    hide PageOf, Indexes, PageAt;
    IndexesOfPage(a);
    IndexesOfPage(b);
    if PageOf(a) == PageOf(b) {
      OnePath(Indexes(a), Indexes(b));
    }
  }

  lemma OnePath(p: Path, q: Path)
    requires |p| == |q| == 4 && PathOk(p) && PathOk(q) && PageAt(p) == PageAt(q)
    ensures p == q
  {
    assert p[0] == q[0];
    assert p[1] == q[1];
    assert p[2] == q[2];
    assert p[3] == q[3];
  }

  // ---------------------------------------------------------------- walks

  /** The entry for `i` in the table at `f`; empty if there is no table. */
  function EntryAt(tables: Tables, f: nat, i: nat): Entry {
    if f in tables && i < |tables[f]| then tables[f][i] else EMPTY
  }

  /** The entries that the processor meets on its way down. */
  function Walk(tables: Tables, f: nat, path: Path): seq<Entry>
    decreases |path|
  {
    if path == [] then []
    else var e := EntryAt(tables, f, path[0]); [e] + Walk(tables, e.frame, path[1..])
  }

  /** A page is mapped if bit 0 is set in all the words that the processor reads on the way. */
  ghost predicate Mapped(tables: Tables, root: nat, path: Path) {
    forall e :: e in Walk(tables, root, path) ==> Word(e) % 2 == 1
  }

  /** The frame that a mapped page translates to. */
  ghost function Frame(tables: Tables, root: nat, path: Path): nat
    requires |path| == 4
  {
    WalkLength(tables, root, path);
    Walk(tables, root, path)[3].frame
  }

  /** A page can be written to if bit 1 is set as well in all these words. */
  ghost predicate CanWrite(tables: Tables, root: nat, path: Path) {
    Mapped(tables, root, path) && forall e :: e in Walk(tables, root, path) ==> Word(e) / 2 % 2 == 1
  }

  lemma FlagsOnTheWay(tables: Tables, root: nat, path: Path)
    ensures Mapped(tables, root, path) <==> forall e :: e in Walk(tables, root, path) ==> Present(e)
    ensures CanWrite(tables, root, path) <==> forall e :: e in Walk(tables, root, path) ==> Present(e) && Writable(e)
  {
    hide Word, Present, Writable, Walk;
    forall e | e in Walk(tables, root, path)
      ensures (Present(e) <==> Word(e) % 2 == 1) && (Writable(e) <==> Word(e) / 2 % 2 == 1)
    {
      FlagsInWord(e);
    }
  }

  lemma {:induction false} WalkLength(tables: Tables, f: nat, path: Path)
    ensures |Walk(tables, f, path)| == |path|
    decreases |path|
  {
    if path != [] {
      WalkLength(tables, EntryAt(tables, f, path[0]).frame, path[1..]);
    }
  }

  // ---------------------------------------------------------------- the tree

  /** Where each table is: the frame that a path of fewer than four indices leads to. */
  type Places = map<Path, nat>

  ghost predicate PathOk(p: Path) { forall k :: 0 <= k < |p| ==> p[k] < ENTRIES }

  /** The table for `p` is there, and its entries are present exactly for the tables below it. */
  ghost predicate TableOk(tables: Tables, at: Places, p: Path)
    requires p in at
  {
    && |p| <= 3 && PathOk(p)
    && at[p] in tables && |tables[at[p]]| == ENTRIES
    && (forall i :: 0 <= i < ENTRIES ==> EntryOk(tables[at[p]][i]))
    && (|p| < 3 ==> forall i :: 0 <= i < ENTRIES ==>
          (Present(tables[at[p]][i]) <==> p + [i] in at) &&
          (p + [i] in at ==> tables[at[p]][i].frame == at[p + [i]]))
    && (|p| > 0 ==> p[..|p| - 1] in at)
  }

  /** No two paths lead to the same table. */
  ghost predicate Unshared(at: Places) {
    forall p, q :: p in at && q in at && at[p] == at[q] ==> p == q
  }

  ghost predicate TreeOk(tables: Tables, root: nat, at: Places) {
    && [] in at && at[[]] == root
    && (forall p {:trigger TableOk(tables, at, p)} :: p in at ==> TableOk(tables, at, p))
    && Unshared(at)
  }

  /** The table for `p` is there, and entries lead to the tables below it, whether they are marked as present or not. */
  ghost predicate TableShape(tables: Tables, at: Places, p: Path)
    requires p in at
  {
    && |p| <= 3 && PathOk(p)
    && at[p] in tables && |tables[at[p]]| == ENTRIES
    && (forall i :: 0 <= i < ENTRIES ==> EntryOk(tables[at[p]][i]))
    && (|p| < 3 ==> forall i :: 0 <= i < ENTRIES && p + [i] in at ==> tables[at[p]][i].frame == at[p + [i]])
    && (|p| > 0 ==> p[..|p| - 1] in at)
  }

  ghost predicate ShapeOk(tables: Tables, root: nat, at: Places) {
    && [] in at && at[[]] == root
    && (forall p {:trigger TableShape(tables, at, p)} :: p in at ==> TableShape(tables, at, p))
    && Unshared(at)
  }

  lemma TreeHasShape(tables: Tables, root: nat, at: Places)
    requires TreeOk(tables, root, at)
    ensures ShapeOk(tables, root, at)
  {
    forall p | p in at
      ensures TableShape(tables, at, p)
    {
      assert TableOk(tables, at, p);
    }
  }

  /** The tables that a page needs, apart from the top-level one. */
  ghost function Above(path: Path): set<Path>
    requires |path| == 4
  {
    {path[..1], path[..2], path[..3]}
  }

  lemma TablesMeans(address: nat, pages: nat, p: Path)
    ensures p in TablesFor(address, pages) <==> exists i: nat, n :: i < pages && 1 <= n <= 3 && p == Nth(address, i)[..n]
  {
    hide Nth;
    if p in TablesFor(address, pages) {
      var i: nat :| i < pages && p in Above(Nth(address, i));
      assert p == Nth(address, i)[..1] || p == Nth(address, i)[..2] || p == Nth(address, i)[..3];
    }
    if i: nat, n :| i < pages && 1 <= n <= 3 && p == Nth(address, i)[..n] {
      assert n == 1 || n == 2 || n == 3;
      assert p in Above(Nth(address, i));
    }
  }

  /** The tables that are missing on the way to a page. */
  lemma MissingTables(k: set<Path>, path: Path)
    requires |path| == 4
    ensures |k + Above(path)| ==
            |k| + (if path[..1] in k then 0 else 1) + (if path[..2] in k then 0 else 1) + (if path[..3] in k then 0 else 1)
  {
    var a, b, c := path[..1], path[..2], path[..3];
    assert |a| == 1 && |b| == 2 && |c| == 3;
    WithTable(k, a);
    WithTable(k + {a}, b);
    WithTable(k + {a} + {b}, c);
    assert k + Above(path) == k + {a} + {b} + {c};
  }

  lemma WithTable(k: set<Path>, p: Path)
    ensures |k + {p}| == |k| + if p in k then 0 else 1
  {
    assert p in k ==> k + {p} == k;
  }

  /** The leaf entry for a page; empty if there is no table for it. */
  ghost function Leaf(tables: Tables, at: Places, path: Path): Entry
    requires |path| == 4
  {
    if path[..3] in at then EntryAt(tables, at[path[..3]], path[3]) else EMPTY
  }

  /** A table for `p` implies tables for all shorter paths. */
  lemma {:induction false} Prefixes(tables: Tables, root: nat, at: Places, p: Path, k: nat)
    requires TreeOk(tables, root, at) && p in at && k <= |p|
    ensures p[..k] in at && |p| <= 3
    decreases |p| - k
  {
    assert TableOk(tables, at, p);
    if k == |p| {
      assert p[..k] == p;
    } else {
      Prefixes(tables, root, at, p, k + 1);
      var q := p[..k + 1];
      assert TableOk(tables, at, q) && q[..|q| - 1] == p[..k];
    }
  }

  /** The entry for index `k` of the path. */
  ghost function EntryOn(tables: Tables, at: Places, path: Path, k: nat): Entry
    requires k < |path|
  {
    if path[..k] in at then EntryAt(tables, at[path[..k]], path[k]) else EMPTY
  }

  /** As long as there are tables, the walk goes through them. */
  lemma {:induction false} WalkAt(tables: Tables, root: nat, at: Places, path: Path, k: nat)
    requires TreeOk(tables, root, at) && |path| == 4 && PathOk(path) && k < 4 && path[..3] in at
    ensures path[..k] in at
    ensures |Walk(tables, at[path[..k]], path[k..])| == 4 - k
    ensures forall j :: k <= j < 4 ==> Walk(tables, at[path[..k]], path[k..])[j - k] == EntryOn(tables, at, path, j)
    decreases 4 - k
  {
    Prefixes(tables, root, at, path[..3], k);
    assert path[..3][..k] == path[..k];
    var f := at[path[..k]];
    var e := EntryAt(tables, f, path[k]);
    assert path[k..][0] == path[k] && path[k..][1..] == path[k + 1..];
    assert Walk(tables, f, path[k..]) == [e] + Walk(tables, e.frame, path[k + 1..]);
    if k == 3 {
      assert Walk(tables, e.frame, path[4..]) == [];
    } else {
      Prefixes(tables, root, at, path[..3], k + 1);
      assert path[..3][..k + 1] == path[..k] + [path[k]] == path[..k + 1];
      assert TableOk(tables, at, path[..k]);
      assert e.frame == at[path[..k + 1]];
      WalkAt(tables, root, at, path, k + 1);
    }
  }

  /** Without a table for it, the walk meets an entry that is not present. */
  lemma {:induction false} WalkStops(tables: Tables, root: nat, at: Places, path: Path, k: nat)
    requires TreeOk(tables, root, at) && |path| == 4 && PathOk(path) && k < 3 && path[..k] in at && path[..3] !in at
    ensures exists e :: e in Walk(tables, at[path[..k]], path[k..]) && !Present(e)
    decreases 3 - k
  {
    var f := at[path[..k]];
    var e := EntryAt(tables, f, path[k]);
    assert path[k..][0] == path[k] && path[k..][1..] == path[k + 1..];
    var w := Walk(tables, f, path[k..]);
    assert w == [e] + Walk(tables, e.frame, path[k + 1..]);
    assert path[..k] + [path[k]] == path[..k + 1];
    assert TableOk(tables, at, path[..k]);
    if Present(e) {
      assert path[..k + 1] in at && e.frame == at[path[..k + 1]];
      WalkStops(tables, root, at, path, k + 1);
      var x :| x in Walk(tables, at[path[..k + 1]], path[k + 1..]) && !Present(x);
      assert x in w;
    } else {
      assert e in w;
    }
  }

  /** What the processor finds, in terms of the tables: the leaf decides. */
  lemma MappedIs(tables: Tables, root: nat, at: Places, path: Path)
    requires TreeOk(tables, root, at) && |path| == 4 && PathOk(path)
    ensures Mapped(tables, root, path) <==> Present(Leaf(tables, at, path))
    ensures Mapped(tables, root, path) ==> Frame(tables, root, path) == Leaf(tables, at, path).frame
    ensures Mapped(tables, root, path) ==> path[..3] in at
  {
    hide Mapped;
    FlagsOnTheWay(tables, root, path);
    assert path[..0] == [] && path[0..] == path;
    if path[..3] in at {
      WalkAt(tables, root, at, path, 0);
      var w := Walk(tables, root, path);
      assert w[3] == EntryOn(tables, at, path, 3) == Leaf(tables, at, path);
      forall j | 0 <= j < 3
        ensures Present(w[j])
      {
        UpperPresent(tables, root, at, path, j);
      }
      assert w[3] in w;
      if Present(w[3]) {
        forall e | e in w
          ensures Present(e)
        {
          var j :| 0 <= j < |w| && w[j] == e;
        }
      }
    } else {
      WalkStops(tables, root, at, path, 0);
    }
  }

  lemma UpperPresent(tables: Tables, root: nat, at: Places, path: Path, j: nat)
    requires TreeOk(tables, root, at) && |path| == 4 && PathOk(path) && path[..3] in at && j < 3
    ensures Present(EntryOn(tables, at, path, j)) && path[..j] in at
  {
    Prefixes(tables, root, at, path[..3], j);
    Prefixes(tables, root, at, path[..3], j + 1);
    assert path[..3][..j] == path[..j] && path[..3][..j + 1] == path[..j] + [path[j]];
    assert TableOk(tables, at, path[..j]);
  }

  /** Trees with the same leaf for a page translate it alike. */
  lemma LeafDecides(tables: Tables, at: Places, tables': Tables, at': Places, root: nat, path: Path)
    requires TreeOk(tables, root, at) && TreeOk(tables', root, at') && |path| == 4 && PathOk(path)
    requires var e, e' := Leaf(tables, at, path), Leaf(tables', at', path); e'.frame == e.frame && (Present(e') <==> Present(e))
    ensures Mapped(tables', root, path) <==> Mapped(tables, root, path)
    ensures Mapped(tables, root, path) ==> Frame(tables', root, path) == Frame(tables, root, path)
  {
    hide Mapped, Frame, Leaf, TreeOk;
    MappedIs(tables, root, at, path);
    MappedIs(tables', root, at', path);
  }

  // ---------------------------------------------------------------- ranges of pages

  /** The path to the `i`th page from an address on. */
  function Nth(address: nat, i: nat): (path: Path)
    ensures |path| == 4 && PathOk(path)
  {
    Indexes(address + 4096 * i)
  }

  ghost predicate InRange(path: Path, address: nat, pages: nat) { exists i: nat :: i < pages && path == Nth(address, i) }

  /** Fewer pages than there are take different paths. */
  lemma DifferentPages(address: nat, i: nat, j: nat)
    requires i < j < i + VIRTUAL_PAGES
    ensures Nth(address, i) != Nth(address, j)
  {
    var a, b := address + 4096 * i, address + 4096 * j;
    SamePage(a, b);
    var n := address / 4096;
    assert a / 4096 == n + i && b / 4096 == n + j;
    ModDiffers(n + i, n + j);
  }

  lemma ModDiffers(x: nat, y: nat)
    requires x < y < x + VIRTUAL_PAGES
    ensures x % VIRTUAL_PAGES != y % VIRTUAL_PAGES
  {
    var a, b := x / VIRTUAL_PAGES, y / VIRTUAL_PAGES;
    assert x == a * VIRTUAL_PAGES + x % VIRTUAL_PAGES && y == b * VIRTUAL_PAGES + y % VIRTUAL_PAGES;
  }

  /** The tables that a range of pages needs. */
  ghost function TablesFor(address: nat, pages: nat): set<Path> {
    set i: nat, p | i < pages && p in Above(Nth(address, i)) :: p
  }

  lemma TablesForMore(address: nat, pages: nat)
    ensures TablesFor(address, pages + 1) == TablesFor(address, pages) + Above(Nth(address, pages))
    ensures TablesFor(address, 0) == {}
  {
    hide Indexes, Above;
    forall p
      ensures p in TablesFor(address, pages + 1) <==> p in TablesFor(address, pages) || p in Above(Nth(address, pages))
    {
      if p in TablesFor(address, pages + 1) {
        var i: nat :| i < pages + 1 && p in Above(Nth(address, i));
        assert i == pages || i < pages;
      }
    }
  }

  lemma OneMore(path: Path, address: nat, pages: nat)
    ensures InRange(path, address, pages + 1) <==> InRange(path, address, pages) || path == Nth(address, pages)
  {
  }
}
