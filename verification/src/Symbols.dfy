/**
 `symbol.c`: the sorted index of the kernel's symbols, and the search for the symbol that an address belongs to.
 */
module Symbols {
  import T = TreeIndex

  const SIZE_T: nat := T.SIZE_T
  const SYMBOL_FIND_FAIL: nat := SIZE_T - 1

  datatype SymbolMap = SymbolMap(address: nat, index: nat)

  // ---------------------------------------------------------------- the index as it should be

  ghost predicate Sorted(s: seq<SymbolMap>) {
    forall i, j :: 0 <= i < j < |s| ==> s[i].address <= s[j].address
  }

  /** The symbols with a value, in the order of the symbol table. */
  function Kept(values: seq<nat>): seq<SymbolMap> {
    if values == [] then []
    else
      var last := |values| - 1;
      Kept(values[..last]) + if values[last] == 0 then [] else [SymbolMap(values[last], last)]
  }

  /** Where the insertion sort puts `x`: behind everything that is not greater. */
  function Inserted(s: seq<SymbolMap>, x: SymbolMap): seq<SymbolMap> {
    if s == [] || s[|s| - 1].address <= x.address then s + [x]
    else Inserted(s[..|s| - 1], x) + [s[|s| - 1]]
  }

  lemma {:induction false} InsertedMembers(s: seq<SymbolMap>, x: SymbolMap)
    ensures multiset(Inserted(s, x)) == multiset(s) + multiset{x} && |Inserted(s, x)| == |s| + 1
    ensures forall y :: y in Inserted(s, x) ==> y == x || y in s
  {
    if s != [] && s[|s| - 1].address > x.address {
      var front := s[..|s| - 1];
      InsertedMembers(front, x);
      assert s == front + [s[|s| - 1]];
    }
  }

  /** A greater record at the end keeps a sequence sorted. */
  lemma SortedPlus(s: seq<SymbolMap>, y: SymbolMap)
    requires Sorted(s) && forall z :: z in s ==> z.address <= y.address
    ensures Sorted(s + [y])
  {
  }

  lemma {:induction false} InsertedSorted(s: seq<SymbolMap>, x: SymbolMap)
    requires Sorted(s)
    ensures Sorted(Inserted(s, x)) && multiset(Inserted(s, x)) == multiset(s) + multiset{x}
    ensures |Inserted(s, x)| == |s| + 1
  {
    InsertedMembers(s, x);
    if s == [] || s[|s| - 1].address <= x.address {
      SortedPlus(s, x);
    } else {
      var front, y := s[..|s| - 1], s[|s| - 1];
      InsertedSorted(front, x);
      InsertedMembers(front, x);
      SortedPlus(Inserted(front, x), y);
    }
  }

  /** The insertion sort on values. */
  function Index(kept: seq<SymbolMap>): seq<SymbolMap> {
    if kept == [] then [] else Inserted(Index(kept[..|kept| - 1]), kept[|kept| - 1])
  }

  /** It is a sorted permutation. */
  lemma {:induction false} IndexSorts(kept: seq<SymbolMap>)
    ensures Sorted(Index(kept)) && multiset(Index(kept)) == multiset(kept) && |Index(kept)| == |kept|
  {
    if kept != [] {
      var front := kept[..|kept| - 1];
      IndexSorts(front);
      InsertedSorted(Index(front), kept[|kept| - 1]);
      assert kept == front + [kept[|kept| - 1]];
    }
  }

  function Least(kept: seq<SymbolMap>): nat
    requires kept != []
  {
    var last := kept[|kept| - 1].address;
    if |kept| == 1 then last
    else var m := Least(kept[..|kept| - 1]); if last < m then last else m
  }

  lemma {:induction false} LeastIsFirst(kept: seq<SymbolMap>)
    requires kept != []
    ensures Index(kept) != [] && Index(kept)[0].address == Least(kept)
  {
    IndexSorts(kept);
    var front := kept[..|kept| - 1];
    if front != [] {
      LeastIsFirst(front);
      IndexSorts(front);
      FirstOfInserted(Index(front), kept[|kept| - 1]);
    }
  }

  lemma {:induction false} FirstOfInserted(s: seq<SymbolMap>, x: SymbolMap)
    requires Sorted(s) && s != []
    ensures |Inserted(s, x)| > 0 && Inserted(s, x)[0].address == if x.address < s[0].address then x.address else s[0].address
  {
    if s[|s| - 1].address > x.address {
      var front := s[..|s| - 1];
      InsertedSorted(front, x);
      if front != [] {
        FirstOfInserted(front, x);
      }
    }
  }

  // ---------------------------------------------------------------- the index as it is built

  /**
   The inner index is unsigned, so that the search for a place does not stop at the start of the map. It stays inside
   the map exactly if the first symbol is the least one, or the record that happens to lie before the map is not
   greater than the least one.
   */
  predicate StaysInside(kept: seq<SymbolMap>, before: nat) {
    kept == [] || Least(kept) == kept[0].address || before <= Least(kept)
  }

  /** One more symbol makes a difference only if it is less than all symbols so far. */
  lemma {:induction false} OneMoreInside(kept: seq<SymbolMap>, x: SymbolMap, before: nat)
    ensures StaysInside(kept + [x], before) <==>
              StaysInside(kept, before) && (kept == [] || Least(kept) <= x.address || before <= x.address)
  {
    assert (kept + [x])[..|kept|] == kept;
    if kept != [] {
      assert (kept + [x])[0] == kept[0];
      LeastBound(kept);
    }
  }

  lemma {:induction false} LeastBound(kept: seq<SymbolMap>)
    requires kept != []
    ensures Least(kept) <= kept[0].address
  {
    if |kept| > 1 {
      LeastBound(kept[..|kept| - 1]);
    }
  }

  /** Records from `place` on moved up by one to make room for `x`; those that moved are greater, and the one before is not. */
  ghost predicate Shifted(all: seq<SymbolMap>, all': seq<SymbolMap>, end: nat, x: SymbolMap, place: nat) {
    && 0 < place <= end < |all| == |all'| && all'[place] == x
    && (forall k :: 0 <= k < |all| && (k < place || k > end) ==> all'[k] == all[k])
    && (forall k :: place < k <= end ==> all'[k] == all[k - 1])
    && (forall k :: place <= k < end ==> all[k].address > x.address)
  }

  /**
   The inner loop. The map's records lie at `mem[base..]`; the records before are whatever memory holds there, and
   somewhere below there is a record that is not greater.
   */
  method InsertSymbol(mem: array<SymbolMap>, base: nat, ai: nat, x: SymbolMap) returns (place: nat)
    requires 0 < base && base + ai < mem.Length && mem[0].address == 0
    modifies mem
    ensures Shifted(old(mem[..]), mem[..], base + ai, x, place) && (ai == 0 ==> place == base) && mem[0] == old(mem[0])
    ensures 0 < place
    ensures ai > 0 ==> old(mem[place - 1]).address <= x.address
  {
    ghost var all := mem[..];
    place := base + ai;
    if ai >= 1 {
      while mem[place - 1].address > x.address
        invariant 0 < place <= base + ai
        invariant forall k :: 0 <= k < mem.Length && (k < place || k > base + ai) ==> mem[k] == all[k]
        invariant forall k :: place < k <= base + ai ==> mem[k] == all[k - 1]
        invariant forall k :: place <= k < base + ai ==> all[k].address > x.address
        decreases place
      {
        mem[place] := mem[place - 1];
        place := place - 1;
      }
    }
    mem[place] := x;
  }

  /** When the records of the map are sorted: the record goes where it belongs, exactly if it does not leave the map. */
  lemma ShiftedInside(all: seq<SymbolMap>, all': seq<SymbolMap>, base: nat, ai: nat, x: SymbolMap, place: nat)
    requires Shifted(all, all', base + ai, x, place) && 0 < base && Sorted(all[base..base + ai])
    requires ai == 0 ==> place == base
    requires ai > 0 ==> all[place - 1].address <= x.address
    ensures place >= base <==> ai == 0 || all[base].address <= x.address || all[base - 1].address <= x.address
    ensures place >= base ==> all'[base..base + ai + 1] == Inserted(all[base..base + ai], x) && all'[..base] == all[..base]
  {
    hide Inserted, Shifted;
    ShiftedBounds(all, all', base, ai, x, place);
    if place >= base {
      ShiftedSlices(all, all', base, ai, x, place);
      PlaceInside(all, all', base, ai, x, place);
      InsertedAt(all[base..base + ai], x, place - base);
    }
  }

  lemma ShiftedBounds(all: seq<SymbolMap>, all': seq<SymbolMap>, base: nat, ai: nat, x: SymbolMap, place: nat)
    requires Shifted(all, all', base + ai, x, place) && 0 < base
    ensures base + ai < |all| == |all'| && place <= base + ai
    ensures place < base ==> all[base - 1].address > x.address && (ai > 0 ==> all[base].address > x.address)
  {
  }

  /** The record before the place is not greater, nor is then the first one; the records from it on are. */
  lemma PlaceInside(all: seq<SymbolMap>, all': seq<SymbolMap>, base: nat, ai: nat, x: SymbolMap, place: nat)
    requires Shifted(all, all', base + ai, x, place) && 0 < base <= place && Sorted(all[base..base + ai])
    requires ai > 0 ==> all[place - 1].address <= x.address
    ensures var s, p := all[base..base + ai], place - base;
            (p > 0 ==> s[p - 1].address <= x.address && all[base].address <= x.address) && forall k :: p <= k < |s| ==> s[k].address > x.address
    ensures place == base && ai > 0 ==> all[base - 1].address <= x.address
  {
    var s, p := all[base..base + ai], place - base;
    if p > 0 {
      assert s[p - 1] == all[place - 1] && s[0] == all[base];
      assert s[0].address <= s[p - 1].address;
    }
    forall k | p <= k < |s|
      ensures s[k].address > x.address
    {
      assert s[k] == all[base + k];
    }
  }

  /** What lies in the map, and before it, after room was made inside the map. */
  lemma ShiftedSlices(all: seq<SymbolMap>, all': seq<SymbolMap>, base: nat, ai: nat, x: SymbolMap, place: nat)
    requires Shifted(all, all', base + ai, x, place) && base <= place
    ensures var s, p := all[base..base + ai], place - base; all'[base..base + ai + 1] == s[..p] + [x] + s[p..]
    ensures all'[..base] == all[..base]
  {
    var s, p := all[base..base + ai], place - base;
    var a, b := all'[base..base + ai + 1], s[..p] + [x] + s[p..];
    assert |a| == |b|;
    forall k | 0 <= k < |a|
      ensures a[k] == b[k]
    {
      assert a[k] == all'[base + k];
      if k < p {
        assert b[k] == s[k] == all[base + k];
      } else if k == p {
        assert b[k] == x;
      } else {
        assert b[k] == s[p..][k - p - 1] == s[k - 1] == all[base + k - 1];
      }
    }
  }

  /** Insertion at the place that the search finds. */
  lemma {:induction false} InsertedAt(s: seq<SymbolMap>, x: SymbolMap, p: nat)
    requires p <= |s| && (p > 0 ==> s[p - 1].address <= x.address)
    requires forall k :: p <= k < |s| ==> s[k].address > x.address
    ensures Inserted(s, x) == s[..p] + [x] + s[p..]
    decreases |s| - p
  {
    if p < |s| {
      var front := s[..|s| - 1];
      InsertedAt(front, x, p);
      assert front[..p] == s[..p] && front[p..] + [s[|s| - 1]] == s[p..];
    } else {
      assert s[..p] + [x] + s[p..] == s + [x];
    }
  }

  /**
   The insertion sort of `symbol_init`. Every record is written inside the map exactly if `StaysInside`, and then the
   map is a sorted permutation of the symbols that have a value, and the memory before it is untouched.
   */
  method Build(values: seq<nat>, mem: array<SymbolMap>, base: nat) returns (ai: nat, inside: bool)
    requires 0 < base && base + |values| < mem.Length && mem[0].address == 0
    modifies mem
    ensures ai == |Kept(values)| <= |values|
    ensures inside <==> StaysInside(Kept(values), old(mem[base - 1]).address)
    ensures inside ==> mem[base..base + ai] == Index(Kept(values)) && mem[..base] == old(mem[..base])
    ensures inside <==> StartsLeast(values) || forall i :: 0 <= i < |values| && values[i] != 0 ==> old(mem[base - 1]).address <= values[i]
    ensures inside ==>
              && (forall k :: base <= k < base + ai ==> mem[k].index < |values| && mem[k].address == values[mem[k].index] != 0)
              && (forall i :: 0 <= i < |values| && values[i] != 0 ==> SymbolMap(values[i], i) in mem[base..base + ai])
              && (forall j, k :: base <= j < k < base + ai ==>
                    mem[j].address < mem[k].address || (mem[j].address == mem[k].address && mem[j].index < mem[k].index))
  {
    hide Index, Sorted, Inserted, Least, StaysInside, Shifted, Kept;
    ai, inside := 0, true;
    ghost var before, front := mem[base - 1].address, mem[..base];
    ghost var kept: seq<SymbolMap> := [];
    NothingKept(before);
    for i := 0 to |values|
      invariant kept == Kept(values[..i]) && ai == |kept| <= i && mem[0].address == 0
      invariant inside <==> StaysInside(kept, before)
      invariant inside ==> mem[base..base + ai] == Index(kept) && mem[..base] == front
    {
      KeptMore(values, i);
      var value := values[i];
      if value == 0 {
        continue;
      }
      var x := SymbolMap(value, i);
      ghost var all := mem[..];
      assert all[base..base + ai] == mem[base..base + ai] && all[..base] == mem[..base];
      var place := InsertSymbol(mem, base, ai, x);
      if inside {
        BuildStep(all, mem[..], base, kept, x, place, before, front);
      }
      OneMoreInside(kept, x, before);
      IndexMore(kept, x);
      inside := inside && place >= base;
      kept, ai := kept + [x], ai + 1;
      assert mem[base..base + ai] == mem[..][base..base + ai] && mem[..base] == mem[..][..base];
    }
    assert values[..|values|] == values;
    InsideMeans(values, before);
    IndexMeans(values);
    ghost var s := mem[base..base + ai];
    assert forall k :: base <= k < base + ai ==> s[k - base] == mem[k] && mem[k] in s;
    if inside {
      forall j, k | base <= j < k < base + ai
        ensures Before(mem[j], mem[k])
      {
        assert Before(s[j - base], s[k - base]);
      }
    }
  }

  /** The first symbol that has a value is a least one of them. */
  ghost predicate StartsLeast(values: seq<nat>) {
    exists f :: 0 <= f < |values| && values[f] != 0 && (forall i :: 0 <= i < f ==> values[i] == 0) &&
                forall i :: 0 <= i < |values| && values[i] != 0 ==> values[f] <= values[i]
  }

  /** By address, and at the same address in the order of the symbol table. */
  predicate Before(x: SymbolMap, y: SymbolMap) { x.address < y.address || (x.address == y.address && x.index < y.index) }

  lemma {:induction false} KeptMeans(values: seq<nat>)
    ensures forall x :: x in Kept(values) <==> x.index < |values| && values[x.index] == x.address != 0
    ensures forall j, k :: 0 <= j < k < |Kept(values)| ==> Kept(values)[j].index < Kept(values)[k].index
  {
    if values != [] {
      var last := |values| - 1;
      KeptMeans(values[..last]);
      var kept := Kept(values[..last]);
      assert forall k :: 0 <= k < |kept| ==> kept[k] in kept;
      assert forall x :: x in Kept(values) <==> x in kept || (values[last] != 0 && x == SymbolMap(values[last], last));
    }
  }

  lemma {:induction false} LeastMeans(kept: seq<SymbolMap>)
    requires kept != []
    ensures (forall x :: x in kept ==> Least(kept) <= x.address) && exists x :: x in kept && x.address == Least(kept)
  {
    var x := kept[|kept| - 1];
    assert x in kept;
    if |kept| > 1 {
      var front := kept[..|kept| - 1];
      LeastMeans(front);
      var y :| y in front && y.address == Least(front);
      assert y in kept;
      assert forall z :: z in kept ==> z in front || z == x;
    }
  }

  lemma InsideMeans(values: seq<nat>, before: nat)
    ensures StaysInside(Kept(values), before) <==>
              StartsLeast(values) || forall i :: 0 <= i < |values| && values[i] != 0 ==> before <= values[i]
  {
    hide Kept, Least;
    var kept := Kept(values);
    KeptMeans(values);
    forall i | 0 <= i < |values| && values[i] != 0
      ensures SymbolMap(values[i], i) in kept
    {
    }
    if kept == [] {
      assert forall i :: 0 <= i < |values| ==> values[i] == 0;
    } else {
      LeastMeans(kept);
      FirstKept(values);
      var y :| y in kept && y.address == Least(kept);
      assert values[y.index] == Least(kept);
    }
  }

  /** The first record kept is that of the first symbol that has a value. */
  lemma FirstKept(values: seq<nat>)
    requires Kept(values) != []
    ensures var f := Kept(values)[0].index;
            && f < |values| && values[f] == Kept(values)[0].address != 0 && forall i :: 0 <= i < f ==> values[i] == 0
  {
    hide Kept;
    var kept := Kept(values);
    KeptMeans(values);
    var f := kept[0].index;
    assert kept[0] in kept;
    assert forall i :: 0 <= i < |values| && values[i] != 0 ==> SymbolMap(values[i], i) in kept;
  }

  /** A record that was kept later comes behind all of the same address. */
  lemma {:induction false} InsertedBefore(s: seq<SymbolMap>, x: SymbolMap)
    requires (forall j, k :: 0 <= j < k < |s| ==> Before(s[j], s[k])) && forall y :: y in s ==> y.index < x.index
    ensures forall j, k :: 0 <= j < k < |Inserted(s, x)| ==> Before(Inserted(s, x)[j], Inserted(s, x)[k])
  {
    if s != [] && s[|s| - 1].address > x.address {
      var front, y := s[..|s| - 1], s[|s| - 1];
      InsertedBefore(front, x);
      InsertedMembers(front, x);
      var t := Inserted(front, x);
      forall j | 0 <= j < |t|
        ensures Before(t[j], y)
      {
        assert t[j] in t;
        if t[j] != x {
          var k :| 0 <= k < |front| && front[k] == t[j];
          assert Before(s[k], s[|s| - 1]);
        }
      }
    } else {
      forall j | 0 <= j < |s|
        ensures Before(s[j], x)
      {
        assert s[j] in s;
        assert j == |s| - 1 || Before(s[j], s[|s| - 1]);
      }
    }
  }

  lemma {:induction false} IndexBefore(kept: seq<SymbolMap>)
    requires forall j, k :: 0 <= j < k < |kept| ==> kept[j].index < kept[k].index
    ensures forall j, k :: 0 <= j < k < |Index(kept)| ==> Before(Index(kept)[j], Index(kept)[k])
  {
    if kept != [] {
      var front, x := kept[..|kept| - 1], kept[|kept| - 1];
      IndexBefore(front);
      IndexSorts(front);
      forall y | y in Index(front)
        ensures y.index < x.index
      {
        assert y in multiset(Index(front)) && y in multiset(front);
        var j :| 0 <= j < |front| && front[j] == y;
        assert kept[j] == y;
      }
      InsertedBefore(Index(front), x);
    }
  }

  /** The index, said of the symbol table itself: one record for every symbol that has a value, strictly in order. */
  lemma IndexMeans(values: seq<nat>)
    ensures var s := Index(Kept(values));
            && (forall x :: x in s <==> x.index < |values| && values[x.index] == x.address != 0)
            && (forall j, k :: 0 <= j < k < |s| ==> Before(s[j], s[k]))
  {
    hide Kept, Index;
    KeptMeans(values);
    IndexBefore(Kept(values));
    IndexSorts(Kept(values));
    assert forall x :: x in Index(Kept(values)) <==> x in multiset(Index(Kept(values)));
    assert forall x :: x in Kept(values) <==> x in multiset(Kept(values));
  }

  lemma NothingKept(before: nat)
    ensures Kept([]) == [] && StaysInside([], before) && Index([]) == []
  {
  }

  lemma BuildStep(all: seq<SymbolMap>, all': seq<SymbolMap>, base: nat, kept: seq<SymbolMap>, x: SymbolMap, place: nat,
                  before: nat, front: seq<SymbolMap>)
    requires 0 < base == |front| && Shifted(all, all', base + |kept|, x, place)
    requires (|kept| == 0 ==> place == base) && (|kept| > 0 ==> all[place - 1].address <= x.address)
    requires all[base..base + |kept|] == Index(kept) && all[..base] == front && front[base - 1].address == before
    ensures place >= base <==> kept == [] || Least(kept) <= x.address || before <= x.address
    ensures place >= base ==> all'[base..base + |kept| + 1] == Inserted(Index(kept), x) && all'[..base] == front
  {
    hide Index, Sorted, Inserted, Least, Shifted;
    assert all[base - 1].address == before by {
      ShiftedBounds(all, all', base, |kept|, x, place);
      assert all[..base][base - 1] == all[base - 1];
    }
    BuildInside(all, all', base, kept, x, place, Index(kept), |kept|);
  }

  /** The first record of the map is the least one. */
  lemma FirstRecord(all: seq<SymbolMap>, base: nat, kept: seq<SymbolMap>)
    requires base + |kept| <= |all| && all[base..base + |kept|] == Index(kept) && kept != []
    ensures all[base].address == Least(kept)
  {
    hide Index, Least;
    LeastIsFirst(kept);
  }

  lemma BuildInside(all: seq<SymbolMap>, all': seq<SymbolMap>, base: nat, kept: seq<SymbolMap>, x: SymbolMap, place: nat,
                    s: seq<SymbolMap>, n: nat)
    requires 0 < base && n == |kept| && Shifted(all, all', base + n, x, place)
    requires (n == 0 ==> place == base) && (n > 0 ==> all[place - 1].address <= x.address)
    requires all[base..base + n] == s == Index(kept)
    ensures place >= base <==> kept == [] || Least(kept) <= x.address || all[base - 1].address <= x.address
    ensures place >= base ==> all'[base..base + n + 1] == Inserted(s, x) && all'[..base] == all[..base]
  {
    hide Index, Sorted, Inserted, Least, Shifted;
    IndexSorts(kept);
    ShiftedBounds(all, all', base, n, x, place);
    if kept != [] {
      FirstRecord(all, base, kept);
    }
    ShiftedInside(all, all', base, n, x, place);
  }

  lemma IndexMore(kept: seq<SymbolMap>, x: SymbolMap)
    ensures Index(kept + [x]) == Inserted(Index(kept), x)
  {
    assert (kept + [x])[..|kept|] == kept;
  }

  lemma KeptMore(values: seq<nat>, i: nat)
    requires i < |values|
    ensures Kept(values[..i + 1]) == Kept(values[..i]) + if values[i] == 0 then [] else [SymbolMap(values[i], i)]
  {
    assert values[..i + 1][..i] == values[..i];
  }

  /** A symbol table for which the insertion sort leaves the map: its second symbol is less than its first. */
  lemma LeavesTheMap()
    ensures !StaysInside(Kept([0x2000, 0x1000]), 0x5000)
  {
    var a := SymbolMap(0x2000, 0);
    var b := SymbolMap(0x1000, 1);
    assert [0x2000, 0x1000][..1] == [0x2000] && [0x2000][..0] == [];
    assert Kept([0x2000]) == [a];
    assert Kept([0x2000, 0x1000]) == [a, b];
    assert [a, b][..1] == [a];
    assert Least([a, b]) == 0x1000;
  }

  // ---------------------------------------------------------------- the search

  /** `x - 1` in `size_t` */
  function Minus1(x: nat): nat { if x == 0 then SIZE_T - 1 else x - 1 }

  /** The linear scan: the last symbol that does not start behind the address. */
  ghost predicate Resolves(s: seq<SymbolMap>, address: nat, r: nat) {
    && r < |s| && s[r].address <= address
    && forall k :: r < k < |s| ==> s[k].address > address
  }

  /**
   `symbol_resolve`, with the wrap-around of its unsigned variables. It reads only records of the map exactly if there
   are at least two and the address does not lie before the first, and then it finds what the linear scan finds.
   */
  method Resolve(s: seq<SymbolMap>, address: nat) returns (r: nat, inBounds: bool)
    requires Sorted(s) && |s| < SIZE_T / 2
    ensures inBounds <==> |s| >= 2 && s[0].address <= address
    ensures inBounds ==> Resolves(s, address, r)
    ensures inBounds ==> r < |s| && s[r].address <= address && forall k :: r < k < |s| ==> s[k].address > address
  {
    var max := Minus1(|s|);
    var low: nat, high: nat := 0, max;
    r, inBounds := SYMBOL_FIND_FAIL, true;
    while low <= high && low <= Minus1(max)
      invariant |s| < 2 ==> low == 0 && high == max
      invariant |s| >= 2 && s[0].address <= address ==>
                  low <= high <= max && (forall k :: 0 <= k <= low ==> s[k].address <= address) && (high < max ==> s[high + 1].address > address)
      invariant |s| >= 2 && s[0].address > address ==> low == 0 && (high <= max || high == SIZE_T - 1)
      decreases if high == SIZE_T - 1 then 0 else high + 1 - low
    {
      var mid := (low + high) / 2;
      if mid + 1 >= |s| {
        inBounds := false;
        return;
      }
      var value, valueNext := s[mid].address, s[mid + 1].address;
      if value <= address && valueNext > address {
        return mid, true;
      }
      if value > address {
        high := Minus1(mid);
      } else {
        low := mid + 1;
      }
    }
    if low > Minus1(max) {
      r := max;
    }
  }

  /** The symbol found is the nearest one, at or before the address, of all symbols that have a value. */
  lemma Nearest(kept: seq<SymbolMap>, address: nat, r: nat, y: SymbolMap)
    requires Resolves(Index(kept), address, r) && y in kept
    ensures Index(kept)[r] in kept
    ensures y.address <= address ==> y.address <= Index(kept)[r].address
  {
    var s := Index(kept);
    IndexSorts(kept);
    assert s[r] in multiset(s);
    assert y in multiset(kept);
    var k :| 0 <= k < |s| && s[k] == y;
  }
}
