/**
 `pageframe.c`: the physical page frames, kept in a bitmap with an index from which the next search starts.
 */
module PageFrames {
  import opened Bitmaps

  const MEMORY_PAGE_SIZE: nat := 4096

  // ---------------------------------------------------------------- what a search finds

  /** What the frame allocator reads for `index`: behind the bitmap comes one stray bit, and then everything is free. */
  predicate InUse(bits: seq<bool>, behind: bool, index: nat) {
    if index < |bits| then bits[index] else index == |bits| && behind
  }

  /** All of the `n` pages from `s` on read as free. */
  ghost predicate RunFree(bits: seq<bool>, behind: bool, s: nat, n: nat) {
    forall i :: s <= i < s + n ==> !InUse(bits, behind, i)
  }

  /** The naive scan: the least start from `hint` on, inside the bitmap, whose whole run reads as free. */
  ghost predicate IsFirstRun(bits: seq<bool>, behind: bool, hint: nat, n: nat, s: nat) {
    && hint <= s < |bits| && RunFree(bits, behind, s, n)
    && forall t :: hint <= t < s ==> !RunFree(bits, behind, t, n)
  }

  /** A page in use at `i` spoils every run that contains it. */
  lemma Spoiled(bits: seq<bool>, behind: bool, t: nat, n: nat, i: nat)
    requires InUse(bits, behind, i) && t <= i < t + n
    ensures !RunFree(bits, behind, t, n)
  {
  }

  /** With its last page in use, no run can pass the end of the bitmap. */
  lemma RunsStayInside(bits: seq<bool>, behind: bool, s: nat, n: nat)
    requires |bits| > 0 && bits[|bits| - 1] && s < |bits| && RunFree(bits, behind, s, n)
    ensures s + n < |bits| || n == 0
  {
    if s + n >= |bits| && n > 0 {
      if s + n > |bits| - 1 {
        Spoiled(bits, behind, s, n, |bits| - 1);
      }
    }
  }

  /** Without that, a search can return pages that do not exist. */
  lemma RunsCanPassTheEnd()
    ensures IsFirstRun([true, false], false, 0, 3, 1)
  {
    var bits := [true, false];
    assert RunFree(bits, false, 1, 3);
    Spoiled(bits, false, 0, 3, 0);
  }

  /** The pages found exist exactly if a run of pages that exist is free from the hint on. */
  lemma FoundInside(bits: seq<bool>, behind: bool, hint: nat, n: nat, s: nat)
    requires IsFirstRun(bits, behind, hint, n, s)
    ensures s + n <= |bits| <==> exists t :: hint <= t < |bits| && t + n <= |bits| && RunFree(bits, behind, t, n)
  {
    if s + n <= |bits| {
      assert RunFree(bits, behind, s, n);
    }
  }

  /** Nothing below the search index is free. */
  ghost predicate BelowUsed(bits: seq<bool>, hint: nat) { forall i :: 0 <= i < hint && i < |bits| ==> bits[i] }

  /** `i` is the lowest free page, or the end if no page is free. */
  ghost predicate IsLowest(bits: seq<bool>, i: nat) {
    i <= |bits| && (i < |bits| ==> !bits[i]) && forall k :: 0 <= k < i ==> bits[k]
  }

  /** What a search from `hint` on finds is the lowest of all exactly if nothing below the hint is free. */
  lemma LowestIff(bits: seq<bool>, hint: nat, i: nat)
    requires i <= |bits| && (i < |bits| ==> hint <= i && !bits[i]) && forall k :: hint <= k < i ==> bits[k]
    ensures IsLowest(bits, i) <==> BelowUsed(bits, hint)
  {
  }

  function Filled(bits: seq<bool>, s: nat, n: nat, value: bool): (r: seq<bool>)
    ensures |r| == |bits| && forall i :: 0 <= i < |bits| ==> r[i] == if s <= i < s + n then value else bits[i]
  {
    seq(|bits|, i requires 0 <= i < |bits| => if s <= i < s + n then value else bits[i])
  }

  lemma FilledMore(bits: seq<bool>, s: nat, n: nat, value: bool)
    ensures Filled(bits, s, n + 1, value) == if s + n < |bits| then Filled(bits, s, n, value)[s + n := value] else Filled(bits, s, n, value)
  {
  }

  // ---------------------------------------------------------------- how many requests can be served

  /** How many pages from `hint` on are free. */
  ghost function FreeFrom(bits: seq<bool>, hint: nat): nat
    decreases |bits| - hint
  {
    if hint >= |bits| then 0 else FreeFrom(bits, hint + 1) + if bits[hint] then 0 else 1
  }

  lemma {:induction false} SameFreeFrom(bits: seq<bool>, bits': seq<bool>, hint: nat)
    requires |bits'| == |bits| && forall i :: hint <= i < |bits| ==> bits'[i] == bits[i]
    ensures FreeFrom(bits', hint) == FreeFrom(bits, hint)
    decreases |bits| - hint
  {
    if hint < |bits| {
      SameFreeFrom(bits, bits', hint + 1);
    }
  }

  lemma {:induction false} NoneLeft(bits: seq<bool>, hint: nat)
    requires forall i :: hint <= i < |bits| ==> bits[i]
    ensures FreeFrom(bits, hint) == 0
    decreases |bits| - hint
  {
    if hint < |bits| {
      NoneLeft(bits, hint + 1);
    }
  }

  /** What is left for requests are the free pages from the index on. */
  lemma {:induction false} FreeFromMeans(bits: seq<bool>, hint: nat)
    ensures FreeFrom(bits, hint) == |set i | hint <= i < |bits| && !bits[i]|
    decreases |bits| - hint
  {
    var here, later := (set i | hint <= i < |bits| && !bits[i]), (set i | hint + 1 <= i < |bits| && !bits[i]);
    if hint < |bits| {
      FreeFromMeans(bits, hint + 1);
      assert here == if bits[hint] then later else later + {hint};
    } else {
      assert here == {};
    }
  }

  /** A request takes one of the pages that were left for requests. */
  lemma {:induction false} OneFewer(bits: seq<bool>, hint: nat, index: nat)
    requires hint <= index < |bits| && !bits[index] && forall i :: hint <= i < index ==> bits[i]
    ensures FreeFrom(bits[index := true], index + 1) + 1 == FreeFrom(bits, hint)
    decreases |bits| - hint
  {
    if hint < index {
      OneFewer(bits, hint + 1, index);
    } else {
      SameFreeFrom(bits, bits[index := true], index + 1);
    }
  }

  lemma FirstIsFirst(bits: seq<bool>, behind: bool, hint: nat, index: nat)
    requires IsFirstRun(bits, behind, hint, 1, index)
    ensures hint <= index < |bits| && !bits[index] && forall i :: hint <= i < index ==> bits[i]
  {
    assert !InUse(bits, behind, index);
    forall k | hint <= k < index
      ensures bits[k]
    {
      if !bits[k] {
        assert RunFree(bits, behind, k, 1);
      }
    }
  }

  // ---------------------------------------------------------------- the allocator

  class PageFrameAllocator {
    const frames: Bitmap
    /** `s_current_index` */
    var current: nat
    /** `s_memory_used_size` */
    var used: nat

    ghost predicate Valid()
      reads this, frames, frames.buffer
    {
      frames.Valid()
    }

    ghost function Bits(): seq<bool>
      requires Valid()
      reads this, frames, frames.buffer
    {
      frames.Contents()
    }

    ghost predicate Behind()
      requires Valid()
      reads this, frames, frames.buffer
    {
      frames.Behind()
    }

    constructor (m: Bitmap)
      requires m.Valid()
      ensures frames == m && current == 0 && used == 0 && Valid()
    {
      frames, current, used := m, 0, 0;
    }

    /** `pageframe_manipulate`: also succeeds when the page is in the requested state already. */
    method Manipulate(index: nat, state: bool) returns (ok: bool)
      requires Valid()
      modifies frames.buffer
      ensures Valid() && Bits() == (if index < |old(Bits())| then old(Bits())[index := state] else old(Bits()))
      ensures Behind() == if index == |old(Bits())| then state else old(Behind())
      ensures ok == (index <= |old(Bits())| || !state)
    {
      var value := frames.Get(index);
      if value == state {
        assert index < |Bits()| ==> Bits() == Bits()[index := state];
        return true;
      }
      ok := frames.Set(index, state);
    }

    /** `pageframe_lock` */
    method Lock(start: nat, pages: nat)
      requires Valid()
      modifies this`used, frames.buffer
      ensures Valid() && Bits() == Filled(old(Bits()), start, pages, true)
      ensures Behind() == (old(Behind()) || start <= |old(Bits())| < start + pages)
      ensures start + pages <= |old(Bits())| ==> used == old(used) + 4096 * pages
    {
      hide Filled;
      ghost var bits := Bits();
      assert Bits() == Filled(bits, start, 0, true);
      var i := start;
      while i < start + pages
        invariant start <= i <= start + pages && Valid() && Bits() == Filled(bits, start, i - start, true)
        invariant Behind() == (old(Behind()) || start <= |bits| < i)
        invariant i <= |bits| ==> used == old(used) + MEMORY_PAGE_SIZE * (i - start)
      {
        var ok := Manipulate(i, true);
        if ok {
          used := used + MEMORY_PAGE_SIZE;
        }
        FilledMore(bits, start, i - start, true);
        i := i + 1;
      }
    }

    /** One round of the loop of `pageframe_free`. */
    method FreePage(i: nat)
      requires Valid()
      modifies this`used, this`current, frames.buffer
      ensures Valid() && Bits() == if i < |old(Bits())| then old(Bits())[i := false] else old(Bits())
      ensures Behind() == (old(Behind()) && i != |old(Bits())|)
      ensures used == if old(used) >= 4096 then old(used) - 4096 else old(used)
      ensures current == if old(current) > i then i else old(current)
    {
      var ok := Manipulate(i, false);
      if used >= MEMORY_PAGE_SIZE {
        used := used - MEMORY_PAGE_SIZE;
      }
      if current > i {
        current := i;
      }
    }

    /** `pageframe_free` */
    method Free(start: nat, pages: nat)
      requires Valid()
      modifies this`used, this`current, frames.buffer
      ensures Valid() && Bits() == Filled(old(Bits()), start, pages, false)
      ensures Behind() == (old(Behind()) && !(start <= |old(Bits())| < start + pages))
      ensures old(used) >= 4096 * pages ==> used == old(used) - 4096 * pages
      ensures current == if pages > 0 && start < old(current) then start else old(current)
    {
      hide Filled;
      ghost var bits := Bits();
      assert Bits() == Filled(bits, start, 0, false);
      var i := start;
      while i < start + pages
        invariant start <= i <= start + pages && Valid() && Bits() == Filled(bits, start, i - start, false)
        invariant Behind() == (old(Behind()) && !(start <= |bits| < i))
        invariant old(used) >= MEMORY_PAGE_SIZE * pages ==> used == old(used) - MEMORY_PAGE_SIZE * (i - start)
        invariant current == if i > start && start < old(current) then start else old(current)
      {
        FreePage(i);
        FilledMore(bits, start, i - start, false);
        i := i + 1;
      }
    }

    /** The search of `pageframe_request`: the index moves to the first free page, or to the end. */
    method SkipUsed() returns (size: nat)
      requires Valid()
      modifies this`current
      ensures Valid() && Bits() == old(Bits()) && Behind() == old(Behind()) && size == |Bits()| && old(current) <= current
      ensures forall i :: old(current) <= i < current && i < size ==> Bits()[i]
      ensures current < size ==> !Bits()[current]
    {
      size := frames.AdjustedSize();
      ghost var bits, behind := Bits(), Behind();
      while current < size
        modifies this`current
        invariant old(current) <= current && Valid() && Bits() == bits && Behind() == behind
        invariant forall i :: old(current) <= i < current && i < size ==> bits[i]
        decreases size - current
      {
        var value := frames.Get(current);
        if !value {
          return;
        }
        current := current + 1;
      }
    }

    /**
     `pageframe_request`: the first free page from the current index on, which it marks as used; 0 if there is none.
     */
    method Request() returns (page: nat, ghost index: nat)
      requires Valid()
      modifies this, frames.buffer
      ensures Valid() && index <= |old(Bits())| == |Bits()|
      ensures index < |Bits()| ==> IsFirstRun(old(Bits()), old(Behind()), old(current), 1, index) && page == 4096 * index
      ensures index < |Bits()| ==> Bits() == old(Bits())[index := true] && current == index + 1 && used == old(used) + 4096
      ensures index < |Bits()| ==> old(current) <= index && !old(Bits())[index] && forall i :: old(current) <= i < index ==> old(Bits())[i]
      ensures index == |Bits()| ==> page == 0 && Bits() == old(Bits()) && used == old(used) && current >= |Bits()|
      ensures index == |Bits()| ==> forall i :: old(current) <= i < |Bits()| ==> Bits()[i]
      ensures Behind() == old(Behind())
      ensures IsLowest(old(Bits()), index) <==> old(BelowUsed(Bits(), current))
    {
      hide IsLowest, BelowUsed, IsFirstRun, Filled;
      ghost var bits, behind := Bits(), Behind();
      var size := SkipUsed();
      if current >= size {
        LowestIff(bits, old(current), |bits|);
        return 0, |bits|;
      }
      index := current;
      page := current * MEMORY_PAGE_SIZE;
      LowestIff(bits, old(current), current);
      OneIsFirst(bits, behind, old(current), current);
      FilledOne(bits, current);
      current := current + 1;
      Lock(page / MEMORY_PAGE_SIZE, 1);
    }

    /** The inner loop of the search: how many of the `pages` pages from `start` on are free before one is in use. */
    method FirstUsed(start: nat, pages: nat) returns (j: nat)
      requires Valid()
      ensures j <= pages && RunFree(Bits(), Behind(), start, j)
      ensures j < pages ==> InUse(Bits(), Behind(), start + j)
    {
      j := 0;
      while j < pages
        invariant j <= pages && RunFree(Bits(), Behind(), start, j)
      {
        var value := frames.Get(start + j);
        if value {
          return;
        }
        j := j + 1;
      }
    }

    /** The search of `pageframe_request_pages`: behind a page in use it goes on after that page. */
    method FindRun(pages: nat) returns (found: bool)
      requires Valid()
      modifies this`current
      ensures Valid() && Bits() == old(Bits()) && Behind() == old(Behind()) && old(current) <= current
      ensures forall s :: old(current) <= s < current && s < |Bits()| ==> !RunFree(Bits(), Behind(), s, pages)
      ensures if found then current < |Bits()| && RunFree(Bits(), Behind(), current, pages) else current >= |Bits()|
    {
      var size := frames.AdjustedSize();
      ghost var bits, behind := Bits(), Behind();
      found := false;
      while current < size && !found
        modifies this`current
        invariant Valid() && Bits() == bits && Behind() == behind && old(current) <= current
        invariant forall s :: old(current) <= s < current && s < size ==> !RunFree(bits, behind, s, pages)
        invariant found ==> current < size && RunFree(bits, behind, current, pages)
        decreases size - current + if found then 0 else 1
      {
        var j := FirstUsed(current, pages);
        if j == pages {
          found := true;
        } else {
          SkipPast(bits, behind, current, pages, j);
          current := current + (j + 1);
        }
      }
    }

    /**
     `pageframe_request_pages`: the search skips past every page in use that it meets, and still finds the first run
     that the naive scan finds; 0 if there is none.
     */
    method RequestPages(pages: nat) returns (page: nat, ghost index: nat)
      requires Valid()
      modifies this, frames.buffer
      ensures Valid() && index <= |old(Bits())| == |Bits()|
      ensures index < |Bits()| ==> IsFirstRun(old(Bits()), old(Behind()), old(current), pages, index) && page == 4096 * index
      ensures index < |Bits()| ==> Bits() == Filled(old(Bits()), index, pages, true) && current == index + pages
      ensures index + pages <= |Bits()| && index < |Bits()| ==> used == old(used) + 4096 * pages && Behind() == old(Behind())
      ensures index == |Bits()| ==> page == 0 && Bits() == old(Bits()) && used == old(used) && current >= |Bits()| && Behind() == old(Behind())
      ensures index == |Bits()| ==> forall s :: old(current) <= s < |Bits()| ==> !RunFree(Bits(), Behind(), s, pages)
    {
      hide Filled, IsFirstRun, RunFree;
      ghost var bits, behind := Bits(), Behind();
      var found := FindRun(pages);
      if !found {
        return 0, |bits|;
      }
      FirstRunHere(bits, behind, old(current), pages, current);
      index := current;
      page := current * MEMORY_PAGE_SIZE;
      current := current + pages;
      Lock(page / MEMORY_PAGE_SIZE, pages);
    }
  }

  lemma FirstRunHere(bits: seq<bool>, behind: bool, hint: nat, n: nat, s: nat)
    requires hint <= s < |bits| && RunFree(bits, behind, s, n) && forall t :: hint <= t < s ==> !RunFree(bits, behind, t, n)
    ensures IsFirstRun(bits, behind, hint, n, s)
  {
  }

  /** No run that starts before a page in use, and would reach it, is free. */
  lemma SkipPast(bits: seq<bool>, behind: bool, c: nat, pages: nat, j: nat)
    requires j < pages && InUse(bits, behind, c + j)
    ensures forall s :: c <= s < c + j + 1 ==> !RunFree(bits, behind, s, pages)
  {
    forall s | c <= s < c + j + 1
      ensures !RunFree(bits, behind, s, pages)
    {
      Spoiled(bits, behind, s, pages, c + j);
    }
  }

  lemma FilledOne(bits: seq<bool>, i: nat)
    requires i < |bits|
    ensures Filled(bits, i, 1, true) == bits[i := true]
  {
  }

  lemma OneIsFirst(bits: seq<bool>, behind: bool, hint: nat, i: nat)
    requires hint <= i < |bits| && !bits[i] && forall k :: hint <= k < i ==> bits[k]
    ensures IsFirstRun(bits, behind, hint, 1, i)
  {
    assert RunFree(bits, behind, i, 1);
    forall t | hint <= t < i
      ensures !RunFree(bits, behind, t, 1)
    {
      Spoiled(bits, behind, t, 1, t);
    }
  }

  /** A run of pages is free if no page of it that exists is in use, nor the bit behind the bitmap if it reaches that far. */
  lemma RunFreeMeans(bits: seq<bool>, behind: bool, s: nat, n: nat)
    ensures RunFree(bits, behind, s, n) <==>
              (forall i :: s <= i < s + n && i < |bits| ==> !bits[i]) && (s <= |bits| < s + n ==> !behind)
  {
    if RunFree(bits, behind, s, n) {
      forall i | s <= i < s + n && i < |bits|
        ensures !bits[i]
      {
        assert !InUse(bits, behind, i);
      }
      assert s <= |bits| < s + n ==> !InUse(bits, behind, |bits|);
    }
  }
}
