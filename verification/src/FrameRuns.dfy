/**
 Runs of clients that request page frames and give back what they own: no page is handed out twice, and the account
 of used memory is exact.
 */
module FrameRuns {
  import opened Bitmaps
  import opened PageFrames

  /** Pages that a client owns. */
  datatype Pages = Pages(start: nat, num: nat)

  predicate Holds(r: Pages, i: int) { r.start <= i < r.start + r.num }

  datatype Command = Request | RequestPages(n: nat) | Free(k: nat)

  /** The pages in use, what the clients own, the account, and the index from which the next search starts. */
  datatype View = View(bits: seq<bool>, owned: seq<Pages>, used: nat, current: nat)

  function Total(owned: seq<Pages>): nat {
    if owned == [] then 0 else Total(owned[..|owned| - 1]) + owned[|owned| - 1].num
  }

  /** The first and the last page are in use for good; owned pages exist, are in use, and have one owner. */
  ghost predicate Ok(v: View) { OwnedOnce(v.bits, v.owned) }

  ghost predicate OwnedOnce(bits: seq<bool>, owned: seq<Pages>) {
    && |bits| >= 2 && bits[0] && bits[|bits| - 1]
    && (forall k :: 0 <= k < |owned| ==> 0 < owned[k].start && owned[k].start + owned[k].num < |bits|)
    && (forall k, i :: 0 <= k < |owned| && Holds(owned[k], i) ==> i < |bits| && bits[i])
    && (forall k, l, i :: 0 <= k < l < |owned| && Holds(owned[k], i) ==> !Holds(owned[l], i))
  }

  ghost predicate Accounted(v: View, base: nat) { v.used == base + MEMORY_PAGE_SIZE * Total(v.owned) }

  function Without(owned: seq<Pages>, k: nat): seq<Pages>
    requires k < |owned|
  {
    owned[..k] + owned[k + 1..]
  }

  ghost predicate SomeUsed(bits: seq<bool>, t: nat, n: nat) { exists i :: t <= i < t + n && i < |bits| && bits[i] }

  /** `s` starts the first run of `n` free pages from `hint` on. */
  ghost predicate FirstRun(bits: seq<bool>, hint: nat, n: nat, s: nat) {
    && hint <= s && s + n <= |bits| && (forall i :: s <= i < s + n ==> !bits[i])
    && forall t :: hint <= t < s ==> SomeUsed(bits, t, n)
  }

  /** What a request for `n` pages does: the first run from the index on is handed out, and it is refused only if there is none. */
  ghost predicate Requested(v: View, n: nat, v': View) {
    if exists s: nat :: FirstRun(v.bits, v.current, n, s) then
      exists s: nat :: FirstRun(v.bits, v.current, n, s) &&
        v' == View(Filled(v.bits, s, n, true), v.owned + [Pages(s, n)], v.used + MEMORY_PAGE_SIZE * n, s + n)
    else v' == v.(current := v'.current) && v'.current >= |v.bits|
  }

  /** What a command does. */
  ghost predicate Transition(v: View, cmd: Command, v': View) {
    match cmd
    case Request => Requested(v, 1, v')
    case RequestPages(n) => if n == 0 then v' == v.(current := v'.current) else Requested(v, n, v')
    case Free(k) =>
      if k < |v.owned| then
        var r := v.owned[k];
        && v.used >= MEMORY_PAGE_SIZE * r.num
        && v' == View(Filled(v.bits, r.start, r.num, false), Without(v.owned, k), v.used - MEMORY_PAGE_SIZE * r.num,
                      if r.num > 0 && r.start < v.current then r.start else v.current)
      else v' == v
  }

  // ---------------------------------------------------------------- the invariant

  lemma {:induction false} TotalPlus(owned: seq<Pages>, r: Pages)
    ensures Total(owned + [r]) == Total(owned) + r.num
  {
    assert (owned + [r])[..|owned|] == owned;
  }

  lemma {:induction false} TotalWithout(owned: seq<Pages>, k: nat)
    requires k < |owned|
    ensures Total(Without(owned, k)) + owned[k].num == Total(owned)
  {
    var last := |owned| - 1;
    if k == last {
      assert Without(owned, k) == owned[..last];
    } else {
      var front := owned[..last];
      TotalWithout(front, k);
      assert Without(owned, k) == Without(front, k) + [owned[last]];
      TotalPlus(Without(front, k), owned[last]);
    }
  }

  /** Pages that were free get a new owner. */
  lemma Granted(v: View, r: Pages, base: nat, current: nat)
    requires Ok(v) && Accounted(v, base) && 0 < r.start && r.start + r.num < |v.bits|
    requires forall i :: Holds(r, i) ==> !v.bits[i]
    ensures var v' := View(Filled(v.bits, r.start, r.num, true), v.owned + [r], v.used + MEMORY_PAGE_SIZE * r.num, current);
            Ok(v') && Accounted(v', base)
  {
    TotalPlus(v.owned, r);
    GrantedOk(v, r, v.used + MEMORY_PAGE_SIZE * r.num, current);
  }

  lemma GrantedOk(v: View, r: Pages, used: nat, current: nat)
    requires Ok(v) && 0 < r.start && r.start + r.num < |v.bits|
    requires forall i :: Holds(r, i) ==> !v.bits[i]
    ensures Ok(View(Filled(v.bits, r.start, r.num, true), v.owned + [r], used, current))
  {
    var bits := Filled(v.bits, r.start, r.num, true);
    var owned := v.owned + [r];
    assert forall k :: 0 <= k < |v.owned| ==> owned[k] == v.owned[k];
    assert |bits| == |v.bits|;
    forall k | 0 <= k < |owned|
      ensures 0 < owned[k].start && owned[k].start + owned[k].num < |bits|
      ensures forall i :: Holds(owned[k], i) ==> bits[i]
    {
      if k < |v.owned| {
        assert forall i :: Holds(v.owned[k], i) ==> v.bits[i];
      }
    }
    forall k, l, i | 0 <= k < l < |owned| && Holds(owned[k], i)
      ensures !Holds(owned[l], i)
    {
      assert Holds(v.owned[k], i);
      assert v.bits[i];
      if l == |v.owned| {
        assert !Holds(r, i);
      }
    }
  }

  /** A page of what remains is a page that was owned, and not one that went back. */
  lemma Remaining(v: View, k: nat, l: nat) returns (o: nat)
    requires Ok(v) && k < |v.owned| && l < |Without(v.owned, k)|
    ensures o < |v.owned| && o != k && Without(v.owned, k)[l] == v.owned[o] && (o == if l < k then l else l + 1)
    ensures forall i :: Holds(v.owned[o], i) ==> 0 <= i < |v.bits| && v.bits[i] && !Holds(v.owned[k], i)
  {
    o := if l < k then l else l + 1;
    forall i | Holds(v.owned[o], i)
      ensures 0 <= i < |v.bits| && v.bits[i] && !Holds(v.owned[k], i)
    {
      assert !Holds(v.owned[k], i);
    }
  }

  lemma GivenBackOk(v: View, k: nat, used: nat, current: nat)
    requires Ok(v) && k < |v.owned|
    ensures var r := v.owned[k]; Ok(View(Filled(v.bits, r.start, r.num, false), Without(v.owned, k), used, current))
  {
    var r := v.owned[k];
    var bits := Filled(v.bits, r.start, r.num, false);
    var owned := Without(v.owned, k);
    forall l | 0 <= l < |owned|
      ensures 0 < owned[l].start && owned[l].start + owned[l].num < |bits|
      ensures forall i :: Holds(owned[l], i) ==> 0 <= i < |bits| && bits[i]
    {
      var o := Remaining(v, k, l);
    }
    forall a, b, i | 0 <= a < b < |owned| && Holds(owned[a], i)
      ensures !Holds(owned[b], i)
    {
      var oa := Remaining(v, k, a);
      var ob := Remaining(v, k, b);
    }
  }

  /** Pages go back. */
  lemma GivenBack(v: View, k: nat, base: nat, current: nat)
    requires Ok(v) && Accounted(v, base) && k < |v.owned|
    ensures v.used >= MEMORY_PAGE_SIZE * v.owned[k].num
    ensures var r := v.owned[k];
            var v' := View(Filled(v.bits, r.start, r.num, false), Without(v.owned, k), v.used - MEMORY_PAGE_SIZE * r.num, current);
            Ok(v') && Accounted(v', base)
  {
    TotalWithout(v.owned, k);
    GivenBackOk(v, k, v.used - MEMORY_PAGE_SIZE * v.owned[k].num, current);
  }

  // ---------------------------------------------------------------- the search index

  /** What the commands of a run do, page by page. */
  lemma TransitionMeans(v: View, cmd: Command, v': View)
    requires Transition(v, cmd, v')
    ensures |v'.bits| == |v.bits|
    ensures cmd.Free? && cmd.k < |v.owned| ==>
              var r := v.owned[cmd.k];
              && v'.owned == v.owned[..cmd.k] + v.owned[cmd.k + 1..] && v'.used == v.used - 4096 * r.num
              && forall i :: 0 <= i < |v.bits| ==> v'.bits[i] == (v.bits[i] && !(r.start <= i < r.start + r.num))
    ensures cmd.Free? && cmd.k >= |v.owned| ==> v' == v
    ensures !cmd.Free? && v'.owned == v.owned ==> v'.bits == v.bits && v'.used == v.used
    ensures !cmd.Free? && v'.owned != v.owned ==>
              var n := if cmd.Request? then 1 else cmd.n;
              && |v'.owned| == |v.owned| + 1 && v'.owned[..|v.owned|] == v.owned && v'.owned[|v.owned|].num == n > 0
              && var s := v'.owned[|v.owned|].start;
                 && v.current <= s && s + n <= |v.bits| && v'.current == s + n && v'.used == v.used + 4096 * n
                 && forall i :: 0 <= i < |v.bits| ==> v'.bits[i] == (v.bits[i] || s <= i < s + n) && (s <= i < s + n ==> !v.bits[i])
    ensures cmd.Request? ==> (v'.owned == v.owned <==> forall i :: v.current <= i < |v.bits| ==> v.bits[i])
    ensures cmd.RequestPages? && cmd.n > 0 ==> (v'.owned == v.owned <==> forall s :: v.current <= s <= |v.bits| - cmd.n ==> SomeUsed(v.bits, s, cmd.n))
  {
    match cmd
    case Request => OneRequest(v, v'); RequestedMeans(v, 1, v');
    case RequestPages(n) => if n > 0 { RequestedMeans(v, n, v'); }
    case Free(_) =>
  }

  lemma RequestedMeans(v: View, n: nat, v': View)
    requires Requested(v, n, v') && n > 0
    ensures v'.owned == v.owned ==> v'.bits == v.bits && v'.used == v.used
    ensures v'.owned != v.owned ==>
              && |v'.owned| == |v.owned| + 1 && v'.owned[..|v.owned|] == v.owned && v'.owned[|v.owned|].num == n
              && var s := v'.owned[|v.owned|].start;
                 && v.current <= s && s + n <= |v.bits| == |v'.bits| && v'.current == s + n && v'.used == v.used + 4096 * n
                 && forall i :: 0 <= i < |v.bits| ==> v'.bits[i] == (v.bits[i] || s <= i < s + n) && (s <= i < s + n ==> !v.bits[i])
    ensures v'.owned == v.owned <==> forall s :: v.current <= s <= |v.bits| - n ==> SomeUsed(v.bits, s, n)
  {
    if exists s: nat :: FirstRun(v.bits, v.current, n, s) {
      var s: nat :| FirstRun(v.bits, v.current, n, s) &&
        v' == View(Filled(v.bits, s, n, true), v.owned + [Pages(s, n)], v.used + MEMORY_PAGE_SIZE * n, s + n);
      assert !SomeUsed(v.bits, s, n);
    } else {
      NoRun(v.bits, v.current, n, v.current);
    }
  }

  /** Where no run is the first one, there is no run. */
  lemma {:induction false} NoRun(bits: seq<bool>, hint: nat, n: nat, t: nat)
    requires n > 0 && hint <= t && (forall s: nat :: !FirstRun(bits, hint, n, s)) && forall s :: hint <= s < t ==> SomeUsed(bits, s, n)
    ensures forall s :: hint <= s <= |bits| - n ==> SomeUsed(bits, s, n)
    decreases |bits| - t
  {
    if t < |bits| {
      if t + n <= |bits| && !SomeUsed(bits, t, n) {
        assert forall i :: t <= i < t + n ==> !bits[i];
        assert FirstRun(bits, hint, n, t);
      } else if t + n <= |bits| {
        NoRun(bits, hint, n, t + 1);
      }
    }
  }

  lemma OneRequest(v: View, v': View)
    requires Requested(v, 1, v')
    ensures v'.owned == v.owned <==> forall i :: v.current <= i < |v.bits| ==> v.bits[i]
  {
    RequestedMeans(v, 1, v');
    if v'.owned == v.owned {
      forall i | v.current <= i < |v.bits|
        ensures v.bits[i]
      {
        assert SomeUsed(v.bits, i, 1);
      }
    } else {
      var s := v'.owned[|v.owned|].start;
      assert s <= s < s + 1 && !v.bits[s];
    }
  }

  /** After requests for several pages, free pages may lie below the index, and single requests then miss them. */
  lemma RunsLosePages()
    ensures var bits := [true, false, true, false, false, true];
            && BelowUsed(bits, 0) && IsFirstRun(bits, false, 0, 2, 3)
            && !BelowUsed(Filled(bits, 3, 2, true), 3 + 2)
            && (forall i :: 5 <= i < 6 ==> Filled(bits, 3, 2, true)[i]) && !Filled(bits, 3, 2, true)[1]
  {
    var bits := [true, false, true, false, false, true];
    Spoiled(bits, false, 0, 2, 0);
    Spoiled(bits, false, 1, 2, 2);
    Spoiled(bits, false, 2, 2, 2);
    assert RunFree(bits, false, 3, 2);
    assert !Filled(bits, 3, 2, true)[1];
  }

  /** Where the pages will start that a request is to get: the first run from the index on, or the end if there is none. */
  ghost predicate StartsAt(v: View, n: nat, s: nat) {
    if exists t: nat :: FirstRun(v.bits, v.current, n, t) then FirstRun(v.bits, v.current, n, s) else s == |v.bits|
  }

  lemma OneFirstRun(bits: seq<bool>, hint: nat, n: nat, s: nat, t: nat)
    requires FirstRun(bits, hint, n, s) && FirstRun(bits, hint, n, t)
    ensures s == t
  {
    assert s < t ==> SomeUsed(bits, s, n);
    assert t < s ==> SomeUsed(bits, t, n);
  }

  /** Where the pages start that were handed out; the end if none were. */
  ghost function Start(v: View, v': View): nat {
    if |v'.owned| > |v.owned| then v'.owned[|v.owned|].start else |v.bits|
  }

  /**
   A request leaves no free page below the index exactly if, before it, no page below the first run from the index on was
   free, and none at all if there is no such run.
   */
  lemma NothingLost(v: View, n: nat, s: nat, v': View)
    requires StartsAt(v, n, s) && Requested(v, n, v') && n > 0
    ensures Start(v, v') == s
    ensures BelowUsed(v'.bits, v'.current) <==> BelowUsed(v.bits, s)
  {
    if exists t: nat :: FirstRun(v.bits, v.current, n, t) {
      var t: nat :| FirstRun(v.bits, v.current, n, t) &&
        v' == View(Filled(v.bits, t, n, true), v.owned + [Pages(t, n)], v.used + MEMORY_PAGE_SIZE * n, t + n);
      OneFirstRun(v.bits, v.current, n, s, t);
      if BelowUsed(v'.bits, v'.current) {
        assert forall i :: 0 <= i < s ==> v'.bits[i] == v.bits[i];
      }
    }
  }

  /**
   A single request gets the lowest free page, or is refused because there is none, exactly if no free page lies below
   the index; and this stays so exactly if it was so.
   */
  lemma LowestExactly(v: View, v': View)
    requires Requested(v, 1, v')
    ensures IsLowest(v.bits, Start(v, v')) <==> BelowUsed(v.bits, v.current)
    ensures BelowUsed(v'.bits, v'.current) <==> BelowUsed(v.bits, v.current)
  {
    if exists s: nat :: FirstRun(v.bits, v.current, 1, s) {
      var s: nat :| FirstRun(v.bits, v.current, 1, s) &&
        v' == View(Filled(v.bits, s, 1, true), v.owned + [Pages(s, 1)], v.used + MEMORY_PAGE_SIZE * 1, s + 1);
      NothingLost(v, 1, s, v');
      assert !v.bits[s];
      forall t | v.current <= t < s
        ensures v.bits[t]
      {
        assert SomeUsed(v.bits, t, 1);
        var i :| t <= i < t + 1 && i < |v.bits| && v.bits[i];
      }
    } else {
      NothingLost(v, 1, |v.bits|, v');
      forall t | v.current <= t < |v.bits|
        ensures v.bits[t]
      {
        if !v.bits[t] {
          var s := FirstFree(v.bits, v.current, t);
          OneIsRun(v.bits, v.current, s);
        }
      }
    }
  }

  lemma OneIsRun(bits: seq<bool>, hint: nat, s: nat)
    requires hint <= s < |bits| && !bits[s] && forall i :: hint <= i < s ==> bits[i]
    ensures FirstRun(bits, hint, 1, s)
  {
    forall t | hint <= t < s
      ensures SomeUsed(bits, t, 1)
    {
      assert bits[t];
    }
  }

  lemma {:induction false} FirstFree(bits: seq<bool>, hint: nat, t: nat) returns (s: nat)
    requires hint <= t < |bits| && !bits[t]
    ensures hint <= s < |bits| && !bits[s] && forall i :: hint <= i < s ==> bits[i]
    decreases |bits| - hint
  {
    if !bits[hint] {
      s := hint;
    } else {
      s := FirstFree(bits, hint + 1, t);
    }
  }

  // ---------------------------------------------------------------- runs

  ghost predicate Matches(a: PageFrameAllocator, v: View)
    reads a, a.frames, a.frames.buffer
  {
    a.Valid() && a.Bits() == v.bits && a.used == v.used && a.current == v.current
  }

  /** With the last page in use, the search of the allocator is the search among existing pages. */
  lemma SameRun(bits: seq<bool>, behind: bool, hint: nat, n: nat, s: nat)
    requires |bits| > 0 && bits[|bits| - 1] && n > 0
    ensures IsFirstRun(bits, behind, hint, n, s) <==> FirstRun(bits, hint, n, s)
  {
    if IsFirstRun(bits, behind, hint, n, s) {
      RunsStayInside(bits, behind, s, n);
      forall i | s <= i < s + n
        ensures !bits[i]
      {
        assert !InUse(bits, behind, i);
      }
      forall t | hint <= t < s
        ensures SomeUsed(bits, t, n)
      {
        SpoiledBy(bits, behind, t, n);
      }
    }
    if FirstRun(bits, hint, n, s) {
      assert RunFree(bits, behind, s, n);
      forall t | hint <= t < s
        ensures !RunFree(bits, behind, t, n)
      {
        assert SomeUsed(bits, t, n);
        var i :| t <= i < t + n && i < |bits| && bits[i];
        Spoiled(bits, behind, t, n, i);
      }
    }
  }

  lemma SpoiledBy(bits: seq<bool>, behind: bool, t: nat, n: nat)
    requires !RunFree(bits, behind, t, n) && t < |bits| && bits[|bits| - 1]
    ensures SomeUsed(bits, t, n)
  {
    var i :| t <= i < t + n && InUse(bits, behind, i);
    if i >= |bits| {
      assert t <= |bits| - 1 < t + n;
    }
  }

  lemma RunGranted(v: View, behind: bool, index: nat, n: nat, base: nat)
    requires Ok(v) && Accounted(v, base) && IsFirstRun(v.bits, behind, v.current, n, index) && n > 0
    ensures index > 0 && index + n <= |v.bits|
    ensures var v' := View(Filled(v.bits, index, n, true), v.owned + [Pages(index, n)], v.used + MEMORY_PAGE_SIZE * n, index + n);
            Ok(v') && Accounted(v', base) && Requested(v, n, v')
  {
    hide Accounted, Filled;
    SameRun(v.bits, behind, v.current, n, index);
    RunsStayInside(v.bits, behind, index, n);
    assert !v.bits[index];
    Granted(v, Pages(index, n), base, index + n);
  }

  lemma RunRefused(v: View, behind: bool, n: nat, current: nat)
    requires Ok(v) && n > 0 && current >= |v.bits| && forall s :: v.current <= s < |v.bits| ==> !RunFree(v.bits, behind, s, n)
    ensures Requested(v, n, v.(current := current)) && Ok(v.(current := current))
  {
    forall s: nat
      ensures !FirstRun(v.bits, v.current, n, s)
    {
      SameRun(v.bits, behind, v.current, n, s);
    }
  }

  lemma NoneFree(bits: seq<bool>, behind: bool, hint: nat)
    requires forall i :: hint <= i < |bits| ==> bits[i]
    ensures forall s :: hint <= s < |bits| ==> !RunFree(bits, behind, s, 1)
  {
    forall s | hint <= s < |bits|
      ensures !RunFree(bits, behind, s, 1)
    {
      Spoiled(bits, behind, s, 1, s);
    }
  }

  /** `pageframe_request`, and what it means for the clients. */
  method DoRequest(a: PageFrameAllocator, owned: seq<Pages>, ghost v: View, ghost base: nat)
    returns (owned': seq<Pages>, ghost v': View)
    requires Matches(a, v) && Ok(v) && Accounted(v, base) && owned == v.owned
    modifies a, a.frames.buffer
    ensures Matches(a, v') && Ok(v') && Accounted(v', base) && owned' == v'.owned && Transition(v, Request, v')
  {
    hide Ok, Requested, IsFirstRun;
    ghost var behind := a.Behind();
    var page;
    ghost var index;
    page, index := a.Request();
    owned', v' := owned, v.(current := a.current);
    if index < |v.bits| {
      RunGranted(v, behind, index, 1, base);
      FilledOne(v.bits, index);
    } else {
      NoneFree(v.bits, behind, v.current);
      RunRefused(v, behind, 1, a.current);
    }
    if page != 0 {
      owned' := owned + [Pages(page / MEMORY_PAGE_SIZE, 1)];
      v' := View(v.bits[index := true], owned', a.used, a.current);
    }
  }

  /** `pageframe_request_pages`, and what it means for the clients. */
  method DoRequestPages(a: PageFrameAllocator, owned: seq<Pages>, n: nat, ghost v: View, ghost base: nat)
    returns (owned': seq<Pages>, ghost v': View)
    requires Matches(a, v) && Ok(v) && Accounted(v, base) && owned == v.owned
    modifies a, a.frames.buffer
    ensures Matches(a, v') && Ok(v') && Accounted(v', base) && owned' == v'.owned && Transition(v, RequestPages(n), v')
  {
    hide Ok, Requested, IsFirstRun;
    ghost var behind := a.Behind();
    var page;
    ghost var index;
    page, index := a.RequestPages(n);
    owned', v' := owned, v.(current := a.current);
    IndexFree(v, a.current);
    if n == 0 {
      NothingFilled(v.bits, index);
    } else if index < |v.bits| {
      RunGranted(v, behind, index, n, base);
    } else {
      RunRefused(v, behind, n, a.current);
    }
    if page != 0 && n != 0 {
      owned' := owned + [Pages(page / MEMORY_PAGE_SIZE, n)];
      v' := View(Filled(v.bits, index, n, true), owned', a.used, a.current);
    }
  }

  lemma IndexFree(v: View, current: nat)
    ensures Ok(v) ==> Ok(v.(current := current))
  {
  }

  lemma NothingFilled(bits: seq<bool>, s: nat)
    ensures Filled(bits, s, 0, true) == bits
  {
  }

  /** `pageframe_free` of pages that a client owns. */
  method DoFree(a: PageFrameAllocator, owned: seq<Pages>, k: nat, ghost v: View, ghost base: nat)
    returns (owned': seq<Pages>, ghost v': View)
    requires Matches(a, v) && Ok(v) && Accounted(v, base) && owned == v.owned
    modifies a, a.frames.buffer
    ensures Matches(a, v') && Ok(v') && Accounted(v', base) && owned' == v'.owned && Transition(v, Free(k), v')
  {
    hide Ok;
    owned', v' := owned, v;
    if k < |owned| {
      a.Free(owned[k].start, owned[k].num);
      GivenBack(v, k, base, a.current);
      owned' := Without(owned, k);
      v' := View(Filled(v.bits, owned[k].start, owned[k].num, false), owned', a.used, a.current);
    }
  }

  /** Only single pages were requested before step `i`. */
  ghost predicate OnlySingles(cmds: seq<Command>, i: nat) {
    forall j :: 0 <= j < i && j < |cmds| ==> !cmds[j].RequestPages?
  }

  /** Giving back pages moves the index before them. */
  lemma FreeKeepsBelow(v: View, k: nat, v': View)
    requires Transition(v, Free(k), v')
    ensures BelowUsed(v'.bits, v'.current) <==> BelowUsed(v.bits, v'.current)
  {
  }

  /**
   Every run of clients that give back only what they own: after every command no page has two owners, owned pages
   are marked as used, and the used size is its starting value plus the owned pages. As long as only single pages are
   requested nothing is free below the index, so that each request gets the lowest free page (`LowestExactly`).
   */
  method Run(a: PageFrameAllocator, cmds: seq<Command>) returns (ghost trace: seq<View>, owned: seq<Pages>)
    requires a.Valid() && Ok(View(a.Bits(), [], a.used, a.current))
    modifies a, a.frames.buffer
    ensures |trace| == |cmds| + 1 && trace[0] == View(old(a.Bits()), [], old(a.used), old(a.current)) && Matches(a, trace[|cmds|])
    ensures owned == trace[|cmds|].owned
    ensures forall i :: 0 <= i <= |cmds| ==> Ok(trace[i]) && Accounted(trace[i], old(a.used))
    ensures forall i :: 0 <= i < |cmds| ==> Transition(trace[i], cmds[i], trace[i + 1])
    ensures old(BelowUsed(a.Bits(), a.current)) ==>
              forall i :: 0 <= i <= |cmds| && OnlySingles(cmds, i) ==> BelowUsed(trace[i].bits, trace[i].current)
  {
    hide Transition, Ok, Accounted, BelowUsed;
    ghost var base, v := a.used, View(a.Bits(), [], a.used, a.current);
    assert Accounted(v, base) by { NothingOwned(v, base); }
    owned, trace := [], [v];
    for i := 0 to |cmds|
      invariant Matches(a, v) && Ok(v) && Accounted(v, base) && owned == v.owned
      invariant |trace| == i + 1 && trace[0] == View(old(a.Bits()), [], base, old(a.current)) && trace[i] == v
      invariant forall j :: 0 <= j <= i ==> Ok(trace[j]) && Accounted(trace[j], base)
      invariant forall j :: 0 <= j < i ==> Transition(trace[j], cmds[j], trace[j + 1])
    {
      match cmds[i] {
        case Request => owned, v := DoRequest(a, owned, v, base);
        case RequestPages(n) => owned, v := DoRequestPages(a, owned, n, v, base);
        case Free(k) => owned, v := DoFree(a, owned, k, v, base);
      }
      trace := trace + [v];
    }
    if BelowUsed(trace[0].bits, trace[0].current) {
      SinglesLoseNothing(trace, cmds);
    }
  }

  lemma SinglesLoseNothing(trace: seq<View>, cmds: seq<Command>)
    requires |trace| == |cmds| + 1 && BelowUsed(trace[0].bits, trace[0].current)
    requires forall i :: 0 <= i < |cmds| ==> Transition(trace[i], cmds[i], trace[i + 1])
    ensures forall i :: 0 <= i <= |cmds| && OnlySingles(cmds, i) ==> BelowUsed(trace[i].bits, trace[i].current)
  {
    hide Transition, BelowUsed;
    for i := 0 to |cmds|
      invariant forall j :: 0 <= j <= i && OnlySingles(cmds, j) ==> BelowUsed(trace[j].bits, trace[j].current)
    {
      if OnlySingles(cmds, i + 1) {
        assert OnlySingles(cmds, i) && !cmds[i].RequestPages?;
        SingleLosesNothing(trace[i], cmds[i], trace[i + 1]);
      }
    }
  }

  lemma SingleLosesNothing(v: View, cmd: Command, v': View)
    requires Transition(v, cmd, v') && !cmd.RequestPages? && BelowUsed(v.bits, v.current)
    ensures BelowUsed(v'.bits, v'.current)
  {
    match cmd
    case Request => LowestExactly(v, v');
    case Free(k) => FreeKeepsBelow(v, k, v');
  }

  lemma NothingOwned(v: View, base: nat)
    requires v.owned == [] && v.used == base
    ensures Accounted(v, base)
  {
  }
}
