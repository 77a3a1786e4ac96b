/** The page list of the slab allocator: runs of free pages. */
module PageRuns {
  import opened Wrappers

  datatype Run = Run(start: nat, pages: nat)

  function End(r: Run): nat { r.start + r.pages }

  /** Address-sorted, from `lo` on, no run empty and no two runs adjacent: the maximal free runs. */
  predicate Canonical(runs: seq<Run>, lo: nat) {
    runs != [] ==> lo <= runs[0].start && runs[0].pages > 0 && Canonical(runs[1..], End(runs[0]) + 1)
  }

  predicate InRun(r: Run, p: nat) { r.start <= p < End(r) }

  /** Page `p` is free. */
  predicate Covers(runs: seq<Run>, p: nat) {
    runs != [] && (InRun(runs[0], p) || Covers(runs[1..], p))
  }

  lemma {:induction false} CoversAbove(runs: seq<Run>, lo: nat, p: nat)
    requires Canonical(runs, lo) && Covers(runs, p)
    ensures lo <= p
  {
    if !InRun(runs[0], p) {
      CoversAbove(runs[1..], End(runs[0]) + 1, p);
    }
  }

  lemma CanonicalLower(runs: seq<Run>, lo: nat, lo': nat)
    requires Canonical(runs, lo) && lo' <= lo
    ensures Canonical(runs, lo')
  {
  }

  /** What the first run says: it starts at the lowest free page and ends at the first page after it that is not free. */
  lemma HeadIsMaximal(runs: seq<Run>, lo: nat, p: nat)
    requires Canonical(runs, lo) && runs != []
    ensures p < runs[0].start ==> !Covers(runs, p)
    ensures InRun(runs[0], p) ==> Covers(runs, p)
    ensures p == End(runs[0]) ==> !Covers(runs, p)
    ensures p > End(runs[0]) ==> (Covers(runs, p) <==> Covers(runs[1..], p))
  {
    if Covers(runs[1..], p) {
      CoversAbove(runs[1..], End(runs[0]) + 1, p);
    }
  }

  /** The list depends on the set of free pages only. */
  lemma {:induction false} CanonicalUnique(a: seq<Run>, b: seq<Run>, lo: nat)
    requires Canonical(a, lo) && Canonical(b, lo)
    requires forall p: nat :: Covers(a, p) <==> Covers(b, p)
    ensures a == b
  {
    if a == [] {
      if b != [] {
        HeadIsMaximal(b, lo, b[0].start);
      }
    } else if b == [] {
      HeadIsMaximal(a, lo, a[0].start);
    } else {
      HeadIsMaximal(a, lo, a[0].start);
      HeadIsMaximal(b, lo, b[0].start);
      HeadIsMaximal(a, lo, b[0].start);
      HeadIsMaximal(b, lo, a[0].start);
      assert a[0].start == b[0].start;
      HeadIsMaximal(a, lo, End(a[0]));
      HeadIsMaximal(b, lo, End(b[0]));
      HeadIsMaximal(a, lo, End(b[0]));
      HeadIsMaximal(b, lo, End(a[0]));
      assert End(a[0]) == End(b[0]);
      var next := End(a[0]) + 1;
      forall p: nat
        ensures Covers(a[1..], p) <==> Covers(b[1..], p)
      {
        if p >= next {
          HeadIsMaximal(a, lo, p);
          HeadIsMaximal(b, lo, p);
        } else {
          if Covers(a[1..], p) { CoversAbove(a[1..], next, p); }
          if Covers(b[1..], p) { CoversAbove(b[1..], next, p); }
        }
      }
      CanonicalUnique(a[1..], b[1..], next);
      assert a == [a[0]] + a[1..] && b == [b[0]] + b[1..];
    }
  }

  // ----- allocation -----

  /** rt_page_alloc for `n > 0` pages: first fit, from the front of the run. */
  function AllocRuns(runs: seq<Run>, n: nat): (Option<nat>, seq<Run>) {
    if runs == [] then (None, [])
    else if runs[0].pages > n then (Some(runs[0].start), [Run(runs[0].start + n, runs[0].pages - n)] + runs[1..])
    else if runs[0].pages == n then (Some(runs[0].start), runs[1..])
    else
      var (r, rest) := AllocRuns(runs[1..], n);
      (r, [runs[0]] + rest)
  }

  predicate InRange(start: nat, n: nat, p: nat) { start <= p < start + n }

  /** The pages handed out were free, and exactly they are no longer. */
  lemma {:induction false} AllocTakesPages(runs: seq<Run>, n: nat, lo: nat, p: nat)
    requires Canonical(runs, lo) && n > 0
    ensures var (r, rest) := AllocRuns(runs, n);
            && Canonical(rest, lo)
            && (r.None? ==> rest == runs)
            && (r.Some? ==> lo <= r.value && (InRange(r.value, n, p) ==> Covers(runs, p))
                            && (Covers(rest, p) <==> Covers(runs, p) && !InRange(r.value, n, p)))
    decreases |runs|
  {
    if runs != [] {
      var b, next := runs[0], End(runs[0]) + 1;
      if b.pages > n {
        HeadIsMaximal(runs, lo, p);
        var rest := [Run(b.start + n, b.pages - n)] + runs[1..];
        assert rest[1..] == runs[1..];
        if Covers(runs[1..], p) { CoversAbove(runs[1..], next, p); }
      } else if b.pages == n {
        CanonicalLower(runs[1..], next, lo);
        if Covers(runs[1..], p) { CoversAbove(runs[1..], next, p); }
      } else {
        AllocTakesPages(runs[1..], n, next, p);
        var (r, rest) := AllocRuns(runs[1..], n);
        assert ([b] + rest)[1..] == rest;
        assert runs == [b] + runs[1..];
      }
    }
  }

  /** Not all of the `n` pages from `s` on are free. */
  predicate Occupied(runs: seq<Run>, s: nat, n: nat) {
    exists p :: s <= p < s + n && !Covers(runs, p)
  }

  /** Below the pages handed out, or anywhere if none were, no `n` consecutive pages are free. */
  lemma {:induction false} AllocIsLowest(runs: seq<Run>, n: nat, lo: nat, s: nat)
    requires Canonical(runs, lo) && n > 0
    requires AllocRuns(runs, n).0.Some? ==> s < AllocRuns(runs, n).0.value
    ensures Occupied(runs, s, n)
    decreases |runs|
  {
    if runs == [] {
      assert !Covers(runs, s);
    } else {
      var b, next := runs[0], End(runs[0]) + 1;
      if s < b.start {
        HeadIsMaximal(runs, lo, s);
        assert !Covers(runs, s);
      } else if s < next {
        HeadIsMaximal(runs, lo, End(b));
        assert !Covers(runs, End(b));
      } else {
        AllocIsLowest(runs[1..], n, next, s);
        var p :| s <= p < s + n && !Covers(runs[1..], p);
        assert !Covers(runs, p);
      }
    }
  }

  /** No `n` consecutive pages are free. */
  ghost predicate NoRange(runs: seq<Run>, n: nat) { forall s: nat :: Occupied(runs, s, n) }

  /** Allocation fails exactly when no `n` consecutive pages are free. */
  lemma AllocFailsIff(runs: seq<Run>, n: nat)
    requires Canonical(runs, 0) && n > 0
    ensures AllocRuns(runs, n).0.None? <==> NoRange(runs, n)
  {
    var r := AllocRuns(runs, n).0;
    if r.None? {
      forall s: nat
        ensures Occupied(runs, s, n)
      {
        AllocIsLowest(runs, n, 0, s);
      }
    } else {
      forall p | r.value <= p < r.value + n
        ensures Covers(runs, p)
      {
        AllocTakesPages(runs, n, 0, p);
      }
      assert !Occupied(runs, r.value, n);
    }
  }

  // ----- release -----

  /** rt_page_free of `n > 0` pages from `s` on. */
  function FreeRuns(runs: seq<Run>, s: nat, n: nat): seq<Run> {
    if runs == [] then [Run(s, n)]
    else
      var b := runs[0];
      if End(b) == s then
        if |runs| > 1 && End(b) + n == runs[1].start then [Run(b.start, b.pages + n + runs[1].pages)] + runs[2..]
        else [Run(b.start, b.pages + n)] + runs[1..]
      else if b.start == s + n then [Run(s, n + b.pages)] + runs[1..]
      else if b.start > s + n then [Run(s, n)] + runs
      else [b] + FreeRuns(runs[1..], s, n)
  }

  predicate NoneFree(runs: seq<Run>, s: nat, n: nat) {
    forall p :: s <= p < s + n ==> !Covers(runs, p)
  }

  /** The freed pages do not overlap any run, as the assertion in the loop demands. */
  lemma RunApart(runs: seq<Run>, lo: nat, s: nat, n: nat)
    requires Canonical(runs, lo) && runs != [] && NoneFree(runs, s, n) && n > 0
    ensures End(runs[0]) <= s || s + n <= runs[0].start
  {
    if !(End(runs[0]) <= s || s + n <= runs[0].start) {
      var p := if s <= runs[0].start then runs[0].start else s;
      HeadIsMaximal(runs, lo, p);
    }
  }

  lemma {:induction false} FreeAddsPages(runs: seq<Run>, s: nat, n: nat, lo: nat, p: nat)
    requires Canonical(runs, lo) && n > 0 && lo <= s && NoneFree(runs, s, n)
    ensures Canonical(FreeRuns(runs, s, n), lo)
    ensures Covers(FreeRuns(runs, s, n), p) <==> Covers(runs, p) || InRange(s, n, p)
    decreases |runs|
  {
    var r := FreeRuns(runs, s, n);
    if runs == [] {
      assert r[1..] == [];
    } else {
      RunApart(runs, lo, s, n);
      var b, tail := runs[0], runs[1..];
      if End(b) == s {
        if |runs| > 1 && End(b) + n == runs[1].start {
          assert r[1..] == runs[2..] && tail[1..] == runs[2..] && tail[0] == runs[1];
        } else {
          assert r[1..] == tail;
          if tail != [] {
            TailApart(runs, lo, s, n);
          }
        }
      } else if b.start == s + n {
        assert r[1..] == tail;
      } else if b.start > s + n {
        assert r[1..] == runs;
        CanonicalLower(runs, b.start, s + n + 1);
      } else {
        NoneFreeTail(runs, lo, s, n);
        FreeAddsPages(tail, s, n, End(b) + 1, p);
        assert r[1..] == FreeRuns(tail, s, n);
      }
    }
  }

  lemma NoneFreeTail(runs: seq<Run>, lo: nat, s: nat, n: nat)
    requires Canonical(runs, lo) && runs != [] && NoneFree(runs, s, n)
    ensures NoneFree(runs[1..], s, n)
  {
    forall p | s <= p < s + n
      ensures !Covers(runs[1..], p)
    {
      assert !Covers(runs, p);
    }
  }

  lemma TailApart(runs: seq<Run>, lo: nat, s: nat, n: nat)
    requires Canonical(runs, lo) && |runs| > 1 && NoneFree(runs, s, n) && n > 0 && End(runs[0]) == s
    ensures s + n <= runs[1].start
  {
    NoneFreeTail(runs, lo, s, n);
    RunApart(runs[1..], End(runs[0]) + 1, s, n);
  }

  // ----- what the canonical form gives -----

  /** Freeing in either order gives the same list. */
  lemma FreesCommute(runs: seq<Run>, s: nat, n: nat, t: nat, m: nat)
    requires Canonical(runs, 0) && n > 0 && m > 0 && NoneFree(runs, s, n) && NoneFree(runs, t, m)
    requires s + n <= t || t + m <= s
    ensures FreeRuns(FreeRuns(runs, s, n), t, m) == FreeRuns(FreeRuns(runs, t, m), s, n)
  {
    var a, b := FreeRuns(runs, s, n), FreeRuns(runs, t, m);
    FreeAddsPages(runs, s, n, 0, 0);
    FreeAddsPages(runs, t, m, 0, 0);
    forall p | t <= p < t + m
      ensures !Covers(a, p)
    {
      FreeAddsPages(runs, s, n, 0, p);
    }
    forall p | s <= p < s + n
      ensures !Covers(b, p)
    {
      FreeAddsPages(runs, t, m, 0, p);
    }
    FreeAddsPages(a, t, m, 0, 0);
    FreeAddsPages(b, s, n, 0, 0);
    forall p: nat
      ensures Covers(FreeRuns(a, t, m), p) <==> Covers(FreeRuns(b, s, n), p)
    {
      FreeAddsPages(runs, s, n, 0, p);
      FreeAddsPages(runs, t, m, 0, p);
      FreeAddsPages(a, t, m, 0, p);
      FreeAddsPages(b, s, n, 0, p);
    }
    CanonicalUnique(FreeRuns(a, t, m), FreeRuns(b, s, n), 0);
  }

  /** Freeing what was just allocated restores the list exactly. */
  lemma FreeUndoesAlloc(runs: seq<Run>, n: nat)
    requires Canonical(runs, 0) && n > 0 && AllocRuns(runs, n).0.Some?
    ensures FreeRuns(AllocRuns(runs, n).1, AllocRuns(runs, n).0.value, n) == runs
  {
    var s, rest := AllocRuns(runs, n).0.value, AllocRuns(runs, n).1;
    AllocTakesPages(runs, n, 0, 0);
    forall p | s <= p < s + n
      ensures !Covers(rest, p)
    {
      AllocTakesPages(runs, n, 0, p);
    }
    FreeAddsPages(rest, s, n, 0, 0);
    forall p: nat
      ensures Covers(FreeRuns(rest, s, n), p) <==> Covers(runs, p)
    {
      AllocTakesPages(runs, n, 0, p);
      FreeAddsPages(rest, s, n, 0, p);
    }
    CanonicalUnique(FreeRuns(rest, s, n), runs, 0);
  }
}

/** The page allocator and the ranges it has handed out. */
module PageAllocator {
  import opened Wrappers
  import opened PageRuns

  class PageAllocator {
    /** rt_page_list */
    var runs: seq<Run>

    ghost predicate Valid()
      reads this
    {
      Canonical(runs, 0)
    }

    /** rt_page_init */
    constructor (start: nat, npages: nat)
      requires npages > 0
      ensures Valid() && runs == [Run(start, npages)]
    {
      runs := [Run(start, npages)];
    }

    /** rt_page_alloc */
    method PageAlloc(npages: nat) returns (r: Option<nat>)
      requires Valid()
      modifies `runs
      ensures Valid()
      ensures npages == 0 ==> r == None && runs == old(runs)
      ensures npages > 0 ==> (r, runs) == AllocRuns(old(runs), npages)
      ensures r.None? ==> runs == old(runs)
    {
      ghost var was := runs;
      if npages == 0 {
        return None;
      }
      AllocTakesPages(was, npages, 0, 0);
      var i := 0;
      AllocStart(was, npages);
      while i < |runs|
        invariant i <= |runs| && runs == was
        invariant AllocRuns(was, npages) == AllocFrom(was, i, npages)
      {
        AllocStep(was, i, npages);
        hide AllocFrom, AllocRuns;
        var b := runs[i];
        if b.pages > npages {
          runs := runs[..i] + [Run(b.start + npages, b.pages - npages)] + runs[i + 1..];
          return Some(b.start);
        }
        if b.pages == npages {
          runs := runs[..i] + runs[i + 1..];
          return Some(b.start);
        }
        i := i + 1;
      }
      AllocStart(was, npages);
      r := None;
    }

    /** rt_page_free; the assertion in its loop demands that none of the pages is free. */
    method PageFree(addr: nat, npages: nat)
      requires Valid() && npages > 0 && NoneFree(runs, addr, npages)
      modifies `runs
      ensures Valid() && runs == FreeRuns(old(runs), addr, npages)
    {
      FreeAddsPages(runs, addr, npages, 0, 0);
      hide Canonical, NoneFree;
      ghost var was := runs;
      var i := 0;
      FreeStart(was, addr, npages);
      while i < |runs|
        invariant i <= |runs| && runs == was
        invariant FreeRuns(was, addr, npages) == FreeFrom(was, i, addr, npages)
      {
        FreeStep(was, i, addr, npages);
        hide FreeFrom, FreeRuns;
        var b := runs[i];
        if End(b) == addr {
          if i + 1 < |runs| && End(b) + npages == runs[i + 1].start {
            runs := runs[..i] + [Run(b.start, b.pages + npages + runs[i + 1].pages)] + runs[i + 2..];
          } else {
            runs := runs[..i] + [Run(b.start, b.pages + npages)] + runs[i + 1..];
          }
          return;
        }
        if b.start == addr + npages {
          runs := runs[..i] + [Run(addr, npages + b.pages)] + runs[i + 1..];
          return;
        }
        if b.start > addr + npages {
          runs := runs[..i] + [Run(addr, npages)] + runs[i..];
          return;
        }
        i := i + 1;
      }
      FreeStart(was, addr, npages);
      runs := runs + [Run(addr, npages)];
    }
  }

  /** The search continued at position `i`. */
  function AllocFrom(runs: seq<Run>, i: nat, n: nat): (Option<nat>, seq<Run>)
    requires i <= |runs|
  {
    (AllocRuns(runs[i..], n).0, runs[..i] + AllocRuns(runs[i..], n).1)
  }

  lemma AllocStart(runs: seq<Run>, n: nat)
    ensures AllocFrom(runs, 0, n) == AllocRuns(runs, n)
    ensures AllocFrom(runs, |runs|, n) == (None, runs)
  {
    assert runs[0..] == runs && runs[|runs|..] == [] && runs[..|runs|] == runs;
    assert runs[..0] + AllocRuns(runs, n).1 == AllocRuns(runs, n).1 && runs + [] == runs;
  }

  lemma AllocStep(runs: seq<Run>, i: nat, n: nat)
    requires i < |runs|
    ensures var b := runs[i];
            AllocFrom(runs, i, n) ==
              if b.pages > n then (Some(b.start), runs[..i] + [Run(b.start + n, b.pages - n)] + runs[i + 1..])
              else if b.pages == n then (Some(b.start), runs[..i] + runs[i + 1..])
              else AllocFrom(runs, i + 1, n)
  {
    var left := runs[i..];
    assert left[0] == runs[i] && left[1..] == runs[i + 1..];
    assert runs[..i + 1] == runs[..i] + [runs[i]];
    var b, rest := runs[i], AllocRuns(left[1..], n).1;
    assert runs[..i] + ([Run(b.start + n, if b.pages > n then b.pages - n else 0)] + left[1..]) ==
           runs[..i] + [Run(b.start + n, if b.pages > n then b.pages - n else 0)] + runs[i + 1..];
    assert runs[..i] + ([b] + rest) == runs[..i + 1] + rest;
  }

  function FreeFrom(runs: seq<Run>, i: nat, s: nat, n: nat): seq<Run>
    requires i <= |runs|
  {
    runs[..i] + FreeRuns(runs[i..], s, n)
  }

  lemma FreeStart(runs: seq<Run>, s: nat, n: nat)
    ensures FreeFrom(runs, 0, s, n) == FreeRuns(runs, s, n)
    ensures FreeFrom(runs, |runs|, s, n) == runs + [Run(s, n)]
  {
    assert runs[0..] == runs && runs[|runs|..] == [] && runs[..|runs|] == runs;
  }

  lemma FreeStep(runs: seq<Run>, i: nat, s: nat, n: nat)
    requires i < |runs|
    ensures var b := runs[i];
            FreeFrom(runs, i, s, n) ==
              if End(b) == s then
                if i + 1 < |runs| && End(b) + n == runs[i + 1].start then
                  runs[..i] + [Run(b.start, b.pages + n + runs[i + 1].pages)] + runs[i + 2..]
                else runs[..i] + [Run(b.start, b.pages + n)] + runs[i + 1..]
              else if b.start == s + n then runs[..i] + [Run(s, n + b.pages)] + runs[i + 1..]
              else if b.start > s + n then runs[..i] + [Run(s, n)] + runs[i..]
              else FreeFrom(runs, i + 1, s, n)
  {
    var left := runs[i..];
    assert left[0] == runs[i] && left[1..] == runs[i + 1..];
    assert i + 1 < |runs| ==> left[1] == runs[i + 1] && left[2..] == runs[i + 2..];
    assert runs[..i + 1] == runs[..i] + [runs[i]];
  }
}

/** Page ranges that were handed out. */
module PageOwners {
  import opened Wrappers
  import opened PageRuns

  type Owned = map<nat, nat>

  /** The range handed out at `a` is not free, and is apart from every other one. */
  ghost predicate RangeApart(owned: Owned, runs: seq<Run>, a: nat)
    requires a in owned
  {
    && owned[a] > 0 && NoneFree(runs, a, owned[a])
    && forall b :: b in owned && b != a ==> b + owned[b] <= a || a + owned[a] <= b
  }

  ghost predicate AllApart(owned: Owned, runs: seq<Run>) {
    forall a :: a in owned ==> RangeApart(owned, runs, a)
  }

  /** A range that was free is apart from all that are handed out. */
  lemma AllocApart(owned: Owned, runs: seq<Run>, n: nat)
    requires Canonical(runs, 0) && AllApart(owned, runs) && n > 0 && AllocRuns(runs, n).0.Some?
    ensures var (r, rest) := AllocRuns(runs, n);
            r.value !in owned && AllApart(owned[r.value := n], rest)
  {
    var r, rest := AllocRuns(runs, n).0.value, AllocRuns(runs, n).1;
    assert r !in owned by {
      if r in owned {
        assert RangeApart(owned, runs, r);
        AllocTakesPages(runs, n, 0, r);
      }
    }
    forall b | b in owned
      ensures b + owned[b] <= r || r + n <= b
    {
      assert RangeApart(owned, runs, b);
      AllocTakesPages(runs, n, 0, if r <= b then b else r);
    }
    var after := owned[r := n];
    forall a | a in after
      ensures RangeApart(after, rest, a)
    {
      forall p | a <= p < a + after[a]
        ensures !Covers(rest, p)
      {
        AllocTakesPages(runs, n, 0, p);
        if a != r { assert RangeApart(owned, runs, a); }
      }
      if a != r { assert RangeApart(owned, runs, a); } else { assert n > 0; }
    }
  }

  lemma FreeApart(owned: Owned, runs: seq<Run>, a: nat)
    requires Canonical(runs, 0) && AllApart(owned, runs) && a in owned
    ensures owned[a] > 0 && NoneFree(runs, a, owned[a]) && AllApart(owned - {a}, FreeRuns(runs, a, owned[a]))
  {
    assert RangeApart(owned, runs, a);
    var after, rest := owned - {a}, FreeRuns(runs, a, owned[a]);
    forall b | b in after
      ensures RangeApart(after, rest, b)
    {
      assert RangeApart(owned, runs, b);
      forall p | b <= p < b + after[b]
        ensures !Covers(rest, p)
      {
        FreeAddsPages(runs, a, owned[a], 0, p);
      }
    }
  }
}
