/** The shell heap as a value: blocks that tile the arena, and the two lists they are on. */
module ShellBlocks {
  import opened Queues
  import opened HeapBlocks

  /** sizeof(struct finsh_block_header) */
  const BLOCK_HEADER: nat := 8

  /** Where block `k` starts; behind the last block the arena ends. */
  function At(bs: Items, k: nat, top: nat): nat
    requires k <= |bs|
  {
    if k < |bs| then bs[k].off else top
  }

  function Length(bs: Items, k: nat, top: nat): int
    requires k < |bs|
  {
    At(bs, k + 1, top) - bs[k].off - BLOCK_HEADER
  }

  predicate Holds(bs: Items, k: nat, top: nat)
    requires k < |bs|
  {
    Length(bs, k, top) >= 0
  }

  /** The blocks tile the arena, no two neighbours are free, and the highest block is free. */
  predicate Arena(bs: Items, top: nat) {
    && |bs| > 0 && bs[0].off == 0 && !bs[|bs| - 1].used && NoFreePair(bs)
    && forall k :: 0 <= k < |bs| ==> Holds(bs, k, top)
  }

  predicate Spaced(bs: Items, top: nat) {
    forall k :: 0 <= k < |bs| ==> Holds(bs, k, top)
  }

  /** The offsets of the free blocks, or of the used ones, in address order: the two lists. */
  function Pick(bs: Items, used: bool): Queue {
    if bs == [] then [] else (if bs[0].used == used then [bs[0].off] else []) + Pick(bs[1..], used)
  }

  function One(x: Item, used: bool): Queue { if x.used == used then [x.off] else [] }

  lemma PickCons(x: Item, b: Items, used: bool)
    ensures Pick([x] + b, used) == One(x, used) + Pick(b, used)
  {
    assert ([x] + b)[1..] == b;
  }

  lemma {:induction false} PickConcat(a: Items, b: Items, used: bool)
    ensures Pick(a + b, used) == Pick(a, used) + Pick(b, used)
  {
    if a == [] {
      assert a + b == b;
    } else {
      PickConcat(a[1..], b, used);
      assert (a + b)[1..] == a[1..] + b;
      Assoc(One(a[0], used), Pick(a[1..], used), Pick(b, used));
    }
  }

  lemma Assoc(p: Queue, q: Queue, r: Queue)
    ensures p + (q + r) == p + q + r
  {
  }

  lemma {:induction false} PickMembers(bs: Items, used: bool, x: nat)
    ensures x in Pick(bs, used) <==> exists k :: 0 <= k < |bs| && bs[k] == Item(x, used)
  {
    if bs != [] {
      PickMembers(bs[1..], used, x);
      if bs[0] != Item(x, used) && exists k :: 0 <= k < |bs| && bs[k] == Item(x, used) {
        var k :| 0 <= k < |bs| && bs[k] == Item(x, used);
        assert bs[1..][k - 1] == Item(x, used);
      }
      if exists k :: 0 <= k < |bs| - 1 && bs[1..][k] == Item(x, used) {
        var k :| 0 <= k < |bs| - 1 && bs[1..][k] == Item(x, used);
        assert bs[k + 1] == Item(x, used);
      }
    }
  }

  lemma {:induction false} AtGrows(bs: Items, top: nat, i: nat, j: nat)
    requires Spaced(bs, top) && i < j <= |bs|
    ensures At(bs, i, top) + BLOCK_HEADER <= At(bs, j, top)
    decreases j
  {
    assert Holds(bs, j - 1, top);
    if i < j - 1 {
      AtGrows(bs, top, i, j - 1);
    }
  }

  lemma AtDistinct(bs: Items, top: nat, i: nat, j: nat)
    requires Spaced(bs, top) && i <= |bs| && j <= |bs|
    ensures At(bs, i, top) == At(bs, j, top) <==> i == j
    ensures At(bs, i, top) < At(bs, j, top) <==> i < j
    ensures i < j ==> At(bs, i, top) + BLOCK_HEADER <= At(bs, j, top)
  {
    if i < j {
      AtGrows(bs, top, i, j);
    } else if j < i {
      AtGrows(bs, top, j, i);
    }
  }

  predicate Ascending(q: Queue) {
    forall i, j :: 0 <= i < j < |q| ==> q[i] < q[j]
  }

  lemma AscendingCons(x: nat, q: Queue)
    requires Ascending(q) && forall i :: 0 <= i < |q| ==> x < q[i]
    ensures Ascending([x] + q)
  {
  }

  /** Both lists are address-sorted. */
  lemma {:induction false} PickAscending(bs: Items, used: bool, top: nat)
    requires Spaced(bs, top)
    ensures Ascending(Pick(bs, used))
    ensures forall x :: x in Pick(bs, used) ==> bs != [] && bs[0].off <= x && x + BLOCK_HEADER <= top
  {
    if bs != [] {
      var tail := bs[1..];
      forall k | 0 <= k < |tail|
        ensures Holds(tail, k, top)
      {
        assert Holds(bs, k + 1, top) && At(tail, k + 1, top) == At(bs, k + 2, top);
      }
      PickAscending(tail, used, top);
      AtDistinct(bs, top, 0, |bs|);
      if tail != [] {
        AtDistinct(bs, top, 0, 1);
      }
      var q := Pick(tail, used);
      assert forall i :: 0 <= i < |q| ==> q[i] in q;
      if bs[0].used == used {
        AscendingCons(bs[0].off, q);
      }
    }
  }

  /** The position of block `k` in its list. */
  lemma PickSplit(bs: Items, k: nat)
    requires k < |bs|
    ensures Pick(bs, bs[k].used) == Pick(bs[..k], bs[k].used) + [bs[k].off] + Pick(bs[k + 1..], bs[k].used)
    ensures Pick(bs, !bs[k].used) == Pick(bs[..k], !bs[k].used) + Pick(bs[k + 1..], !bs[k].used)
  {
    var a, x, b := bs[..k], bs[k], bs[k + 1..];
    PickAround(a, x, b, x.used);
    PickAround(a, x, b, !x.used);
    hide Pick;
    SplitBack(bs, k);
    assert Pick(a, !x.used) + [] == Pick(a, !x.used);
  }

  lemma SplitBack(bs: Items, k: nat)
    requires k < |bs|
    ensures bs[..k] + ([bs[k]] + bs[k + 1..]) == bs
  {
  }

  lemma PickAround(a: Items, x: Item, b: Items, used: bool)
    ensures Pick(a + ([x] + b), used) == Pick(a, used) + One(x, used) + Pick(b, used)
  {
    PickConcat(a, [x] + b, used);
    PickCons(x, b, used);
    Assoc(Pick(a, used), One(x, used), Pick(b, used));
    hide Pick, One;
  }

  // ----- allocation -----

  lemma SplitArena(bs: Items, top: nat, k: nat, p: nat)
    requires Arena(bs, top) && k < |bs| && !bs[k].used && bs[k].off + BLOCK_HEADER <= p && p + BLOCK_HEADER <= At(bs, k + 1, top)
    ensures Arena(SplitAt(bs, k, p), top)
  {
    var cs := SplitAt(bs, k, p);
    forall i | 0 <= i < |cs|
      ensures Holds(cs, i, top)
    {
      if i < k {
        assert Holds(bs, i, top) && At(cs, i + 1, top) == At(bs, i + 1, top);
      } else if i > k + 1 {
        assert Holds(bs, i - 1, top) && At(cs, i + 1, top) == At(bs, i, top);
      } else {
        assert At(cs, k + 2, top) == At(bs, k + 1, top);
      }
    }
    forall i | 0 <= i < |cs| - 1
      ensures PairUsed(cs, i)
    {
      if i < k - 1 { assert PairUsed(bs, i); }
      if i == k - 1 { assert PairUsed(bs, k - 1); }
      if i == k + 1 { assert PairUsed(bs, k); }
      if i > k + 1 { assert PairUsed(bs, i - 1); }
    }
  }

  /** The lists after a split: the new block replaces the old one in the free list. */
  lemma SplitPicks(bs: Items, k: nat, p: nat)
    requires k < |bs| && !bs[k].used
    ensures Pick(SplitAt(bs, k, p), false) == Pick(bs[..k], false) + [p] + Pick(bs[k + 1..], false)
    ensures Pick(SplitAt(bs, k, p), true) == Pick(bs[..k], true) + [bs[k].off] + Pick(bs[k + 1..], true)
  {
    var a, b, u, f := bs[..k], bs[k + 1..], Item(bs[k].off, true), Item(p, false);
    assert SplitAt(bs, k, p) == a + ([u] + ([f] + b));
    PickAround(a, u, [f] + b, true);
    PickAround(a, u, [f] + b, false);
    PickCons(f, b, true);
    PickCons(f, b, false);
    hide Pick;
    assert Pick(a, false) + [] + ([p] + Pick(b, false)) == Pick(a, false) + [p] + Pick(b, false);
  }

  // ----- release -----

  lemma MarkArena(bs: Items, top: nat, k: nat)
    requires Arena(bs, top) && k < |bs| && bs[k].used
    ensures Spaced(MarkAt(bs, k, false), top)
  {
    var cs := MarkAt(bs, k, false);
    forall i | 0 <= i < |cs|
      ensures Holds(cs, i, top)
    {
      assert Holds(bs, i, top) && At(cs, i + 1, top) == At(bs, i + 1, top);
    }
  }

  lemma MarkPicks(bs: Items, k: nat)
    requires k < |bs| && bs[k].used
    ensures Pick(MarkAt(bs, k, false), false) == Pick(bs[..k], false) + [bs[k].off] + Pick(bs[k + 1..], false)
    ensures Pick(MarkAt(bs, k, false), true) == Pick(bs[..k], true) + Pick(bs[k + 1..], true)
    ensures Pick(bs, true) == Pick(bs[..k], true) + [bs[k].off] + Pick(bs[k + 1..], true)
    ensures Pick(bs, false) == Pick(bs[..k], false) + Pick(bs[k + 1..], false)
  {
    PickSplit(bs, k);
    var cs := MarkAt(bs, k, false);
    PickSplit(cs, k);
    assert cs[..k] == bs[..k] && cs[k + 1..] == bs[k + 1..];
  }

  lemma MergeSpaced(bs: Items, top: nat, k: nat)
    requires Spaced(bs, top) && k + 1 < |bs|
    ensures Spaced(MergeAt(bs, k), top)
  {
    var cs := MergeAt(bs, k);
    forall i | 0 <= i < |cs|
      ensures Holds(cs, i, top)
    {
      if i < k {
        assert Holds(bs, i, top) && At(cs, i + 1, top) == At(bs, i + 1, top);
      } else if i == k {
        assert Holds(bs, k, top) && Holds(bs, k + 1, top) && At(cs, k + 1, top) == At(bs, k + 2, top);
      } else {
        assert Holds(bs, i + 1, top) && At(cs, i + 1, top) == At(bs, i + 2, top);
      }
    }
  }

  /** Releasing a block keeps the arena; the highest block stays free. */
  lemma ReleaseArena(bs: Items, top: nat, k: nat)
    requires Arena(bs, top) && k < |bs| && bs[k].used
    ensures k + 1 < |bs| && Arena(ReleaseBlocks(bs, k), top)
  {
    var m := MarkAt(bs, k, false);
    MarkArena(bs, top, k);
    MarkNoPair(bs, k);
    var l, j := MergeLeft(m, k), LeftIndex(bs, k);
    if FreeAt(bs, k - 1) {
      MergeSpaced(m, top, k - 1);
      MergeNoPair(m, k - 1, k);
    } else if k > 0 {
      assert PairUsed(m, k - 1);
    }
    assert NoFreePairBut(l, j, -1) && !l[j].used && l[j + 1] == bs[k + 1] && l[0].off == 0 && !l[|l| - 1].used;
    if FreeAt(bs, k + 1) {
      MergeSpaced(l, top, j);
      MergeNoPair(l, j, -1);
      AllPairs(MergeAt(l, j), -1);
    } else {
      assert PairUsed(l, j);
      AllPairs(l, j);
    }
  }
}

/** The null-terminated lists of block headers. */
module ShellLists {
  import opened Wrappers
  import opened Queues
  import opened ShellBlocks

  /** The `next` field of the header at each offset; a header that is on no list keeps a stale one. */
  type NextFields = seq<Option<nat>>

  function Nth(q: Queue, i: nat): Option<nat> { if i < |q| then Some(q[i]) else None }

  predicate NodeAt(next: NextFields, q: Queue, i: nat)
    requires i < |q|
  {
    q[i] < |next| && next[q[i]] == Nth(q, i + 1)
  }

  /** Following `next` from `start` visits exactly `q`. */
  predicate Linked(next: NextFields, start: Option<nat>, q: Queue) {
    start == Nth(q, 0) && forall i :: 0 <= i < |q| ==> NodeAt(next, q, i)
  }

  /** `next'` differs from `next` on members of `q` only. */
  ghost predicate WritesOn(next: NextFields, next': NextFields, q: Queue) {
    |next'| == |next| && forall y :: 0 <= y < |next| && y !in q ==> next'[y] == next[y]
  }

  lemma WriteOne(next: NextFields, x: nat, v: Option<nat>, q: Queue)
    requires x in q && x < |next|
    ensures WritesOn(next, next[x := v], q)
  {
  }

  lemma WritesThen(a: NextFields, b: NextFields, c: NextFields, q: Queue)
    requires WritesOn(a, b, q) && WritesOn(b, c, q)
    ensures WritesOn(a, c, q)
  {
  }

  lemma LinkedFrame(next: NextFields, next': NextFields, start: Option<nat>, q: Queue, w: Queue)
    requires Linked(next, start, q) && WritesOn(next, next', w) && forall x :: x in q ==> x !in w
    ensures Linked(next', start, q)
  {
    forall i | 0 <= i < |q|
      ensures NodeAt(next', q, i)
    {
      assert NodeAt(next, q, i) && q[i] in q;
    }
  }

  lemma AscendingDistinct(q: Queue, i: nat, j: nat)
    requires Ascending(q) && i < |q| && j < |q|
    ensures q[i] == q[j] <==> i == j
    ensures q[i] < q[j] <==> i < j
  {
  }

  /** How many nodes lie below `x`: where finsh_block_insert puts it. */
  function Below(q: Queue, x: nat): (i: nat)
    ensures i <= |q|
  {
    if q == [] || q[0] > x then 0 else 1 + Below(q[1..], x)
  }

  lemma {:induction false} BelowSplits(q: Queue, x: nat)
    requires Ascending(q)
    ensures forall i :: 0 <= i < Below(q, x) ==> q[i] <= x
    ensures forall i :: Below(q, x) <= i < |q| ==> q[i] > x
  {
    if q != [] && q[0] <= x {
      var t := q[1..];
      BelowSplits(t, x);
      forall i | 0 <= i < |q|
        ensures if i < Below(q, x) then q[i] <= x else q[i] > x
      {
        assert i > 0 ==> q[i] == t[i - 1];
      }
    } else if q != [] {
      forall i | 0 <= i < |q|
        ensures q[i] > x
      {
        AscendingDistinct(q, 0, i);
      }
    }
  }

  lemma BelowUnique(q: Queue, x: nat, i: nat)
    requires Ascending(q) && i <= |q| && (i > 0 ==> q[i - 1] <= x) && (i < |q| ==> q[i] > x)
    ensures i == Below(q, x)
  {
    BelowSplits(q, x);
    var j := Below(q, x);
    assert j > 0 ==> q[j - 1] <= x;
    assert j < |q| ==> q[j] > x;
    if 0 < i { assert i - 1 < j; }
  }

  // ----- the writes of the list operations -----

  /** The last two lines of finsh_block_insert, at position `i`: the stale next stays when there is no successor. */
  function InsertWrites(next: NextFields, q: Queue, i: nat, x: nat): NextFields
    requires i <= |q| && x < |next| && forall y :: y in q ==> y < |next|
  {
    var n := if i < |q| then next[x := Some(q[i])] else next;
    if i > 0 then
      assert q[i - 1] in q;
      n[q[i - 1] := Some(x)]
    else n
  }

  /** Inserting yields the longer list exactly when there is a successor or the header's next was null. */
  lemma InsertIff(next: NextFields, start: Option<nat>, q: Queue, i: nat, x: nat)
    requires Linked(next, start, q) && Ascending(q) && i <= |q| && x < |next| && x !in q && forall y :: y in q ==> y < |next|
    ensures Linked(InsertWrites(next, q, i, x), if i == 0 then Some(x) else start, InsertAt(q, i, x))
        <==> i < |q| || next[x] == None
  {
    var n, r := InsertWrites(next, q, i, x), InsertAt(q, i, x);
    assert i > 0 ==> q[i - 1] in q;
    assert |n| == |next| && |r| == |q| + 1;
    assert r[i] == x && Nth(r, i + 1) == Nth(q, i);
    if i < |q| || next[x] == None {
      forall j | 0 <= j < |r|
        ensures NodeAt(n, r, j)
      {
        if j < i {
          assert r[j] == q[j] && NodeAt(next, q, j) && q[j] in q;
          assert Nth(r, j + 1) == if j == i - 1 then Some(x) else Some(q[j + 1]);
          AscendingDistinct(q, j, i - 1);
        } else if j > i {
          assert r[j] == q[j - 1] && NodeAt(next, q, j - 1) && q[j - 1] in q;
          if i > 0 { AscendingDistinct(q, j - 1, i - 1); }
        } else {
          assert r[j] == x && (i > 0 ==> q[i - 1] in q && q[i - 1] != x);
        }
      }
    } else {
      assert i > 0 ==> q[i - 1] in q;
      assert !NodeAt(n, r, i);
    }
  }

  function WithoutAt(q: Queue, i: nat): Queue
    requires i < |q|
  {
    q[..i] + q[i + 1..]
  }

  /** Unlinking the node at position `i` behind its predecessor. */
  lemma UnlinkAt(next: NextFields, start: Option<nat>, q: Queue, i: nat)
    requires Linked(next, start, q) && Ascending(q) && i < |q|
    ensures q[i] < |next| && next[q[i]] == Nth(q, i + 1)
    ensures i == 0 ==> Linked(next[q[0] := None], next[q[0]], WithoutAt(q, 0))
    ensures i > 0 ==> q[i - 1] < |next| && Linked(next[q[i - 1] := next[q[i]]], start, WithoutAt(q, i))
  {
    var r := WithoutAt(q, i);
    assert NodeAt(next, q, i);
    if i == 0 {
      var n := next[q[0] := None];
      forall j | 0 <= j < |r|
        ensures NodeAt(n, r, j)
      {
        assert r[j] == q[j + 1] && NodeAt(next, q, j + 1);
        AscendingDistinct(q, 0, j + 1);
      }
    } else {
      assert NodeAt(next, q, i - 1);
      var n := next[q[i - 1] := next[q[i]]];
      forall j | 0 <= j < |r|
        ensures NodeAt(n, r, j)
      {
        var p := if j < i then j else j + 1;
        assert r[j] == q[p] && NodeAt(next, q, p);
        AscendingDistinct(q, p, i - 1);
      }
    }
  }

  /** A new node behind the one at position `i`. */
  lemma SpliceAfter(next: NextFields, start: Option<nat>, q: Queue, i: nat, p: nat)
    requires Linked(next, start, q) && Ascending(q) && i < |q| && p !in q && p < |next|
    ensures q[i] < |next|
    ensures Linked(next[p := next[q[i]]][q[i] := Some(p)], start, InsertAt(q, i + 1, p))
  {
    var r := InsertAt(q, i + 1, p);
    assert NodeAt(next, q, i) && q[i] in q;
    var n := next[p := next[q[i]]][q[i] := Some(p)];
    forall j | 0 <= j < |r|
      ensures NodeAt(n, r, j)
    {
      if j <= i {
        assert r[j] == q[j] && NodeAt(next, q, j) && q[j] in q;
        AscendingDistinct(q, j, i);
      } else if j > i + 1 {
        assert r[j] == q[j - 1] && NodeAt(next, q, j - 1) && q[j - 1] in q;
        AscendingDistinct(q, j - 1, i);
      }
    }
  }
}
