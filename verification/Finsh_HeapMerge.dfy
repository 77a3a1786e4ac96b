/** What releasing and allocating a block does to the headers and the lists. */
module ShellMerge {
  import opened Wrappers
  import opened Queues
  import opened HeapBlocks
  import opened ShellBlocks
  import opened ShellLists

  predicate LengthAt(lens: seq<nat>, bs: Items, k: nat, top: nat)
    requires k < |bs|
  {
    bs[k].off < |lens| && lens[bs[k].off] == Length(bs, k, top)
  }

  /** Every header holds the length of its block. */
  predicate Lengths(lens: seq<nat>, bs: Items, top: nat) {
    forall k :: 0 <= k < |bs| ==> LengthAt(lens, bs, k, top)
  }

  /** The free list and the allocated list are the free and the used blocks in address order. */
  predicate Lists(next: NextFields, free: Option<nat>, alloc: Option<nat>, bs: Items) {
    Linked(next, free, Pick(bs, false)) && Linked(next, alloc, Pick(bs, true))
  }

  /** Which nodes stay in a list when the node at `i` merges with its predecessor and with its successor. */
  function MergedQueue(q: Queue, i: nat, left: bool, right: bool): Queue
    requires i < |q| && (right ==> i + 1 < |q|)
  {
    q[..if left then i else i + 1] + q[if right then i + 2 else i + 1..]
  }

  predicate TouchesLeft(lens: seq<nat>, q: Queue, i: nat)
    requires i < |q|
  {
    i > 0 && q[i - 1] < |lens| && q[i - 1] + lens[q[i - 1]] + BLOCK_HEADER == q[i]
  }

  predicate TouchesRight(lens: seq<nat>, q: Queue, i: nat)
    requires i < |q|
  {
    i + 1 < |q| && q[i] < |lens| && q[i] + lens[q[i]] + BLOCK_HEADER == q[i + 1]
  }

  /** The lengths after merging. */
  function MergedLengths(lens: seq<nat>, q: Queue, i: nat): seq<nat>
    requires i < |q| && forall y :: y in q ==> y < |lens|
  {
    assert q[i] in q && (i > 0 ==> q[i - 1] in q) && (i + 1 < |q| ==> q[i + 1] in q);
    var more := if TouchesRight(lens, q, i) then lens[q[i + 1]] + BLOCK_HEADER else 0;
    if TouchesLeft(lens, q, i) then lens[q[i - 1] := lens[q[i - 1]] + lens[q[i]] + BLOCK_HEADER + more]
    else lens[q[i] := lens[q[i]] + more]
  }

  lemma MergedLinked(next: NextFields, list: Option<nat>, q: Queue, i: nat, left: bool, right: bool)
    requires Linked(next, list, q) && Ascending(q) && i < |q| && (left ==> i > 0) && (right ==> i + 1 < |q|)
    ensures q[i] < |next| && (left ==> q[i - 1] < |next|) && (right ==> q[i + 1] < |next|)
    ensures var after := if right then next[q[i + 1]] else next[q[i]];
            Linked(if left then next[q[i - 1] := after] else next[q[i] := after], list, MergedQueue(q, i, left, right))
  {
    assert NodeAt(next, q, i) && (left ==> NodeAt(next, q, i - 1)) && (right ==> NodeAt(next, q, i + 1));
    var after, at, r := if right then next[q[i + 1]] else next[q[i]], if left then i - 1 else i, MergedQueue(q, i, left, right);
    var n := next[q[at] := after];
    MergedNth(q, i, left, right, 0);
    forall j | 0 <= j < |r|
      ensures NodeAt(n, r, j)
    {
      MergedNth(q, i, left, right, j);
      hide MergedQueue, Nth;
      var p := MergedIndex(i, left, right, j);
      assert NodeAt(next, q, p);
      AscendingDistinct(q, p, at);
    }
  }

  /** Where node `j` of the merged list was. */
  function MergedIndex(i: nat, left: bool, right: bool, j: nat): nat {
    if j < (if left then i else i + 1) then j else j + (if left then 1 else 0) + (if right then 1 else 0)
  }

  lemma MergedNth(q: Queue, i: nat, left: bool, right: bool, j: nat)
    requires i < |q| && (left ==> i > 0) && (right ==> i + 1 < |q|)
    ensures var r, at := MergedQueue(q, i, left, right), if left then i - 1 else i;
            && Nth(r, 0) == Nth(q, 0)
            && (j < |r| ==> MergedIndex(i, left, right, j) < |q| && r[j] == q[MergedIndex(i, left, right, j)])
            && (j < |r| ==> (MergedIndex(i, left, right, j) == at <==> j == at))
            && (j < |r| ==>
                  Nth(r, j + 1) == Nth(q, if j == at then (if right then i + 2 else i + 1) else MergedIndex(i, left, right, j) + 1))
  {
  }

  // ----- release -----

  /** The free list while block `k` is in it and not yet merged. */
  function Freed(bs: Items, k: nat): Queue
    requires k < |bs|
  {
    Pick(bs[..k], false) + [bs[k].off] + Pick(bs[k + 1..], false)
  }

  function Rank(bs: Items, k: nat, used: bool): nat
    requires k < |bs|
  {
    |Pick(bs[..k], used)|
  }

  lemma FreedNode(bs: Items, k: nat)
    requires k < |bs|
    ensures Rank(bs, k, false) < |Freed(bs, k)| && Freed(bs, k)[Rank(bs, k, false)] == bs[k].off
    ensures forall x :: x in Freed(bs, k) <==> x in Pick(bs, false) || x == bs[k].off
  {
    PickSplit(bs, k);
    hide Pick;
  }

  lemma FreedBefore(bs: Items, k: nat)
    requires k < |bs|
    ensures FreeAt(bs, k - 1) ==> Rank(bs, k, false) > 0 && Freed(bs, k)[Rank(bs, k, false) - 1] == bs[k - 1].off
    ensures Rank(bs, k, false) > 0 && !FreeAt(bs, k - 1) ==>
              exists j :: 0 <= j < k - 1 && bs[j] == Item(Freed(bs, k)[Rank(bs, k, false) - 1], false)
  {
    var a := bs[..k];
    var i := Rank(bs, k, false);
    if FreeAt(bs, k - 1) {
      assert bs[..k] == bs[..k - 1] + [bs[k - 1]];
      PickConcat(bs[..k - 1], [bs[k - 1]], false);
      assert [bs[k - 1]][1..] == [];
    } else if i > 0 {
      var x := Pick(a, false)[i - 1];
      assert x in Pick(a, false) && Freed(bs, k)[i - 1] == x;
      PickMembers(a, false, x);
      var j :| 0 <= j < |a| && a[j] == Item(x, false);
      assert bs[j] == Item(x, false);
    }
  }

  lemma FreedAfter(bs: Items, k: nat)
    requires k < |bs|
    ensures FreeAt(bs, k + 1) ==> Rank(bs, k, false) + 1 < |Freed(bs, k)| && Freed(bs, k)[Rank(bs, k, false) + 1] == bs[k + 1].off
    ensures Rank(bs, k, false) + 1 < |Freed(bs, k)| && !FreeAt(bs, k + 1) ==>
              exists j :: k + 1 < j < |bs| && bs[j] == Item(Freed(bs, k)[Rank(bs, k, false) + 1], false)
  {
    var b := bs[k + 1..];
    var i := Rank(bs, k, false);
    if FreeAt(bs, k + 1) {
      assert b[0] == bs[k + 1];
    } else if i + 1 < |Freed(bs, k)| {
      var x := Pick(b, false)[0];
      assert x in Pick(b, false) && Freed(bs, k)[i + 1] == x;
      PickMembers(b, false, x);
      var j :| 0 <= j < |b| && b[j] == Item(x, false);
      assert bs[k + 1 + j] == Item(x, false);
    }
  }

  /** The two adjacency tests of finsh_block_merge say exactly whether the neighbouring blocks are free. */
  lemma TouchesIff(bs: Items, lens: seq<nat>, top: nat, k: nat)
    requires Spaced(bs, top) && Lengths(lens, bs, top) && k < |bs|
    ensures Rank(bs, k, false) < |Freed(bs, k)|
    ensures TouchesLeft(lens, Freed(bs, k), Rank(bs, k, false)) <==> FreeAt(bs, k - 1)
    ensures TouchesRight(lens, Freed(bs, k), Rank(bs, k, false)) <==> FreeAt(bs, k + 1)
  {
    FreedNode(bs, k);
    FreedBefore(bs, k);
    FreedAfter(bs, k);
    assert LengthAt(lens, bs, k, top);
    var q, i := Freed(bs, k), Rank(bs, k, false);
    hide Freed, Rank;
    if FreeAt(bs, k - 1) {
      assert LengthAt(lens, bs, k - 1, top);
    } else if i > 0 {
      var j :| 0 <= j < k - 1 && bs[j] == Item(q[i - 1], false);
      assert LengthAt(lens, bs, j, top);
      AtDistinct(bs, top, j + 1, k);
    }
    if FreeAt(bs, k + 1) {
    } else if i + 1 < |q| {
      var j :| k + 1 < j < |bs| && bs[j] == Item(q[i + 1], false);
      AtDistinct(bs, top, k + 1, j);
    }
  }

  /** What a release leaves below and above the freed block. */
  function LeftPart(bs: Items, k: nat): Items
    requires k < |bs|
  {
    if FreeAt(bs, k - 1) then bs[..k] else bs[..k] + [Item(bs[k].off, false)]
  }

  function RightPart(bs: Items, k: nat): Items
    requires k < |bs|
  {
    if FreeAt(bs, k + 1) then bs[k + 2..] else bs[k + 1..]
  }

  lemma ReleasedShape(bs: Items, k: nat)
    requires k + 1 < |bs|
    ensures ReleaseBlocks(bs, k) == LeftPart(bs, k) + RightPart(bs, k)
  {
    var m, x := MarkAt(bs, k, false), Item(bs[k].off, false);
    var l := MergeLeft(m, k);
    assert m == bs[..k] + [x] + bs[k + 1..];
    assert l == LeftPart(bs, k) + bs[k + 1..];
    assert |LeftPart(bs, k)| == LeftIndex(bs, k) + 1 && FreeAt(l, LeftIndex(bs, k) + 1) == FreeAt(bs, k + 1);
  }

  /** The lists after a release. */
  lemma ReleasePicks(bs: Items, k: nat)
    requires k + 1 < |bs| && bs[k].used
    ensures Pick(ReleaseBlocks(bs, k), true) == Pick(bs[..k], true) + Pick(bs[k + 1..], true)
    ensures Rank(bs, k, false) < |Freed(bs, k)| && (FreeAt(bs, k - 1) ==> Rank(bs, k, false) > 0)
        && (FreeAt(bs, k + 1) ==> Rank(bs, k, false) + 1 < |Freed(bs, k)|)
    ensures Pick(ReleaseBlocks(bs, k), false) ==
        MergedQueue(Freed(bs, k), Rank(bs, k, false), FreeAt(bs, k - 1), FreeAt(bs, k + 1))
  {
    var left, right, a, b, x := FreeAt(bs, k - 1), FreeAt(bs, k + 1), Pick(bs[..k], false), Pick(bs[k + 1..], false), bs[k].off;
    assert Freed(bs, k) == a + [x] + b && Rank(bs, k, false) == |a|;
    hide *;
    FreedBefore(bs, k);
    ReleasePick(bs, k, true);
    ReleasePick(bs, k, false);
    MergedShape(a, x, b, left, right);
  }

  lemma MergedShape(a: Queue, x: nat, b: Queue, left: bool, right: bool)
    requires right ==> |b| > 0
    ensures MergedQueue(a + [x] + b, |a|, left, right) == (if left then a else a + [x]) + if right then b[1..] else b
  {
  }

  lemma ReleasePick(bs: Items, k: nat, u: bool)
    requires k + 1 < |bs| && bs[k].used
    ensures FreeAt(bs, k + 1) && !u ==> |Pick(bs[k + 1..], u)| > 0
    ensures Pick(ReleaseBlocks(bs, k), u) ==
            (if FreeAt(bs, k - 1) || u then Pick(bs[..k], u) else Pick(bs[..k], u) + [bs[k].off])
            + if FreeAt(bs, k + 1) && !u then Pick(bs[k + 1..], u)[1..] else Pick(bs[k + 1..], u)
  {
    ReleasedShape(bs, k);
    PickLeftPart(bs, k, u);
    PickRightPart(bs, k, u);
    hide *;
    PickConcat(LeftPart(bs, k), RightPart(bs, k), u);
  }

  lemma PickLeftPart(bs: Items, k: nat, u: bool)
    requires k < |bs|
    ensures Pick(LeftPart(bs, k), u) == if FreeAt(bs, k - 1) || u then Pick(bs[..k], u) else Pick(bs[..k], u) + [bs[k].off]
  {
    var x := Item(bs[k].off, false);
    PickConcat(bs[..k], [x], u);
    PickSingle(x, u);
    hide Pick;
  }

  lemma PickRightPart(bs: Items, k: nat, u: bool)
    requires k < |bs|
    ensures FreeAt(bs, k + 1) && !u ==> |Pick(bs[k + 1..], u)| > 0
    ensures Pick(RightPart(bs, k), u) == if FreeAt(bs, k + 1) && !u then Pick(bs[k + 1..], u)[1..] else Pick(bs[k + 1..], u)
  {
    if FreeAt(bs, k + 1) {
      assert bs[k + 1..] == [bs[k + 1]] + bs[k + 2..];
      PickCons(bs[k + 1], bs[k + 2..], u);
    }
    hide Pick;
  }

  lemma PickSingle(x: Item, used: bool)
    ensures Pick([x], used) == One(x, used)
  {
    assert [x][1..] == [];
  }

  /** The headers after a release: the merged block has the length up to its new end. */
  lemma ReleaseLengths(bs: Items, lens: seq<nat>, top: nat, k: nat)
    requires Arena(bs, top) && Lengths(lens, bs, top) && k + 1 < |bs| && bs[k].used
    requires forall y :: y in Freed(bs, k) ==> y < |lens|
    ensures Rank(bs, k, false) < |Freed(bs, k)|
    ensures Lengths(MergedLengths(lens, Freed(bs, k), Rank(bs, k, false)), ReleaseBlocks(bs, k), top)
  {
    var left, right, at := FreeAt(bs, k - 1), FreeAt(bs, k + 1), LeftIndex(bs, k);
    assert LengthAt(lens, bs, k, top) && (left ==> LengthAt(lens, bs, k - 1, top)) && (right ==> LengthAt(lens, bs, k + 1, top));
    assert Spaced(bs, top);
    hide Spaced, Arena, Lengths, TouchesLeft, TouchesRight, MergedLengths, ReleaseBlocks, Freed, Rank;
    FreedNode(bs, k);
    MergedWrite(lens, Freed(bs, k), Rank(bs, k, false));
    TouchesIff(bs, lens, top, k);
    FreedBefore(bs, k);
    FreedAfter(bs, k);
    ReleasedLengths(bs, lens, top, k);
  }

  /** The block that stays takes the length up to the end of the last one merged. */
  lemma MergedWrite(lens: seq<nat>, q: Queue, i: nat)
    requires i < |q| && forall y :: y in q ==> y < |lens|
    ensures var left, right := TouchesLeft(lens, q, i), TouchesRight(lens, q, i);
            var at, last := if left then q[i - 1] else q[i], if right then q[i + 1] else q[i];
            at < |lens| && last < |lens| && last + lens[last] >= at
                && MergedLengths(lens, q, i) == lens[at := last + lens[last] - at]
  {
    assert q[i] in q && (i > 0 ==> q[i - 1] in q) && (i + 1 < |q| ==> q[i + 1] in q);
  }

  lemma ReleasedLengths(bs: Items, lens: seq<nat>, top: nat, k: nat)
    requires Arena(bs, top) && Lengths(lens, bs, top) && k + 1 < |bs| && bs[k].used
    ensures var at, end := LeftIndex(bs, k), At(bs, if FreeAt(bs, k + 1) then k + 2 else k + 1, top);
            bs[at].off < |lens| && end >= bs[at].off + BLOCK_HEADER
            && Lengths(lens[bs[at].off := end - bs[at].off - BLOCK_HEADER], ReleaseBlocks(bs, k), top)
  {
    var right, cs, at := FreeAt(bs, k + 1), ReleaseBlocks(bs, k), LeftIndex(bs, k);
    var end := At(bs, if right then k + 2 else k + 1, top);
    assert LengthAt(lens, bs, at, top);
    AtDistinct(bs, top, at, if right then k + 2 else k + 1);
    hide Arena, Spaced, ReleaseBlocks;
    var ls := lens[bs[at].off := end - bs[at].off - BLOCK_HEADER];
    forall n | 0 <= n < |cs|
      ensures LengthAt(ls, cs, n, top)
    {
      ReleasedLengthAt(bs, lens, top, k, n);
    }
  }

  lemma ReleasedLengthAt(bs: Items, lens: seq<nat>, top: nat, k: nat, n: nat)
    requires Spaced(bs, top) && Lengths(lens, bs, top) && k + 1 < |bs| && bs[k].used && n < |ReleaseBlocks(bs, k)|
    requires var at, end := LeftIndex(bs, k), At(bs, if FreeAt(bs, k + 1) then k + 2 else k + 1, top);
             bs[at].off < |lens| && end >= bs[at].off + BLOCK_HEADER
    ensures var at, end := LeftIndex(bs, k), At(bs, if FreeAt(bs, k + 1) then k + 2 else k + 1, top);
            LengthAt(lens[bs[at].off := end - bs[at].off - BLOCK_HEADER], ReleaseBlocks(bs, k), n, top)
  {
    ReleasedAt(bs, top, k, n);
    ReleasedAt(bs, top, k, n + 1);
    ReleasedNext(bs, k, n);
    var m, cs := ReleasedFrom(bs, k, n), ReleaseBlocks(bs, k);
    hide ReleaseBlocks, ReleasedFrom, LeftIndex, FreeAt;
    AtDistinct(bs, top, m, LeftIndex(bs, k));
    assert cs[n].off == bs[m].off;
    assert LengthAt(lens, bs, m, top);
    hide Spaced, Lengths, At;
  }

  lemma ReleasedNext(bs: Items, k: nat, n: nat)
    requires k + 1 < |bs|
    ensures ReleasedFrom(bs, k, n) == LeftIndex(bs, k) <==> n == LeftIndex(bs, k)
    ensures ReleasedFrom(bs, k, n + 1) ==
            if n == LeftIndex(bs, k) then (if FreeAt(bs, k + 1) then k + 2 else k + 1) else ReleasedFrom(bs, k, n) + 1
  {
  }

  /** Where block `j` of the released arena was. */
  function ReleasedFrom(bs: Items, k: nat, j: nat): nat
    requires k < |bs|
  {
    if j <= LeftIndex(bs, k) then j else j + (if FreeAt(bs, k - 1) then 1 else 0) + (if FreeAt(bs, k + 1) then 1 else 0)
  }

  lemma ReleasedAt(bs: Items, top: nat, k: nat, j: nat)
    requires k + 1 < |bs| && j <= |ReleaseBlocks(bs, k)|
    ensures ReleasedFrom(bs, k, j) <= |bs| && At(ReleaseBlocks(bs, k), j, top) == At(bs, ReleasedFrom(bs, k, j), top)
    ensures j < |ReleaseBlocks(bs, k)| <==> ReleasedFrom(bs, k, j) < |bs|
  {
    ReleasedShape(bs, k);
    hide ReleaseBlocks;
    var l, r := LeftPart(bs, k), RightPart(bs, k);
    if j < |l| {
      assert (l + r)[j] == l[j];
    } else if j < |l + r| {
      assert (l + r)[j] == r[j - |l|] == bs[ReleasedFrom(bs, k, j)];
    }
  }

  /** The two lists have no block in common. */
  lemma PicksApart(bs: Items, top: nat, x: nat)
    requires Spaced(bs, top)
    ensures !(x in Pick(bs, true) && x in Pick(bs, false))
  {
    PickMembers(bs, true, x);
    PickMembers(bs, false, x);
    if x in Pick(bs, true) && x in Pick(bs, false) {
      var i :| 0 <= i < |bs| && bs[i] == Item(x, true);
      var j :| 0 <= j < |bs| && bs[j] == Item(x, false);
      AtDistinct(bs, top, i, j);
    }
  }

  /** A used block stands in its list at its rank; in the other list its address falls between the two parts. */
  lemma RankIsBelow(bs: Items, top: nat, k: nat)
    requires Spaced(bs, top) && k < |bs|
    ensures var u, i := bs[k].used, Rank(bs, k, bs[k].used);
            && i < |Pick(bs, u)| && Pick(bs, u)[i] == bs[k].off
            && WithoutAt(Pick(bs, u), i) == Pick(bs[..k], u) + Pick(bs[k + 1..], u)
    ensures var u, i := !bs[k].used, Rank(bs, k, !bs[k].used);
            && i == Below(Pick(bs, u), bs[k].off)
                && InsertAt(Pick(bs, u), i, bs[k].off) == Pick(bs[..k], u) + [bs[k].off] + Pick(bs[k + 1..], u)
  {
    PickSplit(bs, k);
    var u, v, x := bs[k].used, !bs[k].used, bs[k].off;
    PickAscending(bs, v, top);
    RankBounds(bs, top, k, v);
    assert Rank(bs, k, u) == |Pick(bs[..k], u)| && Rank(bs, k, v) == |Pick(bs[..k], v)|;
    hide *;
    WithoutConcat(Pick(bs[..k], u), x, Pick(bs[k + 1..], u));
    BelowConcat(Pick(bs[..k], v), x, Pick(bs[k + 1..], v));
  }

  lemma WithoutConcat(a: Queue, x: nat, b: Queue)
    ensures |a| < |a + [x] + b| && (a + [x] + b)[|a|] == x && WithoutAt(a + [x] + b, |a|) == a + b
  {
  }

  lemma BelowConcat(a: Queue, x: nat, b: Queue)
    requires Ascending(a + b) && (a != [] ==> a[|a| - 1] < x) && (b != [] ==> b[0] > x)
    ensures |a| == Below(a + b, x) && InsertAt(a + b, |a|, x) == a + [x] + b
  {
    BelowUnique(a + b, x, |a|);
  }

  lemma RankBounds(bs: Items, top: nat, k: nat, u: bool)
    requires Spaced(bs, top) && k < |bs|
    ensures var a, b := Pick(bs[..k], u), Pick(bs[k + 1..], u);
            && (a != [] ==> a[|a| - 1] < bs[k].off) && (b != [] ==> b[0] > bs[k].off)
  {
    var a, b := Pick(bs[..k], u), Pick(bs[k + 1..], u);
    if a != [] {
      var x := a[|a| - 1];
      assert x in a;
      PickMembers(bs[..k], u, x);
      var j :| 0 <= j < k && bs[..k][j] == Item(x, u);
      AtDistinct(bs, top, j, k);
    }
    if b != [] {
      assert b[0] in b;
      PickMembers(bs[k + 1..], u, b[0]);
      var j :| 0 <= j < |bs| - k - 1 && bs[k + 1..][j] == Item(b[0], u);
      AtDistinct(bs, top, k, k + 1 + j);
    }
  }

  /** Because the highest block is free, a released block always has a successor in the free list. */
  lemma HighestIsAbove(bs: Items, top: nat, k: nat)
    requires Arena(bs, top) && k < |bs| && bs[k].used
    ensures Rank(bs, k, false) < |Pick(bs, false)|
  {
    var last := bs[|bs| - 1];
    PickMembers(bs[k + 1..], false, last.off);
    assert bs[k + 1..][|bs| - 1 - k - 1] == last;
    PickSplit(bs, k);
  }

  /** The first release step: the block leaves the used list, which does not touch the free list. */
  lemma UsedLeaves(bs: Items, top: nat, k: nat, next: NextFields, free: Option<nat>, alloc: Option<nat>)
    requires Arena(bs, top) && k < |bs| && bs[k].used && Lists(next, free, alloc, bs) && |next| == top
    ensures var q, i := Pick(bs, true), Rank(bs, k, true);
            && Ascending(q) && i < |q| && q[i] == bs[k].off && WithoutAt(q, i) == Pick(bs[..k], true) + Pick(bs[k + 1..], true)
            && forall next' :: WritesOn(next, next', q) ==> Linked(next', free, Pick(bs, false))
  {
    RankIsBelow(bs, top, k);
    PickAscending(bs, true, top);
    PickAscending(bs, false, top);
    var q, f := Pick(bs, true), Pick(bs, false);
    forall x | x in q
      ensures x !in f
    {
      PicksApart(bs, top, x);
    }
    hide Pick, Arena;
    forall next' | WritesOn(next, next', q)
      ensures Linked(next', free, f)
    {
      LinkedFrame(next, next', free, f, q);
    }
  }

  /** The second step: it enters the free list, in address order and with a successor. */
  lemma FreedEnters(bs: Items, top: nat, k: nat, next: NextFields, free: Option<nat>)
    requires Arena(bs, top) && k < |bs| && bs[k].used && Linked(next, free, Pick(bs, false)) && |next| == top
    ensures var q, x := Pick(bs, false), bs[k].off; var i := Below(q, x);
            && Ascending(q) && x < top && x !in q && (forall y :: y in q ==> y < top) && i == Rank(bs, k, false)
            && Linked(InsertWrites(next, q, i, x), if i == 0 then Some(x) else free, Freed(bs, k))
    ensures Ascending(Freed(bs, k)) && forall y :: y in Freed(bs, k) ==> y < top
  {
    RankIsBelow(bs, top, k);
    HighestIsAbove(bs, top, k);
    PickAscending(bs, false, top);
    PickMembers(bs, true, bs[k].off);
    PicksApart(bs, top, bs[k].off);
    AtDistinct(bs, top, k, |bs|);
    FreedNode(bs, k);
    var m := MarkAt(bs, k, false);
    MarkArena(bs, top, k);
    MarkPicks(bs, k);
    PickAscending(m, false, top);
    var q, x := Pick(bs, false), bs[k].off;
    hide Pick, Arena, Spaced, MarkAt;
    InsertIff(next, free, q, Below(q, x), x);
  }

  lemma InsertFrame(next: NextFields, q: Queue, i: nat, x: nat, w: Queue)
    requires i <= |q| && x < |next| && (forall z :: z in q ==> z < |next|) && x in w && forall z :: z in q ==> z in w
    ensures WritesOn(next, InsertWrites(next, q, i, x), w)
  {
    assert i > 0 ==> q[i - 1] in q;
  }

  /** The used list is not touched by what happens to the free list while block `k` enters it. */
  lemma UsedStays(bs: Items, top: nat, k: nat, next: NextFields, next': NextFields, alloc: Option<nat>)
    requires Arena(bs, top) && k < |bs| && bs[k].used && WritesOn(next, next', Freed(bs, k))
    requires Linked(next, alloc, Pick(bs[..k], true) + Pick(bs[k + 1..], true))
    ensures Linked(next', alloc, Pick(bs[..k], true) + Pick(bs[k + 1..], true))
  {
    var q := Pick(bs[..k], true) + Pick(bs[k + 1..], true);
    MarkArena(bs, top, k);
    MarkPicks(bs, k);
    var m := MarkAt(bs, k, false);
    forall x | x in q
      ensures x !in Freed(bs, k)
    {
      PicksApart(m, top, x);
    }
    hide Pick, Arena, MarkAt;
    LinkedFrame(next, next', alloc, q, Freed(bs, k));
  }

  /** The lists and headers after the merge. */
  lemma Released(bs: Items, top: nat, k: nat, lens: seq<nat>, taken: NextFields, done: NextFields, free: Option<nat>,
      alloc: Option<nat>)
    requires Arena(bs, top) && Lengths(lens, bs, top) && k < |bs| && bs[k].used && WritesOn(taken, done, Freed(bs, k))
    requires (forall y :: y in Freed(bs, k) ==> y < |lens|) && Rank(bs, k, false) < |Freed(bs, k)|
    requires Linked(taken, alloc, Pick(bs[..k], true) + Pick(bs[k + 1..], true))
    requires var q, i := Freed(bs, k), Rank(bs, k, false);
             Linked(done, free, MergedQueue(q, i, TouchesLeft(lens, q, i), TouchesRight(lens, q, i)))
    ensures k + 1 < |bs| && Arena(ReleaseBlocks(bs, k), top) && Lists(done, free, alloc, ReleaseBlocks(bs, k))
    ensures Lengths(MergedLengths(lens, Freed(bs, k), Rank(bs, k, false)), ReleaseBlocks(bs, k), top)
    ensures Pick(ReleaseBlocks(bs, k), true) == Pick(bs[..k], true) + Pick(bs[k + 1..], true)
  {
    ReleaseArena(bs, top, k);
    assert Spaced(bs, top);
    hide Arena, Spaced, Pick, ReleaseBlocks, Freed, Rank, MergedLengths, TouchesLeft, TouchesRight;
    UsedStays(bs, top, k, taken, done, alloc);
    ReleasePicks(bs, k);
    TouchesIff(bs, lens, top, k);
    ReleaseLengths(bs, lens, top, k);
  }

  /** A release changes no header of a block that stays in use. */
  lemma ReleasedLensFrame(bs: Items, top: nat, k: nat, lens: seq<nat>)
    requires Arena(bs, top) && k < |bs| && bs[k].used
    requires (forall y :: y in Freed(bs, k) ==> y < |lens|) && Rank(bs, k, false) < |Freed(bs, k)|
    ensures |MergedLengths(lens, Freed(bs, k), Rank(bs, k, false))| == |lens|
    ensures forall x :: x in Pick(bs[..k], true) + Pick(bs[k + 1..], true) && x < |lens| ==>
              MergedLengths(lens, Freed(bs, k), Rank(bs, k, false))[x] == lens[x]
  {
    var q, i := Freed(bs, k), Rank(bs, k, false);
    assert q[i] in q && (i > 0 ==> q[i - 1] in q) && (i + 1 < |q| ==> q[i + 1] in q);
    MarkArena(bs, top, k);
    MarkPicks(bs, k);
    var m := MarkAt(bs, k, false);
    forall x | x in Pick(bs[..k], true) + Pick(bs[k + 1..], true)
      ensures x !in q
    {
      PicksApart(m, top, x);
    }
    hide Pick, Arena, MarkAt, Freed, Rank;
  }

  /** Releasing the block just allocated restores the arena. */
  lemma FreeUndoesAllocate(bs: Items, top: nat, k: nat, p: nat)
    requires Arena(bs, top) && k < |bs| && !bs[k].used
    ensures ReleaseBlocks(SplitAt(bs, k, p), k) == bs
  {
    assert k > 0 ==> PairUsed(bs, k - 1);
    var cs := SplitAt(bs, k, p);
    assert cs[k + 1] == Item(p, false) && cs[k].off == bs[k].off && |cs| == |bs| + 1;
    assert cs[..k] == bs[..k] && cs[k + 2..] == bs[k + 1..] && !FreeAt(cs, k - 1);
    assert Item(bs[k].off, false) == bs[k];
    ReleasedShape(cs, k);
    hide *;
    assert bs == bs[..k] + [bs[k]] + bs[k + 1..];
  }

  // ----- allocation -----

  lemma InsertAscending(q: Queue, i: nat, p: nat)
    requires Ascending(q) && i <= |q| && (i > 0 ==> q[i - 1] < p) && (i < |q| ==> p < q[i])
    ensures Ascending(InsertAt(q, i, p)) && p !in q
  {
    var r := InsertAt(q, i, p);
    forall j | 0 <= j < |q|
      ensures if j < i then q[j] < p else q[j] > p
    {
      if j < i { AscendingDistinct(q, j, i - 1); } else { AscendingDistinct(q, i, j); }
    }
    forall j, k | 0 <= j < k < |r|
      ensures r[j] < r[k]
    {
      assert j != i ==> r[j] == q[if j < i then j else j - 1];
      assert k != i ==> r[k] == q[if k < i then k else k - 1];
    }
  }

  /** The free list after the split: the new block follows the one it was cut from. */
  function Cut(bs: Items, k: nat, p: nat): Queue
    requires k < |bs|
  {
    Pick(bs[..k], false) + [bs[k].off, p] + Pick(bs[k + 1..], false)
  }

  predicate CutFits(bs: Items, top: nat, k: nat, p: nat)
    requires k < |bs|
  {
    !bs[k].used && bs[k].off + BLOCK_HEADER <= p && p + BLOCK_HEADER <= At(bs, k + 1, top)
  }

  lemma CutShape(bs: Items, top: nat, k: nat, p: nat)
    requires Arena(bs, top) && k < |bs| && CutFits(bs, top, k, p)
    ensures var q, i := Pick(bs, false), Rank(bs, k, false);
            && Ascending(q) && i < |q| && q[i] == bs[k].off && p < top && p !in q
            && Cut(bs, k, p) == InsertAt(q, i + 1, p) && Ascending(Cut(bs, k, p))
            && i < |Cut(bs, k, p)| && Cut(bs, k, p)[i] == bs[k].off
                && WithoutAt(Cut(bs, k, p), i) == Pick(SplitAt(bs, k, p), false)
  {
    PickAscending(bs, false, top);
    PickSplit(bs, k);
    SplitPicks(bs, k, p);
    RankBounds(bs, top, k, false);
    AfterIsAbove(bs, top, k, p);
    AtDistinct(bs, top, k + 1, |bs|);
    var a, b, x := Pick(bs[..k], false), Pick(bs[k + 1..], false), bs[k].off;
    assert Cut(bs, k, p) == a + [x, p] + b && Rank(bs, k, false) == |a|;
    hide *;
    CutConcat(a, x, p, b);
  }

  lemma CutConcat(a: Queue, x: nat, p: nat, b: Queue)
    requires Ascending(a + [x] + b) && x < p && (b != [] ==> p < b[0])
    ensures InsertAt(a + [x] + b, |a| + 1, p) == a + [x, p] + b && Ascending(a + [x, p] + b) && p !in a + [x] + b
    ensures (a + [x, p] + b)[|a|] == x && WithoutAt(a + [x, p] + b, |a|) == a + [p] + b
  {
    InsertAscending(a + [x] + b, |a| + 1, p);
    assert a + [x, p] + b == InsertAt(a + [x] + b, |a| + 1, p);
    hide Ascending;
  }

  lemma AfterIsAbove(bs: Items, top: nat, k: nat, p: nat)
    requires Spaced(bs, top) && k < |bs| && p < At(bs, k + 1, top)
    ensures Pick(bs[k + 1..], false) != [] ==> p < Pick(bs[k + 1..], false)[0]
  {
    var b := Pick(bs[k + 1..], false);
    if b != [] {
      assert b[0] in b;
      PickMembers(bs[k + 1..], false, b[0]);
      var j :| 0 <= j < |bs| - k - 1 && bs[k + 1..][j] == Item(b[0], false);
      AtDistinct(bs, top, k + 1, k + 1 + j);
    }
  }

  /** The headers after the split. */
  lemma SplitLengths(bs: Items, lens: seq<nat>, top: nat, k: nat, p: nat)
    requires Arena(bs, top) && Lengths(lens, bs, top) && k < |bs| && CutFits(bs, top, k, p) && |lens| == top
    ensures p < top && lens[bs[k].off] >= p - bs[k].off
    ensures Lengths(lens[p := lens[bs[k].off] - (p - bs[k].off)][bs[k].off := p - bs[k].off - BLOCK_HEADER],
        SplitAt(bs, k, p), top)
  {
    assert LengthAt(lens, bs, k, top);
    AtDistinct(bs, top, k + 1, |bs|);
    var cs, x := SplitAt(bs, k, p), bs[k].off;
    var ls := lens[p := lens[x] - (p - x)][x := p - x - BLOCK_HEADER];
    forall n | 0 <= n < |cs|
      ensures LengthAt(ls, cs, n, top)
    {
      var m := if n <= k then n else n - 1;
      assert LengthAt(lens, bs, m, top);
      assert At(cs, n, top) == if n == k + 1 then p else At(bs, m, top);
      assert At(cs, n + 1, top) == if n == k then p else At(bs, m + 1, top);
      AtDistinct(bs, top, m, k);
      AtDistinct(bs, top, m, k + 1);
      hide Arena, Lengths, SplitAt;
    }
  }

  /** The used list is not touched by what happens to the free list. */
  lemma CutApart(bs: Items, top: nat, k: nat, p: nat, next: NextFields, next': NextFields, alloc: Option<nat>)
    requires Arena(bs, top) && k < |bs| && CutFits(bs, top, k, p) && WritesOn(next, next', Cut(bs, k, p))
        && Linked(next, alloc, Pick(bs, true))
    ensures Linked(next', alloc, Pick(bs, true))
  {
    SplitArena(bs, top, k, p);
    SplitPicks(bs, k, p);
    PickSplit(bs, k);
    forall x | x in Pick(bs, true)
      ensures x !in Cut(bs, k, p)
    {
      PicksApart(bs, top, x);
      PicksApart(SplitAt(bs, k, p), top, x);
      hide Pick, Arena, SplitAt;
    }
    hide Pick, Arena, SplitAt, Cut;
    LinkedFrame(next, next', alloc, Pick(bs, true), Cut(bs, k, p));
  }

  /** The used list gets the block, the free list is not touched. */
  lemma UsedEnters(bs: Items, top: nat, k: nat, p: nat, next: NextFields, free: Option<nat>, alloc: Option<nat>)
    requires Arena(bs, top) && k < |bs| && CutFits(bs, top, k, p) && |next| == top
    requires Linked(next, alloc, Pick(bs, true)) && Linked(next, free, Pick(SplitAt(bs, k, p), false))
    requires bs[k].off < top && next[bs[k].off] == None
    ensures var q, x := Pick(bs, true), bs[k].off; var i := Below(q, x);
            && Ascending(q) && x !in q && (forall y :: y in q ==> y < top)
            && Lists(InsertWrites(next, q, i, x), free, if i == 0 then Some(x) else alloc, SplitAt(bs, k, p))
    ensures Arena(SplitAt(bs, k, p), top)
  {
    var q, x, cs := Pick(bs, true), bs[k].off, SplitAt(bs, k, p);
    SplitArena(bs, top, k, p);
    SplitPicks(bs, k, p);
    PickAscending(bs, true, top);
    RankIsBelow(bs, top, k);
    PickMembers(bs, false, x);
    PicksApart(bs, top, x);
    forall y | y in Pick(cs, false)
      ensures y !in Pick(cs, true)
    {
      PicksApart(cs, top, y);
    }
    assert Spaced(bs, top);
    PickSplit(bs, k);
    hide Pick, Arena, Spaced, SplitAt;
    InsertIff(next, alloc, q, Below(q, x), x);
    InsertFrame(next, q, Below(q, x), x, Pick(cs, true));
    LinkedFrame(next, InsertWrites(next, q, Below(q, x), x), free, Pick(cs, false), Pick(cs, true));
  }
}
