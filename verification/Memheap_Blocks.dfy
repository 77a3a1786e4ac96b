/** The blocks of a memory heap object as a value: boundary tags and the free list. */
module HeapBlocks {
  import opened Queues
  import opened ListLinks

  /** RT_MEMHEAP_SIZE and RT_MEMHEAP_MINIALLOC */
  const HEADER: nat := 24
  const MINIALLOC: nat := 12

  datatype Item = Item(off: nat, used: bool)

  type Items = seq<Item>

  /** The payload between header `k` and the next one. */
  function Size(bs: Items, k: nat): int
    requires k + 1 < |bs|
  {
    bs[k + 1].off - bs[k].off - HEADER
  }

  predicate RoomAt(bs: Items, k: nat)
    requires k + 1 < |bs|
  {
    Size(bs, k) >= 0
  }

  /** The blocks tile the pool, closed by the used tail block of length 0. */
  predicate Tiled(bs: Items, pool: nat) {
    && |bs| >= 2 && pool >= HEADER && bs[0].off == 0 && bs[|bs| - 1] == Item(pool - HEADER, true)
    && forall k :: 0 <= k < |bs| - 1 ==> RoomAt(bs, k)
  }

  predicate PairUsed(bs: Items, k: nat)
    requires k + 1 < |bs|
  {
    bs[k].used || bs[k + 1].used
  }

  predicate NoFreePair(bs: Items) {
    forall k :: 0 <= k < |bs| - 1 ==> PairUsed(bs, k)
  }

  /** The sum of the free payloads. */
  function FreeSum(bs: Items): int {
    if |bs| < 2 then 0 else (if bs[0].used then 0 else Size(bs, 0)) + FreeSum(bs[1..])
  }

  function Offs(bs: Items): seq<nat> { seq(|bs|, i requires 0 <= i < |bs| => bs[i].off) }

  predicate IsFree(bs: Items, x: nat) { exists k :: 0 <= k < |bs| && bs[k] == Item(x, false) }

  /** The free list holds exactly the unused blocks. */
  ghost predicate FreeExact(bs: Items, free: Queue) {
    NoDup(free) && forall x :: x in free <==> IsFree(bs, x)
  }

  lemma {:induction false} OffsGrow(bs: Items, pool: nat, i: nat, j: nat)
    requires Tiled(bs, pool) && i < j < |bs|
    ensures bs[i].off + HEADER <= bs[j].off
    decreases j
  {
    assert RoomAt(bs, j - 1);
    if i < j - 1 {
      OffsGrow(bs, pool, i, j - 1);
    }
  }

  lemma OffsDistinct(bs: Items, pool: nat, i: nat, j: nat)
    requires Tiled(bs, pool) && i < |bs| && j < |bs|
    ensures bs[i].off == bs[j].off <==> i == j
    ensures i < j ==> bs[i].off + HEADER <= bs[j].off
    ensures i + 1 < j ==> bs[i + 1].off + HEADER <= bs[j].off
    ensures bs[i].off + HEADER <= pool
  {
    if i < j {
      OffsGrow(bs, pool, i, j);
      if i + 1 < j { OffsGrow(bs, pool, i + 1, j); }
    } else if j < i {
      OffsGrow(bs, pool, j, i);
    }
    if i < |bs| - 1 { OffsGrow(bs, pool, i, |bs| - 1); }
  }

  // ----- operations on blocks -----

  /** A new free block at `p` behind block `k`, which becomes used. */
  function SplitAt(bs: Items, k: nat, p: nat): Items
    requires k < |bs|
  {
    bs[..k] + [Item(bs[k].off, true), Item(p, false)] + bs[k + 1..]
  }

  /** Block `k` absorbs the following one. */
  function MergeAt(bs: Items, k: nat): Items
    requires k + 1 < |bs|
  {
    bs[..k + 1] + bs[k + 2..]
  }

  function MarkAt(bs: Items, k: nat, used: bool): Items
    requires k < |bs|
  {
    bs[k := Item(bs[k].off, used)]
  }

  predicate FreeAt(bs: Items, k: int) { 0 <= k < |bs| && !bs[k].used }

  lemma SplitTiled(bs: Items, pool: nat, k: nat, p: nat)
    requires Tiled(bs, pool) && k + 1 < |bs| && bs[k].off + HEADER <= p && p + HEADER <= bs[k + 1].off
    ensures Tiled(SplitAt(bs, k, p), pool)
  {
    var cs := SplitAt(bs, k, p);
    forall i | 0 <= i < |cs| - 1
      ensures RoomAt(cs, i)
    {
      if i < k {
        assert RoomAt(bs, i) && cs[i] == bs[i] && cs[i + 1].off == bs[i + 1].off;
      } else if i > k + 1 {
        assert RoomAt(bs, i - 1) && cs[i] == bs[i - 1] && cs[i + 1] == bs[i];
      }
    }
  }

  lemma MergeTiled(bs: Items, pool: nat, k: nat)
    requires Tiled(bs, pool) && k + 2 < |bs|
    ensures Tiled(MergeAt(bs, k), pool)
  {
    var cs := MergeAt(bs, k);
    forall i | 0 <= i < |cs| - 1
      ensures RoomAt(cs, i)
    {
      if i < k {
        assert RoomAt(bs, i) && cs[i] == bs[i] && cs[i + 1] == bs[i + 1];
      } else if i == k {
        assert RoomAt(bs, k) && RoomAt(bs, k + 1) && cs[i + 1] == bs[k + 2];
      } else {
        assert RoomAt(bs, i + 1) && cs[i] == bs[i + 1] && cs[i + 1] == bs[i + 2];
      }
    }
  }

  lemma MarkTiled(bs: Items, pool: nat, k: nat, used: bool)
    requires Tiled(bs, pool) && k + 1 < |bs|
    ensures Tiled(MarkAt(bs, k, used), pool)
  {
    var cs := MarkAt(bs, k, used);
    forall i | 0 <= i < |cs| - 1
      ensures RoomAt(cs, i)
    {
      assert RoomAt(bs, i);
    }
  }

  // ----- the free sum -----

  lemma {:induction false} SumJoin(a: Items, x: Item, b: Items)
    ensures FreeSum(a + [x] + b) == FreeSum(a + [x]) + FreeSum([x] + b)
  {
    if a == [] {
      assert a + [x] + b == [x] + b && FreeSum(a + [x]) == 0;
    } else {
      SumJoin(a[1..], x, b);
      assert (a + [x] + b)[1..] == a[1..] + [x] + b && (a + [x])[1..] == a[1..] + [x];
      assert (a + [x] + b)[1] == (a + [x])[1];
    }
  }

  lemma SumPair(x: Item, y: Item)
    ensures FreeSum([x, y]) == if x.used then 0 else y.off - x.off - HEADER
  {
    assert [x, y][1..] == [y];
  }

  /** Only the position of the last item of a prefix counts. */
  lemma {:induction false} SumLast(a: Items, x: Item, y: Item)
    requires x.off == y.off
    ensures FreeSum(a + [x]) == FreeSum(a + [y])
  {
    if a != [] {
      SumLast(a[1..], x, y);
      assert (a + [x])[1..] == a[1..] + [x] && (a + [y])[1..] == a[1..] + [y];
    }
  }

  /** The sum around one gap. */
  lemma SumAround(a: Items, x: Item, y: Item, b: Items)
    ensures FreeSum(a + [x, y] + b) == FreeSum(a + [x]) + (if x.used then 0 else y.off - x.off - HEADER) + FreeSum([y] + b)
  {
    hide FreeSum;
    SumJoin(a, x, [y] + b);
    SumJoin([x], y, b);
    SumPair(x, y);
    assert a + [x] + ([y] + b) == a + [x, y] + b;
    assert [x] + [y] + b == [x] + ([y] + b);
    assert [x] + [y] == [x, y];
  }

  /** Using up part of a free block: its size and the new header are no longer available. */
  lemma SplitSum(bs: Items, k: nat, p: nat)
    requires k + 1 < |bs| && !bs[k].used
    ensures FreeSum(SplitAt(bs, k, p)) == FreeSum(bs) - (p - bs[k].off)
  {
    hide FreeSum;
    var a, x, y, b := bs[..k], bs[k], bs[k + 1], bs[k + 2..];
    var u, n := Item(x.off, true), Item(p, false);
    assert bs == a + [x, y] + b;
    SumAround(a, x, y, b);
    assert SplitAt(bs, k, p) == a + [u, n] + ([y] + b);
    SumAround(a, u, n, [y] + b);
    SumAround([], n, y, b);
    assert [] + [n, y] + b == [n] + ([y] + b);
    assert [] + [n] == [n];
    SumOne(n);
    SumLast(a, x, u);
  }

  /** Cutting the end off a used block makes it available, less its header. */
  lemma CutSum(bs: Items, k: nat, p: nat)
    requires k + 1 < |bs| && bs[k].used
    ensures FreeSum(SplitAt(bs, k, p)) == FreeSum(bs) + (bs[k + 1].off - p - HEADER)
  {
    hide FreeSum;
    var a, x, y, b := bs[..k], bs[k], bs[k + 1], bs[k + 2..];
    var n := Item(p, false);
    assert bs == a + [x, y] + b;
    SumAround(a, x, y, b);
    assert SplitAt(bs, k, p) == a + [x, n] + ([y] + b);
    SumAround(a, x, n, [y] + b);
    SumAround([], n, y, b);
    assert [] + [n, y] + b == [n] + ([y] + b);
    assert [] + [n] == [n];
    SumOne(n);
  }

  lemma MarkSum(bs: Items, k: nat, used: bool)
    requires k + 1 < |bs| && bs[k].used != used
    ensures FreeSum(MarkAt(bs, k, used)) == FreeSum(bs) + (if used then -Size(bs, k) else Size(bs, k))
  {
    hide FreeSum;
    var a, x, y, b := bs[..k], bs[k], bs[k + 1], bs[k + 2..];
    var u := Item(x.off, used);
    assert bs == a + [x, y] + b && MarkAt(bs, k, used) == a + [u, y] + b;
    SumAround(a, x, y, b);
    SumAround(a, u, y, b);
    SumLast(a, x, u);
  }

  /** The sum around two gaps. */
  lemma SumAroundTwo(a: Items, x: Item, y: Item, z: Item, b: Items)
    ensures FreeSum(a + [x, y, z] + b) ==
            FreeSum(a + [x]) + (if x.used then 0 else y.off - x.off - HEADER) + (if y.used then 0 else z.off - y.off - HEADER) + FreeSum([z] + b)
  {
    hide FreeSum;
    SumAround(a, x, y, [z] + b);
    assert a + [x, y] + ([z] + b) == a + [x, y, z] + b;
    SumAround([], y, z, b);
    assert [] + [y, z] + b == [y] + ([z] + b);
    assert [] + [y] == [y];
    SumOne(y);
  }

  lemma SumOne(x: Item)
    ensures FreeSum([x]) == 0
  {
  }

  /** Merging a free block into its predecessor: a free one gains the header between them, a used one takes the payload. */
  lemma MergeSum(bs: Items, k: nat)
    requires k + 2 < |bs| && !bs[k + 1].used
    ensures FreeSum(MergeAt(bs, k)) == FreeSum(bs) + if bs[k].used then -Size(bs, k + 1) else HEADER
  {
    hide FreeSum;
    var a, x, y, z, b := bs[..k], bs[k], bs[k + 1], bs[k + 2], bs[k + 3..];
    assert bs == a + [x, y, z] + b && MergeAt(bs, k) == a + [x, z] + b;
    SumAroundTwo(a, x, y, z, b);
    SumAround(a, x, z, b);
  }

  // ----- the free list -----

  /** The offsets of the free blocks after each operation. */
  lemma SplitFree(bs: Items, pool: nat, k: nat, p: nat, x: nat)
    requires Tiled(bs, pool) && k + 1 < |bs| && bs[k].off < p < bs[k + 1].off
    ensures IsFree(SplitAt(bs, k, p), x) <==> (IsFree(bs, x) && x != bs[k].off) || x == p
    ensures !IsFree(bs, p) && p !in Offs(bs)
  {
    var cs := SplitAt(bs, k, p);
    assert cs[k + 1] == Item(p, false);
    if IsFree(cs, x) {
      var i :| 0 <= i < |cs| && cs[i] == Item(x, false);
      if i != k + 1 {
        var j := if i < k then i else i - 1;
        assert i != k && cs[i] == bs[j];
        OffsDistinct(bs, pool, j, k);
      }
    }
    if IsFree(bs, x) && x != bs[k].off {
      var i :| 0 <= i < |bs| && bs[i] == Item(x, false);
      assert cs[if i < k then i else i + 1] == bs[i];
    }
    forall i | 0 <= i < |bs|
      ensures bs[i].off != p
    {
      OffsDistinct(bs, pool, i, k);
      OffsDistinct(bs, pool, k, i);
      OffsDistinct(bs, pool, i, k + 1);
      OffsDistinct(bs, pool, k + 1, i);
    }
  }

  lemma MarkFree(bs: Items, pool: nat, k: nat, used: bool, x: nat)
    requires Tiled(bs, pool) && k < |bs|
    ensures IsFree(MarkAt(bs, k, used), x) <==> if x == bs[k].off then !used else IsFree(bs, x)
  {
    var cs := MarkAt(bs, k, used);
    if IsFree(cs, x) {
      var i :| 0 <= i < |cs| && cs[i] == Item(x, false);
      OffsDistinct(bs, pool, i, k);
      assert i != k ==> bs[i] == cs[i];
    }
    if x == bs[k].off && !used {
      assert cs[k] == Item(x, false);
    }
    if x != bs[k].off && IsFree(bs, x) {
      var i :| 0 <= i < |bs| && bs[i] == Item(x, false);
      assert cs[i] == bs[i];
    }
  }

  lemma MergeFree(bs: Items, pool: nat, k: nat, x: nat)
    requires Tiled(bs, pool) && k + 1 < |bs|
    ensures IsFree(MergeAt(bs, k), x) <==> IsFree(bs, x) && x != bs[k + 1].off
  {
    var cs := MergeAt(bs, k);
    if IsFree(cs, x) {
      var i :| 0 <= i < |cs| && cs[i] == Item(x, false);
      var j := if i <= k then i else i + 1;
      assert cs[i] == bs[j];
      OffsDistinct(bs, pool, j, k + 1);
    }
    if IsFree(bs, x) && x != bs[k + 1].off {
      var i :| 0 <= i < |bs| && bs[i] == Item(x, false);
      assert cs[if i <= k then i else i - 1] == bs[i];
    }
  }

  // ----- the block list -----

  lemma MergeOffs(bs: Items, k: nat)
    requires k + 1 < |bs|
    ensures Offs(MergeAt(bs, k)) == Offs(bs)[..k + 1] + Offs(bs)[k + 2..]
  {
  }

  lemma MarkOffs(bs: Items, k: nat, used: bool)
    requires k < |bs|
    ensures Offs(MarkAt(bs, k, used)) == Offs(bs)
  {
  }

  // ----- what an allocation leaves -----

  predicate Splits(bs: Items, k: nat, want: nat)
    requires k + 1 < |bs|
  {
    Size(bs, k) >= want + HEADER + MINIALLOC
  }

  /** Block `k` is handed out; the rest of it, if large enough for a block, becomes free. */
  function AllocBlocks(bs: Items, k: nat, want: nat): Items
    requires k + 1 < |bs|
  {
    if Splits(bs, k, want) then SplitAt(bs, k, bs[k].off + HEADER + want) else MarkAt(bs, k, true)
  }

  function AllocFree(bs: Items, free: Queue, k: nat, want: nat): Queue
    requires k + 1 < |bs|
  {
    (if Splits(bs, k, want) then [bs[k].off + HEADER + want] else []) + Queues.Remove(free, bs[k].off)
  }

  /**
   * A block handed out has at least the size wanted, and less than another block more: what is cut off is a free block
   * of the least size or larger. The other blocks stand.
   */
  lemma TakenSize(bs: Items, k: nat, want: nat)
    requires k + 1 < |bs| && Size(bs, k) >= want
    ensures var cs := AllocBlocks(bs, k, want);
            && k + 1 < |cs| && cs[k] == Item(bs[k].off, true) && want <= Size(cs, k) < want + HEADER + MINIALLOC
            && (|cs| == |bs| || (|cs| == |bs| + 1 && Size(cs, k) == want && !cs[k + 1].used && Size(cs, k + 1) >= MINIALLOC))
            && cs[..k] == bs[..k] && cs[k + 1 + |cs| - |bs|..] == bs[k + 1..]
  {
  }

  predicate Roomy(bs: Items) { forall k :: 0 <= k < |bs| - 1 ==> RoomAt(bs, k) }

  lemma TailRoomy(bs: Items)
    requires Roomy(bs) && |bs| >= 1
    ensures Roomy(bs[1..])
  {
    forall k | 0 <= k < |bs| - 2
      ensures RoomAt(bs[1..], k)
    {
      assert RoomAt(bs, k + 1);
    }
  }

  lemma {:induction false} FreeSumAtLeast(bs: Items, k: nat)
    requires Roomy(bs)
    ensures FreeSum(bs) >= 0
    ensures k + 1 < |bs| && !bs[k].used ==> FreeSum(bs) >= Size(bs, k)
    decreases |bs|
  {
    if |bs| >= 2 {
      assert RoomAt(bs, 0);
      TailRoomy(bs);
      FreeSumAtLeast(bs[1..], if k > 0 then k - 1 else 0);
      assert k > 0 && k + 1 < |bs| ==> Size(bs[1..], k - 1) == Size(bs, k);
    }
  }

  /**
   * The strict test of the counter of free bytes turns a request away, although a free block has room, exactly when that
   * block is an exact fit and all there is.
   */
  lemma CounterRefusesIff(bs: Items, pool: nat, k: nat, want: nat)
    requires Tiled(bs, pool) && k + 1 < |bs| && !bs[k].used && Size(bs, k) >= want
    ensures want >= FreeSum(bs) <==> FreeSum(bs) == Size(bs, k) == want
  {
    assert Roomy(bs);
    FreeSumAtLeast(bs, k);
  }

  /** Everything that holds between calls. */
  ghost predicate HeapOk(bs: Items, free: Queue, pool: nat) {
    Tiled(bs, pool) && NoFreePair(bs) && FreeExact(bs, free)
  }

  lemma PushExact(bs: Items, free: Queue, x: nat)
    requires NoDup(free) && x !in free && forall y :: IsFree(bs, y) <==> y in free || y == x
    ensures FreeExact(bs, [x] + free)
  {
    InsertMembers(free, 0, x);
    assert InsertAt(free, 0, x) == [x] + free;
  }

  lemma AllocOk(bs: Items, free: Queue, pool: nat, k: nat, want: nat)
    requires HeapOk(bs, free, pool) && k + 1 < |bs| && !bs[k].used && Size(bs, k) >= want
    ensures HeapOk(AllocBlocks(bs, k, want), AllocFree(bs, free, k, want), pool)
    ensures bs[k].off in free
    ensures FreeSum(AllocBlocks(bs, k, want)) == FreeSum(bs) - if Splits(bs, k, want) then want + HEADER else Size(bs, k)
  {
    var x, p, cs := bs[k].off, bs[k].off + HEADER + want, AllocBlocks(bs, k, want);
    RemoveMembers(free, x);
    if Splits(bs, k, want) {
      SplitTiled(bs, pool, k, p);
      SplitSum(bs, k, p);
      forall y
        ensures IsFree(cs, y) <==> y in Queues.Remove(free, x) || y == p
      {
        if y >= 0 { SplitFree(bs, pool, k, p, y); }
      }
      SplitFree(bs, pool, k, p, p);
      PushExact(cs, Queues.Remove(free, x), p);
    } else {
      MarkTiled(bs, pool, k, true);
      MarkSum(bs, k, true);
      forall y
        ensures IsFree(cs, y) <==> y in Queues.Remove(free, x)
      {
        if y >= 0 { MarkFree(bs, pool, k, true, y); }
      }
      assert AllocFree(bs, free, k, want) == Queues.Remove(free, x);
    }
    AllocNoPair(bs, k, want);
    assert IsFree(bs, x);
  }

  lemma AllocNoPair(bs: Items, k: nat, want: nat)
    requires NoFreePair(bs) && k + 1 < |bs| && !bs[k].used
    ensures NoFreePair(AllocBlocks(bs, k, want))
  {
    var cs := AllocBlocks(bs, k, want);
    assert PairUsed(bs, k);
    forall i | 0 <= i < |cs| - 1
      ensures PairUsed(cs, i)
    {
      if Splits(bs, k, want) {
        if i < k - 1 { assert PairUsed(bs, i); }
        if i > k + 1 { assert PairUsed(bs, i - 1); }
      } else {
        if i < k - 1 { assert PairUsed(bs, i); }
        if i > k { assert PairUsed(bs, i); }
      }
    }
  }

  // ----- what a release leaves -----

  /** After block `k` is marked free: first the merge with a free predecessor. */
  function MergeLeft(bs: Items, k: nat): Items
    requires k + 1 < |bs|
  {
    if FreeAt(bs, k - 1) then MergeAt(bs, k - 1) else bs
  }

  function LeftIndex(bs: Items, k: nat): nat
    requires k < |bs|
  {
    if FreeAt(bs, k - 1) then k - 1 else k
  }

  /** Then the merge with a free successor. */
  function MergeRight(bs: Items, k: nat): Items
    requires k + 1 < |bs|
  {
    if FreeAt(bs, k + 1) then MergeAt(bs, k) else bs
  }

  function ReleaseBlocks(bs: Items, k: nat): Items
    requires k + 1 < |bs|
  {
    var l := MergeLeft(MarkAt(bs, k, false), k);
    MergeRight(l, LeftIndex(bs, k))
  }

  /** The absorbed successor leaves the free list; a block without a free predecessor enters it in front. */
  function ReleaseFree(bs: Items, free: Queue, k: nat): Queue
    requires k + 1 < |bs|
  {
    var rest := if FreeAt(bs, k + 1) then Queues.Remove(free, bs[k + 1].off) else free;
    if FreeAt(bs, k - 1) then rest else [bs[k].off] + rest
  }

  predicate NoFreePairBut(bs: Items, a: int, b: int) {
    forall i :: 0 <= i < |bs| - 1 && i != a && i != b ==> PairUsed(bs, i)
  }

  /** Merging two free blocks removes the broken pair they formed. */
  lemma MergeNoPair(bs: Items, j: nat, e: int)
    requires j + 1 < |bs| && !bs[j].used && !bs[j + 1].used && NoFreePairBut(bs, j, e) && (e == j + 1 || e == -1)
    ensures NoFreePairBut(MergeAt(bs, j), if e == j + 1 then j else -1, -1)
  {
    var cs := MergeAt(bs, j);
    forall i | 0 <= i < |cs| - 1 && i != (if e == j + 1 then j else -1)
      ensures PairUsed(cs, i)
    {
      if i < j {
        assert PairUsed(bs, i);
      } else {
        assert PairUsed(bs, i + 1);
      }
    }
  }

  lemma MarkNoPair(bs: Items, k: nat)
    requires NoFreePair(bs) && k < |bs|
    ensures NoFreePairBut(MarkAt(bs, k, false), k - 1, k)
  {
    var cs := MarkAt(bs, k, false);
    forall i | 0 <= i < |cs| - 1 && i != k - 1 && i != k
      ensures PairUsed(cs, i)
    {
      assert PairUsed(bs, i);
    }
  }

  lemma ReleaseLeft(bs: Items, pool: nat, k: nat)
    requires Tiled(bs, pool) && NoFreePair(bs) && k + 1 < |bs| && bs[k].used
    ensures var l, j := MergeLeft(MarkAt(bs, k, false), k), LeftIndex(bs, k);
            && Tiled(l, pool) && NoFreePairBut(l, j, -1) && j + 1 < |l| && !l[j].used && l[j + 1] == bs[k + 1]
            && FreeSum(l) == FreeSum(bs) + Size(bs, k) + (if FreeAt(bs, k - 1) then HEADER else 0)
  {
    var m := MarkAt(bs, k, false);
    MarkTiled(bs, pool, k, false);
    MarkSum(bs, k, false);
    MarkNoPair(bs, k);
    if FreeAt(bs, k - 1) {
      MergeTiled(m, pool, k - 1);
      MergeSum(m, k - 1);
      MergeNoPair(m, k - 1, k);
    } else if k > 0 {
      assert PairUsed(m, k - 1);
    }
    hide FreeSum, Tiled;
  }

  lemma ReleaseRight(l: Items, pool: nat, j: nat)
    requires Tiled(l, pool) && NoFreePairBut(l, j, -1) && j + 1 < |l| && !l[j].used
    ensures Tiled(MergeRight(l, j), pool) && NoFreePair(MergeRight(l, j))
    ensures FreeSum(MergeRight(l, j)) == FreeSum(l) + if FreeAt(l, j + 1) then HEADER else 0
  {
    if FreeAt(l, j + 1) {
      MergeTiled(l, pool, j);
      MergeSum(l, j);
      MergeNoPair(l, j, -1);
      AllPairs(MergeAt(l, j), -1);
    } else {
      assert PairUsed(l, j);
      AllPairs(l, j);
    }
  }

  lemma ReleaseTiled(bs: Items, pool: nat, k: nat)
    requires Tiled(bs, pool) && NoFreePair(bs) && k + 1 < |bs| && bs[k].used
    ensures Tiled(ReleaseBlocks(bs, k), pool) && NoFreePair(ReleaseBlocks(bs, k))
    ensures FreeSum(ReleaseBlocks(bs, k)) ==
            FreeSum(bs) + Size(bs, k) + (if FreeAt(bs, k - 1) then HEADER else 0) + (if FreeAt(bs, k + 1) then HEADER else 0)
  {
    ReleaseLeft(bs, pool, k);
    ReleaseRight(MergeLeft(MarkAt(bs, k, false), k), pool, LeftIndex(bs, k));
  }

  lemma AllPairs(bs: Items, j: int)
    requires NoFreePairBut(bs, j, -1) && (0 <= j < |bs| - 1 ==> PairUsed(bs, j))
    ensures NoFreePair(bs)
  {
    forall i | 0 <= i < |bs| - 1
      ensures PairUsed(bs, i)
    {
    }
  }

  lemma ReleaseIsFree(bs: Items, pool: nat, k: nat, x: nat)
    requires Tiled(bs, pool) && k + 1 < |bs| && bs[k].used
    ensures IsFree(ReleaseBlocks(bs, k), x) <==>
            (IsFree(bs, x) && !(FreeAt(bs, k + 1) && x == bs[k + 1].off)) || (x == bs[k].off && !FreeAt(bs, k - 1))
  {
    hide IsFree, Tiled;
    var m := MarkAt(bs, k, false);
    MarkTiled(bs, pool, k, false);
    MarkFree(bs, pool, k, false, x);
    OffsDistinct(bs, pool, k, k + 1);
    UsedNotFree(bs, pool, k);
    var l, j := MergeLeft(m, k), LeftIndex(bs, k);
    if FreeAt(bs, k - 1) {
      MergeTiled(m, pool, k - 1);
      MergeFree(m, pool, k - 1, x);
    }
    assert l[j + 1] == bs[k + 1];
    if FreeAt(bs, k + 1) {
      MergeFree(l, pool, j, x);
    }
  }

  lemma UsedNotFree(bs: Items, pool: nat, k: nat)
    requires Tiled(bs, pool) && k < |bs| && bs[k].used
    ensures !IsFree(bs, bs[k].off)
  {
    if IsFree(bs, bs[k].off) {
      var i :| 0 <= i < |bs| && bs[i] == Item(bs[k].off, false);
      OffsDistinct(bs, pool, i, k);
    }
  }

  lemma ReleaseOk(bs: Items, free: Queue, pool: nat, k: nat)
    requires HeapOk(bs, free, pool) && k + 1 < |bs| && bs[k].used
    ensures HeapOk(ReleaseBlocks(bs, k), ReleaseFree(bs, free, k), pool)
  {
    ReleaseTiled(bs, pool, k);
    var cs, x := ReleaseBlocks(bs, k), bs[k].off;
    var rest := if FreeAt(bs, k + 1) then Queues.Remove(free, bs[k + 1].off) else free;
    if FreeAt(bs, k + 1) {
      RemoveMembers(free, bs[k + 1].off);
    }
    UsedNotFree(bs, pool, k);
    forall y
      ensures IsFree(cs, y) <==> y in rest || (y == x && !FreeAt(bs, k - 1))
    {
      if y >= 0 { ReleaseIsFree(bs, pool, k, y); }
    }
    hide IsFree, ReleaseBlocks;
    if !FreeAt(bs, k - 1) {
      PushExact(cs, rest, x);
    }
  }

  // ----- what resizing in place leaves -----

  /** The tail of the used block `k` becomes a free block at `p` and absorbs a free successor. */
  function ShrinkBlocks(bs: Items, k: nat, p: nat): Items
    requires k + 1 < |bs|
  {
    MergeRight(SplitAt(bs, k, p), k + 1)
  }

  /** The used block `k` absorbs its free successor and a new free block starts at `p`. */
  function GrowBlocks(bs: Items, k: nat, p: nat): Items
    requires k + 1 < |bs|
  {
    SplitAt(MergeAt(bs, k), k, p)
  }

  function ResizeFree(bs: Items, free: Queue, k: nat, p: nat): Queue
    requires k + 1 < |bs|
  {
    [p] + if FreeAt(bs, k + 1) then Queues.Remove(free, bs[k + 1].off) else free
  }

  /** A block resized in place ends at `p`, where a free block starts; the blocks in front of it stand. */
  lemma ResizedSize(bs: Items, k: nat, p: nat)
    requires k + 1 < |bs| && bs[k].used
    ensures var cs := ShrinkBlocks(bs, k, p);
            && k + 1 < |cs| && cs[k] == bs[k] && cs[k + 1] == Item(p, false) && Size(cs, k) == p - bs[k].off - HEADER
            && cs[..k] == bs[..k] && cs[k + 2..] == if FreeAt(bs, k + 1) then bs[k + 2..] else bs[k + 1..]
    ensures var cs := GrowBlocks(bs, k, p);
            && k + 1 < |cs| && cs[k] == bs[k] && cs[k + 1] == Item(p, false) && Size(cs, k) == p - bs[k].off - HEADER
            && cs[..k] == bs[..k] && cs[k + 2..] == bs[k + 2..]
  {
  }

  lemma CutNoPair(bs: Items, k: nat, p: nat)
    requires NoFreePair(bs) && k + 1 < |bs| && bs[k].used
    ensures NoFreePairBut(SplitAt(bs, k, p), k + 1, -1)
  {
    var cs := SplitAt(bs, k, p);
    forall i | 0 <= i < |cs| - 1 && i != k + 1
      ensures PairUsed(cs, i)
    {
      if i < k { assert PairUsed(bs, i); }
      if i > k + 1 { assert PairUsed(bs, i - 1); }
    }
  }

  lemma ShrinkOk(bs: Items, free: Queue, pool: nat, k: nat, p: nat)
    requires HeapOk(bs, free, pool) && k + 1 < |bs| && bs[k].used && bs[k].off + HEADER <= p && p + HEADER <= bs[k + 1].off
    ensures HeapOk(ShrinkBlocks(bs, k, p), ResizeFree(bs, free, k, p), pool)
    ensures FreeSum(ShrinkBlocks(bs, k, p)) == FreeSum(bs) + (bs[k + 1].off - p) - if FreeAt(bs, k + 1) then 0 else HEADER
  {
    var c := SplitAt(bs, k, p);
    SplitTiled(bs, pool, k, p);
    CutSum(bs, k, p);
    CutNoPair(bs, k, p);
    assert c[k + 2] == bs[k + 1] && !c[k + 1].used;
    ReleaseRight(c, pool, k + 1);
    var rest := if FreeAt(bs, k + 1) then Queues.Remove(free, bs[k + 1].off) else free;
    if FreeAt(bs, k + 1) { RemoveMembers(free, bs[k + 1].off); }
    UsedNotFree(bs, pool, k);
    forall y
      ensures IsFree(ShrinkBlocks(bs, k, p), y) <==> y in rest || y == p
    {
      if y >= 0 {
        SplitFree(bs, pool, k, p, y);
        if FreeAt(bs, k + 1) { MergeFree(c, pool, k + 1, y); }
      }
    }
    SplitFree(bs, pool, k, p, p);
    PushExact(ShrinkBlocks(bs, k, p), rest, p);
    hide FreeSum, IsFree, Tiled, NoFreePair;
  }

  lemma GrowOk(bs: Items, free: Queue, pool: nat, k: nat, p: nat)
    requires HeapOk(bs, free, pool) && k + 2 < |bs| && bs[k].used && !bs[k + 1].used
    requires bs[k + 1].off < p && p + HEADER <= bs[k + 2].off
    ensures HeapOk(GrowBlocks(bs, k, p), ResizeFree(bs, free, k, p), pool)
    ensures FreeSum(GrowBlocks(bs, k, p)) == FreeSum(bs) - (p - bs[k + 1].off)
  {
    var m := MergeAt(bs, k);
    MergeTiled(bs, pool, k);
    MergeSum(bs, k);
    OffsDistinct(bs, pool, k, k + 1);
    assert m[k] == bs[k] && m[k + 1] == bs[k + 2];
    GrowNoPair(bs, k, p);
    SplitTiled(m, pool, k, p);
    CutSum(m, k, p);
    RemoveMembers(free, bs[k + 1].off);
    UsedNotFree(bs, pool, k);
    forall y
      ensures IsFree(GrowBlocks(bs, k, p), y) <==> y in Queues.Remove(free, bs[k + 1].off) || y == p
    {
      if y >= 0 {
        MergeFree(bs, pool, k, y);
        SplitFree(m, pool, k, p, y);
      }
    }
    SplitFree(m, pool, k, p, p);
    MergeFree(bs, pool, k, p);
    PushExact(GrowBlocks(bs, k, p), Queues.Remove(free, bs[k + 1].off), p);
    hide FreeSum, IsFree, Tiled, NoFreePair;
  }

  lemma GrowNoPair(bs: Items, k: nat, p: nat)
    requires NoFreePair(bs) && k + 2 < |bs| && bs[k].used && !bs[k + 1].used
    ensures NoFreePair(GrowBlocks(bs, k, p))
  {
    var cs := GrowBlocks(bs, k, p);
    assert PairUsed(bs, k + 1);
    forall i | 0 <= i < |cs| - 1
      ensures PairUsed(cs, i)
    {
      if i < k { assert PairUsed(bs, i); }
      if i > k + 1 { assert PairUsed(bs, i); }
    }
  }
}
