/** The block chain of the small-memory heap as a value. */
module MemChain {
  /** RT_ALIGN_SIZE is 4; a header holds two 16-bit and two 32-bit fields. */
  const SIZEOF_STRUCT_MEM: nat := 12
  const MIN_SIZE: nat := 12
  const MIN_SIZE_ALIGNED: nat := 12

  /** RT_ALIGN on a 32-bit size: the addition wraps. */
  function Align(size: nat): nat { (size + 3) % 0x1_0000_0000 / 4 * 4 }

  predicate Aligned(x: nat) { x % 4 == 0 }

  lemma AlignedSum(x: nat, size: nat)
    requires Aligned(x) && Aligned(size)
    ensures Aligned(x + SIZEOF_STRUCT_MEM + size)
  {
  }

  /** The payload size that a request is served with. */
  function Served(size: nat): nat {
    if Align(size) < MIN_SIZE_ALIGNED then MIN_SIZE_ALIGNED else Align(size)
  }

  /** Alignment rounds up exactly when the addition does not wrap. */
  lemma AlignRoundsUp(size: nat)
    requires size < 0x1_0000_0000
    ensures Align(size) >= size <==> size <= 0xFFFF_FFFC
    ensures size <= 0xFFFF_FFFC ==> Align(size) % 4 == 0 && Align(size) < size + 4
  {
    if size > 0xFFFF_FFFC {
      assert (size + 3) % 0x1_0000_0000 == size + 3 - 0x1_0000_0000;
    }
  }

  /** Short of the wrap a request is served with the least multiple of four that is neither below it nor below the least block. */
  lemma ServedRoundsUp(size: nat)
    requires size <= 0xFFFF_FFFC
    ensures Served(size) % 4 == 0 && Served(size) >= size && Served(size) >= MIN_SIZE_ALIGNED
    ensures Served(size) == MIN_SIZE_ALIGNED || Served(size) < size + 4
  {
    AlignRoundsUp(size);
  }

  /** The subtraction in the bound of the search loop does not wrap exactly when the heap is not smaller than the least block. */
  lemma LoopBoundIff(limit: nat, request: nat)
    requires limit < 0x1_0000_0000 && request < 0x1_0000_0000 && Align(request) <= limit
    ensures (limit + 0x1_0000_0000 - Served(request)) % 0x1_0000_0000 <= limit <==> limit >= MIN_SIZE_ALIGNED
  {
    var size := Served(request);
    assert (limit + 0x1_0000_0000 - size) % 0x1_0000_0000 == if size <= limit then limit - size else limit + 0x1_0000_0000 - size;
  }

  /** A header position with its used flag; the span of a block ends where the next one starts. */
  datatype Block = Block(off: nat, used: bool)

  /** Where block `k` starts; the sentinel at `end` closes the chain. */
  function Off(bs: seq<Block>, k: nat, end: nat): nat
    requires k <= |bs|
  {
    if k < |bs| then bs[k].off else end
  }

  function Payload(bs: seq<Block>, k: nat, end: nat): int
    requires k < |bs|
  {
    Off(bs, k + 1, end) - bs[k].off - SIZEOF_STRUCT_MEM
  }

  /** The headers tile [0, end): in address order, aligned, each with room for itself. */
  predicate Tiles(bs: seq<Block>, end: nat) {
    && |bs| > 0 && bs[0].off == 0 && Aligned(end)
    && forall k :: 0 <= k < |bs| ==> RoomAt(bs, k, end)
  }

  /** Block `k` is aligned and has room for its header. */
  predicate RoomAt(bs: seq<Block>, k: nat, end: nat)
    requires k < |bs|
  {
    Aligned(bs[k].off) && Payload(bs, k, end) >= 0
  }

  /** No two neighbours are free. */
  predicate Merged(bs: seq<Block>) {
    forall k :: 0 < k < |bs| ==> PairUsed(bs, k)
  }

  predicate PairUsed(bs: seq<Block>, k: nat)
    requires 0 < k < |bs|
  {
    bs[k - 1].used || bs[k].used
  }

  /** A position is a free block or the sentinel. */
  predicate FreeOrEnd(bs: seq<Block>, off: nat, end: nat) {
    off == end || exists k :: 0 <= k < |bs| && bs[k] == Block(off, false)
  }

  /** Total span of the used blocks, headers included. */
  function UsedSpan(bs: seq<Block>, end: nat): int {
    if bs == [] then 0
    else (if bs[0].used then Off(bs, 1, end) - bs[0].off else 0) + UsedSpan(bs[1..], end)
  }

  lemma {:induction false} OffsetsIncrease(bs: seq<Block>, i: nat, j: nat, end: nat)
    requires Tiles(bs, end) && i < j <= |bs|
    ensures Off(bs, i, end) + SIZEOF_STRUCT_MEM <= Off(bs, j, end)
    decreases j
  {
    assert RoomAt(bs, j - 1, end);
    if i < j - 1 {
      OffsetsIncrease(bs, i, j - 1, end);
    }
  }

  lemma OffsetsDistinct(bs: seq<Block>, i: nat, j: nat, end: nat)
    requires Tiles(bs, end) && i <= |bs| && j <= |bs|
    ensures Off(bs, i, end) == Off(bs, j, end) <==> i == j
    ensures Off(bs, i, end) < Off(bs, j, end) <==> i < j
    ensures i < j ==> Off(bs, i, end) + SIZEOF_STRUCT_MEM <= Off(bs, j, end)
    ensures i < j ==> Off(bs, i + 1, end) <= Off(bs, j, end)
  {
    if i < j {
      OffsetsIncrease(bs, i, j, end);
      if i + 1 < j {
        OffsetsIncrease(bs, i + 1, j, end);
      }
    } else if j < i {
      OffsetsIncrease(bs, j, i, end);
    }
  }

  function First(bs: seq<Block>, end: nat): nat { if bs == [] then end else bs[0].off }

  lemma {:induction false} UsedSpanConcat(a: seq<Block>, b: seq<Block>, end: nat)
    ensures UsedSpan(a + b, end) == UsedSpan(a, First(b, end)) + UsedSpan(b, end)
  {
    if a == [] {
      assert a + b == b;
    } else {
      UsedSpanConcat(a[1..], b, end);
      assert (a + b)[1..] == a[1..] + b;
    }
  }

  // ----- the chain operations -----

  predicate Splits(bs: seq<Block>, k: nat, size: nat, end: nat)
    requires k < |bs|
  {
    Payload(bs, k, end) >= size + SIZEOF_STRUCT_MEM + MIN_SIZE_ALIGNED
  }

  /** Cut block `k` so that its payload is `size`; the rest becomes a free block. */
  function Cut(bs: seq<Block>, k: nat, size: nat): seq<Block>
    requires k < |bs|
  {
    bs[..k] + [Block(bs[k].off, true), Block(bs[k].off + SIZEOF_STRUCT_MEM + size, false)] + bs[k + 1..]
  }

  function Mark(bs: seq<Block>, k: nat, used: bool): seq<Block>
    requires k < |bs|
  {
    bs[k := Block(bs[k].off, used)]
  }

  /** What a malloc of `size` payload bytes out of block `k` leaves. */
  function Take(bs: seq<Block>, k: nat, size: nat, end: nat): seq<Block>
    requires k < |bs|
  {
    if Splits(bs, k, size, end) then Cut(bs, k, size) else Mark(bs, k, true)
  }

  /**
   * A block handed out has at least the payload wanted, and less than another least block more: what is cut off is a free
   * block of the least size or larger. The other blocks stand.
   */
  lemma TakenSize(bs: seq<Block>, k: nat, size: nat, end: nat)
    requires k < |bs| && Payload(bs, k, end) >= size
    ensures var cs := Take(bs, k, size, end);
            && k < |cs| && cs[k] == Block(bs[k].off, true)
            && size <= Payload(cs, k, end) < size + SIZEOF_STRUCT_MEM + MIN_SIZE_ALIGNED
            && (|cs| == |bs| || (|cs| == |bs| + 1 && Payload(cs, k, end) == size && !cs[k + 1].used
                                 && Payload(cs, k + 1, end) >= MIN_SIZE_ALIGNED))
            && cs[..k] == bs[..k] && cs[k + 1 + |cs| - |bs|..] == bs[k + 1..]
  {
  }

  /** Block `k` swallows its successor. */
  function Join(bs: seq<Block>, k: nat): seq<Block>
    requires k + 1 < |bs|
  {
    bs[..k + 1] + bs[k + 2..]
  }

  predicate FreeAt(bs: seq<Block>, k: int) { 0 <= k < |bs| && !bs[k].used }

  /** plug_holes around the free block `k`. */
  function Plug(bs: seq<Block>, k: nat): seq<Block>
    requires k < |bs|
  {
    var ahead := if FreeAt(bs, k + 1) then Join(bs, k) else bs;
    if FreeAt(ahead, k - 1) then Join(ahead, k - 1) else ahead
  }

  /** What a free of block `k` leaves. */
  function Release(bs: seq<Block>, k: nat): seq<Block>
    requires k < |bs|
  {
    Plug(Mark(bs, k, false), k)
  }

  /** What a shrinking realloc of block `k` leaves. */
  function Shrink(bs: seq<Block>, k: nat, size: nat): seq<Block>
    requires k < |bs|
  {
    Plug(Cut(bs, k, size), k + 1)
  }

  lemma CutTiles(bs: seq<Block>, k: nat, size: nat, end: nat)
    requires Tiles(bs, end) && k < |bs| && Aligned(size) && Payload(bs, k, end) >= size + SIZEOF_STRUCT_MEM
    ensures Tiles(Cut(bs, k, size), end)
  {
    hide Aligned;
    var cs := Cut(bs, k, size);
    assert |cs| == |bs| + 1;
    forall i | 0 <= i < |cs|
      ensures RoomAt(cs, i, end)
    {
      if i < k {
        assert cs[i] == bs[i] && Off(cs, i + 1, end) == Off(bs, i + 1, end);
        assert RoomAt(bs, i, end);
      } else if i > k + 1 {
        assert cs[i] == bs[i - 1] && Off(cs, i + 1, end) == Off(bs, i, end);
        assert RoomAt(bs, i - 1, end);
      } else {
        assert RoomAt(bs, k, end);
        AlignedSum(bs[k].off, size);
        assert Off(cs, k + 2, end) == Off(bs, k + 1, end);
      }
    }
  }

  lemma JoinTiles(bs: seq<Block>, k: nat, end: nat)
    requires Tiles(bs, end) && k + 1 < |bs|
    ensures Tiles(Join(bs, k), end)
  {
    var cs := Join(bs, k);
    forall i | 0 <= i < |cs|
      ensures RoomAt(cs, i, end)
    {
      assert i < k ==> cs[i] == bs[i] && Off(cs, i + 1, end) == Off(bs, i + 1, end) && RoomAt(bs, i, end);
      assert i == k ==> cs[i] == bs[i] && Off(cs, i + 1, end) == Off(bs, i + 2, end) && RoomAt(bs, i, end) && RoomAt(bs, i + 1, end);
      assert i > k ==> cs[i] == bs[i + 1] && Off(cs, i + 1, end) == Off(bs, i + 2, end) && RoomAt(bs, i + 1, end);
    }
  }

  lemma MarkTiles(bs: seq<Block>, k: nat, used: bool, end: nat)
    requires Tiles(bs, end) && k < |bs|
    ensures Tiles(Mark(bs, k, used), end)
  {
    var cs := Mark(bs, k, used);
    forall i | 0 <= i < |cs|
      ensures RoomAt(cs, i, end)
    {
      assert cs[i].off == bs[i].off && Off(cs, i + 1, end) == Off(bs, i + 1, end) && RoomAt(bs, i, end);
    }
  }

  lemma PlugTiles(bs: seq<Block>, k: nat, end: nat)
    requires Tiles(bs, end) && FreeAt(bs, k)
    ensures Tiles(Plug(bs, k), end)
  {
    hide Tiles;
    if FreeAt(bs, k + 1) {
      JoinTiles(bs, k, end);
    }
    var ahead := if FreeAt(bs, k + 1) then Join(bs, k) else bs;
    if FreeAt(ahead, k - 1) {
      JoinTiles(ahead, k - 1, end);
    }
  }

  /** Joining two free blocks repairs the pair they form; at most the pair ending in `e` stays broken. */
  lemma JoinMerges(bs: seq<Block>, j: nat, e: nat)
    requires FreeAt(bs, j) && FreeAt(bs, j + 1) && e <= j
    requires forall i :: 0 < i < |bs| && i != e && i != j + 1 ==> PairUsed(bs, i)
    ensures forall i :: 0 < i < |Join(bs, j)| && i != e ==> PairUsed(Join(bs, j), i)
  {
    var cs := Join(bs, j);
    forall i | 0 < i < |cs| && i != e
      ensures PairUsed(cs, i)
    {
      if i <= j {
        assert cs[i] == bs[i] && cs[i - 1] == bs[i - 1];
        assert PairUsed(bs, i);
      } else {
        assert cs[i] == bs[i + 1];
        assert PairUsed(bs, i + 1);
      }
    }
  }

  /** Plugging restores the rule that no two neighbours are free, if only `k` broke it. */
  lemma PlugMerges(bs: seq<Block>, k: nat)
    requires FreeAt(bs, k)
    requires forall i :: 0 < i < |bs| && i != k && i != k + 1 ==> PairUsed(bs, i)
    ensures Merged(Plug(bs, k))
  {
    var ahead := if FreeAt(bs, k + 1) then Join(bs, k) else bs;
    if FreeAt(bs, k + 1) {
      JoinMerges(bs, k, k);
    }
    if FreeAt(ahead, k - 1) {
      JoinMerges(ahead, k - 1, 0);
    }
  }

  lemma TakeTiles(bs: seq<Block>, k: nat, size: nat, end: nat)
    requires Tiles(bs, end) && Merged(bs) && FreeAt(bs, k) && Aligned(size) && Payload(bs, k, end) >= size
    ensures Tiles(Take(bs, k, size, end), end)
  {
    if Splits(bs, k, size, end) {
      CutTiles(bs, k, size, end);
    } else {
      MarkTiles(bs, k, true, end);
    }
  }

  lemma TakeMerged(bs: seq<Block>, k: nat, size: nat, end: nat)
    requires Merged(bs) && FreeAt(bs, k)
    ensures Merged(Take(bs, k, size, end))
  {
    var cs := Take(bs, k, size, end);
    forall i | 0 < i < |cs|
      ensures PairUsed(cs, i)
    {
      if Splits(bs, k, size, end) {
        assert i < k ==> PairUsed(bs, i);
        assert i == k + 2 ==> PairUsed(bs, k + 1);
        assert i > k + 2 ==> PairUsed(bs, i - 1);
      } else {
        assert PairUsed(bs, i);
      }
    }
  }

  /** How much used_mem grows by. */
  function Charge(bs: seq<Block>, k: nat, size: nat, end: nat): int
    requires k < |bs|
  {
    (if Splits(bs, k, size, end) then size else Payload(bs, k, end)) + SIZEOF_STRUCT_MEM
  }

  lemma SpanAt(a: seq<Block>, x: Block, b: seq<Block>, end: nat)
    ensures UsedSpan(a + ([x] + b), end) ==
            UsedSpan(a, x.off) + (if x.used then First(b, end) - x.off else 0) + UsedSpan(b, end)
  {
    UsedSpanConcat(a, [x] + b, end);
    assert ([x] + b)[1..] == b;
  }

  lemma TakeSpan(bs: seq<Block>, k: nat, size: nat, end: nat)
    requires FreeAt(bs, k)
    ensures UsedSpan(Take(bs, k, size, end), end) == UsedSpan(bs, end) + Charge(bs, k, size, end)
  {
    hide UsedSpan;
    var a, x, b := bs[..k], bs[k], bs[k + 1..];
    assert bs == a + ([x] + b);
    SpanAt(a, x, b, end);
    if Splits(bs, k, size, end) {
      var y, z := Block(x.off, true), Block(x.off + SIZEOF_STRUCT_MEM + size, false);
      assert Cut(bs, k, size) == a + ([y] + ([z] + b));
      SpanAt(a, y, [z] + b, end);
      SpanAt([], z, b, end);
      assert [] + ([z] + b) == [z] + b;
      assert UsedSpan([], z.off) == 0 by { SpanOfNone(z.off); }
    } else {
      assert Mark(bs, k, true) == a + ([Block(x.off, true)] + b);
      SpanAt(a, Block(x.off, true), b, end);
    }
  }

  lemma SpanOfNone(end: nat)
    ensures UsedSpan([], end) == 0
  {
  }

  /** Joining a free block with a free successor moves no used span. */
  lemma JoinSpan(bs: seq<Block>, k: nat, end: nat)
    requires FreeAt(bs, k) && FreeAt(bs, k + 1)
    ensures UsedSpan(Join(bs, k), end) == UsedSpan(bs, end)
  {
    var a, x, y, b := bs[..k], bs[k], bs[k + 1], bs[k + 2..];
    assert bs == a + ([x] + ([y] + b));
    assert Join(bs, k) == a + ([x] + b);
    UsedSpanConcat(a, [x] + ([y] + b), end);
    UsedSpanConcat(a, [x] + b, end);
    assert ([x] + ([y] + b))[1..] == [y] + b;
    assert ([y] + b)[1..] == b;
    assert ([x] + b)[1..] == b;
  }

  lemma PlugSpan(bs: seq<Block>, k: nat, end: nat)
    requires FreeAt(bs, k)
    ensures UsedSpan(Plug(bs, k), end) == UsedSpan(bs, end)
  {
    var ahead := if FreeAt(bs, k + 1) then Join(bs, k) else bs;
    if FreeAt(bs, k + 1) {
      JoinSpan(bs, k, end);
    }
    assert FreeAt(ahead, k);
    if FreeAt(ahead, k - 1) {
      JoinSpan(ahead, k - 1, end);
    }
  }

  lemma MarkFreeSpan(bs: seq<Block>, k: nat, end: nat)
    requires k < |bs| && bs[k].used
    ensures UsedSpan(Mark(bs, k, false), end) == UsedSpan(bs, end) - (Payload(bs, k, end) + SIZEOF_STRUCT_MEM)
  {
    var a, x, b := bs[..k], bs[k], bs[k + 1..];
    var y := Block(x.off, false);
    assert bs == a + ([x] + b) && Mark(bs, k, false) == a + ([y] + b);
    UsedSpanConcat(a, [x] + b, end);
    UsedSpanConcat(a, [y] + b, end);
    assert ([x] + b)[1..] == b && ([y] + b)[1..] == b;
    assert Off([x] + b, 1, end) == Off(bs, k + 1, end);
  }

  lemma ReleaseKeeps(bs: seq<Block>, k: nat, end: nat)
    requires Tiles(bs, end) && Merged(bs) && k < |bs| && bs[k].used
    ensures Tiles(Release(bs, k), end) && Merged(Release(bs, k))
    ensures UsedSpan(Release(bs, k), end) == UsedSpan(bs, end) - (Payload(bs, k, end) + SIZEOF_STRUCT_MEM)
  {
    hide Tiles;
    var cs := Mark(bs, k, false);
    MarkTiles(bs, k, false, end);
    forall i | 0 < i < |cs| && i != k && i != k + 1
      ensures PairUsed(cs, i)
    {
      assert PairUsed(bs, i);
    }
    PlugTiles(cs, k, end);
    PlugMerges(cs, k);
    MarkFreeSpan(bs, k, end);
    PlugSpan(cs, k, end);
  }

  lemma ShrinkKeeps(bs: seq<Block>, k: nat, size: nat, end: nat)
    requires Tiles(bs, end) && Merged(bs) && k < |bs| && bs[k].used
    requires Aligned(size) && Payload(bs, k, end) >= size + SIZEOF_STRUCT_MEM
    ensures Tiles(Shrink(bs, k, size), end) && Merged(Shrink(bs, k, size))
  {
    hide Tiles;
    var cs := Cut(bs, k, size);
    CutTiles(bs, k, size, end);
    forall i | 0 < i < |cs| && i != k + 1 && i != k + 2
      ensures PairUsed(cs, i)
    {
      if i <= k {
        assert PairUsed(bs, i);
      } else {
        assert PairUsed(bs, i - 1);
      }
    }
    PlugTiles(cs, k + 1, end);
    PlugMerges(cs, k + 1);
  }

  /** A shrunk block keeps its place and exactly the payload asked for; a free block follows. The blocks in front stand. */
  lemma ShrunkSize(bs: seq<Block>, k: nat, size: nat, end: nat)
    requires k < |bs| && bs[k].used
    ensures var cs := Shrink(bs, k, size);
            && k + 1 < |cs| && cs[k] == bs[k] && Payload(cs, k, end) == size && !cs[k + 1].used
            && cs[..k] == bs[..k] && cs[k + 2..] == if FreeAt(bs, k + 1) then bs[k + 2..] else bs[k + 1..]
  {
  }

  lemma ShrinkSpan(bs: seq<Block>, k: nat, size: nat, end: nat)
    requires k < |bs| && bs[k].used
    ensures UsedSpan(Shrink(bs, k, size), end) == UsedSpan(bs, end) - (Payload(bs, k, end) - size)
  {
    hide UsedSpan;
    var cs := Cut(bs, k, size);
    var a, x, b := bs[..k], bs[k], bs[k + 1..];
    var z := Block(x.off + SIZEOF_STRUCT_MEM + size, false);
    assert bs == a + ([x] + b) && cs == a + ([x] + ([z] + b));
    SpanAt(a, x, b, end);
    SpanAt(a, x, [z] + b, end);
    SpanAt([], z, b, end);
    assert [] + ([z] + b) == [z] + b;
    SpanOfNone(z.off);
    PlugSpan(cs, k + 1, end);
  }

  // ----- first fit -----

  /** A free block that the search loop accepts; `limit` is mem_size_aligned, where the strict loop bound comes from. */
  predicate Fits(bs: seq<Block>, j: nat, size: nat, limit: nat)
    requires j < |bs|
  {
    !bs[j].used && Payload(bs, j, limit + SIZEOF_STRUCT_MEM) >= size && bs[j].off + size < limit
  }

  /** The bound rejects a block that is large enough only if it is the exact-fit last one. */
  lemma BoundSkipsOnlyExactLast(bs: seq<Block>, j: nat, size: nat, limit: nat)
    requires Tiles(bs, limit + SIZEOF_STRUCT_MEM) && j < |bs|
    requires !bs[j].used && Payload(bs, j, limit + SIZEOF_STRUCT_MEM) >= size
    ensures Fits(bs, j, size, limit) <==> !(bs[j].off + size == limit)
    ensures bs[j].off + size == limit ==> j == |bs| - 1 && Payload(bs, j, limit + SIZEOF_STRUCT_MEM) == size
  {
    var end := limit + SIZEOF_STRUCT_MEM;
    if j + 1 < |bs| {
      OffsetsIncrease(bs, j + 1, |bs|, end);
    }
  }

  /** lfree in a heap that only malloc and free have touched: no free block lies below it. */
  predicate Lowest(bs: seq<Block>, lfree: nat, end: nat) {
    FreeOrEnd(bs, lfree, end) && forall j :: 0 <= j < |bs| && bs[j].off < lfree ==> bs[j].used
  }

  /** A free block that could serve the request is at most the exact-fit last one, which the loop bound skips. */
  predicate OnlyExactLast(bs: seq<Block>, size: nat, limit: nat) {
    forall j :: 0 <= j < |bs| && !bs[j].used && Payload(bs, j, limit + SIZEOF_STRUCT_MEM) >= size ==>
      j == |bs| - 1 && bs[j].off + size == limit
  }

  /** A request for more than the heap has could be served by no block. */
  lemma TooLargeForAll(bs: seq<Block>, size: nat, limit: nat)
    requires Tiles(bs, limit + SIZEOF_STRUCT_MEM) && size > limit
    ensures OnlyExactLast(bs, size, limit)
  {
    forall j | 0 <= j < |bs| && !bs[j].used
      ensures Payload(bs, j, limit + SIZEOF_STRUCT_MEM) <= limit
    {
      OffsetsDistinct(bs, j + 1, |bs|, limit + SIZEOF_STRUCT_MEM);
    }
  }

  /** When lfree is lowest, a search from lfree misses no lower block. */
  lemma LowestFits(bs: seq<Block>, lfree: nat, k: nat, size: nat, limit: nat)
    requires Tiles(bs, limit + SIZEOF_STRUCT_MEM) && Lowest(bs, lfree, limit + SIZEOF_STRUCT_MEM) && k <= |bs|
    requires forall j :: 0 <= j < k && bs[j].off >= lfree ==> !Fits(bs, j, size, limit)
    ensures forall j :: 0 <= j < k ==> !Fits(bs, j, size, limit)
    ensures k == |bs| ==> OnlyExactLast(bs, size, limit)
  {
    if k == |bs| {
      forall j | 0 <= j < |bs| && !bs[j].used && Payload(bs, j, limit + SIZEOF_STRUCT_MEM) >= size
        ensures j == |bs| - 1 && bs[j].off + size == limit
      {
        BoundSkipsOnlyExactLast(bs, j, size, limit);
      }
    }
  }

  lemma LowestUnique(bs: seq<Block>, x: nat, y: nat, end: nat)
    requires Tiles(bs, end) && Lowest(bs, x, end) && Lowest(bs, y, end)
    ensures x == y
  {
    if x != y {
      var lo, hi := if x < y then x else y, if x < y then y else x;
      if lo == end {
        var k :| 0 <= k < |bs| && bs[k] == Block(hi, false);
        OffsetsIncrease(bs, k, |bs|, end);
      }
    }
  }

  lemma JoinLowest(bs: seq<Block>, k: nat, lfree: nat, end: nat)
    requires Tiles(bs, end) && FreeAt(bs, k) && FreeAt(bs, k + 1) && Lowest(bs, lfree, end)
    requires FreeOrEnd(Join(bs, k), lfree, end)
    ensures Lowest(Join(bs, k), lfree, end) && lfree != bs[k + 1].off
  {
    OffsetsDistinct(bs, k, k + 1, end);
    var cs := Join(bs, k);
    forall j | 0 <= j < |cs| && cs[j].off < lfree
      ensures cs[j].used
    {
      assert cs[j] == bs[if j <= k then j else j + 1];
    }
  }

  /** Freeing a block right after it was allocated restores the chain, whether or not it had been split. */
  lemma FreeUndoesMalloc(bs: seq<Block>, k: nat, size: nat, end: nat)
    requires Tiles(bs, end) && Merged(bs) && FreeAt(bs, k) && Payload(bs, k, end) >= size
    ensures Release(Take(bs, k, size, end), k) == bs
  {
    var cs := Take(bs, k, size, end);
    var ds := Mark(cs, k, false);
    if Splits(bs, k, size, end) {
      assert FreeAt(ds, k + 1);
      assert Join(ds, k) == bs;
    } else {
      assert ds == bs;
      assert k + 1 < |bs| ==> PairUsed(bs, k + 1);
    }
    assert k > 0 ==> PairUsed(bs, k);
  }
}

/** The heap in its buffer: headers lie between the payloads, linked by offsets. */
module MemHeap {
  import opened Wrappers
  import opened MemChain

  const HEAP_MAGIC: nat := 0x1ea0

  datatype Header = Header(magic: nat, used: bool, next: nat, prev: nat)

  /** One byte of the buffer: payload data, the first byte of a header, or a further byte of one. */
  datatype Slot = Data(b: bv8) | Head(h: Header) | Tail

  function HeaderOf(bs: seq<Block>, k: nat, end: nat): Header
    requires k < |bs|
  {
    Header(HEAP_MAGIC, bs[k].used, Off(bs, k + 1, end), if k == 0 then 0 else bs[k - 1].off)
  }

  predicate HeaderAt(m: seq<Slot>, p: nat) { p < |m| && m[p].Head? }

  /** The buffer holds the chain: `next` and `prev` are inverse, except for the sentinel's `prev`. */
  ghost predicate Holds(m: seq<Slot>, bs: seq<Block>, end: nat) {
    && HeaderAt(m, end) && end + SIZEOF_STRUCT_MEM <= |m|
    && m[end].h.used && m[end].h.next == end
    && forall k :: 0 <= k < |bs| ==> HoldsAt(m, bs, k, end)
  }

  ghost predicate HoldsAt(m: seq<Slot>, bs: seq<Block>, k: nat, end: nat)
    requires k < |bs|
  {
    HeaderAt(m, bs[k].off) && m[bs[k].off].h == HeaderOf(bs, k, end)
  }

  ghost predicate IsOffset(bs: seq<Block>, end: nat, i: nat) {
    exists k :: 0 <= k <= |bs| && Off(bs, k, end) == i
  }

  /** Only header positions of the chain differ. */
  ghost predicate OnlyHeaders(m: seq<Slot>, m': seq<Slot>, bs: seq<Block>, end: nat) {
    |m'| == |m| && forall i :: 0 <= i < |m| && !IsOffset(bs, end, i) ==> m'[i] == m[i]
  }

  /** The payload of block `j` is the same. */
  ghost predicate SamePayload(m: seq<Slot>, m': seq<Slot>, bs: seq<Block>, j: nat, end: nat)
    requires j < |bs|
  {
    SameRange(m, m', bs[j].off + SIZEOF_STRUCT_MEM, Off(bs, j + 1, end))
  }

  ghost predicate SameRange(m: seq<Slot>, m': seq<Slot>, lo: nat, hi: nat) {
    |m'| == |m| && forall i :: lo <= i < hi && i < |m| ==> m'[i] == m[i]
  }

  lemma HeadersMissPayload(m: seq<Slot>, m': seq<Slot>, bs: seq<Block>, j: nat, end: nat)
    requires Tiles(bs, end) && j < |bs| && OnlyHeaders(m, m', bs, end)
    ensures SamePayload(m, m', bs, j, end)
  {
    forall i | bs[j].off + SIZEOF_STRUCT_MEM <= i < Off(bs, j + 1, end) && i < |m|
      ensures m'[i] == m[i]
    {
      if IsOffset(bs, end, i) {
        var k :| 0 <= k <= |bs| && Off(bs, k, end) == i;
        if k <= j {
          if k < j { OffsetsIncrease(bs, k, j, end); }
        } else if k > j + 1 {
          OffsetsIncrease(bs, j + 1, k, end);
        }
      }
    }
  }

  // ----- header writes against chain operations -----

  function SetUsed(m: seq<Slot>, p: nat, used: bool): seq<Slot> {
    if HeaderAt(m, p) then m[p := Head(m[p].h.(used := used))] else m
  }

  function SetNext(m: seq<Slot>, p: nat, next: nat): seq<Slot> {
    if HeaderAt(m, p) then m[p := Head(m[p].h.(next := next))] else m
  }

  function SetPrev(m: seq<Slot>, p: nat, prev: nat): seq<Slot> {
    if HeaderAt(m, p) then m[p := Head(m[p].h.(prev := prev))] else m
  }

  /** A header written over whatever was at `p`. */
  function Create(m: seq<Slot>, p: nat, h: Header): seq<Slot>
    requires p + SIZEOF_STRUCT_MEM <= |m|
  {
    m[..p] + [Head(h)] + seq(SIZEOF_STRUCT_MEM - 1, _ => Tail) + m[p + SIZEOF_STRUCT_MEM..]
  }

  lemma MarkHolds(m: seq<Slot>, bs: seq<Block>, k: nat, used: bool, end: nat)
    requires Tiles(bs, end) && Holds(m, bs, end) && k < |bs|
    ensures Holds(SetUsed(m, bs[k].off, used), Mark(bs, k, used), end)
    ensures OnlyHeaders(m, SetUsed(m, bs[k].off, used), bs, end)
  {
    var m', cs := SetUsed(m, bs[k].off, used), Mark(bs, k, used);
    assert IsOffset(bs, end, bs[k].off) by { assert Off(bs, k, end) == bs[k].off; }
    OffsetsDistinct(bs, k, |bs|, end);
    hide Tiles;
    forall i | 0 <= i < |cs|
      ensures HoldsAt(m', cs, i, end)
    {
      OffsetsDistinct(bs, i, k, end);
      assert HoldsAt(m, bs, i, end);
      assert cs[i].off == bs[i].off;
      assert Off(cs, i + 1, end) == Off(bs, i + 1, end);
    }
  }

  /** The two writes of plug_holes that make block `k` swallow its successor. */
  function JoinWrites(m: seq<Slot>, bs: seq<Block>, k: nat, end: nat): seq<Slot>
    requires k + 1 < |bs|
  {
    SetPrev(SetNext(m, bs[k].off, Off(bs, k + 2, end)), Off(bs, k + 2, end), bs[k].off)
  }

  lemma HoldsHeader(m: seq<Slot>, bs: seq<Block>, k: nat, end: nat)
    requires Holds(m, bs, end) && k <= |bs|
    ensures HeaderAt(m, Off(bs, k, end))
    ensures k < |bs| ==> m[Off(bs, k, end)].h == HeaderOf(bs, k, end)
  {
    assert k < |bs| ==> HoldsAt(m, bs, k, end);
  }

  lemma JoinHolds(m: seq<Slot>, bs: seq<Block>, k: nat, end: nat)
    requires Tiles(bs, end) && Holds(m, bs, end) && k + 1 < |bs|
    ensures Holds(JoinWrites(m, bs, k, end), Join(bs, k), end)
    ensures OnlyHeaders(m, JoinWrites(m, bs, k, end), bs, end)
  {
    var m', cs := JoinWrites(m, bs, k, end), Join(bs, k);
    assert IsOffset(bs, end, bs[k].off) by { assert Off(bs, k, end) == bs[k].off; }
    assert IsOffset(bs, end, Off(bs, k + 2, end));
    OffsetsDistinct(bs, k, |bs|, end);
    OffsetsDistinct(bs, k, k + 2, end);
    HoldsHeader(m, bs, k, end);
    HoldsHeader(m, bs, k + 2, end);
    hide Tiles, IsOffset;
    forall i | 0 <= i < |cs|
      ensures HoldsAt(m', cs, i, end)
    {
      var j := if i <= k then i else i + 1;
      assert cs[i] == bs[j];
      OffsetsDistinct(bs, j, k, end);
      OffsetsDistinct(bs, j, k + 2, end);
      assert HoldsAt(m, bs, j, end);
      assert Off(cs, i + 1, end) == Off(bs, if i == k then k + 2 else j + 1, end);
    }
  }

  /** The writes that cut block `k` at `size`. */
  function CutWrites(m: seq<Slot>, bs: seq<Block>, k: nat, size: nat, end: nat): seq<Slot>
    requires k < |bs| && bs[k].off + SIZEOF_STRUCT_MEM + size + SIZEOF_STRUCT_MEM <= |m|
  {
    var p, next := bs[k].off + SIZEOF_STRUCT_MEM + size, Off(bs, k + 1, end);
    var m1 := Create(m, p, Header(HEAP_MAGIC, false, next, bs[k].off));
    var m2 := SetUsed(SetNext(m1, bs[k].off, p), bs[k].off, true);
    if next != end then SetPrev(m2, next, p) else m2
  }

  lemma CutHolds(m: seq<Slot>, bs: seq<Block>, k: nat, size: nat, end: nat)
    requires Tiles(bs, end) && Holds(m, bs, end) && k < |bs| && Payload(bs, k, end) >= size + SIZEOF_STRUCT_MEM
    requires bs[k].off + SIZEOF_STRUCT_MEM + size + SIZEOF_STRUCT_MEM <= |m|
    ensures Holds(CutWrites(m, bs, k, size, end), Cut(bs, k, size), end)
  {
    var m', cs := CutWrites(m, bs, k, size, end), Cut(bs, k, size);
    var p, next := bs[k].off + SIZEOF_STRUCT_MEM + size, Off(bs, k + 1, end);
    OffsetsDistinct(bs, k, k + 1, end);
    OffsetsDistinct(bs, k, |bs|, end);
    OffsetsDistinct(bs, k + 1, |bs|, end);
    HoldsHeader(m, bs, k, end);
    HoldsHeader(m, bs, k + 1, end);
    CutWritesAt(m, bs, k, size, end);
    hide Tiles, CutWrites;
    forall i | 0 <= i < |cs|
      ensures HoldsAt(m', cs, i, end)
    {
      if i == k + 1 {
        assert Off(cs, k + 2, end) == next;
      } else {
        var j := if i <= k then i else i - 1;
        assert cs[i].off == bs[j].off;
        OffsetsDistinct(bs, j, k, end);
        OffsetsDistinct(bs, j, k + 1, end);
        assert HoldsAt(m, bs, j, end);
        assert Off(cs, i + 1, end) == if i == k then p else Off(bs, j + 1, end);
      }
    }
  }

  /** What the cut leaves at every position. */
  lemma CutWritesAt(m: seq<Slot>, bs: seq<Block>, k: nat, size: nat, end: nat)
    requires k < |bs| && HeaderAt(m, bs[k].off) && HeaderAt(m, Off(bs, k + 1, end))
    requires bs[k].off + SIZEOF_STRUCT_MEM + size + SIZEOF_STRUCT_MEM <= Off(bs, k + 1, end)
    ensures var m', p, next := CutWrites(m, bs, k, size, end), bs[k].off + SIZEOF_STRUCT_MEM + size, Off(bs, k + 1, end);
            && |m'| == |m|
            && m'[p] == Head(Header(HEAP_MAGIC, false, next, bs[k].off))
            && m'[bs[k].off] == Head(m[bs[k].off].h.(next := p, used := true))
            && m'[next] == (if next == end then m[next] else Head(m[next].h.(prev := p)))
            && forall i :: 0 <= i < |m| && i != bs[k].off && i != next && !(p <= i < p + SIZEOF_STRUCT_MEM) ==> m'[i] == m[i]
  {
  }

  lemma CutKeepsPayloads(m: seq<Slot>, bs: seq<Block>, k: nat, size: nat, j: nat, end: nat)
    requires Tiles(bs, end) && Holds(m, bs, end) && k < |bs| && Payload(bs, k, end) >= size + SIZEOF_STRUCT_MEM
    requires bs[k].off + SIZEOF_STRUCT_MEM + size + SIZEOF_STRUCT_MEM <= |m|
    requires j < |bs| && j != k
    ensures SamePayload(m, CutWrites(m, bs, k, size, end), bs, j, end)
  {
    HoldsHeader(m, bs, k, end);
    HoldsHeader(m, bs, k + 1, end);
    CutWritesAt(m, bs, k, size, end);
    OffsetsDistinct(bs, j, k, end);
    OffsetsDistinct(bs, j, k + 1, end);
    OffsetsDistinct(bs, j + 1, k + 1, end);
    OffsetsDistinct(bs, k + 1, j, end);
    hide Tiles, CutWrites;
    var m' := CutWrites(m, bs, k, size, end);
    forall i | bs[j].off + SIZEOF_STRUCT_MEM <= i < Off(bs, j + 1, end) && i < |m|
      ensures m'[i] == m[i]
    {
    }
  }

  lemma LfreeIndex(bs: seq<Block>, lfree: nat, end: nat) returns (k: nat)
    requires FreeOrEnd(bs, lfree, end)
    ensures k <= |bs| && Off(bs, k, end) == lfree
    ensures k < |bs| ==> !bs[k].used
  {
    if lfree == end {
      k := |bs|;
    } else {
      k :| 0 <= k < |bs| && bs[k] == Block(lfree, false);
    }
  }

  /** plug_holes moves lfree along when the block it points to is swallowed. */
  function PlugLfree(bs: seq<Block>, k: nat, lfree: nat): nat
    requires k < |bs|
  {
    var ahead := if FreeAt(bs, k + 1) && lfree == bs[k + 1].off then bs[k].off else lfree;
    if FreeAt(bs, k - 1) && ahead == bs[k].off then bs[k - 1].off else ahead
  }

  lemma JoinFreeOrEnd(bs: seq<Block>, k: nat, lfree: nat, end: nat)
    requires Tiles(bs, end) && FreeAt(bs, k) && FreeAt(bs, k + 1) && FreeOrEnd(bs, lfree, end)
    ensures FreeOrEnd(Join(bs, k), if lfree == bs[k + 1].off then bs[k].off else lfree, end)
  {
    var cs := Join(bs, k);
    assert cs[k] == bs[k] == Block(bs[k].off, false);
    if lfree != end && lfree != bs[k + 1].off {
      var i :| 0 <= i < |bs| && bs[i] == Block(lfree, false);
      assert i < k + 1 ==> cs[i] == bs[i];
      assert i > k + 1 ==> cs[i - 1] == bs[i];
    }
  }

  /** No block from `lfree` on that the search loop reaches has room. */
  predicate NoneFits(bs: seq<Block>, lfree: nat, size: nat, limit: nat) {
    forall j :: 0 <= j < |bs| && bs[j].off >= lfree ==> !Fits(bs, j, size, limit)
  }

  /** When rt_realloc has to take another block. */
  predicate Moves(newsize: int, was: int) { newsize != was && newsize + SIZEOF_STRUCT_MEM + MIN_SIZE >= was }

  /** When rt_realloc cuts the block it has. */
  predicate Cuts(newsize: int, was: int) { 0 < newsize && newsize + SIZEOF_STRUCT_MEM + MIN_SIZE < was }

  /** The running maximum after block `k` has been taken. */
  function Peak(high: int, used: int, bs: seq<Block>, k: nat, size: nat, end: nat): int
    requires k < |bs|
  {
    var now := used + Charge(bs, k, size, end);
    if high < now then now else high
  }

  /** The system heap. The buffer starts at offset 0; addresses are offsets into it. */
  class SmallHeap {
    const mem: array<Slot>
    const memSizeAligned: nat
    var lfree: nat
    var usedMem: int
    var maxMem: int
    ghost var blocks: seq<Block>

    function End(): nat { memSizeAligned + SIZEOF_STRUCT_MEM }

    /** The chain lies in the buffer and lfree points into it. */
    ghost predicate Linked()
      reads this, mem
    {
      Tiles(blocks, End()) && Holds(mem[..], blocks, End()) && FreeOrEnd(blocks, lfree, End())
    }

    ghost predicate Valid()
      reads this, mem
    {
      Linked() && Merged(blocks) && usedMem == UsedSpan(blocks, End()) && usedMem <= maxMem
    }

    ghost predicate LfreeLowest()
      reads this
    {
      Lowest(blocks, lfree, End())
    }

    /** rt_system_heap_init on an aligned size: one free block and the sentinel. */
    constructor (memSizeAligned: nat)
      requires Aligned(memSizeAligned)
      ensures Valid() && LfreeLowest() && fresh(mem)
      ensures this.memSizeAligned == memSizeAligned && blocks == [Block(0, false)] && usedMem == maxMem == 0
    {
      var end := memSizeAligned + SIZEOF_STRUCT_MEM;
      this.memSizeAligned := memSizeAligned;
      mem := new Slot[end + SIZEOF_STRUCT_MEM](_ => Tail);
      lfree, usedMem, maxMem := 0, 0, 0;
      blocks := [Block(0, false)];
      new;
      mem[0] := Head(Header(HEAP_MAGIC, false, end, 0));
      mem[end] := Head(Header(HEAP_MAGIC, true, end, end));
      assert RoomAt(blocks, 0, End());
      assert HoldsAt(mem[..], blocks, 0, End());
    }

    /** The two header writes that make the block at `p` swallow its successor. */
    method Swallow(p: nat, ghost k: nat)
      requires Linked() && k + 1 < |blocks| && blocks[k].off == p && !blocks[k].used && !blocks[k + 1].used
      modifies mem, `lfree, `blocks
      ensures Linked() && blocks == Join(old(blocks), k)
      ensures lfree == if old(lfree) == old(blocks)[k + 1].off then p else old(lfree)
      ensures old(LfreeLowest()) ==> LfreeLowest()
      ensures OnlyHeaders(old(mem[..]), mem[..], old(blocks), End())
    {
      ghost var m, bs, end := mem[..], blocks, End();
      HoldsHeader(m, bs, k, end);
      HoldsHeader(m, bs, k + 1, end);
      HoldsHeader(m, bs, k + 2, end);
      OffsetsDistinct(bs, k, k + 2, end);
      JoinHolds(m, bs, k, end);
      JoinTiles(bs, k, end);
      JoinFreeOrEnd(bs, k, lfree, end);
      if Lowest(bs, lfree, end) {
        OffsetsDistinct(bs, k, k + 1, end);
        assert lfree != bs[k + 1].off;
        JoinLowest(bs, k, lfree, end);
      }
      hide Lowest;
      hide Tiles, Holds, FreeOrEnd, OnlyHeaders;
      var next := mem[p].h.next;
      if lfree == next {
        lfree := p;
      }
      var beyond := mem[next].h.next;
      mem[p] := Head(mem[p].h.(next := beyond));
      mem[beyond] := Head(mem[beyond].h.(prev := p));
      assert mem[..] == JoinWrites(m, bs, k, end);
      blocks := Join(bs, k);
    }

    /** plug_holes: merge the free block at `p` with a free successor, then with a free predecessor. */
    method PlugHoles(p: nat, ghost k: nat)
      requires Linked() && FreeAt(blocks, k) && blocks[k].off == p
      modifies mem, `lfree, `blocks
      ensures Linked() && blocks == Plug(old(blocks), k) && lfree == PlugLfree(old(blocks), k, old(lfree))
      ensures old(LfreeLowest()) ==> LfreeLowest()
      ensures OnlyHeaders(old(mem[..]), mem[..], old(blocks), End())
    {
      ghost var m, bs, end := mem[..], blocks, End();
      HoldsHeader(m, bs, k, end);
      HoldsHeader(m, bs, k + 1, end);
      OffsetsDistinct(bs, k, k + 1, end);
      OffsetsDistinct(bs, k + 1, |bs|, end);
      var nmem := mem[p].h.next;
      if p != nmem && !mem[nmem].h.used && nmem != End() {
        Swallow(p, k);
        JoinOnlyHeaders(m, mem[..], mem[..], bs, k, end);
      }
      ghost var mid := blocks;
      assert mid == if FreeAt(bs, k + 1) then Join(bs, k) else bs;
      HoldsHeader(mem[..], mid, k, end);
      if k > 0 {
        HoldsHeader(mem[..], mid, k - 1, end);
        OffsetsDistinct(mid, k - 1, k, end);
      }
      ghost var m1 := mem[..];
      var pmem := mem[p].h.prev;
      if pmem != p && !mem[pmem].h.used {
        Swallow(pmem, k - 1);
        JoinOnlyHeaders(m, m1, mem[..], bs, k, end);
      }
    }

    /** Block `k` is in use and its payload starts at `p`: what malloc handed out and free takes back. */
    ghost predicate Owns(p: nat, k: nat)
      reads this
    {
      k < |blocks| && p == blocks[k].off + SIZEOF_STRUCT_MEM && blocks[k].used
    }

    /** An address outside the heap, which rt_free and rt_realloc turn away. */
    predicate Stray(p: int) { p < 0 || p >= End() }

    /** rt_free on a pointer that malloc handed out, on one outside the heap, or on null. */
    method Free(rmem: Option<int>, ghost k: nat)
      requires Valid() && (rmem.Some? && !Stray(rmem.value) ==> Owns(rmem.value, k))
      modifies mem, `lfree, `blocks, `usedMem
      ensures Valid() && (old(LfreeLowest()) ==> LfreeLowest())
      ensures rmem.None? || Stray(rmem.value) ==>
        blocks == old(blocks) && mem[..] == old(mem[..]) && lfree == old(lfree) && usedMem == old(usedMem)
      ensures rmem.Some? && !Stray(rmem.value) ==>
        && blocks == Release(old(blocks), k)
        && usedMem == old(usedMem) - (Payload(old(blocks), k, End()) + SIZEOF_STRUCT_MEM)
      ensures forall j :: 0 <= j < |old(blocks)| ==> SamePayload(old(mem[..]), mem[..], old(blocks), j, End())
    {
      if rmem == None {
        return;
      }
      if rmem.value < 0 || rmem.value >= End() {
        return;
      }
      FreeBlock(rmem.value, k);
    }

    method FreeBlock(rmem: nat, ghost k: nat)
      requires Valid() && Owns(rmem, k)
      modifies mem, `lfree, `blocks, `usedMem
      ensures Valid() && (old(LfreeLowest()) ==> LfreeLowest())
      ensures blocks == Release(old(blocks), k)
      ensures usedMem == old(usedMem) - (Payload(old(blocks), k, End()) + SIZEOF_STRUCT_MEM)
      ensures forall j :: 0 <= j < |old(blocks)| ==> SamePayload(old(mem[..]), mem[..], old(blocks), j, End())
    {
      ghost var m, bs, end := mem[..], blocks, End();
      var p := rmem - SIZEOF_STRUCT_MEM;
      HoldsHeader(m, bs, k, end);
      MarkHolds(m, bs, k, false, end);
      MarkTiles(bs, k, false, end);
      MarkFreeLfree(bs, k, lfree, end);
      ReleaseKeeps(bs, k, end);
      assert RoomAt(bs, k, end);
      mem[p] := Head(mem[p].h.(used := false, magic := HEAP_MAGIC));
      assert mem[..] == SetUsed(m, p, false);
      if p < lfree {
        lfree := p;
      }
      usedMem := usedMem - (mem[p].h.next - p);
      blocks := Mark(bs, k, false);
      ghost var m1 := mem[..];
      PlugHoles(p, k);
      MarkOnlyHeaders(m, m1, mem[..], bs, k, false, end);
      forall j | 0 <= j < |bs|
        ensures SamePayload(m, mem[..], bs, j, end)
      {
        HeadersMissPayload(m, mem[..], bs, j, end);
      }
    }

    /** Move lfree from the block just taken to the next free one. */
    method AdvanceLfree(ghost k: nat)
      requires Tiles(blocks, End()) && Holds(mem[..], blocks, End())
      requires k < |blocks| && blocks[k].off == lfree && blocks[k].used
      modifies `lfree
      ensures FreeOrEnd(blocks, lfree, End()) && lfree > old(lfree)
      ensures forall j :: k <= j < |blocks| && blocks[j].off < lfree ==> blocks[j].used
    {
      ghost var n := k;
      OffsetsDistinct(blocks, k, k + 1, End());
      HoldsHeader(mem[..], blocks, k, End());
      while mem[lfree].h.used && lfree != End()
        invariant k <= n <= |blocks| && lfree == Off(blocks, n, End()) && HeaderAt(mem[..], lfree)
        invariant forall j :: k <= j < n ==> blocks[j].used
        invariant n == k ==> mem[lfree].h.used && lfree != End()
        decreases |blocks| - n
      {
        OffsetsDistinct(blocks, n, |blocks|, End());
        HoldsHeader(mem[..], blocks, n, End());
        HoldsHeader(mem[..], blocks, n + 1, End());
        lfree := mem[lfree].h.next;
        n := n + 1;
      }
      OffsetsDistinct(blocks, k, n, End());
      HoldsHeader(mem[..], blocks, n, End());
      forall j | k <= j < |blocks| && blocks[j].off < lfree
        ensures blocks[j].used
      {
        OffsetsDistinct(blocks, n, j, End());
      }
    }

    /** The header writes of a split at `p`, the new free header at `p2`. */
    method Split(p: nat, p2: nat, ghost k: nat, ghost size: nat)
      requires Tiles(blocks, End()) && Holds(mem[..], blocks, End())
      requires k < |blocks| && blocks[k].off == p && p2 == p + SIZEOF_STRUCT_MEM + size
      requires Payload(blocks, k, End()) >= size + SIZEOF_STRUCT_MEM && Aligned(size)
      requires p2 + SIZEOF_STRUCT_MEM <= mem.Length
      modifies mem, `blocks
      ensures Tiles(blocks, End()) && Holds(mem[..], blocks, End()) && blocks == Cut(old(blocks), k, size)
      ensures mem[..] == CutWrites(old(mem[..]), old(blocks), k, size, End())
    {
      ghost var m, bs, end := mem[..], blocks, End();
      HoldsHeader(m, bs, k, end);
      HoldsHeader(m, bs, k + 1, end);
      OffsetsDistinct(bs, k, k + 1, end);
      OffsetsDistinct(bs, k + 1, |bs|, end);
      CutHolds(m, bs, k, size, end);
      CutTiles(bs, k, size, end);
      hide Tiles, Holds;
      var next := mem[p].h.next;
      WriteHeader(p2, Header(HEAP_MAGIC, false, next, p));
      ghost var m1 := mem[..];
      mem[p] := Head(mem[p].h.(next := p2));
      mem[p] := Head(mem[p].h.(used := true));
      assert mem[..] == SetUsed(SetNext(m1, p, p2), p, true);
      if next != End() {
        mem[next] := Head(mem[next].h.(prev := p2));
      }
      blocks := Cut(bs, k, size);
      assert mem[..] == CutWrites(m, bs, k, size, end);
    }

    /** A fresh header covers all its bytes. */
    method WriteHeader(p: nat, h: Header)
      requires p + SIZEOF_STRUCT_MEM <= mem.Length
      modifies mem
      ensures mem[..] == Create(old(mem[..]), p, h)
    {
      mem[p] := Head(h);
      forall i | p < i < p + SIZEOF_STRUCT_MEM {
        mem[i] := Tail;
      }
      assert mem[..] == Create(old(mem[..]), p, h);
    }

    /** The header writes of rt_malloc: the free block at `ptr` is split, or marked as a whole. */
    method Occupy(ptr: nat, size: nat, ghost k: nat)
      requires Tiles(blocks, End()) && Holds(mem[..], blocks, End()) && Merged(blocks)
      requires FreeAt(blocks, k) && blocks[k].off == ptr && Payload(blocks, k, End()) >= size && Aligned(size)
      modifies mem, `blocks, `usedMem
      ensures Tiles(blocks, End()) && Holds(mem[..], blocks, End()) && blocks == Take(old(blocks), k, size, End())
      ensures usedMem == old(usedMem) + Charge(old(blocks), k, size, End())
      ensures forall j :: 0 <= j < |old(blocks)| && j != k ==> SamePayload(old(mem[..]), mem[..], old(blocks), j, End())
    {
      ghost var m, bs, end := mem[..], blocks, End();
      HoldsHeader(m, bs, k, end);
      TakeTiles(bs, k, size, end);
      OffsetsDistinct(bs, k + 1, |bs|, end);
      var next := mem[ptr].h.next;
      if next - (ptr + SIZEOF_STRUCT_MEM) >= size + SIZEOF_STRUCT_MEM + MIN_SIZE_ALIGNED {
        Split(ptr, ptr + SIZEOF_STRUCT_MEM + size, k, size);
        usedMem := usedMem + (size + SIZEOF_STRUCT_MEM);
        forall j | 0 <= j < |bs| && j != k
          ensures SamePayload(m, mem[..], bs, j, end)
        {
          CutKeepsPayloads(m, bs, k, size, j, end);
        }
      } else {
        MarkHolds(m, bs, k, true, end);
        mem[ptr] := Head(mem[ptr].h.(used := true));
        assert mem[..] == SetUsed(m, ptr, true);
        usedMem := usedMem + (next - ptr);
        blocks := Mark(bs, k, true);
        forall j | 0 <= j < |bs| && j != k
          ensures SamePayload(m, mem[..], bs, j, end)
        {
          HeadersMissPayload(m, mem[..], bs, j, end);
        }
      }
    }

    /** The part of rt_malloc inside the search loop: take the free block at `ptr`. */
    method TakeBlock(ptr: nat, size: nat, ghost k: nat)
      requires Valid() && FreeAt(blocks, k) && blocks[k].off == ptr
      requires Payload(blocks, k, End()) >= size && Aligned(size)
      modifies mem, `lfree, `blocks, `usedMem, `maxMem
      ensures Valid() && blocks == Take(old(blocks), k, size, End()) && (old(LfreeLowest()) ==> LfreeLowest())
      ensures k < |blocks| && blocks[k].used && size <= Payload(blocks, k, End()) < size + SIZEOF_STRUCT_MEM + MIN_SIZE_ALIGNED
      ensures usedMem == old(usedMem) + Charge(old(blocks), k, size, End())
      ensures maxMem == if old(maxMem) < usedMem then usedMem else old(maxMem)
      ensures forall j :: 0 <= j < |old(blocks)| && j != k ==> SamePayload(old(mem[..]), mem[..], old(blocks), j, End())
    {
      ghost var bs, end := blocks, End();
      TakeMerged(bs, k, size, end);
      TakeSpan(bs, k, size, end);
      TakenSize(bs, k, size, end);
      TakeLfree(bs, k, size, lfree, end);
      if Lowest(bs, ptr, end) {
        UsedBelow(bs, k, end);
      }
      assert forall j :: 0 <= j < k ==> Take(bs, k, size, end)[j] == bs[j];
      hide Tiles, Holds, Merged, UsedSpan, Charge, Take, SamePayload;
      Occupy(ptr, size, k);
      if maxMem < usedMem {
        maxMem := usedMem;
      }
      if ptr == lfree {
        AdvanceLfree(k);
      }
    }

    /** A request that rt_malloc turns away before it looks at the chain. */
    predicate Refused(size: nat) { size == 0 || Align(size) > memSizeAligned }

    /**
     * rt_malloc: the first block from lfree on that fits. On success block `k` of the old chain was
     * taken; on failure nothing changes.
     */
    method Malloc(size: nat) returns (r: Option<nat>, ghost k: nat)
      requires Valid() && memSizeAligned >= MIN_SIZE_ALIGNED && size < 0x1_0000_0000
      modifies mem, `lfree, `blocks, `usedMem, `maxMem
      ensures Valid() && (old(LfreeLowest()) ==> LfreeLowest())
      ensures r.None? ==> blocks == old(blocks) && mem[..] == old(mem[..]) && lfree == old(lfree) && usedMem == old(usedMem) && maxMem == old(maxMem)
      ensures r.None? <==> Refused(size) || NoneFits(old(blocks), old(lfree), Served(size), memSizeAligned)
      ensures r.Some? ==>
        && !Refused(size) && k < |old(blocks)| && Fits(old(blocks), k, Served(size), memSizeAligned) && old(blocks)[k].off >= old(lfree)
        && r == Some(old(blocks)[k].off + SIZEOF_STRUCT_MEM) && Aligned(r.value)
        && blocks == Take(old(blocks), k, Served(size), End()) && Owns(r.value, k)
      ensures r.Some? ==>
        forall j :: 0 <= j < k && old(blocks)[j].off >= old(lfree) ==> !Fits(old(blocks), j, Served(size), memSizeAligned)
      ensures old(LfreeLowest()) && r.Some? ==> forall j :: 0 <= j < k ==> !Fits(old(blocks), j, Served(size), memSizeAligned)
      ensures r.Some? ==>
        k < |blocks| && Served(size) <= Payload(blocks, k, End()) < Served(size) + SIZEOF_STRUCT_MEM + MIN_SIZE_ALIGNED
      ensures old(LfreeLowest()) && r.None? && size > 0 ==> OnlyExactLast(blocks, Served(size), memSizeAligned)
      ensures r.Some? ==> usedMem == old(usedMem) + Charge(old(blocks), k, Served(size), End())
      ensures r.Some? ==> maxMem == if old(maxMem) < usedMem then usedMem else old(maxMem)
      ensures forall j :: 0 <= j < |old(blocks)| && (r.Some? ==> j != k) ==> SamePayload(old(mem[..]), mem[..], old(blocks), j, End())
    {
      hide Tiles, Holds, Merged, FreeOrEnd, Lowest, UsedSpan, Charge;
      k := 0;
      if size == 0 {
        return None, k;
      }
      var want := Align(size);
      if want > memSizeAligned {
        TooLargeForAll(blocks, Served(size), memSizeAligned);
        return None, k;
      }
      if want < MIN_SIZE_ALIGNED {
        want := MIN_SIZE_ALIGNED;
      }
      var found, ptr, at := Search(want);
      if LfreeLowest() {
        LowestFits(blocks, lfree, at, want, memSizeAligned);
      }
      if !found {
        return None, k;
      }
      k := at;
      AlignedSum(ptr, 0);
      TakeBlock(ptr, want, k);
      r := Some(ptr + SIZEOF_STRUCT_MEM);
    }

    /** Freeing what malloc just handed out restores the chain, lfree and used_mem. */
    method MallocThenFree(size: nat) returns (r: Option<nat>)
      requires Valid() && LfreeLowest() && memSizeAligned >= MIN_SIZE_ALIGNED && size < 0x1_0000_0000
      modifies mem, `lfree, `blocks, `usedMem, `maxMem
      ensures Valid() && LfreeLowest()
      ensures blocks == old(blocks) && lfree == old(lfree) && usedMem == old(usedMem)
      ensures forall j :: 0 <= j < |blocks| && blocks[j].used ==> SamePayload(old(mem[..]), mem[..], blocks, j, End())
    {
      hide Tiles, Holds, Merged, FreeOrEnd, Lowest, UsedSpan, Charge, SamePayload, Release, Take;
      ghost var m, bs, end, low, k := mem[..], blocks, End(), lfree, 0;
      r, k := Malloc(size);
      if r.Some? {
        ghost var m1, cs := mem[..], blocks;
        assert FreeAt(bs, k) && Payload(bs, k, end) >= Served(size);
        FreeUndoesMalloc(bs, k, Served(size), end);
        InsideHeap(bs, k, Served(size), end);
        Free(r, k);
        LowestUnique(bs, low, lfree, end);
        RoundTripPayloads(m, m1, mem[..], bs, k, Served(size), end);
      }
    }

    /** The search loop of rt_malloc. */
    method Search(want: nat) returns (found: bool, ptr: nat, ghost k: nat)
      requires Linked() && want <= memSizeAligned
      ensures found ==> k < |blocks| && blocks[k].off == ptr >= lfree && Aligned(ptr) && Fits(blocks, k, want, memSizeAligned)
      ensures !found ==> k == |blocks|
      ensures forall j :: 0 <= j < k && blocks[j].off >= lfree ==> !Fits(blocks, j, want, memSizeAligned)
    {
      ghost var bs, end := blocks, End();
      ptr := lfree;
      k := LfreeIndex(bs, lfree, end);
      ghost var start := k;
      StartIndex(bs, start, lfree, end);
      while ptr < memSizeAligned - want
        invariant start <= k <= |bs| && ptr == Off(bs, k, end)
        invariant forall j :: start <= j < k ==> !Fits(bs, j, want, memSizeAligned)
        decreases |bs| - k
      {
        HoldsHeader(mem[..], bs, k, end);
        assert RoomAt(bs, k, end);
        var header := mem[ptr].h;
        if !header.used && header.next - (ptr + SIZEOF_STRUCT_MEM) >= want {
          return true, ptr, k;
        }
        ptr := header.next;
        k := k + 1;
      }
      forall j | start <= j < |bs|
        ensures !Fits(bs, j, want, memSizeAligned)
      {
        OffsetsDistinct(bs, k, j, end);
      }
      found, k := false, |bs|;
    }

    /** rt_memcpy from one payload into another. */
    method Copy(dst: nat, src: nat, n: nat)
      requires dst + n <= mem.Length && src + n <= mem.Length && (dst + n <= src || src + n <= dst)
      modifies mem
      ensures forall i :: dst <= i < dst + n ==> mem[i] == old(mem[i - dst + src])
      ensures forall i :: 0 <= i < mem.Length && !(dst <= i < dst + n) ==> mem[i] == old(mem[i])
    {
      var i := 0;
      while i < n
        invariant 0 <= i <= n
        invariant forall j :: dst <= j < dst + i ==> mem[j] == old(mem[j - dst + src])
        invariant forall j :: 0 <= j < mem.Length && !(dst <= j < dst + i) ==> mem[j] == old(mem[j])
      {
        mem[dst + i] := mem[src + i];
        i := i + 1;
      }
    }

    /** The shrinking branch of rt_realloc: the tail of block `k` becomes free and is merged. */
    method ShrinkBlock(p: nat, newsize: nat, ghost k: nat)
      requires Valid() && Owns(p, k) && Aligned(newsize)
      requires newsize + SIZEOF_STRUCT_MEM + MIN_SIZE < Payload(blocks, k, End())
      modifies mem, `lfree, `blocks, `usedMem
      ensures Valid() && blocks == Shrink(old(blocks), k, newsize)
      ensures usedMem == old(usedMem) - (Payload(old(blocks), k, End()) - newsize)
      ensures SameRange(old(mem[..]), mem[..], p, p + newsize)
      ensures forall j :: 0 <= j < |old(blocks)| && j != k ==> SamePayload(old(mem[..]), mem[..], old(blocks), j, End())
      ensures old(LfreeLowest()) ==> (LfreeLowest() <==> ShrinkSafe(old(blocks), k, old(lfree)))
    {
      hide Merged, UsedSpan, SameRange, Tiles, Holds, FreeOrEnd, Lowest, Cut, CutWrites, OnlyHeaders, SamePayload,
          Plug, PlugLfree;
      ghost var m, bs, end, lf := mem[..], blocks, End(), lfree;
      ShrinkKeeps(bs, k, newsize, end);
      ShrinkSpan(bs, k, newsize, end);
      ShrinkStart(m, bs, k, newsize, lf, end);
      var ptr := p - SIZEOF_STRUCT_MEM;
      var size := mem[ptr].h.next - ptr - SIZEOF_STRUCT_MEM;
      usedMem := usedMem - (size - newsize);
      Split(ptr, p + newsize, k, newsize);
      ghost var m1, cs := mem[..], blocks;
      PlugHoles(p + newsize, k + 1);
      if Lowest(bs, lf, end) {
        ShrinkLowest(bs, k, newsize, lf, end);
      }
      ShrinkPayloads(m, m1, mem[..], bs, k, newsize, end);
    }

    /**
     * rt_realloc on a pointer that malloc handed out, on one outside the heap, or on null. `k` is its block, `k2` the
     * block that a move takes.
     */
    method Realloc(rmem: Option<int>, size: nat, ghost k: nat) returns (r: Option<int>, ghost k2: nat)
      requires Valid() && memSizeAligned >= MIN_SIZE_ALIGNED && size < 0x1_0000_0000
      requires rmem.Some? && !Stray(rmem.value) ==> Owns(rmem.value, k)
      modifies mem, `lfree, `blocks, `usedMem, `maxMem
      ensures Valid()
      ensures forall j :: 0 <= j < |old(blocks)| && old(blocks)[j].used && (rmem.Some? && !Stray(rmem.value) ==> j != k)
                ==> SamePayload(old(mem[..]), mem[..], old(blocks), j, End())
      ensures Align(size) > memSizeAligned ==> r.None? && blocks == old(blocks) && mem[..] == old(mem[..])
      ensures Align(size) == 0 ==>
        r.None? && blocks == if rmem.Some? && !Stray(rmem.value) then Release(old(blocks), k) else old(blocks)
      ensures rmem.Some? && Stray(rmem.value) && 0 < Align(size) <= memSizeAligned ==> r == rmem && blocks == old(blocks) && mem[..] == old(mem[..])
      ensures rmem.None? && r.None? ==> blocks == old(blocks) && mem[..] == old(mem[..])
      ensures rmem.None? && r.Some? ==>
        && k2 < |old(blocks)| && r.value == old(blocks)[k2].off + SIZEOF_STRUCT_MEM
        && blocks == Take(old(blocks), k2, Served(Align(size)), End())
      ensures 0 < Align(size) <= memSizeAligned ==>
        (r.None? <==> (rmem == None || (!Stray(rmem.value) && Moves(Align(size), Payload(old(blocks), k, End()))))
                      && NoneFits(old(blocks), old(lfree), Served(Align(size)), memSizeAligned))
      ensures rmem.Some? && !Stray(rmem.value) && 0 < Align(size) <= memSizeAligned ==>
        var n, was := Align(size), Payload(old(blocks), k, End());
        if n == was then r == rmem && blocks == old(blocks) && mem[..] == old(mem[..])
        else if n + SIZEOF_STRUCT_MEM + MIN_SIZE < was then
          r == rmem && blocks == Shrink(old(blocks), k, n) && SameRange(old(mem[..]), mem[..], r.value, r.value + n)
        else if r.None? then blocks == old(blocks) && mem[..] == old(mem[..])
        else
          && k2 < |old(blocks)| && k2 != k && r.value == old(blocks)[k2].off + SIZEOF_STRUCT_MEM
          && blocks == Release(Take(old(blocks), k2, Served(n), End()), TakenIndex(old(blocks), k2, Served(n), k, End()))
          && was >= 0 && Moved(old(mem[..]), mem[..], r.value, rmem.value, if was < n then was else n)
      ensures old(LfreeLowest()) ==>
        (LfreeLowest() <==> (rmem.Some? && !Stray(rmem.value) && Align(size) <= memSizeAligned
                             && Cuts(Align(size), Payload(old(blocks), k, End()))
                             ==> ShrinkSafe(old(blocks), k, old(lfree))))
      ensures Align(size) == 0 || Align(size) > memSizeAligned ==> maxMem == old(maxMem)
      ensures 0 < Align(size) <= memSizeAligned ==>
        maxMem == if r == None then old(maxMem)
                  else if rmem == None || (!Stray(rmem.value) && Moves(Align(size), Payload(old(blocks), k, End()))) then
                    Peak(old(maxMem), old(usedMem), old(blocks), k2, Served(Align(size)), End())
                  else old(maxMem)
    {
      k2 := 0;
      var newsize := Align(size);
      if newsize > memSizeAligned {
        return None, k2;
      } else if newsize == 0 {
        Free(rmem, k);
        return None, k2;
      }
      if rmem == None {
        AlignAgain(size);
        r, k2 := Malloc(newsize);
        return;
      }
      if rmem.value < 0 || rmem.value >= End() {
        return rmem, k2;
      }
      var ptr := rmem.value - SIZEOF_STRUCT_MEM;
      HoldsHeader(mem[..], blocks, k, End());
      assert RoomAt(blocks, k, End());
      var was := mem[ptr].h.next - ptr - SIZEOF_STRUCT_MEM;
      if was == newsize {
        return rmem, k2;
      }
      if newsize + SIZEOF_STRUCT_MEM + MIN_SIZE < was {
        ShrinkBlock(rmem.value, newsize, k);
        return rmem, k2;
      }
      AlignAgain(size);
      r, k2 := Move(rmem.value, was, newsize, k);
    }

    /** The last part of rt_realloc: allocate, copy, free. */
    method Move(p: nat, was: nat, newsize: nat, ghost k: nat) returns (r: Option<nat>, ghost k2: nat)
      requires Valid() && memSizeAligned >= MIN_SIZE_ALIGNED && newsize < 0x1_0000_0000 && newsize == Align(newsize) > 0
      requires Owns(p, k) && !Stray(p) && was == Payload(blocks, k, End()) && newsize <= memSizeAligned
      modifies mem, `lfree, `blocks, `usedMem, `maxMem
      ensures Valid() && (old(LfreeLowest()) ==> LfreeLowest())
      ensures forall j :: 0 <= j < |old(blocks)| && old(blocks)[j].used && j != k
                ==> SamePayload(old(mem[..]), mem[..], old(blocks), j, End())
      ensures r.None? <==> NoneFits(old(blocks), old(lfree), Served(newsize), memSizeAligned)
      ensures r.None? ==> blocks == old(blocks) && mem[..] == old(mem[..]) && maxMem == old(maxMem)
      ensures r.Some? ==>
        && k2 < |old(blocks)| && k2 != k && r.value == old(blocks)[k2].off + SIZEOF_STRUCT_MEM
        && blocks == Release(Take(old(blocks), k2, Served(newsize), End()),
            TakenIndex(old(blocks), k2, Served(newsize), k, End()))
        && Moved(old(mem[..]), mem[..], r.value, p, if was < newsize then was else newsize)
      ensures r.Some? ==> maxMem == Peak(old(maxMem), old(usedMem), old(blocks), k2, Served(newsize), End())
    {
      hide Merged, UsedSpan, FreeOrEnd, Lowest, Release, Holds, Charge, SamePayload, Moved;
      ghost var m, bs, end, want := mem[..], blocks, End(), Served(newsize);
      r, k2 := Malloc(newsize);
      if r == None {
        return;
      }
      var n := if was < newsize then was else newsize;
      ghost var m1, cs, k' := mem[..], blocks, TakenIndex(bs, k2, want, k, end);
      TakenSame(bs, k2, want, k, end);
      TakenPayload(bs, k2, want, end);
      hide Take, Tiles;
      CopyAndFree(r.value, p, n, k2, k');
      MovePayloads(m, m1, mem[..], bs, k2, want, k, n, end);
    }

    method CopyAndFree(dst: nat, src: nat, n: nat, ghost to: nat, ghost from: nat)
      requires Valid() && Owns(dst, to) && Owns(src, from) && to != from && !Stray(src)
      requires n <= Payload(blocks, to, End()) && n <= Payload(blocks, from, End())
      modifies mem, `lfree, `blocks, `usedMem
      ensures Valid() && blocks == Release(old(blocks), from) && (old(LfreeLowest()) ==> LfreeLowest())
      ensures forall j :: 0 <= j < |old(blocks)| && j != to ==> SamePayload(old(mem[..]), mem[..], old(blocks), j, End())
      ensures Moved(old(mem[..]), mem[..], dst, src, n)
    {
      ghost var m1, cs, end := mem[..], blocks, End();
      OffsetsDistinct(cs, to, from, end);
      OffsetsDistinct(cs, from, to, end);
      OffsetsDistinct(cs, to + 1, |cs|, end);
      OffsetsDistinct(cs, from + 1, |cs|, end);
      Copy(dst, src, n);
      ghost var m2 := mem[..];
      PayloadWriteHolds(m1, m2, cs, to, end);
      hide Tiles, Holds, Merged, UsedSpan, FreeOrEnd, Lowest, Release;
      Free(Some(src), from);
      CopyPayloads(m1, m2, mem[..], cs, to, from, n, end);
    }
  }

  lemma InsideHeap(bs: seq<Block>, k: nat, size: nat, end: nat)
    requires Tiles(bs, end) && k < |bs| && Payload(bs, k, end) >= size > 0
    ensures bs[k].off + SIZEOF_STRUCT_MEM < end
  {
    OffsetsDistinct(bs, k + 1, |bs|, end);
  }

  /** What the shrinking branch needs to know before it writes. */
  lemma ShrinkStart(m: seq<Slot>, bs: seq<Block>, k: nat, size: nat, lfree: nat, end: nat)
    requires Tiles(bs, end) && Holds(m, bs, end) && FreeOrEnd(bs, lfree, end) && k < |bs| && bs[k].used
    requires Payload(bs, k, end) >= size + SIZEOF_STRUCT_MEM
    ensures HeaderAt(m, bs[k].off) && m[bs[k].off].h.next == Off(bs, k + 1, end)
    ensures Off(bs, k + 1, end) <= end && end + SIZEOF_STRUCT_MEM <= |m|
    ensures var cs := Cut(bs, k, size);
            FreeAt(cs, k + 1) && cs[k + 1].off == bs[k].off + SIZEOF_STRUCT_MEM + size && FreeOrEnd(cs, lfree, end)
  {
    HoldsHeader(m, bs, k, end);
    OffsetsDistinct(bs, k + 1, |bs|, end);
    CutLfree(bs, k, size, lfree, end);
  }

  /** A shrink touches no payload except the part given up. */
  lemma ShrinkPayloads(m: seq<Slot>, m1: seq<Slot>, m2: seq<Slot>, bs: seq<Block>, k: nat, size: nat, end: nat)
    requires Tiles(bs, end) && Holds(m, bs, end) && k < |bs| && Payload(bs, k, end) >= size + SIZEOF_STRUCT_MEM && Aligned(size)
    requires bs[k].off + SIZEOF_STRUCT_MEM + size + SIZEOF_STRUCT_MEM <= |m|
    requires m1 == CutWrites(m, bs, k, size, end) && OnlyHeaders(m1, m2, Cut(bs, k, size), end)
    ensures SameRange(m, m2, bs[k].off + SIZEOF_STRUCT_MEM, bs[k].off + SIZEOF_STRUCT_MEM + size)
    ensures forall j :: 0 <= j < |bs| && j != k ==> SamePayload(m, m2, bs, j, end)
  {
    var cs := Cut(bs, k, size);
    CutTiles(bs, k, size, end);
    HoldsHeader(m, bs, k, end);
    HoldsHeader(m, bs, k + 1, end);
    CutWritesAt(m, bs, k, size, end);
    hide Tiles, Holds, CutWrites, OnlyHeaders;
    HeadersMissPayload(m1, m2, cs, k, end);
    forall j | 0 <= j < |bs| && j != k
      ensures SamePayload(m, m2, bs, j, end)
    {
      CutKeepsPayloads(m, bs, k, size, j, end);
      HeadersMissPayload(m1, m2, cs, if j < k then j else j + 1, end);
    }
  }

  lemma AlignAgain(size: nat)
    ensures Align(size) < 0x1_0000_0000 && Align(Align(size)) == Align(size)
  {
    var n := Align(size);
    assert n % 4 == 0 && n < 0x1_0000_0000 - 3;
    assert (n + 3) % 0x1_0000_0000 == n + 3;
  }

  lemma TakenSame(bs: seq<Block>, k: nat, size: nat, j: nat, end: nat)
    requires k < |bs| && j < |bs| && j != k
    ensures var cs, j' := Take(bs, k, size, end), TakenIndex(bs, k, size, j, end);
            j' < |cs| && j' != k && cs[j'] == bs[j] && Off(cs, j' + 1, end) == Off(bs, j + 1, end)
  {
  }

  lemma TakenPayload(bs: seq<Block>, k: nat, size: nat, end: nat)
    requires k < |bs| && Payload(bs, k, end) >= size
    ensures var cs := Take(bs, k, size, end);
            k < |cs| && cs[k] == Block(bs[k].off, true) && Payload(cs, k, end) >= size
  {
  }

  /** Writing inside a payload disturbs no header. */
  lemma PayloadWriteHolds(m: seq<Slot>, m': seq<Slot>, bs: seq<Block>, j: nat, end: nat)
    requires Tiles(bs, end) && Holds(m, bs, end) && j < |bs| && |m'| == |m|
    requires forall i :: 0 <= i < |m| && !(bs[j].off + SIZEOF_STRUCT_MEM <= i < Off(bs, j + 1, end)) ==> m'[i] == m[i]
    ensures Holds(m', bs, end)
  {
    OffsetsDistinct(bs, j + 1, |bs|, end);
    hide Tiles;
    forall i | 0 <= i < |bs|
      ensures HoldsAt(m', bs, i, end)
    {
      OffsetsDistinct(bs, i, j, end);
      OffsetsDistinct(bs, j, i, end);
      assert HoldsAt(m, bs, i, end);
    }
  }

  /** A copy from block `from` to block `to`, then a release that touches headers only. */
  lemma CopyPayloads(m1: seq<Slot>, m2: seq<Slot>, m3: seq<Slot>, cs: seq<Block>, to: nat, from: nat, n: nat, end: nat)
    requires Tiles(cs, end) && to < |cs| && from < |cs| && to != from && end <= |m1|
    requires n <= Payload(cs, to, end) && n <= Payload(cs, from, end) && |m2| == |m1|
    requires var dst, src := cs[to].off + SIZEOF_STRUCT_MEM, cs[from].off + SIZEOF_STRUCT_MEM;
             && (forall i :: dst <= i < dst + n ==> i - dst + src < |m1| && i < |m1| && m2[i] == m1[i - dst + src])
             && (forall i :: 0 <= i < |m1| && !(dst <= i < dst + n) ==> m2[i] == m1[i])
    requires forall j :: 0 <= j < |cs| ==> SamePayload(m2, m3, cs, j, end)
    ensures forall j :: 0 <= j < |cs| && j != to ==> SamePayload(m1, m3, cs, j, end)
    ensures Moved(m1, m3, cs[to].off + SIZEOF_STRUCT_MEM, cs[from].off + SIZEOF_STRUCT_MEM, n)
  {
    OffsetsDistinct(cs, to + 1, |cs|, end);
    OffsetsDistinct(cs, from + 1, |cs|, end);
    hide Tiles;
    forall j | 0 <= j < |cs| && j != to
      ensures SamePayload(m1, m3, cs, j, end)
    {
      OffsetsDistinct(cs, j, to, end);
      OffsetsDistinct(cs, to, j, end);
      assert SamePayload(m2, m3, cs, j, end);
    }
    assert SamePayload(m2, m3, cs, to, end);
  }

  /** What a move does to the payloads of the chain it started from. */
  lemma MovePayloads(m: seq<Slot>, m1: seq<Slot>, m3: seq<Slot>, bs: seq<Block>, k2: nat, want: nat, k: nat, n: nat, end: nat)
    requires k2 < |bs| && k < |bs| && k != k2 && !bs[k2].used && n <= Payload(bs, k, end)
    requires forall j :: 0 <= j < |bs| && j != k2 ==> SamePayload(m, m1, bs, j, end)
    requires var cs := Take(bs, k2, want, end); forall j :: 0 <= j < |cs| && j != k2 ==> SamePayload(m1, m3, cs, j, end)
    requires Moved(m1, m3, bs[k2].off + SIZEOF_STRUCT_MEM, bs[k].off + SIZEOF_STRUCT_MEM, n)
    ensures forall j :: 0 <= j < |bs| && bs[j].used && j != k ==> SamePayload(m, m3, bs, j, end)
    ensures Moved(m, m3, bs[k2].off + SIZEOF_STRUCT_MEM, bs[k].off + SIZEOF_STRUCT_MEM, n)
  {
    forall j | 0 <= j < |bs| && bs[j].used && j != k
      ensures SamePayload(m, m3, bs, j, end)
    {
      TakenSame(bs, k2, want, j, end);
      assert SamePayload(m, m1, bs, j, end)
          && SamePayload(m1, m3, Take(bs, k2, want, end), TakenIndex(bs, k2, want, j, end), end);
    }
    assert SamePayload(m, m1, bs, k, end);
  }

  lemma RoundTripPayloads(m: seq<Slot>, m1: seq<Slot>, m2: seq<Slot>, bs: seq<Block>, k: nat, size: nat, end: nat)
    requires FreeAt(bs, k)
    requires forall j :: 0 <= j < |bs| && j != k ==> SamePayload(m, m1, bs, j, end)
    requires var cs := Take(bs, k, size, end); forall j :: 0 <= j < |cs| ==> SamePayload(m1, m2, cs, j, end)
    ensures forall j :: 0 <= j < |bs| && bs[j].used ==> SamePayload(m, m2, bs, j, end)
  {
    forall j | 0 <= j < |bs| && bs[j].used
      ensures SamePayload(m, m2, bs, j, end)
    {
      TakenSame(bs, k, size, j, end);
      assert SamePayload(m, m1, bs, j, end);
      assert SamePayload(m1, m2, Take(bs, k, size, end), TakenIndex(bs, k, size, j, end), end);
    }
  }

  /** `n` bytes at `src` before are at `dst` now. */
  ghost predicate Moved(m: seq<Slot>, m': seq<Slot>, dst: nat, src: nat, n: nat) {
    && |m'| == |m| && dst + n <= |m| && src + n <= |m|
    && m'[dst..dst + n] == m[src..src + n]
  }

  /** Where block `j` is after block `k` was taken. */
  function TakenIndex(bs: seq<Block>, k: nat, size: nat, j: nat, end: nat): nat
    requires k < |bs|
  {
    if k < j && Splits(bs, k, size, end) then j + 1 else j
  }

  lemma CutLfree(bs: seq<Block>, k: nat, size: nat, lfree: nat, end: nat)
    requires Tiles(bs, end) && k < |bs| && bs[k].used && FreeOrEnd(bs, lfree, end)
    ensures FreeOrEnd(Cut(bs, k, size), lfree, end)
  {
    var cs := Cut(bs, k, size);
    if lfree != end {
      var i :| 0 <= i < |bs| && bs[i] == Block(lfree, false);
      assert i < k ==> cs[i] == bs[i];
      assert i > k ==> cs[i + 1] == bs[i];
    }
  }

  /** Where lfree must be for a shrink to keep it lowest: below the block, or at the free successor that is merged. */
  predicate ShrinkSafe(bs: seq<Block>, k: nat, lfree: nat)
    requires k < |bs|
  {
    lfree < bs[k].off || (FreeAt(bs, k + 1) && lfree == bs[k + 1].off)
  }

  lemma ShrinkLfree(bs: seq<Block>, k: nat, size: nat, lfree: nat, end: nat)
    requires Tiles(bs, end) && k < |bs| && bs[k].used && Payload(bs, k, end) >= size + SIZEOF_STRUCT_MEM
    requires Lowest(bs, lfree, end)
    ensures var after := PlugLfree(Cut(bs, k, size), k + 1, lfree);
            (forall j :: 0 <= j < |Shrink(bs, k, size)| && Shrink(bs, k, size)[j].off < after ==> Shrink(bs, k, size)[j].used)
            <==> ShrinkSafe(bs, k, lfree)
  {
    var cs, ds := Cut(bs, k, size), Shrink(bs, k, size);
    var after := PlugLfree(cs, k + 1, lfree);
    assert ds[k + 1] == cs[k + 1];
    OffsetsDistinct(bs, k, k + 1, end);
    if ShrinkSafe(bs, k, lfree) {
      forall j | 0 <= j < |ds| && ds[j].off < after
        ensures ds[j].used
      {
        if j <= k {
          assert ds[j] == bs[j] || j == k;
          OffsetsDistinct(bs, j, k, end);
          OffsetsDistinct(bs, j, k + 1, end);
        } else if j > k + 1 {
          var i := if FreeAt(bs, k + 1) then j else j - 1;
          assert ds[j] == bs[i];
          OffsetsDistinct(bs, k, i, end);
        }
      }
    } else {
      LfreeNotInside(bs, k, lfree, end);
      assert ds[k + 1].off < after && !ds[k + 1].used;
    }
  }

  lemma ShrinkLowest(bs: seq<Block>, k: nat, size: nat, lfree: nat, end: nat)
    requires Tiles(bs, end) && k < |bs| && bs[k].used && Payload(bs, k, end) >= size + SIZEOF_STRUCT_MEM
    requires Lowest(bs, lfree, end)
    ensures var after := PlugLfree(Cut(bs, k, size), k + 1, lfree);
            FreeOrEnd(Shrink(bs, k, size), after, end) ==>
              (Lowest(Shrink(bs, k, size), after, end) <==> ShrinkSafe(bs, k, lfree))
  {
    ShrinkLfree(bs, k, size, lfree, end);
  }

  lemma LfreeNotInside(bs: seq<Block>, k: nat, lfree: nat, end: nat)
    requires Tiles(bs, end) && k < |bs| && bs[k].used && FreeOrEnd(bs, lfree, end)
    ensures lfree < bs[k].off || lfree >= Off(bs, k + 1, end)
  {
    var i := LfreeIndex(bs, lfree, end);
    OffsetsDistinct(bs, i, k, end);
    OffsetsDistinct(bs, k, i, end);
  }

  /**
   * Outside the scope of malloc and free the search can miss memory. One block fills the heap and is shrunk: lfree stays at
   * the sentinel, and a request fails although the free tail fits.
   */
  method StrandsTail() returns (h: SmallHeap, r: Option<nat>)
    ensures h.Valid() && h.memSizeAligned == 100 && h.blocks == [Block(0, true), Block(16, false)]
    ensures r == None && !h.Refused(4) && Fits(h.blocks, 1, Served(4), 100)
  {
    var p;
    h, p := FullHeap();
    var q, k2 := h.Realloc(p, 4, 0);
    assert Shrink([Block(0, true)], 0, 4) == [Block(0, true), Block(16, false)];
    TailLfree(h.blocks, h.lfree, h.End());
    ghost var k;
    r, k := h.Malloc(4);
  }

  /** A heap that one block fills. */
  method FullHeap() returns (h: SmallHeap, p: Option<nat>)
    ensures h.Valid() && fresh(h) && fresh(h.mem) && h.memSizeAligned == 100 && h.blocks == [Block(0, true)] && h.lfree == h.End()
    ensures p == Some(SIZEOF_STRUCT_MEM) && h.Owns(p.value, 0)
  {
    h := new SmallHeap(100);
    ghost var k;
    p, k := h.Malloc(96);
    assert Fits([Block(0, false)], 0, 96, 100);
  }

  /** A fresh heap refuses a request for exactly the payload of its one free block: the loop bound skips it. */
  method RefusesExact(size: nat) returns (h: SmallHeap, r: Option<nat>)
    requires Aligned(size) && MIN_SIZE_ALIGNED <= size <= 0xFFFF_FFFC
    ensures h.Valid() && h.memSizeAligned == size && h.blocks == [Block(0, false)]
    ensures r == None && !h.Refused(size) && Payload(h.blocks, 0, h.End()) == Served(size) == size
  {
    AlignRoundsUp(size);
    h := new SmallHeap(size);
    ghost var k;
    r, k := h.Malloc(size);
  }

  /** A request whose alignment wraps is served with the least block, 12 bytes for almost 4 GiB. */
  method WrapsToLeast(size: nat) returns (h: SmallHeap, r: Option<nat>)
    requires Aligned(size) && size >= 3 * MIN_SIZE_ALIGNED
    ensures h.Valid() && h.memSizeAligned == size && r == Some(SIZEOF_STRUCT_MEM)
    ensures |h.blocks| == 2 && h.blocks[0] == Block(0, true) && Payload(h.blocks, 0, h.End()) == MIN_SIZE_ALIGNED
  {
    assert Served(0xFFFF_FFFE) == MIN_SIZE_ALIGNED && Align(0xFFFF_FFFE) == 0;
    h := new SmallHeap(size);
    ghost var bs, k := h.blocks, 0;
    assert Fits(bs, 0, MIN_SIZE_ALIGNED, size);
    r, k := h.Malloc(0xFFFF_FFFE);
    assert Splits(bs, 0, MIN_SIZE_ALIGNED, h.End());
  }

  lemma TailLfree(bs: seq<Block>, lfree: nat, end: nat)
    requires bs == [Block(0, true), Block(16, false)] && FreeOrEnd(bs, lfree, end) && !Lowest(bs, lfree, end)
    ensures lfree == end
  {
  }

  lemma StartIndex(bs: seq<Block>, start: nat, lfree: nat, end: nat)
    requires Tiles(bs, end) && start <= |bs| && Off(bs, start, end) == lfree
    ensures forall j :: 0 <= j < |bs| ==> (bs[j].off >= lfree <==> j >= start)
  {
    forall j | 0 <= j < |bs|
      ensures bs[j].off >= lfree <==> j >= start
    {
      OffsetsDistinct(bs, j, start, end);
    }
  }

  lemma UsedBelow(bs: seq<Block>, k: nat, end: nat)
    requires Tiles(bs, end) && k < |bs| && Lowest(bs, bs[k].off, end)
    ensures forall j :: 0 <= j < k ==> bs[j].used
  {
    forall j | 0 <= j < k
      ensures bs[j].used
    {
      OffsetsDistinct(bs, j, k, end);
    }
  }

  /** Taking another block than the one at lfree leaves lfree on a free block, and lowest if it was. */
  lemma TakeLfree(bs: seq<Block>, k: nat, size: nat, lfree: nat, end: nat)
    requires Tiles(bs, end) && FreeAt(bs, k) && FreeOrEnd(bs, lfree, end)
    ensures lfree != bs[k].off ==>
              FreeOrEnd(Take(bs, k, size, end), lfree, end) && (Lowest(bs, lfree, end)
                  ==> Lowest(Take(bs, k, size, end), lfree, end))
  {
    var cs := Take(bs, k, size, end);
    if lfree != bs[k].off {
      if lfree != end {
        var i :| 0 <= i < |bs| && bs[i] == Block(lfree, false);
        assert i < k ==> cs[i] == bs[i];
        assert i > k ==> cs[if Splits(bs, k, size, end) then i + 1 else i] == bs[i];
      }
      if Lowest(bs, lfree, end) {
        OffsetsDistinct(bs, k, |bs|, end);
        assert lfree < bs[k].off;
        forall j | 0 <= j < |cs| && cs[j].off < lfree
          ensures cs[j].used
        {
          if j > k {
            OffsetsDistinct(bs, k, j, end);
          }
        }
      }
    }
  }

  /** Marking a block free and lowering lfree to it keeps lfree on a free block, and lowest if it was. */
  lemma MarkFreeLfree(bs: seq<Block>, k: nat, lfree: nat, end: nat)
    requires Tiles(bs, end) && k < |bs| && bs[k].used && FreeOrEnd(bs, lfree, end)
    ensures var low := if bs[k].off < lfree then bs[k].off else lfree;
            FreeOrEnd(Mark(bs, k, false), low, end) && (Lowest(bs, lfree, end) ==> Lowest(Mark(bs, k, false), low, end))
  {
    var cs := Mark(bs, k, false);
    if lfree != end {
      var i :| 0 <= i < |bs| && bs[i] == Block(lfree, false);
      assert cs[i] == bs[i];
    }
    assert cs[k] == Block(bs[k].off, false);
    OffsetsDistinct(bs, k, |bs|, end);
  }

  lemma MarkOnlyHeaders(m: seq<Slot>, m1: seq<Slot>, m2: seq<Slot>, bs: seq<Block>, k: nat, used: bool, end: nat)
    requires k < |bs| && OnlyHeaders(m, m1, bs, end) && OnlyHeaders(m1, m2, Mark(bs, k, used), end)
    ensures OnlyHeaders(m, m2, bs, end)
  {
    var cs := Mark(bs, k, used);
    forall i | IsOffset(cs, end, i)
      ensures IsOffset(bs, end, i)
    {
      var j :| 0 <= j <= |cs| && Off(cs, j, end) == i;
      assert Off(bs, j, end) == i;
    }
  }

  /** Header positions after a merge are header positions before it. */
  lemma JoinOnlyHeaders(m: seq<Slot>, m1: seq<Slot>, m2: seq<Slot>, bs: seq<Block>, k: nat, end: nat)
    requires OnlyHeaders(m, m1, bs, end)
    requires OnlyHeaders(m1, m2, bs, end) || (k + 1 < |bs| && OnlyHeaders(m1, m2, Join(bs, k), end))
    ensures OnlyHeaders(m, m2, bs, end)
  {
    if k + 1 < |bs| {
      var cs := Join(bs, k);
      forall i | IsOffset(cs, end, i)
        ensures IsOffset(bs, end, i)
      {
        var j :| 0 <= j <= |cs| && Off(cs, j, end) == i;
        assert Off(bs, if j <= k then j else j + 1, end) == i;
      }
    }
  }
}
