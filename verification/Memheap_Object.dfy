/** The memory heap object in its pool. */
module MemHeapObject {
  import opened Wrappers
  import opened Queues
  import opened ListLinks
  import opened RtList
  import opened HeapBlocks
  import MemChain

  /** RT_ALIGN and the minimum allocation, shared with the small-memory heap. */
  function Wanted(size: nat): nat { MemChain.Served(size) }

  function Max(a: int, b: int): int { if a < b then b else a }

  /** The running maximum after the chain `bs` has been reached. */
  function Peak(high: int, pool: nat, bs: Items): int { Max(high, pool - FreeSum(bs)) }

  predicate FlagAt(used: map<nat, bool>, bs: Items, k: nat)
    requires k < |bs|
  {
    bs[k].off in used && used[bs[k].off] == bs[k].used
  }

  /** The used bit of every header. */
  predicate Flags(used: map<nat, bool>, bs: Items) {
    forall k :: 0 <= k < |bs| ==> FlagAt(used, bs, k)
  }

  /** Outside `[lo, hi)` the pool is the same. */
  predicate SameOutside(m: seq<bv8>, r: seq<bv8>, lo: nat, hi: nat) {
    |r| == |m| && forall i :: 0 <= i < |m| && !(lo <= i < hi) ==> r[i] == m[i]
  }

  predicate SameInside(m: seq<bv8>, r: seq<bv8>, lo: nat, hi: nat) {
    |r| == |m| && forall i :: lo <= i < hi && i < |m| ==> r[i] == m[i]
  }

  /** The payload of block `k` is the same. */
  predicate SamePayload(m: seq<bv8>, r: seq<bv8>, bs: Items, k: nat)
    requires k + 1 < |bs|
  {
    SameInside(m, r, bs[k].off + HEADER, bs[k + 1].off)
  }

  /** Every used payload but that of block `k` is untouched. */
  ghost predicate OthersKept(m: seq<bv8>, r: seq<bv8>, bs: Items, k: int) {
    |r| == |m| && forall j :: 0 <= j < |bs| - 1 && bs[j].used && j != k ==> SamePayload(m, r, bs, j)
  }

  /** The `n` bytes at `src` were copied to `dst`, and nothing else changed. */
  ghost predicate Copied(m: seq<bv8>, r: seq<bv8>, dst: nat, src: nat, n: nat) {
    SameOutside(m, r, dst, dst + n) && dst + n <= |m| && src + n <= |m| && r[dst..dst + n] == m[src..src + n]
  }

  lemma CopiedBytes(m: seq<bv8>, r: seq<bv8>, dst: nat, src: nat, n: nat)
    requires SameOutside(m, r, dst, dst + n) && dst + n <= |m| == |r| && src + n <= |m| && r[dst..dst + n] == m[src..src + n]
    ensures Copied(m, r, dst, src, n)
  {
  }

  class MemHeap {
    const poolSize: nat
    const mem: array<bv8>
    /** The block list through the headers' next and prev. */
    var links: Links
    /** The free list through next_free and prev_free; its head is the free header of the heap object. */
    var freeLinks: Links
    var used: map<nat, bool>
    var availableSize: int
    var maxUsedSize: int
    ghost var blocks: Items
    ghost var freeList: Queue

    /** The node of the heap object's free header; no block starts there. */
    function FreeHeader(): nat { poolSize }

    ghost predicate Chained()
      reads this
    {
      && mem.Length == poolSize && Tiled(blocks, poolSize)
      && Ring(links, Offs(blocks)) && Flags(used, blocks)
    }

    ghost predicate Valid()
      reads this
    {
      && Chained() && NoFreePair(blocks) && FreeExact(blocks, freeList)
      && IsList(freeLinks, FreeHeader(), freeList)
      && availableSize == FreeSum(blocks) && poolSize - availableSize <= maxUsedSize
    }

    /** rt_memheap_init on an aligned pool: one free block and the tail block. */
    constructor (size: nat)
      requires size % 4 == 0 && size >= 2 * HEADER
      ensures Valid() && fresh(mem) && poolSize == size
      ensures blocks == [Item(0, false), Item(size - HEADER, true)] && freeList == [0]
      ensures availableSize == size - 2 * HEADER && maxUsedSize == 2 * HEADER
    {
      poolSize := size;
      mem := new bv8[size](_ => 0);
      availableSize := size - 2 * HEADER;
      maxUsedSize := 2 * HEADER;
      var tail := size - HEADER;
      links := Links(map[0 := tail, tail := 0], map[0 := tail, tail := 0]);
      freeLinks := Links(map[size := 0, 0 := size], map[size := 0, 0 := size]);
      used := map[0 := false, tail := true];
      blocks := [Item(0, false), Item(tail, true)];
      freeList := [0];
      new;
      assert RoomAt(blocks, 0) && PairUsed(blocks, 0);
      assert LinkedAt(links, Offs(blocks), 0) && LinkedAt(links, Offs(blocks), 1);
      assert LinkedAt(freeLinks, [size, 0], 0) && LinkedAt(freeLinks, [size, 0], 1);
      assert [FreeHeader()] + freeList == [size, 0];
      assert FlagAt(used, blocks, 0) && FlagAt(used, blocks, 1);
      assert blocks[0] == Item(0, false);
      assert blocks[1..] == [blocks[1]];
    }

    // ----- list and header writes -----

    /** A header put at `n`; its bytes are overwritten. */
    method WriteHeader(n: nat)
      requires n + HEADER <= mem.Length
      modifies mem
      ensures SameOutside(old(mem[..]), mem[..], n, n + HEADER)
    {
      forall i | n <= i < n + HEADER {
        mem[i] := 0;
      }
    }

    /** A new free block at `n`, linked behind the block at `p`. */
    method InsertBlock(p: nat, n: nat, ghost k: nat)
      requires Chained() && k + 1 < |blocks| && blocks[k].off == p
      requires p + HEADER <= n && n + HEADER <= blocks[k + 1].off
      modifies mem, `links, `used, `blocks
      ensures Chained() && blocks == CutAt(old(blocks), k, n)
      ensures SameOutside(old(mem[..]), mem[..], n, n + HEADER)
    {
      ghost var bs, was := blocks, links;
      InsertFacts(links, used, bs, poolSize, k, n);
      hide Tiled, Ring, Flags, Offs, CutAt;
      WriteHeader(n);
      used := used[n := false];
      var next := links.next[p];
      links := Links(links.next, links.prev[n := p]);
      links := Links(links.next[n := next], links.prev);
      links := Links(links.next, links.prev[next := n]);
      links := Links(links.next[p := n], links.prev);
      assert links == InsertLinks(was, p, n);
      blocks := CutAt(bs, k, n);
    }

    /** The block at `n`, behind the one at `p`, leaves the block list. */
    method RemoveBlock(p: nat, n: nat, ghost k: nat)
      requires Chained() && k + 2 < |blocks| && blocks[k].off == p && blocks[k + 1].off == n
      modifies `links, `blocks
      ensures Chained() && blocks == MergeAt(old(blocks), k)
    {
      ghost var bs, was := blocks, links;
      RemoveFacts(links, used, bs, poolSize, k);
      hide Tiled, Ring, Flags, Offs, MergeAt;
      var next := links.next[n];
      links := Links(links.next, links.prev[next := p]);
      links := Links(links.next[p := next], links.prev);
      assert links == BypassLinks(was, n);
      blocks := MergeAt(bs, k);
    }

    method SetUsed(p: nat, flag: bool, ghost k: nat)
      requires Chained() && k + 1 < |blocks| && blocks[k].off == p
      modifies `used, `blocks
      ensures Chained() && blocks == MarkAt(old(blocks), k, flag)
    {
      MarkTiled(blocks, poolSize, k, flag);
      MarkOffs(blocks, k, flag);
      MarkFlags(used, blocks, poolSize, k, flag);
      hide Tiled, Ring, Flags, Offs, MarkAt;
      used := used[p := flag];
      blocks := MarkAt(blocks, k, flag);
    }

    /** Into the free list, behind its head. */
    method PushFree(x: nat)
      requires IsList(freeLinks, FreeHeader(), freeList) && x != FreeHeader() && x !in freeList
      modifies `freeLinks, `freeList
      ensures IsList(freeLinks, FreeHeader(), freeList) && freeList == [x] + old(freeList)
    {
      ghost var was, head := freeLinks, FreeHeader();
      InsertAfterHead(freeLinks, head, freeList, x);
      HeadNext(freeLinks, head, freeList);
      hide IsList;
      var next := freeLinks.next[FreeHeader()];
      freeLinks := Links(freeLinks.next[x := next], freeLinks.prev);
      freeLinks := Links(freeLinks.next, freeLinks.prev[x := FreeHeader()]);
      freeLinks := Links(freeLinks.next, freeLinks.prev[next := x]);
      freeLinks := Links(freeLinks.next[FreeHeader() := x], freeLinks.prev);
      assert freeLinks == InsertLinks(was, head, x);
      freeList := [x] + freeList;
    }

    /** Out of the free list. */
    method RemoveFree(x: nat)
      requires IsList(freeLinks, FreeHeader(), freeList) && x in freeList
      modifies `freeLinks, `freeList
      ensures IsList(freeLinks, FreeHeader(), freeList) && freeList == Queues.Remove(old(freeList), x)
    {
      ghost var was := freeLinks;
      RemoveElement(freeLinks, FreeHeader(), freeList, x);
      ElementLinks(freeLinks, FreeHeader(), freeList, x);
      hide IsList;
      freeLinks := Links(freeLinks.next, freeLinks.prev[freeLinks.next[x] := freeLinks.prev[x]]);
      freeLinks := Links(freeLinks.next[freeLinks.prev[x] := freeLinks.next[x]], freeLinks.prev);
      assert freeLinks == BypassLinks(was, x);
      freeList := Queues.Remove(freeList, x);
    }

    // ----- allocation -----

    /** The walk along the free list: the first block large enough. */
    method Search(want: nat) returns (found: bool, ptr: nat, size: int, ghost k: nat)
      requires Valid()
      ensures found ==>
        && k + 1 < |blocks| && blocks[k] == Item(ptr, false) && ptr in freeList && size == Size(blocks, k) >= want
        && FirstFit(blocks, freeList, ptr, want)
      ensures !found ==> forall x :: x in freeList ==> !Fits(blocks, x, want)
    {
      size := 0;
      HeadNext(freeLinks, FreeHeader(), freeList);
      ptr := freeLinks.next[FreeHeader()];
      ghost var n := 0;
      k := 0;
      found := false;
      while ptr != FreeHeader()
        invariant 0 <= n <= |freeList| && ptr == ([FreeHeader()] + freeList)[Succ(n, |freeList| + 1)]
        invariant forall j :: 0 <= j < n ==> !Fits(blocks, freeList[j], want)
        decreases |freeList| - n
      {
        assert ptr == freeList[n] && ptr in freeList;
        k := BlockOf(blocks, poolSize, freeList, ptr);
        NextOf(links, blocks, poolSize, k);
        size := links.next[ptr] - ptr - HEADER;
        FitsIff(blocks, poolSize, k, want);
        if size >= want {
          found := true;
          return;
        }
        RingNeighbours(freeLinks, [FreeHeader()] + freeList, n + 1);
        ptr := freeLinks.next[ptr];
        n := n + 1;
      }
      HeaderAway(blocks, poolSize, freeList);
    }

    /** rt_memheap_alloc. On success block `k` of the old chain was handed out. */
    method Alloc(size: nat) returns (r: Option<nat>, ghost k: nat)
      requires Valid() && size < 0x1_0000_0000
      modifies this, mem
      ensures Valid()
      ensures r.None? <==> Refuses(old(blocks), old(freeList), old(availableSize), Wanted(size))
      ensures r.None? ==>
        && blocks == old(blocks) && freeList == old(freeList) && mem[..] == old(mem[..]) && maxUsedSize == old(maxUsedSize)
      ensures r.Some? ==>
        && k + 1 < |old(blocks)| && !old(blocks)[k].used && r.value == old(blocks)[k].off + HEADER
        && FirstFit(old(blocks), old(freeList), old(blocks)[k].off, Wanted(size)) && Size(old(blocks), k) >= Wanted(size)
        && blocks == AllocBlocks(old(blocks), k, Wanted(size))
            && freeList == AllocFree(old(blocks), old(freeList), k, Wanted(size))
        && maxUsedSize == Max(old(maxUsedSize), poolSize - availableSize)
      ensures r.Some? ==>
        && k + 1 < |blocks| && Owns(r.value, k)
        && Wanted(size) <= Size(blocks, k) < Wanted(size) + HEADER + MINIALLOC
      ensures OthersKept(old(mem[..]), mem[..], old(blocks), -1)
    {
      k := 0;
      hide Tiled, NoFreePair, FreeExact, IsList, Ring, Flags, FreeSum, AllocBlocks, AllocFree, FirstFit, Fits, SamePayload;
      var want := Wanted(size);
      if want >= availableSize {
        SameAll(mem[..], blocks);
        return None, k;
      }
      var found, ptr, free, at := Search(want);
      if !found {
        SameAll(mem[..], blocks);
        return None, k;
      }
      k := at;
      FitsIff(blocks, poolSize, at, want);
      RefusesNot(blocks, freeList, availableSize, ptr, want);
      TakeBlock(ptr, want, free, at);
      r := Some(ptr + HEADER);
    }

    /** The split: a new free block behind the wanted bytes takes the place of the one at `ptr` in the free list. */
    method CutOff(ptr: nat, want: nat, ghost k: nat)
      requires Chained() && IsList(freeLinks, FreeHeader(), freeList) && FreeExact(blocks, freeList)
      requires k + 1 < |blocks| && blocks[k] == Item(ptr, false) && ptr in freeList && Size(blocks, k) >= want + HEADER
      modifies mem, `links, `used, `blocks, `freeLinks, `freeList, `availableSize
      ensures Chained() && IsList(freeLinks, FreeHeader(), freeList)
      ensures blocks == CutAt(old(blocks), k, ptr + HEADER + want)
      ensures freeList == [ptr + HEADER + want] + Queues.Remove(old(freeList), ptr)
      ensures availableSize == old(availableSize) - want - HEADER
      ensures OthersKept(old(mem[..]), mem[..], old(blocks), -1)
    {
      ghost var bs, m := blocks, mem[..];
      var n := ptr + HEADER + want;
      NewHeaderFree(bs, freeList, poolSize, k, n);
      hide NoFreePair, FreeExact, IsList, FreeSum, CutAt, SamePayload, SameOutside, OthersKept, Flags, Ring;
      InsertBlock(ptr, n, k);
      RemoveFree(ptr);
      PushFree(n);
      availableSize := availableSize - want - HEADER;
      PayloadsKept(bs, poolSize, m, mem[..], k, n);
    }

    /** The block leaves the free list, split or as a whole. */
    method Unlist(ptr: nat, want: nat, size: int, ghost k: nat)
      requires Chained() && IsList(freeLinks, FreeHeader(), freeList) && FreeExact(blocks, freeList)
      requires k + 1 < |blocks| && blocks[k] == Item(ptr, false) && ptr in freeList && size == Size(blocks, k) >= want
      modifies mem, `links, `used, `blocks, `freeLinks, `freeList, `availableSize
      ensures Chained() && IsList(freeLinks, FreeHeader(), freeList)
      ensures var p := ptr + HEADER + want;
              if size >= want + HEADER + MINIALLOC then
                && blocks == CutAt(old(blocks), k, p) && freeList == [p] + Queues.Remove(old(freeList), ptr)
                && availableSize == old(availableSize) - want - HEADER
              else
                && blocks == old(blocks) && freeList == Queues.Remove(old(freeList), ptr)
                && availableSize == old(availableSize) - size
      ensures OthersKept(old(mem[..]), mem[..], old(blocks), -1)
    {
      ghost var bs, m := blocks, mem[..];
      hide *;
      if size >= want + HEADER + MINIALLOC {
        CutOff(ptr, want, k);
      } else {
        availableSize := availableSize - size;
        RemoveFree(ptr);
        KeptSelf(m, bs, -1);
      }
    }

    /** Hand out the free block at `ptr`: split it or take it whole, out of the free list. */
    method TakeBlock(ptr: nat, want: nat, size: int, ghost k: nat)
      requires Valid() && k + 1 < |blocks| && blocks[k] == Item(ptr, false) && ptr in freeList && size == Size(blocks, k) >= want
      modifies this, mem
      ensures Valid()
      ensures blocks == AllocBlocks(old(blocks), k, want) && freeList == AllocFree(old(blocks), old(freeList), k, want)
      ensures k + 1 < |blocks| && blocks[k] == Item(ptr, true) && want <= Size(blocks, k) < want + HEADER + MINIALLOC
      ensures maxUsedSize == Max(old(maxUsedSize), poolSize - availableSize)
      ensures OthersKept(old(mem[..]), mem[..], old(blocks), -1)
    {
      ghost var bs := blocks;
      TakenFacts(bs, freeList, poolSize, k, want);
      CutLength(bs, k, ptr + HEADER + want);
      hide Tiled, NoFreePair, FreeExact, IsList, Ring, Flags, FreeSum, CutAt, SplitAt, MarkAt, SamePayload, SameOutside, OthersKept,
          AllocBlocks, AllocFree, Queues.Remove, Offs;
      Unlist(ptr, want, size, k);
      if poolSize - availableSize > maxUsedSize {
        maxUsedSize := poolSize - availableSize;
      }
      SetUsed(ptr, true, k);
    }

    // ----- release -----

    /** Block `k` is handed out and its payload starts at `p`. */
    ghost predicate Owns(p: nat, k: nat)
      reads this
    {
      k + 1 < |blocks| && p == blocks[k].off + HEADER && blocks[k].used
    }

    /** rt_memheap_free of a pointer that was handed out, or of null. No byte of the pool outside headers is written. */
    method Release(ptr: Option<nat>, ghost k: nat)
      requires Valid() && (ptr.Some? ==> Owns(ptr.value, k))
      modifies this
      ensures Valid() && maxUsedSize == old(maxUsedSize)
      ensures ptr.None? ==> blocks == old(blocks) && freeList == old(freeList)
      ensures ptr.Some? ==> blocks == ReleaseBlocks(old(blocks), k) && freeList == ReleaseFree(old(blocks), old(freeList), k)
    {
      if ptr == None {
        return;
      }
      ghost var bs, free := blocks, freeList;
      ReleaseOk(bs, free, poolSize, k);
      ReleaseTiled(bs, poolSize, k);
      ReleaseFacts(bs, free, poolSize, k);
      hide NoFreePair, FreeExact, IsList, FreeSum, ReleaseBlocks, Tiled, Ring, Flags, Queues.Remove;
      var header, insert := MarkAndMerge(ptr.value - HEADER, k);
      if insert {
        RemovedStill(free, if FreeAt(bs, k + 1) then bs[k + 1].off else poolSize, bs[k].off);
        PushFree(header);
      }
    }

    /**
     * The block is marked free and merged with its free neighbours; without a free predecessor it is yet to enter
     * the free list.
     */
    method MarkAndMerge(p: nat, ghost k: nat) returns (header: nat, insert: bool)
      requires Chained() && k + 1 < |blocks| && blocks[k] == Item(p, true) && IsList(freeLinks, FreeHeader(), freeList)
      requires FreeAt(blocks, k + 1) ==> blocks[k + 1].off in freeList
      modifies `links, `used, `blocks, `availableSize, `freeLinks, `freeList
      ensures Chained() && IsList(freeLinks, FreeHeader(), freeList) && blocks == ReleaseBlocks(old(blocks), k)
      ensures insert == !FreeAt(old(blocks), k - 1) && (insert ==> header == p)
      ensures freeList == if FreeAt(old(blocks), k + 1) then Queues.Remove(old(freeList), old(blocks)[k + 1].off)
                          else old(freeList)
      ensures availableSize == old(availableSize) + Size(old(blocks), k)
                               + (if FreeAt(old(blocks), k - 1) then HEADER else 0)
                               + (if FreeAt(old(blocks), k + 1) then HEADER else 0)
    {
      ghost var bs := blocks;
      NextOf(links, bs, poolSize, k);
      ReleaseSteps(bs, k);
      assert RoomAt(bs, k);
      hide NoFreePair, FreeExact, IsList, FreeSum, ReleaseBlocks, Tiled, Ring, Flags, MarkAt, MergeLeft, MergeRight,
          LeftIndex, Queues.Remove;
      availableSize := availableSize + (links.next[p] - p - HEADER);
      SetUsed(p, false, k);
      ghost var j;
      header, insert, j := MergePrevious(p, bs, k);
      MergeNext(header, j, bs, k);
    }

    /** The merge with a free predecessor. */
    method MergePrevious(header: nat, ghost bs: Items, ghost k: nat) returns (at: nat, insert: bool, ghost j: nat)
      requires Chained() && k + 1 < |bs| && blocks == MarkAt(bs, k, false) && header == bs[k].off
      modifies `links, `blocks, `availableSize
      ensures Chained() && blocks == MergeLeft(MarkAt(bs, k, false), k) && j == LeftIndex(bs, k) && j + 1 < |blocks|
          && at == blocks[j].off
      ensures insert == !FreeAt(bs, k - 1) && (insert ==> at == header) && !blocks[j].used && blocks[j + 1] == bs[k + 1]
      ensures availableSize == old(availableSize) + if insert then 0 else HEADER
    {
      ghost var m := blocks;
      NextOf(links, m, poolSize, k);
      PrevFlag(used, m, poolSize, k);
      hide Tiled, Ring, Flags;
      at, insert, j := header, true, k;
      var prev := links.prev[header];
      if !used[prev] {
        availableSize := availableSize + HEADER;
        RemoveBlock(prev, header, k - 1);
        at, insert, j := prev, false, k - 1;
      }
    }

    /** The merge with a free successor, which leaves the free list. */
    method MergeNext(header: nat, ghost j: nat, ghost bs: Items, ghost k: nat)
      requires Chained() && j + 1 < |blocks| && blocks[j].off == header && k + 1 < |bs| && blocks[j + 1] == bs[k + 1]
      requires IsList(freeLinks, FreeHeader(), freeList) && (FreeAt(bs, k + 1) ==> bs[k + 1].off in freeList)
      modifies `links, `blocks, `availableSize, `freeLinks, `freeList
      ensures Chained() && blocks == MergeRight(old(blocks), j) && IsList(freeLinks, FreeHeader(), freeList)
      ensures freeList == if FreeAt(bs, k + 1) then Queues.Remove(old(freeList), bs[k + 1].off) else old(freeList)
      ensures availableSize == old(availableSize) + if FreeAt(bs, k + 1) then HEADER else 0
    {
      NextOf(links, blocks, poolSize, j);
      NextFlag(used, blocks, poolSize, j);
      hide Tiled, Ring, Flags, IsList;
      var next := links.next[header];
      if !used[next] {
        availableSize := availableSize + HEADER;
        RemoveBlock(header, next, j);
        RemoveFree(next);
      }
    }

    // ----- resizing -----

    /** The in-place growth: the free successor is taken off both lists and starts anew behind the larger block. */
    method Grow(ptr: nat, newsize: nat, ghost k: nat)
      requires Valid() && Owns(ptr, k) && FreeAt(blocks, k + 1) && k + 2 < |blocks|
      requires Size(blocks, k) < newsize && newsize + MINIALLOC < Size(blocks, k + 1) + Size(blocks, k)
      modifies this, mem
      ensures Valid() && blocks == GrowBlocks(old(blocks), k, ptr + newsize)
      ensures freeList == ResizeFree(old(blocks), old(freeList), k, ptr + newsize)
      ensures maxUsedSize == Max(old(maxUsedSize), poolSize - availableSize)
      ensures OthersKept(old(mem[..]), mem[..], old(blocks), -1)
    {
      ghost var bs, free, m := blocks, freeList, mem[..];
      var header := ptr - HEADER;
      NextOf(links, bs, poolSize, k);
      var next := links.next[header];
      var oldsize := next - ptr;
      GrowOk(bs, free, poolSize, k, ptr + newsize);
      GrowFacts(bs, free, poolSize, k, ptr + newsize);
      hide Tiled, NoFreePair, FreeExact, IsList, Ring, Flags, FreeSum, CutAt, MergeAt, SplitAt, SamePayload, SameOutside, IsFree;
      availableSize := availableSize - (newsize - oldsize);
      if poolSize - availableSize > maxUsedSize {
        maxUsedSize := poolSize - availableSize;
      }
      RemoveFree(next);
      RemoveBlock(header, next, k);
      var n := ptr + newsize;
      InsertBlock(header, n, k);
      PushFree(n);
      GrowPayloads(bs, poolSize, m, mem[..], k, n);
    }

    /** The in-place shrink: the tail of the block becomes free and absorbs a free successor. */
    method Shrink(ptr: nat, newsize: nat, ghost k: nat)
      requires Valid() && Owns(ptr, k) && newsize + HEADER + MINIALLOC < Size(blocks, k)
      modifies this, mem
      ensures Valid() && blocks == ShrinkBlocks(old(blocks), k, ptr + newsize) && maxUsedSize == old(maxUsedSize)
      ensures freeList == ResizeFree(old(blocks), old(freeList), k, ptr + newsize)
      ensures SameInside(old(mem[..]), mem[..], ptr, ptr + newsize)
      ensures forall j :: 0 <= j < |old(blocks)| - 1 && j != k ==> SamePayload(old(mem[..]), mem[..], old(blocks), j)
    {
      ghost var bs, free, m := blocks, freeList, mem[..];
      var header, n := ptr - HEADER, ptr + newsize;
      ShrinkOk(bs, free, poolSize, k, n);
      ShrinkFacts(bs, free, poolSize, k, n);
      CutIsSplit(bs, k, n);
      hide Tiled, NoFreePair, FreeExact, IsList, Ring, Flags, FreeSum, CutAt, SplitAt, SamePayload, SameInside,
          SameOutside, IsFree;
      InsertBlock(header, n, k);
      PayloadsKept(bs, poolSize, m, mem[..], k, n);
      ghost var cs := blocks;
      NextOf(links, cs, poolSize, k + 1);
      NextFlag(used, cs, poolSize, k + 1);
      var next := links.next[n];
      if !used[next] {
        NextOf(links, cs, poolSize, k + 2);
        availableSize := availableSize - (links.next[next] - next - HEADER);
        RemoveBlock(n, next, k + 1);
        RemoveFree(next);
      }
      NextOf(links, blocks, poolSize, k + 1);
      PushFree(n);
      availableSize := availableSize + (links.next[n] - n - HEADER);
    }

    /** rt_memcpy between two payloads. */
    method Copy(dst: nat, src: nat, n: nat)
      requires dst + n <= mem.Length && src + n <= mem.Length && (dst + n <= src || src + n <= dst)
      modifies mem
      ensures SameOutside(old(mem[..]), mem[..], dst, dst + n) && mem[dst..dst + n] == old(mem[src..src + n])
    {
      var i := 0;
      while i < n
        invariant 0 <= i <= n
        invariant forall j :: dst <= j < dst + i ==> mem[j] == old(mem[j - dst + src])
        invariant forall j :: 0 <= j < mem.Length && !(dst <= j < dst + i) ==> mem[j] == old(mem[j])
      {
        mem[dst + i] := mem[src + i];
        i := i + 1;
      }
    }

    /** The last resort of rt_memheap_realloc: allocate, copy, release. */
    method Move(ptr: nat, oldsize: nat, newsize: nat, ghost k: nat) returns (r: Option<nat>, ghost k2: nat)
      requires Valid() && Owns(ptr, k) && oldsize == Size(blocks, k) < newsize == Wanted(newsize) < 0x1_0000_0000
      modifies this, mem
      ensures Valid()
      ensures r.None? <==> Refuses(old(blocks), old(freeList), old(availableSize), newsize)
      ensures r.None? ==> blocks == old(blocks) && freeList == old(freeList) && mem[..] == old(mem[..])
      ensures r.Some? ==>
        MovedTo(old(blocks), old(freeList), blocks, freeList, k2, k, newsize, r.value) && Moved(old(mem[..]), mem[..], r.value, ptr, oldsize)
      ensures maxUsedSize == if r == None then old(maxUsedSize)
                             else Peak(old(maxUsedSize), poolSize, AllocBlocks(old(blocks), k2, newsize))
      ensures OthersKept(old(mem[..]), mem[..], old(blocks), k)
    {
      ghost var bs, fl, m := blocks, freeList, mem[..];
      assert Tiled(bs, poolSize) && mem.Length == poolSize && k + 1 < |bs| && bs[k].used && ptr == bs[k].off + HEADER;
      hide Tiled, NoFreePair, FreeExact, IsList, Ring, Flags, FreeSum, AllocBlocks, AllocFree, ReleaseBlocks, ReleaseFree, FirstFit, Fits,
        Refuses, OthersKept, SamePayload, Moved, MovedTo, Copied, Wanted, TakenIndex, Peak, Max;
      r, k2 := Alloc(newsize);
      if r == None {
        KeptSelf(m, bs, k);
        return;
      }
      ghost var cs, m1 := blocks, mem[..];
      AvailableIs();
      PeakIs(old(maxUsedSize), poolSize, cs);
      MoveFacts(bs, poolSize, k2, newsize, k);
      TakenApart(bs, cs, poolSize, k2, newsize, k);
      CopyAndRelease(r.value, ptr, oldsize, TakenIndex(bs, k2, newsize, k));
      MoveEnds(bs, fl, blocks, freeList, k2, k, newsize, r.value);
      MovePayloads(bs, poolSize, m, m1, mem[..], k2, newsize, k, r.value, ptr, oldsize);
    }

    lemma AvailableIs()
      requires Valid()
      ensures availableSize == FreeSum(blocks)
    {
    }

    method CopyAndRelease(dst: nat, src: nat, n: nat, ghost k: nat)
      requires Valid() && k + 1 < |blocks| && blocks[k].used && src == blocks[k].off + HEADER
          && dst + n <= mem.Length && src + n <= mem.Length && (dst + n <= src || src + n <= dst)
      modifies this, mem
      ensures Valid() && blocks == ReleaseBlocks(old(blocks), k) && freeList == ReleaseFree(old(blocks), old(freeList), k)
      ensures maxUsedSize == old(maxUsedSize)
      ensures Copied(old(mem[..]), mem[..], dst, src, n)
    {
      assert Owns(src, k);
      ghost var m0 := mem[..];
      hide *;
      Copy(dst, src, n);
      ghost var m := mem[..];
      CopiedBytes(m0, m, dst, src, n);
      assert Owns(src, k);
      Release(Some(src), k);
      assert mem[..] == m;
    }

    /** rt_memheap_realloc on one heap. */
    method Realloc(ptr: Option<nat>, size: nat, ghost k: nat) returns (r: Option<nat>, ghost k2: nat)
      requires Valid() && size < 0x1_0000_0000 && (ptr.Some? ==> Owns(ptr.value, k))
      modifies this, mem
      ensures Valid()
      ensures OthersKept(old(mem[..]), mem[..], old(blocks), if ptr.Some? then k else -1)
      ensures size == 0 ==> r == None && mem[..] == old(mem[..]) && blocks == if ptr.Some? then ReleaseBlocks(old(blocks), k) else old(blocks)
      ensures size == 0 ==>
        && maxUsedSize == old(maxUsedSize)
        && freeList == if ptr.Some? then ReleaseFree(old(blocks), old(freeList), k) else old(freeList)
      ensures size > 0 && ptr.None? ==> (r.None? <==> Refuses(old(blocks), old(freeList), old(availableSize), Wanted(size)))
      ensures size > 0 && ptr.None? && r.None? ==> blocks == old(blocks) && mem[..] == old(mem[..]) && maxUsedSize == old(maxUsedSize)
      ensures size > 0 && ptr.None? && r.Some? ==> maxUsedSize == Max(old(maxUsedSize), poolSize - availableSize)
      ensures size > 0 && ptr.None? && r.Some? ==>
        k2 + 1 < |old(blocks)| && !old(blocks)[k2].used && r.value == old(blocks)[k2].off + HEADER
        && blocks == AllocBlocks(old(blocks), k2, Wanted(size))
      ensures size > 0 && ptr.None? ==>
        freeList == if r.None? then old(freeList) else AllocFree(old(blocks), old(freeList), k2, Wanted(size))
      ensures size > 0 && ptr.Some? ==>
        var n, was := Wanted(size), Size(old(blocks), k);
        if n > was then
          if FreeAt(old(blocks), k + 1) && Size(old(blocks), k + 1) + was > n + MINIALLOC then
            r == ptr && blocks == GrowBlocks(old(blocks), k, ptr.value + n) && SamePayload(old(mem[..]), mem[..], old(blocks), k)
          else if r.None? then blocks == old(blocks) && mem[..] == old(mem[..])
          else
            MovedTo(old(blocks), old(freeList), blocks, freeList, k2, k, n, r.value) && was >= 0 && Moved(old(mem[..]), mem[..], r.value, ptr.value, was)
        else if n + HEADER + MINIALLOC >= was then
          r == ptr && blocks == old(blocks) && mem[..] == old(mem[..])
        else
          r == ptr && blocks == ShrinkBlocks(old(blocks), k, ptr.value + n)
          && SameInside(old(mem[..]), mem[..], ptr.value, ptr.value + n)
      ensures size > 0 && ptr.Some? ==>
        var n, was := Wanted(size), Size(old(blocks), k);
        maxUsedSize == if n <= was then old(maxUsedSize)
                       else if FreeAt(old(blocks), k + 1) && Size(old(blocks), k + 1) + was > n + MINIALLOC then
                         Max(old(maxUsedSize), poolSize - availableSize)
                       else if r == None then old(maxUsedSize)
                       else Peak(old(maxUsedSize), poolSize, AllocBlocks(old(blocks), k2, n))
      ensures size > 0 && ptr.Some? ==>
        var n, was := Wanted(size), Size(old(blocks), k);
        if n > was then
          if FreeAt(old(blocks), k + 1) && Size(old(blocks), k + 1) + was > n + MINIALLOC then
            freeList == ResizeFree(old(blocks), old(freeList), k, ptr.value + n)
          else
            && (r.None? <==> Refuses(old(blocks), old(freeList), old(availableSize), n))
            && (r.None? ==> freeList == old(freeList))
        else if n + HEADER + MINIALLOC >= was then freeList == old(freeList)
        else freeList == ResizeFree(old(blocks), old(freeList), k, ptr.value + n)
    {
      k2 := 0;
      ghost var bs, m := blocks, mem[..];
      hide Tiled, NoFreePair, FreeExact, IsList, Ring, Flags, FreeSum, AllocBlocks, AllocFree, ReleaseBlocks,
          ReleaseFree, GrowBlocks, ShrinkBlocks, ResizeFree, FirstFit, Fits, SamePayload, SameInside, Wanted, Moved,
          Peak, Max, Refuses, MovedTo, OthersKept;
      if size == 0 {
        KeptSelf(m, bs, if ptr.Some? then k else -1);
        Release(ptr, k);
        return None, k2;
      }
      var newsize := Wanted(size);
      WantedAgain(size);
      if ptr == None {
        r, k2 := Alloc(newsize);
        return;
      }
      r, k2 := Resize(ptr.value, newsize, k);
    }

    /** The part of rt_memheap_realloc for a block in hand. */
    method Resize(ptr: nat, newsize: nat, ghost k: nat) returns (r: Option<nat>, ghost k2: nat)
      requires Valid() && Owns(ptr, k) && newsize == Wanted(newsize) < 0x1_0000_0000
      modifies this, mem
      ensures Valid()
      ensures OthersKept(old(mem[..]), mem[..], old(blocks), k)
      ensures
        var n, was := newsize, Size(old(blocks), k);
        if n > was then
          if FreeAt(old(blocks), k + 1) && Size(old(blocks), k + 1) + was > n + MINIALLOC then
            r == Some(ptr) && blocks == GrowBlocks(old(blocks), k, ptr + n) && SamePayload(old(mem[..]), mem[..], old(blocks), k)
          else if r.None? then blocks == old(blocks) && mem[..] == old(mem[..])
          else
            MovedTo(old(blocks), old(freeList), blocks, freeList, k2, k, n, r.value) && was >= 0 && Moved(old(mem[..]), mem[..], r.value, ptr, was)
        else if n + HEADER + MINIALLOC >= was then
          r == Some(ptr) && blocks == old(blocks) && mem[..] == old(mem[..])
        else
          r == Some(ptr) && blocks == ShrinkBlocks(old(blocks), k, ptr + n) && SameInside(old(mem[..]), mem[..], ptr, ptr + n)
      ensures
        var n, was := newsize, Size(old(blocks), k);
        maxUsedSize == if n <= was then old(maxUsedSize)
                       else if FreeAt(old(blocks), k + 1) && Size(old(blocks), k + 1) + was > n + MINIALLOC then
                         Max(old(maxUsedSize), poolSize - availableSize)
                       else if r == None then old(maxUsedSize)
                       else Peak(old(maxUsedSize), poolSize, AllocBlocks(old(blocks), k2, n))
      ensures
        var n, was := newsize, Size(old(blocks), k);
        if n > was then
          if FreeAt(old(blocks), k + 1) && Size(old(blocks), k + 1) + was > n + MINIALLOC then
            freeList == ResizeFree(old(blocks), old(freeList), k, ptr + n)
          else
            && (r.None? <==> Refuses(old(blocks), old(freeList), old(availableSize), n))
            && (r.None? ==> freeList == old(freeList))
        else if n + HEADER + MINIALLOC >= was then freeList == old(freeList)
        else freeList == ResizeFree(old(blocks), old(freeList), k, ptr + n)
    {
      k2 := 0;
      ghost var bs, m := blocks, mem[..];
      SameAll(m, bs);
      NextOf(links, bs, poolSize, k);
      NextFlag(used, bs, poolSize, k);
      assert RoomAt(bs, k);
      var header := ptr - HEADER;
      var next := links.next[header];
      var oldsize := next - header - HEADER;
      if FreeAt(bs, k + 1) {
        NextOf(links, bs, poolSize, k + 1);
      }
      hide Tiled, NoFreePair, FreeExact, IsList, Ring, Flags, FreeSum, AllocBlocks, AllocFree, ReleaseBlocks,
          ReleaseFree, GrowBlocks,
        ShrinkBlocks, ResizeFree, FirstFit, Fits, SamePayload, SameInside, Wanted, Moved, Peak, Max, Refuses, MovedTo;
      if newsize > oldsize {
        if !used[next] {
          var nextsize := links.next[next] - next - HEADER;
          if nextsize + oldsize > newsize + MINIALLOC {
            Grow(ptr, newsize, k);
            return Some(ptr), k2;
          }
        }
        r, k2 := Move(ptr, oldsize, newsize, k);
        return;
      }
      if newsize + HEADER + MINIALLOC >= oldsize {
        return Some(ptr), k2;
      }
      Shrink(ptr, newsize, k);
      r := Some(ptr);
    }
  }

  /** A fresh heap refuses a request for exactly the payload of its one free block. */
  method RefusesWhole(size: nat) returns (h: MemHeap, r: Option<nat>)
    requires size % 4 == 0 && 2 * HEADER + MINIALLOC <= size < 0x1_0000_0000
    ensures h.Valid() && h.poolSize == size && h.blocks == [Item(0, false), Item(size - HEADER, true)]
    ensures r == None && Size(h.blocks, 0) == Wanted(size - 2 * HEADER) == size - 2 * HEADER
  {
    MemChain.AlignRoundsUp(size - 2 * HEADER);
    h := new MemHeap(size);
    ghost var k;
    r, k := h.Alloc(size - 2 * HEADER);
  }

  /** A block inserted behind block `k`, whatever its use. */
  function CutAt(bs: Items, k: nat, p: nat): Items
    requires k < |bs|
  {
    bs[..k + 1] + [Item(p, false)] + bs[k + 1..]
  }

  lemma CutIsSplit(bs: Items, k: nat, p: nat)
    requires k < |bs|
    ensures CutAt(bs, k, p) == MarkAt(SplitAt(bs, k, p), k, bs[k].used)
    ensures MarkAt(CutAt(bs, k, p), k, true) == SplitAt(bs, k, p)
    ensures bs[k].used ==> CutAt(bs, k, p) == SplitAt(bs, k, p)
  {
  }

  lemma InsertFacts(l: Links, used: map<nat, bool>, bs: Items, pool: nat, k: nat, n: nat)
    requires Tiled(bs, pool) && Ring(l, Offs(bs)) && Flags(used, bs) && k + 1 < |bs|
    requires bs[k].off + HEADER <= n && n + HEADER <= bs[k + 1].off
    ensures var cs, p := CutAt(bs, k, n), bs[k].off;
            && Tiled(cs, pool) && p in l.next && l.next[p] == bs[k + 1].off && Ring(InsertLinks(l, p, n), Offs(cs))
                && Flags(used[n := false], cs)
            && n != l.next[p] && n + HEADER <= pool
  {
    var c := Offs(bs);
    SplitTiled(bs, pool, k, n);
    CutIsSplit(bs, k, n);
    MarkTiled(SplitAt(bs, k, n), pool, k, bs[k].used);
    SplitFree(bs, pool, k, n, n);
    OffsDistinct(bs, pool, k + 1, k + 1);
    RingNeighbours(l, c, k);
    InsertRing(l, c, k, n);
    assert Offs(CutAt(bs, k, n)) == c[..k + 1] + [n] + c[k + 1..];
    var cs, flags := CutAt(bs, k, n), used[n := false];
    forall i | 0 <= i < |cs|
      ensures FlagAt(flags, cs, i)
    {
      if i != k + 1 {
        var j := if i <= k then i else i - 1;
        assert cs[i] == bs[j] && FlagAt(used, bs, j) && c[j] == bs[j].off;
      }
    }
  }

  lemma RemoveFacts(l: Links, used: map<nat, bool>, bs: Items, pool: nat, k: nat)
    requires Tiled(bs, pool) && Ring(l, Offs(bs)) && Flags(used, bs) && k + 2 < |bs|
    ensures var cs, n := MergeAt(bs, k), bs[k + 1].off;
            && Tiled(cs, pool) && n in l.next && n in l.prev && l.prev[n] == bs[k].off && l.next[n] == bs[k + 2].off
            && Ring(BypassLinks(l, n), Offs(cs)) && Flags(used, cs)
  {
    var c := Offs(bs);
    MergeTiled(bs, pool, k);
    RingNeighbours(l, c, k + 1);
    BypassRing(l, c, k + 1);
    MergeOffs(bs, k);
    var cs := MergeAt(bs, k);
    forall i | 0 <= i < |cs|
      ensures FlagAt(used, cs, i)
    {
      var j := if i <= k then i else i + 1;
      assert cs[i] == bs[j] && FlagAt(used, bs, j);
    }
  }

  lemma MarkFlags(used: map<nat, bool>, bs: Items, pool: nat, k: nat, flag: bool)
    requires Tiled(bs, pool) && Flags(used, bs) && k < |bs|
    ensures Flags(used[bs[k].off := flag], MarkAt(bs, k, flag))
  {
    var cs, flags := MarkAt(bs, k, flag), used[bs[k].off := flag];
    forall i | 0 <= i < |cs|
      ensures FlagAt(flags, cs, i)
    {
      OffsDistinct(bs, pool, i, k);
      assert FlagAt(used, bs, i);
    }
  }

  lemma HeadNext(l: Links, head: nat, q: Queue)
    requires IsList(l, head, q)
    ensures head in l.next && (l.next[head] == head || l.next[head] in q)
    ensures l.next[head] == (if q == [] then head else q[0])
  {
    RingNeighbours(l, [head] + q, 0);
    assert q != [] ==> ([head] + q)[1] == q[0];
  }

  lemma ElementLinks(l: Links, head: nat, q: Queue, x: nat)
    requires IsList(l, head, q) && x in q
    ensures x in l.next && x in l.prev && l.next[x] != x && l.prev[x] != x
  {
    var c := [head] + q;
    var i :| 0 <= i < |q| && q[i] == x;
    assert c[i + 1] == x;
    RingNeighbours(l, c, i + 1);
    Distinct(c, i + 1, Succ(i + 1, |c|));
    Distinct(c, i + 1, i);
  }

  /** The free block at offset `x` has room. */
  ghost predicate Fits(bs: Items, x: nat, want: nat) {
    exists k :: 0 <= k < |bs| - 1 && bs[k].off == x && Size(bs, k) >= want
  }

  /** `x` is in the free list, and nothing in front of it fits. */
  ghost predicate FirstFit(bs: Items, free: Queue, x: nat, want: nat) {
    exists i :: 0 <= i < |free| && free[i] == x && forall j :: 0 <= j < i ==> !Fits(bs, free[j], want)
  }

  /** The two refusals of rt_memheap_alloc: the strict test of the counter, or no block in the free list has room. */
  ghost predicate Refuses(bs: Items, free: Queue, available: int, want: nat) {
    want >= available || forall x :: x in free ==> !Fits(bs, x, want)
  }

  lemma RefusesNot(bs: Items, free: Queue, available: int, x: nat, want: nat)
    requires want < available && x in free && Fits(bs, x, want)
    ensures !Refuses(bs, free, available, want)
  {
  }

  lemma FitsIff(bs: Items, pool: nat, k: nat, want: nat)
    requires Tiled(bs, pool) && k + 1 < |bs|
    ensures Fits(bs, bs[k].off, want) <==> Size(bs, k) >= want
  {
    if Fits(bs, bs[k].off, want) {
      var j :| 0 <= j < |bs| - 1 && bs[j].off == bs[k].off && Size(bs, j) >= want;
      OffsDistinct(bs, pool, j, k);
    }
  }

  lemma BlockOf(bs: Items, pool: nat, free: Queue, x: nat) returns (k: nat)
    requires Tiled(bs, pool) && FreeExact(bs, free) && x in free
    ensures k + 1 < |bs| && bs[k] == Item(x, false)
  {
    assert IsFree(bs, x);
    k :| 0 <= k < |bs| && bs[k] == Item(x, false);
  }

  lemma NextOf(l: Links, bs: Items, pool: nat, k: nat)
    requires Ring(l, Offs(bs)) && k + 1 < |bs|
    ensures bs[k].off in l.next && l.next[bs[k].off] == bs[k + 1].off
    ensures bs[k].off in l.prev && l.prev[bs[k].off] == (if k == 0 then bs[|bs| - 1].off else bs[k - 1].off)
  {
    RingNeighbours(l, Offs(bs), k);
  }

  lemma HeaderAway(bs: Items, pool: nat, free: Queue)
    requires Tiled(bs, pool) && FreeExact(bs, free)
    ensures pool !in free
  {
    if pool in free {
      var k := BlockOf(bs, pool, free, pool);
      OffsDistinct(bs, pool, k, k);
    }
  }

  lemma SameAll(m: seq<bv8>, bs: Items)
    ensures forall j :: 0 <= j < |bs| - 1 ==> SamePayload(m, m, bs, j)
  {
  }

  /** A header written into a free block, or behind the payload kept of a used one, misses every other payload. */
  lemma PayloadsKept(bs: Items, pool: nat, m: seq<bv8>, r: seq<bv8>, k: nat, n: nat)
    requires Tiled(bs, pool) && k + 1 < |bs| && SameOutside(m, r, n, n + HEADER)
    requires bs[k].off + HEADER <= n && n + HEADER <= bs[k + 1].off
    ensures forall j :: 0 <= j < |bs| - 1 && j != k ==> SamePayload(m, r, bs, j)
    ensures SameInside(m, r, bs[k].off + HEADER, n)
    ensures !bs[k].used && |m| == |r| ==> OthersKept(m, r, bs, -1)
  {
    forall j | 0 <= j < |bs| - 1 && j != k
      ensures SamePayload(m, r, bs, j)
    {
      OffsDistinct(bs, pool, j, k);
      OffsDistinct(bs, pool, j + 1, k);
      OffsDistinct(bs, pool, k, j);
      OffsDistinct(bs, pool, k + 1, j);
    }
  }

  lemma NewHeaderFree(bs: Items, free: Queue, pool: nat, k: nat, n: nat)
    requires Tiled(bs, pool) && FreeExact(bs, free) && k + 1 < |bs|
    ensures bs[k].off + HEADER <= n && n + HEADER <= bs[k + 1].off ==> n !in free && n != pool && n !in Queues.Remove(free, bs[k].off)
  {
    if bs[k].off + HEADER <= n && n + HEADER <= bs[k + 1].off {
      SplitFree(bs, pool, k, n, n);
      OffsDistinct(bs, pool, k + 1, k + 1);
      RemoveMembers(free, bs[k].off);
    }
  }

  lemma CutLength(bs: Items, k: nat, n: nat)
    requires k + 1 < |bs|
    ensures k + 1 < |CutAt(bs, k, n)| && CutAt(bs, k, n)[k] == bs[k]
  {
  }

  /** What an allocation must leave, by whether the block is split. */
  lemma TakenFacts(bs: Items, free: Queue, pool: nat, k: nat, want: nat)
    requires HeapOk(bs, free, pool) && k + 1 < |bs| && !bs[k].used && Size(bs, k) >= want
    ensures var p, cs, left := bs[k].off + HEADER + want, AllocBlocks(bs, k, want), AllocFree(bs, free, k, want);
            && Tiled(cs, pool) && NoFreePair(cs) && FreeExact(cs, left)
            && k + 1 < |cs| && cs[k] == Item(bs[k].off, true) && want <= Size(cs, k) < want + HEADER + MINIALLOC
            && if Size(bs, k) >= want + HEADER + MINIALLOC then
                 && cs == MarkAt(CutAt(bs, k, p), k, true) && left == [p] + Queues.Remove(free, bs[k].off)
                 && FreeSum(cs) == FreeSum(bs) - want - HEADER
               else
                 && cs == MarkAt(bs, k, true) && left == Queues.Remove(free, bs[k].off)
                 && FreeSum(cs) == FreeSum(bs) - Size(bs, k)
  {
    AllocOk(bs, free, pool, k, want);
    TakenSize(bs, k, want);
    CutIsSplit(bs, k, bs[k].off + HEADER + want);
    assert [] + Queues.Remove(free, bs[k].off) == Queues.Remove(free, bs[k].off);
    hide Tiled, NoFreePair, FreeExact, FreeSum, Queues.Remove;
  }

  /** The predecessor of the first block is the tail, which is in use. */
  lemma PrevFlag(used: map<nat, bool>, bs: Items, pool: nat, k: nat)
    requires Tiled(bs, pool) && Flags(used, bs) && k + 1 < |bs|
    ensures var p := if k == 0 then bs[|bs| - 1].off else bs[k - 1].off;
            p in used && (!used[p] <==> FreeAt(bs, k - 1))
  {
    assert FlagAt(used, bs, if k == 0 then |bs| - 1 else k - 1);
  }

  /** A free successor is not the tail. */
  lemma NextFlag(used: map<nat, bool>, bs: Items, pool: nat, k: nat)
    requires Tiled(bs, pool) && Flags(used, bs) && k + 1 < |bs|
    ensures bs[k + 1].off in used && (!used[bs[k + 1].off] <==> FreeAt(bs, k + 1))
    ensures FreeAt(bs, k + 1) ==> k + 2 < |bs|
  {
    assert FlagAt(used, bs, k + 1);
  }

  lemma ReleaseFacts(bs: Items, free: Queue, pool: nat, k: nat)
    requires Tiled(bs, pool) && FreeExact(bs, free) && k + 1 < |bs| && bs[k].used
    ensures bs[k].off !in free && bs[k].off != pool && Size(bs, k) >= 0
    ensures FreeAt(bs, k + 1) ==> bs[k + 1].off in free
  {
    UsedNotFree(bs, pool, k);
    OffsDistinct(bs, pool, k, k);
    assert RoomAt(bs, k);
    if FreeAt(bs, k + 1) {
      assert bs[k + 1] == Item(bs[k + 1].off, false);
      assert IsFree(bs, bs[k + 1].off);
    }
  }

  lemma ReleaseSteps(bs: Items, k: nat)
    requires k + 1 < |bs|
    ensures LeftIndex(bs, k) + 1 < |MergeLeft(MarkAt(bs, k, false), k)|
    ensures ReleaseBlocks(bs, k) == MergeRight(MergeLeft(MarkAt(bs, k, false), k), LeftIndex(bs, k))
  {
  }

  lemma RemovedStill(free: Queue, y: nat, x: nat)
    requires x !in free
    ensures x !in Queues.Remove(free, y)
  {
    RemoveSubset(free, y);
  }

  lemma GrowFacts(bs: Items, free: Queue, pool: nat, k: nat, n: nat)
    requires HeapOk(bs, free, pool) && k + 2 < |bs| && bs[k].used && !bs[k + 1].used && bs[k + 1].off < n
        && n + HEADER <= bs[k + 2].off
    ensures bs[k + 1].off in free && n != pool && n !in Queues.Remove(free, bs[k + 1].off)
    ensures var m := MergeAt(bs, k);
            && k + 1 < |m| && m[k] == bs[k] && m[k + 1] == bs[k + 2]
            && CutAt(m, k, n) == GrowBlocks(bs, k, n)
    ensures bs[k].off + HEADER <= bs[k + 1].off
  {
    assert bs[k + 1] == Item(bs[k + 1].off, false);
    assert IsFree(bs, bs[k + 1].off);
    OffsDistinct(bs, pool, k + 2, k + 2);
    OffsDistinct(bs, pool, k, k + 1);
    CutIsSplit(MergeAt(bs, k), k, n);
    if n in free {
      var i := BlockOf(bs, pool, free, n);
      OffsDistinct(bs, pool, i, k + 1);
      OffsDistinct(bs, pool, i, k + 2);
      OffsDistinct(bs, pool, k + 1, i);
    }
    RemoveSubset(free, bs[k + 1].off);
  }

  lemma GrowPayloads(bs: Items, pool: nat, m: seq<bv8>, r: seq<bv8>, k: nat, n: nat)
    requires Tiled(bs, pool) && k + 2 < |bs| && !bs[k + 1].used && SameOutside(m, r, n, n + HEADER)
    requires bs[k + 1].off < n && n + HEADER <= bs[k + 2].off
    ensures forall j :: 0 <= j < |bs| - 1 && bs[j].used ==> SamePayload(m, r, bs, j)
  {
    forall j | 0 <= j < |bs| - 1 && bs[j].used
      ensures SamePayload(m, r, bs, j)
    {
      OffsDistinct(bs, pool, j, k + 1);
      OffsDistinct(bs, pool, j + 1, k + 1);
      OffsDistinct(bs, pool, k + 2, j);
      OffsDistinct(bs, pool, k + 1, j);
    }
  }

  lemma ShrinkFacts(bs: Items, free: Queue, pool: nat, k: nat, n: nat)
    requires HeapOk(bs, free, pool) && k + 1 < |bs| && bs[k].used && bs[k].off + HEADER <= n && n + HEADER <= bs[k + 1].off
    ensures n != pool && n !in free && forall y :: n !in Queues.Remove(free, y)
    ensures FreeAt(bs, k + 1) ==> bs[k + 1].off in free
    ensures var cs := SplitAt(bs, k, n);
            && k + 2 < |cs| && cs[k + 1] == Item(n, false) && cs[k + 2] == bs[k + 1]
            && (FreeAt(bs, k + 1) ==> k + 3 < |cs| && k + 2 < |bs| && cs[k + 3] == bs[k + 2])
  {
    SplitFree(bs, pool, k, n, n);
    OffsDistinct(bs, pool, k + 1, k + 1);
    if FreeAt(bs, k + 1) {
      assert bs[k + 1] == Item(bs[k + 1].off, false);
      assert IsFree(bs, bs[k + 1].off);
    }
    forall y
      ensures n !in Queues.Remove(free, y)
    {
      if y >= 0 { RemoveSubset(free, y); }
    }
  }

  /** `n` bytes at `src` before are at `dst` now. */
  ghost predicate Moved(m: seq<bv8>, r: seq<bv8>, dst: nat, src: nat, n: nat) {
    |r| == |m| && dst + n <= |m| && src + n <= |m| && r[dst..dst + n] == m[src..src + n]
  }

  /** Where block `j` is after block `k` was handed out. */
  function TakenIndex(bs: Items, k: nat, want: nat, j: nat): nat
    requires k + 1 < |bs|
  {
    if k < j && Splits(bs, k, want) then j + 1 else j
  }

  /** Block `k` moved to the free block `k2`, whose payload starts at `to`, and was released. */
  ghost predicate MovedTo(bs: Items, free: Queue, cs: Items, left: Queue, k2: nat, k: nat, want: nat, to: nat) {
    && k2 + 1 < |bs| && k + 1 < |bs| && k2 != k && !bs[k2].used && to == bs[k2].off + HEADER
    && TakenIndex(bs, k2, want, k) + 1 < |AllocBlocks(bs, k2, want)|
    && cs == ReleaseBlocks(AllocBlocks(bs, k2, want), TakenIndex(bs, k2, want, k))
    && left == ReleaseFree(AllocBlocks(bs, k2, want), AllocFree(bs, free, k2, want), TakenIndex(bs, k2, want, k))
  }

  lemma WantedAgain(size: nat)
    ensures Wanted(size) < 0x1_0000_0000 && Wanted(Wanted(size)) == Wanted(size)
  {
    var n := MemChain.Align(size);
    assert n % 4 == 0 && n < 0x1_0000_0000 - 3;
    assert (n + 3) % 0x1_0000_0000 == n + 3;
  }

  lemma KeptSelf(m: seq<bv8>, bs: Items, k: int)
    ensures OthersKept(m, m, bs, k)
  {
  }

  lemma PeakIs(high: int, pool: nat, bs: Items)
    ensures Peak(high, pool, bs) == Max(high, pool - FreeSum(bs))
  {
  }

  lemma MoveFacts(bs: Items, pool: nat, k2: nat, want: nat, k: nat)
    requires Tiled(bs, pool) && k2 + 1 < |bs| && k + 1 < |bs| && !bs[k2].used && bs[k].used && Size(bs, k2) >= want
    ensures var cs, j := AllocBlocks(bs, k2, want), TakenIndex(bs, k2, want, k);
            && k != k2 && j + 1 < |cs| && cs[j] == bs[k] && cs[j + 1].off == bs[k + 1].off && j != k2
            && k2 + 1 < |cs| && cs[k2].off == bs[k2].off && Size(cs, k2) >= want
            && Size(bs, k) >= 0
  {
    assert RoomAt(bs, k);
  }

  lemma MoveEnds(bs: Items, free: Queue, cs: Items, left: Queue, k2: nat, k: nat, want: nat, to: nat)
    requires k2 + 1 < |bs| && k + 1 < |bs| && k2 != k && !bs[k2].used && to == bs[k2].off + HEADER
    requires TakenIndex(bs, k2, want, k) + 1 < |AllocBlocks(bs, k2, want)|
    requires cs == ReleaseBlocks(AllocBlocks(bs, k2, want), TakenIndex(bs, k2, want, k))
    requires left == ReleaseFree(AllocBlocks(bs, k2, want), AllocFree(bs, free, k2, want), TakenIndex(bs, k2, want, k))
    ensures MovedTo(bs, free, cs, left, k2, k, want, to)
  {
  }

  /** The two payloads of a move lie apart. */
  lemma TakenApart(bs: Items, cs: Items, pool: nat, k2: nat, want: nat, k: nat)
    requires Tiled(bs, pool) && k2 + 1 < |bs| && k + 1 < |bs| && k != k2 && Size(bs, k2) >= want
    ensures var a, b := bs[k2].off + HEADER, bs[k].off + HEADER;
            && a + want <= pool && bs[k + 1].off <= pool
            && (a + want <= b || bs[k + 1].off <= a)
  {
    OffsDistinct(bs, pool, k2, k);
    OffsDistinct(bs, pool, k, k2);
    OffsDistinct(bs, pool, k2 + 1, k);
    OffsDistinct(bs, pool, k + 1, k2);
    OffsDistinct(bs, pool, k + 1, k + 1);
    OffsDistinct(bs, pool, k2 + 1, k2 + 1);
  }

  lemma MovePayloads(bs: Items, pool: nat, m: seq<bv8>, m1: seq<bv8>, m2: seq<bv8>, k2: nat, want: nat, k: nat,
      to: nat, from: nat, n: nat)
    requires Tiled(bs, pool) && k2 + 1 < |bs| && k + 1 < |bs| && k != k2 && !bs[k2].used && bs[k].used
        && Size(bs, k2) >= want && |m| == pool
    requires OthersKept(m, m1, bs, -1)
    requires to == bs[k2].off + HEADER && from == bs[k].off + HEADER && Size(bs, k) == n <= want
    requires Copied(m1, m2, to, from, n)
    ensures OthersKept(m, m2, bs, k)
    ensures Moved(m, m2, to, from, n)
  {
    assert SamePayload(m, m1, bs, k);
    assert m1[from..from + n] == m[from..from + n];
    forall j | 0 <= j < |bs| - 1 && bs[j].used && j != k
      ensures SamePayload(m, m2, bs, j)
    {
      assert SamePayload(m, m1, bs, j);
      OffsDistinct(bs, pool, j, k2);
      OffsDistinct(bs, pool, k2, j);
      OffsDistinct(bs, pool, k2 + 1, j);
      OffsDistinct(bs, pool, j + 1, k2);
    }
  }
}
