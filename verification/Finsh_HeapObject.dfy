/** The shell heap in its arena. */
module ShellHeap {
  import opened Wrappers
  import opened Queues
  import opened HeapBlocks
  import opened ShellBlocks
  import opened ShellLists
  import opened ShellMerge
  import MemChain

  /** HEAP_ALIGN_SIZE: to a multiple of four, on 32 bits. */
  function AlignSize(size: nat): nat { MemChain.Align(size) }

  // ----- the list functions on the headers -----

  /** finsh_block_insert. Without a successor the header's next is left as it was. */
  method BlockInsert(next: array<Option<nat>>, list: Option<nat>, header: nat, ghost q: Queue) returns (r: Option<nat>)
    requires Linked(next[..], list, q) && Ascending(q) && header < next.Length && header !in q
        && forall y :: y in q ==> y < next.Length
    modifies next
    ensures next[..] == InsertWrites(old(next[..]), q, Below(q, header), header)
    ensures r == if Below(q, header) == 0 then Some(header) else list
  {
    ghost var was := next[..];
    BelowSplits(q, header);
    if list == None {
      return Some(header);
    }
    assert NodeAt(was, q, 0);
    if list.value > header {
      BelowUnique(q, header, 0);
      next[header] := list;
      assert next[..] == InsertWrites(was, q, 0, header);
      return Some(header);
    }
    var node := list.value;
    ghost var i := 0;
    assert q[0] in q;
    while true
      invariant 0 <= i < |q| && node == q[i] && q[i] < header && next[..] == was
      decreases |q| - i
    {
      assert NodeAt(was, q, i);
      if next[node] == None {
        break;
      }
      if next[node].value > header {
        break;
      }
      assert q[i + 1] in q;
      node := next[node].value;
      i := i + 1;
    }
    assert NodeAt(was, q, i);
    BelowUnique(q, header, i + 1);
    if next[node] != None {
      next[header] := next[node];
    }
    next[node] := Some(header);
    assert next[..] == InsertWrites(was, q, i + 1, header);
    r := list;
  }

  /** finsh_block_remove. Only the head of a list has its next cleared. */
  method BlockRemove(next: array<Option<nat>>, list: Option<nat>, header: nat, ghost q: Queue, ghost i: nat)
      returns (r: Option<nat>)
    requires Linked(next[..], list, q) && Ascending(q) && i < |q| && q[i] == header
    modifies next
    ensures header < next.Length && Linked(next[..], r, WithoutAt(q, i))
    ensures next[header] == if i == 0 then None else old(next[header])
    ensures WritesOn(old(next[..]), next[..], q)
  {
    ghost var was := next[..];
    UnlinkAt(was, list, q, i);
    AscendingDistinct(q, 0, i);
    var node := list;
    if node == Some(header) {
      r := next[header];
      next[header] := None;
      assert next[..] == was[header := None];
      return;
    }
    r := list;
    ghost var j := 0;
    while node != None
      invariant 0 <= j < i && node == Some(q[j]) && next[..] == was
      decreases i - j
    {
      assert NodeAt(was, q, j);
      AscendingDistinct(q, j + 1, i);
      if next[node.value] == Some(header) {
        next[node.value] := next[header];
        assert next[..] == was[q[i - 1] := was[header]];
        return;
      }
      node := next[node.value];
      j := j + 1;
    }
  }

  /** finsh_block_merge of the node at position `i`. */
  method BlockMerge(next: array<Option<nat>>, lens: array<nat>, list: Option<nat>, header: nat, ghost q: Queue, ghost i: nat)
    requires next != lens as object && next.Length == lens.Length
    requires Linked(next[..], list, q) && Ascending(q) && i < |q| && q[i] == header && forall y :: y in q ==> y < lens.Length
    modifies next, lens
    ensures Linked(next[..], list, MergedQueue(q, i, TouchesLeft(old(lens[..]), q, i), TouchesRight(old(lens[..]), q, i)))
    ensures lens[..] == MergedLengths(old(lens[..]), q, i)
    ensures WritesOn(old(next[..]), next[..], q)
  {
    ghost var was, ls := next[..], lens[..];
    assert NodeAt(was, q, i) && q[i] in q && (i > 0 ==> q[i - 1] in q) && (i + 1 < |q| ==> q[i + 1] in q);
    ghost var left, right := TouchesLeft(ls, q, i), TouchesRight(ls, q, i);
    MergedLinked(was, list, q, i, left, right);
    var nextNode := next[header];
    var prevNode := FindPrevious(next, list, header, q, i);
    if prevNode != None && prevNode.value + lens[prevNode.value] + BLOCK_HEADER == header {
      if nextNode != None && header + lens[header] + BLOCK_HEADER == nextNode.value {
        lens[prevNode.value] := lens[prevNode.value] + lens[header] + lens[nextNode.value] + 2 * BLOCK_HEADER;
        next[prevNode.value] := next[nextNode.value];
      } else {
        lens[prevNode.value] := lens[prevNode.value] + lens[header] + BLOCK_HEADER;
        next[prevNode.value] := next[header];
      }
      assert next[..] == was[q[i - 1] := if right then was[q[i + 1]] else was[q[i]]];
    } else if nextNode != None && header + lens[header] + BLOCK_HEADER == nextNode.value {
      lens[header] := lens[header] + lens[nextNode.value] + BLOCK_HEADER;
      next[header] := next[nextNode.value];
      assert next[..] == was[q[i] := was[q[i + 1]]];
    } else {
      assert was[q[i] := was[q[i]]] == was;
    }
    assert lens[..] == MergedLengths(ls, q, i);
  }

  method FindPrevious(next: array<Option<nat>>, list: Option<nat>, header: nat, ghost q: Queue, ghost i: nat)
      returns (r: Option<nat>)
    requires Linked(next[..], list, q) && Ascending(q) && i < |q| && q[i] == header
    ensures r == if i == 0 then None else Some(q[i - 1])
  {
    AscendingDistinct(q, 0, i);
    if list == Some(header) {
      return None;
    }
    r := list;
    ghost var j := 0;
    while r != None
      invariant 0 <= j < i && r == Some(q[j])
      decreases i - j
    {
      assert NodeAt(next[..], q, j);
      AscendingDistinct(q, j + 1, i);
      if next[r.value] == Some(header) {
        return;
      }
      r := next[r.value];
      j := j + 1;
    }
  }

  /**
   * finsh_block_split: the rest of the block follows it in the free list, every header holds the length of its block in the
   * divided arena, and no header of a used block is written.
   */
  method BlockSplit(next: array<Option<nat>>, lens: array<nat>, header: nat, size: nat,
      ghost list: Option<nat>, ghost bs: Items, ghost top: nat, ghost k: nat)
    requires next.Length == lens.Length == top && next != lens as object && k < |bs| && bs[k] == Item(header, false)
    requires Arena(bs, top) && Lengths(lens[..], bs, top) && Length(bs, k, top) >= size + BLOCK_HEADER
    requires Linked(next[..], list, Pick(bs, false))
    modifies next, lens
    ensures var p := header + BLOCK_HEADER + size;
            && Linked(next[..], list, Cut(bs, k, p)) && WritesOn(old(next[..]), next[..], Cut(bs, k, p))
            && Lengths(lens[..], SplitAt(bs, k, p), top)
    ensures forall x :: x in Pick(bs, true) && x < top ==> lens[x] == old(lens[x])
  {
    ghost var was, ls := next[..], lens[..];
    var p := header + BLOCK_HEADER + size;
    assert LengthAt(ls, bs, k, top) && CutFits(bs, top, k, p);
    CutSplices(bs, top, k, p, was, list);
    SplitLengths(bs, ls, top, k, p);
    KeptLengths(bs, top, k, p, ls, size);
    hide *;
    assert lens[header] == Length(bs, k, top);
    lens[p] := lens[header] - BLOCK_HEADER - size;
    lens[header] := size;
    next[p] := next[header];
    next[header] := Some(p);
    assert next[..] == was[p := was[header]][header := Some(p)];
    assert lens[..] == ls[p := ls[header] - (p - header)][header := size];
  }

  // ----- the heap -----

  /** A shell variable: whether its type is known, and its pointer value. */
  datatype Variable = Variable(known: bool, ptr: nat)

  predicate Live(vars: seq<Variable>, data: nat) {
    exists i :: 0 <= i < |vars| && vars[i].known && vars[i].ptr == data
  }

  /** The list work of finsh_heap_free. */
  method ReleaseBlock(next: array<Option<nat>>, length: array<nat>, free: Option<nat>, alloc: Option<nat>, header: nat,
      ghost bs: Items, ghost top: nat, ghost k: nat)
    returns (f: Option<nat>, a: Option<nat>)
    requires next.Length == length.Length == top && next != length as object && k < |bs| && bs[k] == Item(header, true)
    requires Arena(bs, top) && Lengths(length[..], bs, top) && Lists(next[..], free, alloc, bs)
    modifies next, length
    ensures k + 1 < |bs| && Arena(ReleaseBlocks(bs, k), top) && Lengths(length[..], ReleaseBlocks(bs, k), top)
        && Lists(next[..], f, a, ReleaseBlocks(bs, k))
    ensures forall x :: x in Pick(ReleaseBlocks(bs, k), true) && x < top ==> length[x] == old(length[x])
  {
    ghost var was, lens := next[..], length[..];
    UsedLeaves(bs, top, k, was, free, alloc);
    FreedNode(bs, k);
    hide Pick, Arena, Spaced, ReleaseBlocks, Freed, Rank, MergedLengths, MergedQueue, WithoutAt, Lengths, InsertWrites,
        Linked, Ascending, TouchesLeft, TouchesRight;
    a := BlockRemove(next, alloc, header, Pick(bs, true), Rank(bs, k, true));
    ghost var taken := next[..];
    FreedEnters(bs, top, k, taken, free);
    f := BlockInsert(next, free, header, Pick(bs, false));
    InsertFrame(taken, Pick(bs, false), Rank(bs, k, false), header, Freed(bs, k));
    ReleasedLensFrame(bs, top, k, lens);
    BlockMerge(next, length, f, header, Freed(bs, k), Rank(bs, k, false));
    Released(bs, top, k, lens, taken, next[..], f, a);
  }

  /** The block is split and leaves the free list, its next cleared. */
  method CutBlock(next: array<Option<nat>>, length: array<nat>, free: Option<nat>, header: nat, size: nat,
      ghost bs: Items, ghost top: nat, ghost k: nat)
    returns (f: Option<nat>)
    requires next.Length == length.Length == top && next != length as object && k < |bs| && bs[k] == Item(header, false)
    requires Arena(bs, top) && Lengths(length[..], bs, top) && Length(bs, k, top) >= size + BLOCK_HEADER
    requires Linked(next[..], free, Pick(bs, false))
    modifies next, length
    ensures header < top && Linked(next[..], f, Pick(SplitAt(bs, k, header + BLOCK_HEADER + size), false)) && next[header] == None
    ensures WritesOn(old(next[..]), next[..], Cut(bs, k, header + BLOCK_HEADER + size))
    ensures Lengths(length[..], SplitAt(bs, k, header + BLOCK_HEADER + size), top)
    ensures forall x :: x in Pick(bs, true) && x < top ==> length[x] == old(length[x])
  {
    ghost var p, was := header + BLOCK_HEADER + size, next[..];
    assert CutFits(bs, top, k, p);
    CutSplices(bs, top, k, p, was, free);
    hide *;
    BlockSplit(next, length, header, size, free, bs, top, k);
    ghost var cut := next[..];
    f := BlockRemove(next, free, header, Cut(bs, k, p), Rank(bs, k, false));
    ghost var taken := next[..];
    next[header] := None;
    assert next[..] == taken[header := None];
    CutCleared(bs, top, k, p, was, cut, taken, f);
  }

  lemma CutSplices(bs: Items, top: nat, k: nat, p: nat, was: NextFields, free: Option<nat>)
    requires Arena(bs, top) && k < |bs| && CutFits(bs, top, k, p) && Linked(was, free, Pick(bs, false)) && |was| == top
    ensures var x, cuts, i := bs[k].off, Cut(bs, k, p), Rank(bs, k, false);
            && x < p < top
            && Linked(was[p := was[x]][x := Some(p)], free, cuts) && WritesOn(was, was[p := was[x]][x := Some(p)], cuts)
            && Ascending(cuts) && i < |cuts| && cuts[i] == x && WithoutAt(cuts, i) == Pick(SplitAt(bs, k, p), false)
  {
    var x, cuts := bs[k].off, Cut(bs, k, p);
    AtDistinct(bs, top, k + 1, |bs|);
    CutShape(bs, top, k, p);
    UsedKept(bs, top, k, p);
    hide *;
    SpliceAfter(was, free, Pick(bs, false), Rank(bs, k, false), p);
    WriteOne(was, p, was[x], cuts);
    WriteOne(was[p := was[x]], x, Some(p), cuts);
    WritesThen(was, was[p := was[x]], was[p := was[x]][x := Some(p)], cuts);
  }

  lemma CutCleared(bs: Items, top: nat, k: nat, p: nat, was: NextFields, cut: NextFields, taken: NextFields, f: Option<nat>)
    requires Arena(bs, top) && k < |bs| && CutFits(bs, top, k, p) && Linked(taken, f, Pick(SplitAt(bs, k, p), false))
    requires WritesOn(was, cut, Cut(bs, k, p)) && WritesOn(cut, taken, Cut(bs, k, p)) && bs[k].off < |taken|
    ensures Linked(taken[bs[k].off := None], f, Pick(SplitAt(bs, k, p), false))
        && WritesOn(was, taken[bs[k].off := None], Cut(bs, k, p))
  {
    var x, cuts := bs[k].off, Cut(bs, k, p);
    UsedKept(bs, top, k, p);
    hide *;
    WritesThen(was, cut, taken, cuts);
    WriteOne(taken, x, None, [x]);
    WriteOne(taken, x, None, cuts);
    WritesThen(was, taken, taken[x := None], cuts);
    LinkedFrame(taken, taken[x := None], f, Pick(SplitAt(bs, k, p), false), [x]);
  }

  /** The list work of finsh_heap_allocate: the block is split, leaves the free list and enters the used list. */
  method SplitBlock(next: array<Option<nat>>, length: array<nat>, free: Option<nat>, alloc: Option<nat>, header: nat,
      size: nat, ghost bs: Items, ghost top: nat, ghost k: nat)
    returns (f: Option<nat>, a: Option<nat>)
    requires next.Length == length.Length == top && next != length as object && k < |bs| && bs[k] == Item(header, false)
    requires Arena(bs, top) && Lengths(length[..], bs, top) && Lists(next[..], free, alloc, bs)
        && Length(bs, k, top) >= size + BLOCK_HEADER
    modifies next, length
    ensures var cs := SplitAt(bs, k, header + BLOCK_HEADER + size); Arena(cs, top) && Lengths(length[..], cs, top) && Lists(next[..], f, a, cs)
    ensures forall x :: x in Pick(bs, true) && x < top ==> length[x] == old(length[x])
  {
    ghost var p, was := header + BLOCK_HEADER + size, next[..];
    assert CutFits(bs, top, k, p);
    assert Linked(was, free, Pick(bs, false)) && Linked(was, alloc, Pick(bs, true));
    hide *;
    f := CutBlock(next, length, free, header, size, bs, top, k);
    CutApart(bs, top, k, p, was, next[..], alloc);
    UsedEnters(bs, top, k, p, next[..], f, alloc);
    a := BlockInsert(next, alloc, header, Pick(bs, true));
  }

  method IsLive(vars: seq<Variable>, data: nat) returns (live: bool)
    ensures live == Live(vars, data)
  {
    var i := 0;
    while i < |vars|
      invariant 0 <= i <= |vars| && forall j :: 0 <= j < i ==> !(vars[j].known && vars[j].ptr == data)
    {
      if vars[i].known && vars[i].ptr == data {
        return true;
      }
      i := i + 1;
    }
    live := false;
  }

  /** The used blocks whose data a variable points to. */
  function Lives(q: Queue, vars: seq<Variable>): Queue {
    if q == [] then [] else (if Live(vars, q[0] + BLOCK_HEADER) then [q[0]] else []) + Lives(q[1..], vars)
  }

  lemma {:induction false} LivesStep(q: Queue, vars: seq<Variable>, x: nat)
    ensures Lives(q + [x], vars) == Lives(q, vars) + if Live(vars, x + BLOCK_HEADER) then [x] else []
  {
    if q == [] {
      assert (q + [x])[1..] == [];
    } else {
      LivesStep(q[1..], vars, x);
      assert (q + [x])[1..] == q[1..] + [x];
      hide Live;
      Assoc(if Live(vars, q[0] + BLOCK_HEADER) then [q[0]] else [], Lives(q[1..], vars),
            if Live(vars, x + BLOCK_HEADER) then [x] else []);
    }
  }

  /** A collection in progress: the first `i` used blocks have been looked at. */
  function Looked(q: Queue, i: nat, vars: seq<Variable>): Queue
    requires i <= |q|
  {
    Lives(q[..i], vars) + q[i..]
  }

  lemma LookedEnds(q: Queue, vars: seq<Variable>)
    ensures Looked(q, 0, vars) == q && Looked(q, |q|, vars) == Lives(q, vars)
  {
    assert q[..|q|] == q && q[|q|..] == [];
  }

  lemma HeadOf(next: NextFields, start: Option<nat>, q: Queue)
    requires Linked(next, start, q)
    ensures start == Nth(q, 0)
  {
  }

  lemma LinkedNode(next: NextFields, start: Option<nat>, q: Queue, i: nat)
    requires Linked(next, start, q) && i < |q|
    ensures NodeAt(next, q, i)
  {
  }

  lemma LookedNode(q: Queue, i: nat, vars: seq<Variable>)
    requires i < |q|
    ensures var c, r := Looked(q, i, vars), |Lives(q[..i], vars)|;
            && r < |c| && c[r] == q[i] && Nth(c, r + 1) == Nth(q, i + 1)
            && Looked(q, i + 1, vars) == if Live(vars, q[i] + BLOCK_HEADER) then c else WithoutAt(c, r)
  {
    LivesStep(q[..i], vars, q[i]);
    assert q[..i + 1] == q[..i] + [q[i]];
    var l := Lives(q[..i], vars);
    assert Looked(q, i, vars) == l + q[i..] && Looked(q, i + 1, vars) == Lives(q[..i + 1], vars) + q[i + 1..];
    hide *;
    SkipNode(l, q, i);
  }

  lemma SkipNode(l: Queue, q: Queue, i: nat)
    requires i < |q|
    ensures (l + q[i..])[|l|] == q[i] && Nth(l + q[i..], |l| + 1) == Nth(q, i + 1)
    ensures l + [q[i]] + q[i + 1..] == l + q[i..] && l + [] + q[i + 1..] == WithoutAt(l + q[i..], |l|)
  {
  }

  class ShellHeap {
    /** FINSH_HEAP_MAX */
    const top: nat
    const next: array<Option<nat>>
    const length: array<nat>
    var freeList: Option<nat>
    var allocList: Option<nat>
    ghost var blocks: Items

    ghost predicate Valid()
      reads this, next, length
    {
      && next.Length == length.Length == top && next != length as object
      && Arena(blocks, top) && Lengths(length[..], blocks, top) && Lists(next[..], freeList, allocList, blocks)
    }

    /** finsh_heap_init */
    constructor (top: nat)
      requires top > BLOCK_HEADER
      ensures Valid() && this.top == top && blocks == [Item(0, false)] && fresh(next) && fresh(length)
    {
      this.top := top;
      next := new Option<nat>[top](_ => None);
      length := new nat[top](_ => 0);
      freeList, allocList := Some(0), None;
      blocks := [Item(0, false)];
      new;
      length[0] := top - BLOCK_HEADER;
      assert Holds(blocks, 0, top) && LengthAt(length[..], blocks, 0, top);
      assert blocks[1..] == [];
      assert Pick(blocks, false) == [0] && Pick(blocks, true) == [];
      assert NodeAt(next[..], [0], 0);
    }

    /** The two first-fit searches: the first free block longer than, or as long as, the size and a header. */
    method Search(size: nat, strict: bool) returns (r: Option<nat>, ghost k: nat)
      requires Valid()
      ensures if r == None then NoFit(blocks, size, strict, top) else FirstFit(blocks, k, size, strict, top) && blocks[k].off == r.value
    {
      ghost var q := Pick(blocks, false);
      k := 0;
      ghost var i := 0;
      r := freeList;
      SkippedNone(blocks, 0);
      while r != None
        invariant 0 <= i <= |q| && r == Nth(q, i)
        invariant Skipped(blocks, i, k) && k <= |blocks|
        invariant forall j :: 0 <= j < k && !blocks[j].used ==> !Fits(blocks, j, size, strict, top)
        decreases |q| - i
      {
        assert NodeAt(next[..], q, i);
        k := NextFree(blocks, i, k);
        assert LengthAt(length[..], blocks, k, top);
        if Longer(length[r.value], size, strict) {
          return;
        }
        r := next[r.value];
        i := i + 1;
        k := k + 1;
      }
      SkippedAll(blocks, i, k);
    }

    /** finsh_heap_free of the data behind the header of block `k`. */
    method Free(ptr: nat, ghost k: nat)
      requires Valid() && k < |blocks| && ptr >= BLOCK_HEADER && blocks[k] == Item(ptr - BLOCK_HEADER, true)
      modifies this, next, length
      ensures Valid() && k + 1 < old(|blocks|) && blocks == ReleaseBlocks(old(blocks), k)
      ensures Rank(old(blocks), k, true) < old(|Pick(blocks, true)|)
      ensures Pick(blocks, true) == WithoutAt(old(Pick(blocks, true)), Rank(old(blocks), k, true))
      ensures forall x :: x in Pick(blocks, true) && x < top ==> length[x] == old(length[x])
    {
      ghost var bs := blocks;
      freeList, allocList := ReleaseBlock(next, length, freeList, allocList, ptr - BLOCK_HEADER, bs, top, k);
      blocks := ReleaseBlocks(bs, k);
      RankIsBelow(bs, top, k);
      ReleasePicks(bs, k);
    }

    /** finsh_heap_gc: exactly the blocks a variable points to stay, with their lengths. */
    method Gc(vars: seq<Variable>)
      requires Valid()
      modifies this, next, length
      ensures Valid() && Pick(blocks, true) == Lives(old(Pick(blocks, true)), vars)
      ensures forall x :: x in Pick(blocks, true) && x < top ==> length[x] == old(length[x])
    {
      var header := allocList;
      ghost var q, i := Pick(blocks, true), 0;
      LookedEnds(q, vars);
      hide Lives, Looked, Pick, Arena, Lengths, Linked, WithoutAt, ReleaseBlocks;
      HeadOf(next[..], allocList, q);
      while header != None
        invariant Valid() && 0 <= i <= |q| && header == Nth(q, i)
        invariant Pick(blocks, true) == Looked(q, i, vars)
        invariant forall x :: x in Pick(blocks, true) && x < top ==> length[x] == old(length[x])
        decreases |q| - i
      {
        var live := IsLive(vars, header.value + BLOCK_HEADER);
        ghost var r, bs := |Lives(q[..i], vars)|, blocks;
        LookedNode(q, i, vars);
        LinkedNode(next[..], allocList, Pick(bs, true), r);
        ghost var k := NodeBlock(bs, top, r);
        var temp := header;
        header := next[header.value];
        if !live {
          Free(temp.value + BLOCK_HEADER, k);
          WithoutMembers(Looked(q, i, vars), r);
        }
        i := i + 1;
      }
    }

    /**
     * finsh_heap_allocate. When no free block is longer than the request, the unreferenced blocks are collected and a block
     * that is just as long will do. `mid` is the arena the block is taken from.
     */
    method Allocate(request: nat, vars: seq<Variable>) returns (r: Option<nat>, ghost mid: Items, ghost k: nat)
      requires Valid() && request < 0x1_0000_0000 && AlignSize(request) + BLOCK_HEADER < 0x1_0000_0000
      modifies this, next, length
      ensures Valid()
      ensures var size, was := AlignSize(request), old(blocks);
              if NoFit(was, size, true, top) then
                && Pick(mid, true) == Lives(Pick(was, true), vars)
                && (r == None <==> NoFit(mid, size, false, top)) && (r != None ==> FirstFit(mid, k, size, false, top))
              else
                mid == was && r != None && FirstFit(mid, k, size, true, top)
      ensures if r == None then blocks == mid else
              k < |mid| && r == Some(mid[k].off + BLOCK_HEADER)
                  && blocks == SplitAt(mid, k, mid[k].off + BLOCK_HEADER + AlignSize(request))
      ensures if r == None then NoRoom(blocks, AlignSize(request), top) else
              k < |blocks| && r == Some(blocks[k].off + BLOCK_HEADER) && blocks[k].used && Length(blocks, k, top) == AlignSize(request)
      ensures forall x :: x in Pick(mid, true) && x < top ==> length[x] == old(length[x])
    {
      var size := AlignSize(request);
      hide Pick, Arena, Lengths, Lists, SplitAt, FirstFit, NoFit;
      var header;
      header, k := FindBlock(size, vars);
      mid := blocks;
      if header == None {
        return None, mid, k;
      }
      FirstFits(mid, k, size, header.value, top);
      AllocatedSize(mid, top, k, size);
      TakeBlock(header.value, size, k);
      r := Some(header.value + BLOCK_HEADER);
    }

    /** The two searches of finsh_heap_allocate, with the collection between them. */
    method FindBlock(size: nat, vars: seq<Variable>) returns (r: Option<nat>, ghost k: nat)
      requires Valid() && size + BLOCK_HEADER < 0x1_0000_0000
      modifies this, next, length
      ensures Valid()
      ensures if NoFit(old(blocks), size, true, top) then
                && Pick(blocks, true) == Lives(old(Pick(blocks, true)), vars)
                && if r == None then NoFit(blocks, size, false, top) && NoRoom(blocks, size, top)
                   else FirstFit(blocks, k, size, false, top)
              else blocks == old(blocks) && r != None && FirstFit(blocks, k, size, true, top)
      ensures r != None ==> k < |blocks| && blocks[k].off == r.value
      ensures forall x :: x in Pick(blocks, true) && x < top ==> length[x] == old(length[x])
    {
      hide Pick, Arena, Lengths, Lists, Lives;
      r, k := Search(size, true);
      if r == None {
        Gc(vars);
        r, k := Search(size, false);
        if r == None {
          NoFitNoRoom(blocks, size, top);
        }
      } else {
        FitsSome(blocks, k, size, true, top);
      }
    }

    method TakeBlock(header: nat, size: nat, ghost k: nat)
      requires Valid() && k < |blocks| && blocks[k] == Item(header, false) && Length(blocks, k, top) >= size + BLOCK_HEADER
      modifies this, next, length
      ensures Valid() && blocks == SplitAt(old(blocks), k, header + BLOCK_HEADER + size)
      ensures forall x :: x in old(Pick(blocks, true)) && x < top ==> length[x] == old(length[x])
    {
      ghost var bs := blocks;
      freeList, allocList := SplitBlock(next, length, freeList, allocList, header, size, bs, top, k);
      blocks := SplitAt(bs, k, header + BLOCK_HEADER + size);
    }
  }

  predicate NoFit(bs: Items, size: nat, strict: bool, top: nat) {
    forall j :: 0 <= j < |bs| && !bs[j].used ==> !Fits(bs, j, size, strict, top)
  }

  predicate FirstFit(bs: Items, k: nat, size: nat, strict: bool, top: nat) {
    k < |bs| && !bs[k].used && Fits(bs, k, size, strict, top) && forall j :: 0 <= j < k && !bs[j].used ==> !Fits(bs, j, size, strict, top)
  }

  /** Neither header the split writes belongs to a used block. */
  lemma UsedKept(bs: Items, top: nat, k: nat, p: nat)
    requires Arena(bs, top) && k < |bs| && CutFits(bs, top, k, p)
    ensures bs[k].off !in Pick(bs, true) && p !in Pick(bs, true) && bs[k].off !in Pick(SplitAt(bs, k, p), false)
    ensures bs[k].off in Cut(bs, k, p) && p in Cut(bs, k, p)
  {
    SplitArena(bs, top, k, p);
    SplitPicks(bs, k, p);
    PicksApart(SplitAt(bs, k, p), top, bs[k].off);
    hide Pick, SplitAt;
    PickMembers(bs, true, bs[k].off);
    PickMembers(bs, true, p);
    forall j | 0 <= j < |bs| && bs[j].used
      ensures bs[j].off != bs[k].off && bs[j].off != p
    {
      AtDistinct(bs, top, j, k);
      AtDistinct(bs, top, j, k + 1);
    }
  }

  lemma KeptLengths(bs: Items, top: nat, k: nat, p: nat, lens: seq<nat>, size: nat)
    requires Arena(bs, top) && k < |bs| && CutFits(bs, top, k, p) && |lens| == top && bs[k].off < p < top
        && lens[bs[k].off] >= p - bs[k].off
    ensures forall x :: x in Pick(bs, true) && x < top ==> lens[p := lens[bs[k].off] - (p - bs[k].off)][bs[k].off := size][x] == lens[x]
  {
    UsedKept(bs, top, k, p);
    hide *;
  }

  lemma NodeBlock(bs: Items, top: nat, r: nat) returns (k: nat)
    requires Arena(bs, top) && r < |Pick(bs, true)|
    ensures k < |bs| && bs[k] == Item(Pick(bs, true)[r], true) && Rank(bs, k, true) == r
  {
    var q := Pick(bs, true);
    assert q[r] in q;
    PickMembers(bs, true, q[r]);
    k :| 0 <= k < |bs| && bs[k] == Item(q[r], true);
    RankIsBelow(bs, top, k);
    PickAscending(bs, true, top);
    AscendingDistinct(q, Rank(bs, k, true), r);
  }

  lemma WithoutMembers(q: Queue, i: nat)
    requires i < |q|
    ensures forall x :: x in WithoutAt(q, i) ==> x in q
  {
  }

  /** The test of the search loops: `size + sizeof(header)` in 32 bits. */
  predicate Longer(len: nat, size: nat, strict: bool) {
    var need := (size + BLOCK_HEADER) % 0x1_0000_0000;
    if strict then len > need else len >= need
  }

  /** The test finds room for the block and the next header exactly when the sum does not wrap. */
  lemma LongerIff(size: nat, strict: bool)
    requires size < 0x1_0000_0000 && size % 4 == 0
    ensures (forall len: nat :: Longer(len, size, strict) ==> len >= size + BLOCK_HEADER) <==> size + BLOCK_HEADER < 0x1_0000_0000
  {
    if size + BLOCK_HEADER >= 0x1_0000_0000 {
      assert size == 0xFFFF_FFF8 || size == 0xFFFF_FFFC;
      assert Longer(5, size, strict);
    }
  }

  /** Without a wrap the first search wants more than the block and the next header take, the second one accepts an exact fit. */
  lemma LongerExact(len: nat, size: nat)
    requires size + BLOCK_HEADER < 0x1_0000_0000
    ensures Longer(len, size, true) <==> len > size + BLOCK_HEADER
    ensures Longer(len, size, false) <==> len >= size + BLOCK_HEADER
  {
  }

  /** After an allocation the block has exactly the aligned size. */
  lemma AllocatedSize(bs: Items, top: nat, k: nat, size: nat)
    requires k < |bs|
    ensures var cs := SplitAt(bs, k, bs[k].off + BLOCK_HEADER + size);
            && k < |cs| && cs[k] == Item(bs[k].off, true) && Length(cs, k, top) == size
            && cs[..k] == bs[..k] && cs[k + 2..] == bs[k + 1..]
  {
  }

  lemma FitsSome(bs: Items, k: nat, size: nat, strict: bool, top: nat)
    requires FirstFit(bs, k, size, strict, top)
    ensures k < |bs| && !NoFit(bs, size, strict, top)
  {
  }

  /** A block found has room for the size and the next header. */
  lemma FirstFits(bs: Items, k: nat, size: nat, header: nat, top: nat)
    requires FirstFit(bs, k, size, true, top) || FirstFit(bs, k, size, false, top)
    requires k < |bs| && bs[k].off == header && size + BLOCK_HEADER < 0x1_0000_0000
    ensures bs[k] == Item(header, false) && Length(bs, k, top) >= size + BLOCK_HEADER
    ensures !NoFit(bs, size, false, top)
  {
    LongerExact(Length(bs, k, top), size);
    assert Fits(bs, k, size, false, top);
  }

  /** No free block has room for the size and the next header. */
  predicate NoRoom(bs: Items, size: nat, top: nat) {
    forall j :: 0 <= j < |bs| && !bs[j].used ==> Length(bs, j, top) < size + BLOCK_HEADER
  }

  lemma NoFitNoRoom(bs: Items, size: nat, top: nat)
    requires NoFit(bs, size, false, top) && size + BLOCK_HEADER < 0x1_0000_0000
    ensures NoRoom(bs, size, top)
  {
    forall j | 0 <= j < |bs| && !bs[j].used
      ensures Length(bs, j, top) < size + BLOCK_HEADER
    {
      assert !Fits(bs, j, size, false, top);
      if Length(bs, j, top) >= 0 { LongerExact(Length(bs, j, top), size); }
    }
  }

  /** A request of almost 4 GiB passes the test on a fresh heap of any size that leaves a byte beside the header. */
  method WrappedSearch(top: nat) returns (h: ShellHeap, r: Option<nat>)
    requires BLOCK_HEADER < top < 0xFFFF_FFF8
    ensures h.Valid() && h.blocks == [Item(0, false)] && r == Some(0) && Length(h.blocks, 0, top) < 0xFFFF_FFF8
  {
    h := new ShellHeap(top);
    ghost var bs, k := h.blocks, 0;
    assert Fits(bs, 0, 0xFFFF_FFF8, true, top);
    r, k := h.Search(0xFFFF_FFF8, true);
  }

  predicate Fits(bs: Items, k: nat, size: nat, strict: bool, top: nat)
    requires k < |bs|
  {
    Length(bs, k, top) >= 0 && Longer(Length(bs, k, top), size, strict)
  }

  /** The first `i` free blocks lie below position `k`, and no others. */
  ghost predicate Skipped(bs: Items, i: nat, k: nat) {
    k <= |bs| && i == |Pick(bs[..k], false)|
  }

  lemma SkippedNone(bs: Items, k: nat)
    ensures Skipped(bs, 0, 0)
  {
  }

  lemma NextFree(bs: Items, i: nat, k: nat) returns (j: nat)
    requires Skipped(bs, i, k) && i < |Pick(bs, false)|
    ensures k <= j < |bs| && bs[j] == Item(Pick(bs, false)[i], false) && Skipped(bs, i + 1, j + 1)
    ensures forall n :: k <= n < j ==> bs[n].used
  {
    j := k;
    PickWhole(bs, k);
    while bs[j].used
      invariant k <= j < |bs| && Skipped(bs, i, j)
      invariant forall n :: k <= n < j ==> bs[n].used
      decreases |bs| - j
    {
      PickStep(bs, j);
      PickWhole(bs, j + 1);
      j := j + 1;
    }
    PickStep(bs, j);
    PickSplit(bs, j);
  }

  lemma PickStep(bs: Items, j: nat)
    requires j < |bs|
    ensures Pick(bs[..j + 1], false) == Pick(bs[..j], false) + One(bs[j], false)
  {
    assert bs[..j + 1] == bs[..j] + [bs[j]];
    PickConcat(bs[..j], [bs[j]], false);
    assert [bs[j]][1..] == [];
  }

  lemma PickWhole(bs: Items, k: nat)
    requires k <= |bs|
    ensures Pick(bs, false) == Pick(bs[..k], false) + Pick(bs[k..], false)
    ensures k == |bs| ==> Pick(bs[..k], false) == Pick(bs, false)
  {
    PickConcat(bs[..k], bs[k..], false);
    assert bs == bs[..k] + bs[k..];
    assert k == |bs| ==> bs[..k] == bs;
  }

  /** When the list is exhausted every free block was seen. */
  lemma SkippedAll(bs: Items, i: nat, k: nat)
    requires Skipped(bs, i, k) && i == |Pick(bs, false)|
    ensures forall n :: k <= n < |bs| ==> bs[n].used
  {
    PickWhole(bs, k);
    assert Pick(bs[k..], false) == [];
    forall n | k <= n < |bs|
      ensures bs[n].used
    {
      PickMembers(bs[k..], false, bs[n].off);
      assert bs[k..][n - k] == bs[n];
    }
  }
}
