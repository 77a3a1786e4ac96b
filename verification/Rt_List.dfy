/** Circular doubly linked lists: the links, and the sequences they stand for. */
module ListLinks {
  import opened Queues

  /** The `next` and `prev` fields of all list nodes. */
  datatype Links = Links(next: map<nat, nat>, prev: map<nat, nat>)

  function Succ(i: nat, n: nat): nat { if i + 1 < n then i + 1 else 0 }

  /** The link from the node at position `i` to the following one, in both directions. */
  predicate LinkedAt(l: Links, c: seq<nat>, i: nat)
    requires i < |c|
  {
    var a, b := c[i], c[Succ(i, |c|)];
    a in l.next && l.next[a] == b && b in l.prev && l.prev[b] == a
  }

  /** The nodes of `c` form one circle, in this order. */
  predicate Ring(l: Links, c: seq<nat>) {
    |c| > 0 && NoDup(c) && forall i :: 0 <= i < |c| ==> LinkedAt(l, c, i)
  }

  /** A list is its head node followed by its elements. */
  predicate IsList(l: Links, head: nat, q: Queue) { Ring(l, [head] + q) }

  /** The four writes of rt_list_insert_after. */
  function InsertLinks(l: Links, p: nat, n: nat): Links
    requires p in l.next
  {
    var after := l.next[p];
    Links(l.next[n := after][p := n], l.prev[after := n][n := p])
  }

  /** The first two writes of rt_list_remove. */
  function BypassLinks(l: Links, n: nat): Links
    requires n in l.next && n in l.prev
  {
    Links(l.next[l.prev[n] := l.next[n]], l.prev[l.next[n] := l.prev[n]])
  }

  lemma RingNeighbours(l: Links, c: seq<nat>, i: nat)
    requires Ring(l, c) && i < |c|
    ensures c[i] in l.next && c[i] in l.prev && l.next[c[i]] == c[Succ(i, |c|)]
    ensures l.prev[c[i]] == (if i == 0 then c[|c| - 1] else c[i - 1])
  {
    assert LinkedAt(l, c, i);
    assert LinkedAt(l, c, if i == 0 then |c| - 1 else i - 1);
  }

  lemma InsertRing(l: Links, c: seq<nat>, i: nat, n: nat)
    requires Ring(l, c) && i < |c| && n !in c
    ensures c[i] in l.next && Ring(InsertLinks(l, c[i], n), c[..i + 1] + [n] + c[i + 1..])
  {
    RingNeighbours(l, c, i);
    var r, d := InsertLinks(l, c[i], n), c[..i + 1] + [n] + c[i + 1..];
    InsertMembers(c, i + 1, n);
    assert d == InsertAt(c, i + 1, n);
    forall j | 0 <= j < |d|
      ensures LinkedAt(r, d, j)
    {
      if j < i {
        assert LinkedAt(l, c, j) && d[j] == c[j] && d[j + 1] == c[j + 1];
        Distinct(c, j, i);
        Distinct(c, j + 1, Succ(i, |c|));
      } else if j > i + 1 {
        assert LinkedAt(l, c, j - 1) && d[j] == c[j - 1];
        assert d[Succ(j, |d|)] == c[Succ(j - 1, |c|)];
        Distinct(c, j - 1, i);
        Distinct(c, Succ(j - 1, |c|), Succ(i, |c|));
      } else {
        assert d[i] == c[i] && d[i + 1] == n && d[Succ(i + 1, |d|)] == c[Succ(i, |c|)];
      }
    }
  }

  lemma Distinct(c: seq<nat>, i: nat, j: nat)
    requires NoDup(c) && i < |c| && j < |c|
    ensures c[i] == c[j] <==> i == j
  {
  }

  lemma BypassRing(l: Links, c: seq<nat>, i: nat)
    requires Ring(l, c) && i < |c| && |c| > 1
    ensures c[i] in l.next && c[i] in l.prev
    ensures Ring(BypassLinks(l, c[i]), c[..i] + c[i + 1..])
  {
    RingNeighbours(l, c, i);
    var r, d, m := BypassLinks(l, c[i]), c[..i] + c[i + 1..], |c|;
    var before := if i == 0 then m - 1 else i - 1;
    forall j, k | 0 <= j < k < |d|
      ensures d[j] != d[k]
    {
      Distinct(c, if j < i then j else j + 1, if k < i then k else k + 1);
    }
    forall j | 0 <= j < |d|
      ensures LinkedAt(r, d, j)
    {
      var p := if j < i then j else j + 1;
      assert d[j] == c[p];
      assert LinkedAt(l, c, p);
      Distinct(c, p, before);
      if p == before {
        assert d[Succ(j, |d|)] == c[Succ(i, m)];
      } else {
        assert d[Succ(j, |d|)] == c[Succ(p, m)];
        Distinct(c, Succ(p, m), Succ(i, m));
      }
    }
  }

  /** A ring of other nodes is not touched by writes to these. */
  lemma RingFrame(l: Links, r: Links, c: seq<nat>)
    requires Ring(l, c)
    requires forall x :: x in c ==> (x in l.next ==> x in r.next && r.next[x] == l.next[x]) && (x in l.prev ==> x in r.prev && r.prev[x] == l.prev[x])
    ensures Ring(r, c)
  {
    forall i | 0 <= i < |c|
      ensures LinkedAt(r, c, i)
    {
      assert LinkedAt(l, c, i) && c[i] in c && c[Succ(i, |c|)] in c;
    }
  }
}

/** The list primitives of rtservice.h on the nodes of a program. */
module RtList {
  import opened Queues
  import opened ListLinks

  class Nodes {
    var next: map<nat, nat>
    var prev: map<nat, nat>

    ghost function View(): Links
      reads this
    {
      Links(next, prev)
    }

    constructor ()
      ensures next == prev == map[]
    {
      next, prev := map[], map[];
    }

    /** rt_list_init */
    method Init(l: nat)
      modifies this
      ensures View() == Links(old(next)[l := l], old(prev)[l := l]) && IsList(View(), l, [])
    {
      prev := prev[l := l];
      next := next[l := l];
      assert LinkedAt(View(), [l], 0);
    }

    /** rt_list_insert_after a node of a ring. */
    method InsertAfter(l: nat, n: nat, ghost c: seq<nat>, ghost i: nat)
      requires Ring(View(), c) && i < |c| && c[i] == l && n !in c
      modifies this
      ensures l in old(next) && View() == InsertLinks(old(View()), l, n) && Ring(View(), c[..i + 1] + [n] + c[i + 1..])
    {
      RingNeighbours(View(), c, i);
      InsertRing(View(), c, i, n);
      prev := prev[next[l] := n];
      next := next[n := next[l]];
      next := next[l := n];
      prev := prev[n := l];
    }

    /** rt_list_insert_before a node of a ring: after its predecessor. */
    method InsertBefore(l: nat, n: nat, ghost c: seq<nat>, ghost i: nat)
      requires Ring(View(), c) && i < |c| && c[i] == l && n !in c
      modifies this
      ensures i > 0 ==> Ring(View(), c[..i] + [n] + c[i..])
      ensures i == 0 ==> Ring(View(), c + [n])
    {
      ghost var was, k := View(), if i == 0 then |c| - 1 else i - 1;
      RingNeighbours(was, c, i);
      RingNeighbours(was, c, k);
      InsertRing(was, c, k, n);
      assert i == 0 ==> c[..k + 1] + [n] + c[k + 1..] == c + [n];
      next := next[prev[l] := n];
      prev := prev[n := prev[l]];
      prev := prev[l := n];
      next := next[n := l];
      SameWrites(was, c[k], l, n);
      assert View() == InsertLinks(was, c[k], n);
    }

    /** rt_list_remove: the node leaves its ring and is alone. */
    method Remove(n: nat, ghost c: seq<nat>, ghost i: nat)
      requires Ring(View(), c) && i < |c| && c[i] == n
      modifies this
      ensures |c| > 1 ==> Ring(View(), c[..i] + c[i + 1..])
      ensures IsList(View(), n, [])
    {
      RingNeighbours(View(), c, i);
      if |c| > 1 {
        BypassRing(View(), c, i);
        ghost var r, d := BypassLinks(View(), n), c[..i] + c[i + 1..];
        NotInRest(c, i);
        RingFrame(r, Links(r.next[n := n], r.prev[n := n]), d);
      }
      prev := prev[next[n] := prev[n]];
      next := next[prev[n] := next[n]];
      prev := prev[n := n];
      next := next[n := n];
      assert LinkedAt(View(), [n], 0);
    }

    /** rt_list_isempty */
    method IsEmpty(l: nat, ghost q: Queue) returns (empty: bool)
      requires IsList(View(), l, q)
      ensures empty <==> q == []
    {
      RingNeighbours(View(), [l] + q, 0);
      if q != [] {
        Distinct([l] + q, 0, 1);
      }
      empty := next[l] == l;
    }

    /** rt_list_len */
    method Len(l: nat, ghost q: Queue) returns (len: nat)
      requires IsList(View(), l, q)
      ensures len == |q|
    {
      ghost var c := [l] + q;
      RingNeighbours(View(), c, 0);
      len := 0;
      var p := l;
      while next[p] != l
        invariant 0 <= len <= |q| && p == c[len] && p in next && next[p] == c[Succ(len, |c|)]
        decreases |q| - len
      {
        RingNeighbours(View(), c, Succ(len, |c|));
        p := next[p];
        len := len + 1;
      }
      Distinct(c, 0, Succ(len, |c|));
    }
  }

  lemma SameWrites(l: Links, p: nat, at: nat, n: nat)
    requires p in l.next && l.next[p] == at && at in l.prev && l.prev[at] == p && n != p && n != at
    ensures Links(l.next[p := n][n := at], l.prev[n := p][at := n]) == InsertLinks(l, p, n)
  {
  }

  lemma NotInRest(c: seq<nat>, i: nat)
    requires NoDup(c) && i < |c|
    ensures c[i] !in c[..i] + c[i + 1..]
  {
  }

  // ----- what the primitives do to a list -----

  /** insert_after on the head puts the node first. */
  lemma InsertAfterHead(l: Links, head: nat, q: Queue, n: nat)
    requires IsList(l, head, q) && n != head && n !in q
    ensures head in l.next && IsList(InsertLinks(l, head, n), head, [n] + q)
  {
    var c := [head] + q;
    InsertRing(l, c, 0, n);
    assert c[..1] + [n] + c[1..] == [head] + ([n] + q);
  }

  /** insert_before on the head puts the node last. */
  lemma InsertBeforeHead(l: Links, head: nat, q: Queue, n: nat)
    requires IsList(l, head, q) && n != head && n !in q
    ensures head in l.prev && l.prev[head] in l.next && IsList(InsertLinks(l, l.prev[head], n), head, q + [n])
  {
    var c := [head] + q;
    RingNeighbours(l, c, 0);
    InsertRing(l, c, |c| - 1, n);
    assert c[..|c|] + [n] + c[|c|..] == [head] + (q + [n]);
  }

  /** Removing an element leaves the sequence without it. */
  lemma RemoveElement(l: Links, head: nat, q: Queue, n: nat)
    requires IsList(l, head, q) && n in q
    ensures n in l.next && n in l.prev && IsList(BypassLinks(l, n), head, Queues.Remove(q, n))
  {
    var c := [head] + q;
    var i :| 0 <= i < |q| && q[i] == n;
    assert c[i + 1] == n;
    BypassRing(l, c, i + 1);
    NoDupTail(head, q);
    RemoveAtIndex(q, i);
    assert c[..i + 1] + c[i + 2..] == [head] + (q[..i] + q[i + 1..]);
  }

  lemma NoDupTail(head: nat, q: Queue)
    requires NoDup([head] + q)
    ensures NoDup(q) && head !in q
  {
    var c := [head] + q;
    assert forall i :: 0 <= i < |q| ==> q[i] == c[i + 1];
    assert c[0] == head;
  }

  lemma {:induction false} RemoveAtIndex(q: Queue, i: nat)
    requires NoDup(q) && i < |q|
    ensures Queues.Remove(q, q[i]) == q[..i] + q[i + 1..]
  {
    if i > 0 {
      assert q[0] != q[i];
      RemoveAtIndex(q[1..], i - 1);
      assert q[1..][..i - 1] == q[1..i] && q[1..][i - 1 + 1..] == q[i + 1..];
    }
  }
}
