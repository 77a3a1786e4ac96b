/** Intrusive lists as sequences of thread or timer numbers. */
module Queues {
  type Queue = seq<nat>

  predicate NoDup(q: Queue) {
    forall i, j :: 0 <= i < j < |q| ==> q[i] != q[j]
  }

  /** rt_list_remove: `t` leaves the list; a list that does not hold it is unchanged. */
  function Remove(q: Queue, t: nat): Queue {
    if q == [] then [] else if q[0] == t then q[1..] else [q[0]] + Remove(q[1..], t)
  }

  lemma {:induction false} RemoveAbsent(q: Queue, t: nat)
    requires t !in q
    ensures Remove(q, t) == q
  {
    if q != [] {
      RemoveAbsent(q[1..], t);
    }
  }

  lemma {:induction false} RemoveSubset(q: Queue, t: nat)
    ensures forall x :: x in Remove(q, t) ==> x in q
  {
    if q != [] {
      RemoveSubset(q[1..], t);
      assert q == [q[0]] + q[1..];
    }
  }

  lemma {:induction false} RemoveMembers(q: Queue, t: nat)
    requires NoDup(q)
    ensures NoDup(Remove(q, t))
    ensures forall x :: x in Remove(q, t) <==> x in q && x != t
  {
    if q != [] {
      assert q == [q[0]] + q[1..];
      assert forall x :: x in q <==> x == q[0] || x in q[1..];
      assert q[0] !in q[1..];
      if q[0] != t {
        RemoveMembers(q[1..], t);
        var r := Remove(q[1..], t);
        forall i, j | 0 <= i < j < |r| + 1
          ensures ([q[0]] + r)[i] != ([q[0]] + r)[j]
        {
          assert ([q[0]] + r)[j] == r[j - 1];
          assert i > 0 ==> ([q[0]] + r)[i] == r[i - 1];
        }
      }
    }
  }

  /** What leaves is that one node; the others keep their order. */
  lemma {:induction false} RemoveTakesOut(q: Queue, i: nat)
    requires NoDup(q) && i < |q|
    ensures Remove(q, q[i]) == q[..i] + q[i + 1..]
  {
    if i > 0 {
      assert q[1..][..i - 1] == q[1..i] && q[1..][i..] == q[i + 1..];
      RemoveTakesOut(q[1..], i - 1);
      assert q[..i] == [q[0]] + q[1..i];
    }
  }

  /** rt_list_insert_before in front of the node at position `i`; the end of the list is `|q|`. */
  function InsertAt(q: Queue, i: nat, t: nat): Queue
    requires i <= |q|
  {
    q[..i] + [t] + q[i..]
  }

  lemma InsertMembers(q: Queue, i: nat, t: nat)
    requires NoDup(q) && t !in q && i <= |q|
    ensures NoDup(InsertAt(q, i, t))
    ensures forall x :: x in InsertAt(q, i, t) <==> x in q || x == t
  {
    var r := InsertAt(q, i, t);
    assert q == q[..i] + q[i..];
    forall j, k | 0 <= j < k < |r|
      ensures r[j] != r[k]
    {
      assert j != i ==> r[j] == q[if j < i then j else j - 1];
      assert k != i ==> r[k] == q[if k < i then k else k - 1];
    }
  }

  function RemoveAll(qs: seq<Queue>, t: nat): seq<Queue> {
    seq(|qs|, i requires 0 <= i < |qs| => Remove(qs[i], t))
  }
}
