/** Rows of the timer skip list as sequences of timer numbers, ordered by deadline and then by start order. */
module TimerRows {
  import opened Queues

  /** A deadline on a clock that does not wrap, and the serial number of the start that set it. */
  datatype Key = Key(deadline: int, stamp: nat)

  type Row = Queue

  predicate Before(a: Key, b: Key) {
    a.deadline < b.deadline || (a.deadline == b.deadline && a.stamp < b.stamp)
  }

  function KeyOf(keys: seq<Key>, x: nat): Key { if x < |keys| then keys[x] else Key(0, 0) }

  /** Strictly ascending, hence without duplicates. */
  predicate Sorted(row: Row, keys: seq<Key>)
  {
    forall i, j :: 0 <= i < j < |row| ==> Before(KeyOf(keys, row[i]), KeyOf(keys, row[j]))
  }

  predicate Subsequence(a: Row, b: Row) {
    a == [] || (b != [] && (if a[0] == b[0] then Subsequence(a[1..], b[1..]) else Subsequence(a, b[1..])))
  }

  /** The number of leading timers that are not later than `d`. */
  function Rank(row: Row, keys: seq<Key>, d: int): (p: nat)
    ensures p <= |row|
  {
    if row == [] || KeyOf(keys, row[0]).deadline > d then 0 else 1 + Rank(row[1..], keys, d)
  }

  /** Stable insertion: behind every timer that is not later. */
  function Insert(row: Row, keys: seq<Key>, t: nat): Row
    requires t < |keys|
  {
    var p := Rank(row, keys, KeyOf(keys, t).deadline);
    row[..p] + [t] + row[p..]
  }

  lemma {:induction false} RankSplits(row: Row, keys: seq<Key>, d: int)
    requires Sorted(row, keys)
    ensures forall i :: 0 <= i < Rank(row, keys, d) ==> KeyOf(keys, row[i]).deadline <= d
    ensures forall i :: Rank(row, keys, d) <= i < |row| ==> KeyOf(keys, row[i]).deadline > d
  {
    if row != [] && KeyOf(keys, row[0]).deadline <= d {
      RankSplits(row[1..], keys, d);
    }
  }

  lemma RankUnique(row: Row, keys: seq<Key>, d: int, p: nat)
    requires Sorted(row, keys) && p <= |row|
    requires forall i :: 0 <= i < p ==> KeyOf(keys, row[i]).deadline <= d
    requires p < |row| ==> KeyOf(keys, row[p]).deadline > d
    ensures p == Rank(row, keys, d)
  {
    RankSplits(row, keys, d);
    var q := Rank(row, keys, d);
    assert q < |row| ==> KeyOf(keys, row[q]).deadline > d;
  }

  lemma {:induction false} RemoveSorted(row: Row, keys: seq<Key>, t: nat)
    requires Sorted(row, keys)
    ensures Sorted(Remove(row, t), keys)
    ensures forall x :: x in Remove(row, t) <==> x in row && x != t
  {
    if row != [] {
      assert row == [row[0]] + row[1..];
      if row[0] == t {
        forall x | x in row[1..]
          ensures x != t
        {
          var i :| 1 <= i < |row| && row[i] == x;
          assert Before(KeyOf(keys, row[0]), KeyOf(keys, row[i]));
        }
      } else {
        RemoveSorted(row[1..], keys, t);
        var r := Remove(row[1..], t);
        forall x | x in r
          ensures Before(KeyOf(keys, row[0]), KeyOf(keys, x))
        {
          var i :| 1 <= i < |row| && row[i] == x;
        }
      }
    }
  }

  lemma InsertSorted(row: Row, keys: seq<Key>, t: nat)
    requires t < |keys| && Sorted(row, keys)
    requires forall x :: x in row ==> KeyOf(keys, x).stamp < KeyOf(keys, t).stamp
    ensures Sorted(Insert(row, keys, t), keys)
    ensures forall x :: x in Insert(row, keys, t) <==> x in row || x == t
  {
    var d := KeyOf(keys, t).deadline;
    var p := Rank(row, keys, d);
    var r := Insert(row, keys, t);
    RankSplits(row, keys, d);
    assert row == row[..p] + row[p..];
    forall i, j | 0 <= i < j < |r|
      ensures Before(KeyOf(keys, r[i]), KeyOf(keys, r[j]))
    {
      if i != p && j != p {
        assert r[i] == row[if i < p then i else i - 1] && r[j] == row[if j < p then j else j - 1];
      } else if i == p {
        assert r[j] == row[j - 1];
      } else {
        assert r[i] == row[i];
      }
    }
  }

  /** A key given to a timer outside the row does not touch the row. */
  lemma {:induction false} RekeyOutside(row: Row, keys: seq<Key>, t: nat, k: Key)
    requires t < |keys| && Sorted(row, keys) && t !in row
    ensures Sorted(row, keys[t := k])
  {
  }

  /** Two ascending rows with the same timers are the same row. */
  lemma {:induction false} SortedUnique(a: Row, b: Row, keys: seq<Key>)
    requires Sorted(a, keys) && Sorted(b, keys)
    requires forall x :: x in a <==> x in b
    ensures a == b
  {
    if a == [] {
      assert forall i :: 0 <= i < |b| ==> b[i] in a;
    } else {
      assert a[0] in b;
      assert b[0] in a;
      assert a[0] == b[0] by {
        var i :| 0 <= i < |b| && b[i] == a[0];
        var j :| 0 <= j < |a| && a[j] == b[0];
      }
      forall x
        ensures x in a[1..] <==> x in b[1..]
      {
        TailMember(a, keys, x);
        TailMember(b, keys, x);
      }
      SortedUnique(a[1..], b[1..], keys);
      assert a == [a[0]] + a[1..] && b == [b[0]] + b[1..];
    }
  }

  lemma TailMember(a: Row, keys: seq<Key>, x: nat)
    requires Sorted(a, keys) && a != []
    ensures x in a[1..] <==> x in a && x != a[0]
  {
    if x in a && x != a[0] {
      var i :| 0 <= i < |a| && a[i] == x;
      assert a[1..][i - 1] == x;
    }
    if x in a[1..] {
      var i :| 1 <= i < |a| && a[i] == x;
      assert Before(KeyOf(keys, a[0]), KeyOf(keys, a[i]));
    }
  }

  /** Ascending rows, the timers of one among those of the other: the first is a subsequence. */
  lemma {:induction false} SortedSubsequence(a: Row, b: Row, keys: seq<Key>)
    requires Sorted(a, keys) && Sorted(b, keys)
    requires forall x :: x in a ==> x in b
    ensures Subsequence(a, b)
    decreases |b|
  {
    if a != [] {
      assert a[0] in b;
      if a[0] == b[0] {
        forall x | x in a[1..]
          ensures x in b[1..]
        {
          TailMember(a, keys, x);
          TailMember(b, keys, x);
        }
        SortedSubsequence(a[1..], b[1..], keys);
      } else {
        var j :| 0 <= j < |b| && b[j] == a[0];
        assert Before(KeyOf(keys, b[0]), KeyOf(keys, b[j]));
        forall x | x in a
          ensures x in b[1..]
        {
          var i :| 0 <= i < |a| && a[i] == x;
          assert i > 0 ==> Before(KeyOf(keys, a[0]), KeyOf(keys, a[i]));
          TailMember(b, keys, x);
        }
        SortedSubsequence(a, b[1..], keys);
      }
    }
  }

  /** Removing a timer makes no other one due. */
  lemma {:induction false} RankRemove(row: Row, keys: seq<Key>, t: nat, d: int)
    requires Sorted(row, keys)
    ensures Rank(Remove(row, t), keys, d) <= Rank(row, keys, d)
    ensures row != [] && row[0] == t && Rank(row, keys, d) > 0 ==> Rank(Remove(row, t), keys, d) < Rank(row, keys, d)
  {
    if row != [] {
      if row[0] == t {
        if row[1..] != [] {
          assert Before(KeyOf(keys, row[0]), KeyOf(keys, row[1]));
        }
      } else {
        RankRemove(row[1..], keys, t, d);
        assert Remove(row, t)[1..] == Remove(row[1..], t);
      }
    }
  }
}
