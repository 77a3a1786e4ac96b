/** The hard timer list: a skip list over 32-bit ticks that wrap. */
module TimerList {
  import opened Binary
  import opened Queues
  import opened TimerRows

  const TICKS: int := 0x1_0000_0000
  /** RT_TICK_MAX / 2 */
  const HALF: int := 0x7FFF_FFFF
  /** How many ticks a linked timer may be overdue before the wrapped comparisons go wrong. */
  const LAG: int := 3

  datatype Timer = Timer(initTick: nat, timeoutTick: nat, periodic: bool, activated: bool)

  function Wrap(d: int): nat { d % TICKS }

  /** The unsigned difference of two tick counters. */
  function Ahead(a: nat, b: nat): nat { Wrap(a - b) }

  lemma WrapAdd(clock: int, n: nat)
    ensures Wrap(Wrap(clock) + n) == Wrap(clock + n)
  {
  }

  /** The wrapped comparisons agree with the true order as long as the two instants are close enough. */
  lemma WrappedOrder(a: int, b: int)
    requires HALF - TICKS <= a - b < HALF
    ensures Ahead(Wrap(a), Wrap(b)) == 0 <==> a == b
    ensures Ahead(Wrap(a), Wrap(b)) < HALF <==> a >= b
  {
    assert Wrap(a - b) == if a >= b then a - b else a - b + TICKS;
    assert Ahead(Wrap(a), Wrap(b)) == Wrap(a - b);
  }

  /** Within one tick range exactly: at any other distance the comparison gives the wrong answer. */
  lemma WrappedOrderIff(a: int, b: int)
    requires -TICKS < a - b < TICKS
    ensures (Ahead(Wrap(a), Wrap(b)) < HALF <==> a >= b) <==> HALF - TICKS <= a - b < HALF
  {
    assert Wrap(a - b) == if a >= b then a - b else a - b + TICKS;
    assert Ahead(Wrap(a), Wrap(b)) == Wrap(a - b);
  }

  // ----- rows as values -----

  predicate RowsSorted(rows: seq<Row>, keys: seq<Key>) {
    forall r :: 0 <= r < |rows| ==> Sorted(rows[r], keys)
  }

  predicate SubRow(a: Row, b: Row) {
    forall x :: x in a ==> x in b
  }

  predicate Included(rows: seq<Row>, r: nat)
    requires r + 1 < |rows|
  {
    SubRow(rows[r], rows[r + 1])
  }

  /** Every row holds no timers but those of the row below it. */
  predicate Nested(rows: seq<Row>) {
    forall r :: 0 <= r < |rows| - 1 ==> Included(rows, r)
  }

  function Bottom(rows: seq<Row>): Row { if rows == [] then [] else rows[|rows| - 1] }

  lemma {:induction false} InBottom(rows: seq<Row>, r: nat, x: nat)
    requires Nested(rows) && r < |rows| && x in rows[r]
    ensures x in Bottom(rows)
    decreases |rows| - r
  {
    if r + 1 < |rows| {
      assert Included(rows, r);
      InBottom(rows, r + 1, x);
    }
  }

  /** The skip-list property, for any number of rows. */
  lemma RowsAreSubsequences(rows: seq<Row>, keys: seq<Key>, r: nat)
    requires RowsSorted(rows, keys) && Nested(rows) && r + 1 < |rows|
    ensures Subsequence(rows[r], rows[r + 1])
  {
    assert Included(rows, r);
    SortedSubsequence(rows[r], rows[r + 1], keys);
  }

  function Unlink(rows: seq<Row>, t: nat): seq<Row> {
    seq(|rows|, r requires 0 <= r < |rows| => Remove(rows[r], t))
  }

  /** `t` inserted into the `h` lowest rows. */
  function Link(rows: seq<Row>, keys: seq<Key>, t: nat, h: nat): seq<Row>
    requires t < |keys|
  {
    seq(|rows|, r requires 0 <= r < |rows| => if r + h >= |rows| then Insert(rows[r], keys, t) else rows[r])
  }

  lemma UnlinkSorted(rows: seq<Row>, keys: seq<Key>, t: nat)
    requires RowsSorted(rows, keys)
    ensures RowsSorted(Unlink(rows, t), keys)
    ensures forall r :: 0 <= r < |rows| ==> SameBut(rows[r], Unlink(rows, t)[r], t)
  {
    var us := Unlink(rows, t);
    forall r | 0 <= r < |rows|
      ensures Sorted(us[r], keys) && SameBut(rows[r], us[r], t)
    {
      RemoveSorted(rows[r], keys, t);
    }
  }

  predicate Absent(rows: seq<Row>, t: nat) {
    forall r :: 0 <= r < |rows| ==> t !in rows[r]
  }

  predicate StampsBelow(row: Row, keys: seq<Key>, n: nat) {
    forall x :: x in row ==> KeyOf(keys, x).stamp < n
  }

  /** `us` is `row` without `t`. */
  ghost predicate SameBut(row: Row, us: Row, t: nat) {
    forall x :: x in us <==> x in row && x != t
  }

  lemma UnlinkKeeps(rows: seq<Row>, keys: seq<Key>, t: nat)
    requires RowsSorted(rows, keys) && Nested(rows)
    ensures RowsSorted(Unlink(rows, t), keys) && Nested(Unlink(rows, t))
    ensures SameBut(Bottom(rows), Bottom(Unlink(rows, t)), t)
    ensures Absent(Unlink(rows, t), t)
  {
    UnlinkSorted(rows, keys, t);
    hide RowsSorted, Remove;
    var us := Unlink(rows, t);
    forall r | 0 <= r < |us| - 1
      ensures Included(us, r)
    {
      assert Included(rows, r) && SameBut(rows[r], us[r], t) && SameBut(rows[r + 1], us[r + 1], t);
    }
  }

  lemma LinkSorted(rows: seq<Row>, keys: seq<Key>, t: nat, h: nat)
    requires RowsSorted(rows, keys) && Nested(rows) && t < |keys| && 1 <= h
    requires StampsBelow(Bottom(rows), keys, keys[t].stamp)
    ensures RowsSorted(Link(rows, keys, t, h), keys)
    ensures forall r :: 0 <= r < |rows| ==> RowLinked(rows, Link(rows, keys, t, h), r, t, h)
  {
    var ls := Link(rows, keys, t, h);
    forall r | 0 <= r < |rows|
      ensures Sorted(ls[r], keys) && RowLinked(rows, ls, r, t, h)
    {
      forall x | x in rows[r]
        ensures KeyOf(keys, x).stamp < keys[t].stamp
      {
        InBottom(rows, r, x);
      }
      hide Nested;
      InsertSorted(rows[r], keys, t);
    }
  }

  ghost predicate RowLinked(rows: seq<Row>, ls: seq<Row>, r: nat, t: nat, h: nat)
    requires r < |rows|
  {
    |ls| == |rows| && if r + h >= |rows| then Joined(rows[r], ls[r], t) else ls[r] == rows[r]
  }

  /** `ls` is `row` with `t`. */
  ghost predicate Joined(row: Row, ls: Row, t: nat) {
    forall x :: x in ls <==> x in row || x == t
  }

  lemma LinkKeeps(rows: seq<Row>, keys: seq<Key>, t: nat, h: nat)
    requires RowsSorted(rows, keys) && Nested(rows) && t < |keys| && 1 <= h
    requires StampsBelow(Bottom(rows), keys, keys[t].stamp)
    ensures RowsSorted(Link(rows, keys, t, h), keys) && Nested(Link(rows, keys, t, h))
    ensures rows != [] ==> Joined(Bottom(rows), Bottom(Link(rows, keys, t, h)), t)
  {
    LinkSorted(rows, keys, t, h);
    var ls := Link(rows, keys, t, h);
    assert |ls| == |rows|;
    hide RowsSorted, Insert, SubRow, Joined, Link;
    assert rows != [] ==> RowLinked(rows, ls, |rows| - 1, t, h);
    forall r | 0 <= r < |ls| - 1
      ensures Included(ls, r)
    {
      assert Included(rows, r) && RowLinked(rows, ls, r, t, h) && RowLinked(rows, ls, r + 1, t, h);
      if r + 1 + h >= |rows| {
        JoinedSub(rows[r], rows[r + 1], ls[r], ls[r + 1], t);
      }
    }
  }

  lemma JoinedSub(a: Row, b: Row, a': Row, b': Row, t: nat)
    requires SubRow(a, b) && Joined(b, b', t) && (a' == a || Joined(a, a', t))
    ensures SubRow(a', b')
  {
  }

  lemma BottomOf(rows: seq<Row>, keys: seq<Key>, t: nat, h: nat)
    requires rows != [] && t < |keys| && h >= 1
    ensures Bottom(Unlink(rows, t)) == Remove(Bottom(rows), t)
    ensures Bottom(Link(rows, keys, t, h)) == Insert(Bottom(rows), keys, t)
  {
  }

  /** A linked timer is active, and its tick counter is its deadline on the wrapped clock. */
  predicate Armed(x: nat, timers: seq<Timer>, keys: seq<Key>, clock: int, starts: nat) {
    && x < |timers| && x < |keys| && timers[x].activated
    && timers[x].timeoutTick == Wrap(keys[x].deadline)
    && clock - LAG <= keys[x].deadline < clock + HALF
    && keys[x].stamp < starts
  }

  predicate AllArmed(row: Row, timers: seq<Timer>, keys: seq<Key>, clock: int, starts: nat) {
    forall x :: x in row ==> Armed(x, timers, keys, clock, starts)
  }

  predicate NoneOverdue(row: Row, keys: seq<Key>, clock: int) {
    forall x :: x in row ==> KeyOf(keys, x).deadline >= clock
  }

  /** Remaining time as the code computes it. */
  function Remaining(timer: Timer, tick: nat): nat { Ahead(timer.timeoutTick, tick) }

  /** Between ticks the bottom row is sorted by remaining time under modulo 2^32 subtraction. */
  lemma SortedByRemaining(row: Row, timers: seq<Timer>, keys: seq<Key>, clock: int, starts: nat, i: nat, j: nat)
    requires Sorted(row, keys) && AllArmed(row, timers, keys, clock, starts) && NoneOverdue(row, keys, clock)
    requires i < j < |row|
    ensures row[i] < |timers| && row[j] < |timers|
    ensures Remaining(timers[row[i]], Wrap(clock)) <= Remaining(timers[row[j]], Wrap(clock))
    ensures Remaining(timers[row[i]], Wrap(clock)) == Remaining(timers[row[j]], Wrap(clock)) ==>
              keys[row[i]].stamp < keys[row[j]].stamp
  {
    assert Armed(row[i], timers, keys, clock, starts) && Armed(row[j], timers, keys, clock, starts);
    RemainingIsDistance(keys[row[i]].deadline, clock);
    RemainingIsDistance(keys[row[j]].deadline, clock);
  }

  lemma RemainingIsDistance(d: int, clock: int)
    requires clock <= d < clock + HALF
    ensures Ahead(Wrap(d), Wrap(clock)) == d - clock
  {
  }

  // ----- the height of a timer -----

  /** The bits looked at for one row are shifted out before the next: one for the mask 1, two for the mask 3. */
  function ShiftOut(tst: nat, mask: nat): nat { Down(tst, (mask + 1) / 2) }

  /** How many rows the insertion loop enters: the bottom one, and upwards from it while the bits looked at are clear. */
  function Height(tst: nat, mask: nat, levels: nat): (h: nat)
    requires levels >= 1
    ensures 1 <= h <= levels
    decreases levels
  {
    if levels == 1 || And(tst, mask) != 0 then 1 else 1 + Height(ShiftOut(tst, mask), mask, levels - 1)
  }

  /** The counter moved on by one, and `h` is the height that its new value gives. */
  predicate Counted(was: nat, now: nat, mask: nat, levels: nat, h: nat) {
    levels >= 1 && now == (was + 1) % 0x1_0000_0000 && h == Height(now, mask, levels)
  }

  /** With a mask of one or two bits every row is entered by each second or fourth of the timers that enter the row below. */
  lemma {:induction false} HeightIff(tst: nat, mask: nat, levels: nat, k: nat, j: nat)
    requires (mask == 1 && k == 1) || (mask == 3 && k == 2)
    requires 1 <= j < levels
    ensures Height(tst, mask, levels) > j <==> tst % Pow2(k * j) == 0
    decreases j
  {
    var d := Pow2(k * (j - 1));
    if mask == 1 {
      assert And(tst, mask) == tst % 2;
      assert ShiftOut(tst, mask) == Down(tst, k) == Down(tst / 2, 0) == tst / 2;
      assert Pow2(k * j) == 2 * d;
      EvenMultiple(tst, d);
      if j > 1 {
        HeightIff(tst / 2, mask, levels - 1, k, j - 1);
      }
    } else {
      assert And(tst, mask) == tst % 2 + 2 * And(tst / 2, 1) && And(tst / 2, 1) == tst / 2 % 2;
      assert ShiftOut(tst, mask) == Down(tst, k) == Down(tst / 2, 1) == Down(tst / 2 / 2, 0) == tst / 2 / 2;
      assert Pow2(k * j) == 2 * (2 * d);
      EvenMultiple(tst, 2 * d);
      EvenMultiple(tst / 2, d);
      if j > 1 {
        HeightIff(tst / 2 / 2, mask, levels - 1, k, j - 1);
      }
    }
  }

  class TimerList {
    const levels: nat
    const mask: nat
    var timers: seq<Timer>
    var rows: seq<Row>
    var tick: nat
    var randomNr: nat
    ghost var clock: int
    ghost var keys: seq<Key>
    ghost var starts: nat

    ghost predicate Valid()
      reads this
    {
      && levels == |rows| >= 1 && |keys| == |timers| && mask <= 62 && tick == Wrap(clock)
      && RowsSorted(rows, keys) && Nested(rows)
      && AllArmed(Bottom(rows), timers, keys, clock, starts)
    }

    /** No linked timer is overdue: true between ticks when every tick is checked. */
    ghost predicate OnTime()
      reads this
    {
      NoneOverdue(Bottom(rows), keys, clock)
    }

    constructor (levels: nat, mask: nat, timers: seq<Timer>)
      requires levels >= 1 && mask <= 62
      ensures Valid() && OnTime() && Bottom(rows) == [] && this.levels == levels && this.timers == timers
    {
      this.levels, this.mask, this.timers := levels, mask, timers;
      rows := seq(levels, _ => []);
      tick, randomNr, clock, starts := 0, 0, 0, 0;
      keys := seq(|timers|, _ => Key(0, 0));
    }

    /** _rt_timer_remove: unlink from every row. */
    method RemoveTimer(t: nat)
      requires |rows| == levels
      modifies `rows
      ensures rows == Unlink(old(rows), t)
    {
      var i := 0;
      while i < levels
        invariant 0 <= i <= levels == |rows|
        invariant forall r :: 0 <= r < levels ==> rows[r] == if r < i then Remove(old(rows)[r], t) else old(rows)[r]
      {
        rows := rows[i := Remove(rows[i], t)];
        i := i + 1;
      }
    }

    /** The walk along one row: stop in front of the first timer that is later than `timeout`. */
    method Walk(row: Row, from: nat, timeout: nat, ghost d: int) returns (p: nat)
      requires Sorted(row, keys) && AllArmed(row, timers, keys, clock, starts)
      requires timeout == Wrap(d) && clock <= d < clock + HALF
      requires from <= |row| && forall i :: 0 <= i < from ==> KeyOf(keys, row[i]).deadline <= d
      ensures p == Rank(row, keys, d)
    {
      p := from;
      while p != |row|
        invariant p <= |row| && forall i :: 0 <= i < p ==> KeyOf(keys, row[i]).deadline <= d
        decreases |row| - p
      {
        var t := row[p];
        assert Armed(t, timers, keys, clock, starts);
        WrappedOrder(keys[t].deadline, d);
        if Ahead(timers[t].timeoutTick, timeout) != 0 && Ahead(timers[t].timeoutTick, timeout) < HALF {
          break;
        }
        p := p + 1;
      }
      RankUnique(row, keys, d, p);
    }

    /** The position of the same timer's node one row down: an array step on its `row` field. */
    method Below(upper: Row, lower: Row, p: nat) returns (q: nat)
      requires p <= |upper| && SubRow(upper, lower)
      ensures p == 0 ==> q == 0
      ensures p > 0 ==> 0 < q <= |lower| && lower[q - 1] == upper[p - 1]
    {
      if p == 0 {
        return 0;
      }
      var t := upper[p - 1];
      assert t in lower;
      q := 1;
      while lower[q - 1] != t
        invariant 1 <= q <= |lower| && t in lower[q - 1..]
        decreases |lower| - q
      {
        q := q + 1;
      }
    }

    /** The search part of rt_timer_start, from the top row down. */
    method FindHeads(timeout: nat, ghost d: int) returns (heads: seq<nat>)
      requires Valid() && timeout == Wrap(d) && clock <= d < clock + HALF
      ensures |heads| == levels && forall r :: 0 <= r < levels ==> heads[r] == Rank(rows[r], keys, d)
    {
      hide Sorted, AllArmed, SubRow, Rank, Bottom;
      heads := [];
      var from: nat := 0;
      var r := 0;
      while r < levels
        invariant 0 <= r <= levels && |heads| == r
        invariant forall i :: 0 <= i < r ==> heads[i] == Rank(rows[i], keys, d)
        invariant r < levels ==> from <= |rows[r]| && forall i :: 0 <= i < from ==> KeyOf(keys, rows[r][i]).deadline <= d
      {
        RowArmed(rows, r, timers, keys, clock, starts);
        var p := Walk(rows[r], from, timeout, d);
        heads := heads + [p];
        if r != levels - 1 {
          assert Included(rows, r);
          from := Below(rows[r], rows[r + 1], p);
          BelowNotLater(rows[r], rows[r + 1], keys, p, from, d);
        }
        r := r + 1;
      }
    }

    /** rt_list_insert_after on row `r`: behind the first `p` timers. */
    method InsertAfter(r: nat, p: nat, t: nat)
      requires r < |rows| && t < |keys| && p == Rank(rows[r], keys, keys[t].deadline)
      modifies `rows
      ensures rows == old(rows)[r := Insert(old(rows)[r], keys, t)]
    {
      rows := rows[r := rows[r][..p] + [t] + rows[r][p..]];
    }

    /** The insertion part of rt_timer_start; the counter decides the height. */
    method InsertTimer(t: nat, heads: seq<nat>) returns (ghost h: nat)
      requires |rows| == levels >= 1 && mask <= 62 && t < |keys| && |heads| == levels
      requires forall r :: 0 <= r < levels ==> heads[r] == Rank(rows[r], keys, keys[t].deadline)
      modifies `rows, `randomNr
      ensures 1 <= h <= levels == |rows| && rows == Link(old(rows), keys, t, h)
      ensures Counted(old(randomNr), randomNr, mask, levels, h)
    {
      hide Rank, Insert, ShiftOut, And;
      randomNr := (randomNr + 1) % 0x1_0000_0000;
      var tst := randomNr;
      InsertAfter(levels - 1, heads[levels - 1], t);
      h := 1;
      var lvl := 2;
      while lvl <= levels
        invariant 2 <= lvl == h + 1 <= levels + 1 && rows == Link(old(rows), keys, t, h)
        invariant randomNr == (old(randomNr) + 1) % 0x1_0000_0000
        invariant Height(randomNr, mask, levels) == h - 1 + Height(tst, mask, levels + 1 - h)
        decreases levels + 1 - lvl
      {
        if And(tst, mask) == 0 {
          InsertAfter(levels - lvl, heads[levels - lvl], t);
          h := h + 1;
        } else {
          break;
        }
        tst := ShiftOut(tst, mask);
        lvl := lvl + 1;
      }
    }

    /** Search and insertion together. */
    method Place(t: nat) returns (ghost h: nat)
      requires Valid() && t < |timers| && StampsBelow(Bottom(rows), keys, keys[t].stamp)
      requires timers[t].timeoutTick == Wrap(keys[t].deadline) && clock <= keys[t].deadline < clock + HALF
      modifies `rows, `randomNr
      ensures 1 <= h <= levels == |rows| && rows == Link(old(rows), keys, t, h)
      ensures RowsSorted(rows, keys) && Nested(rows) && Joined(Bottom(old(rows)), Bottom(rows), t)
      ensures Bottom(rows) == Insert(Bottom(old(rows)), keys, t)
      ensures Counted(old(randomNr), randomNr, mask, levels, h)
    {
      hide RowsSorted, Nested, AllArmed, Rank, Insert, Joined, Bottom, Link, StampsBelow, Counted;
      var heads := FindHeads(timers[t].timeoutTick, keys[t].deadline);
      h := InsertTimer(t, heads);
      LinkKeeps(old(rows), keys, t, h);
      BottomOf(old(rows), keys, t, h);
    }

    /** The deadline of an unlinked timer, `init_tick` from now. */
    method SetDeadline(t: nat)
      requires Valid() && t < |timers| && timers[t].initTick < HALF && Absent(rows, t)
      modifies `timers, `keys, `starts
      ensures Valid() && starts == old(starts) + 1 && StampsBelow(Bottom(rows), keys, old(starts))
      ensures keys == old(keys)[t := Key(clock + old(timers)[t].initTick, old(starts))]
      ensures timers == old(timers)[t := old(timers)[t].(timeoutTick := Wrap(clock + old(timers)[t].initTick))]
    {
      WrapAdd(clock, timers[t].initTick);
      RekeyKeeps(rows, timers, keys, t, clock + timers[t].initTick, clock, starts);
      hide Wrap, RowsSorted, Nested, AllArmed, Bottom, Absent, StampsBelow;
      timers := timers[t := timers[t].(timeoutTick := Wrap(tick + timers[t].initTick))];
      keys := keys[t := Key(clock + timers[t].initTick, starts)];
      starts := starts + 1;
    }

    /** The second part of rt_timer_start: set the deadline of an unlinked timer and insert it. */
    method Schedule(t: nat) returns (ghost h: nat)
      requires Valid() && t < |timers| && timers[t].initTick < HALF && Absent(rows, t)
      modifies `timers, `rows, `randomNr, `keys, `starts
      ensures Valid() && (old(OnTime()) ==> OnTime()) && starts == old(starts) + 1
      ensures Placed(old(rows), rows, old(timers), timers, old(keys), keys, t, clock, old(starts), h)
      ensures Counted(old(randomNr), randomNr, mask, levels, h)
    {
      hide Wrap, RowsSorted, Armed, KeyOf, Nested, AllArmed, Insert, Joined, NoneOverdue, Bottom, Link, Absent,
          StampsBelow, Placed, Scheduled, Counted;
      ghost var us, ts, ks, d := rows, timers, keys, clock + timers[t].initTick;
      SetDeadline(t);
      h := Place(t);
      timers := timers[t := timers[t].(activated := true)];
      PlacedBy(us, rows, ts, ts[t := ts[t].(timeoutTick := Wrap(d))], timers, ks, keys, t, clock, old(starts), h);
      StartArmed(Bottom(us), Bottom(rows), ts, ks, t, d, clock, old(starts));
    }

    /** rt_timer_start: unlink, set the deadline, insert behind every timer that is not later. */
    method Start(t: nat) returns (ghost h: nat)
      requires Valid() && t < |timers| && timers[t].initTick < HALF
      modifies `timers, `rows, `randomNr, `keys, `starts
      ensures Valid() && (old(OnTime()) ==> OnTime()) && starts == old(starts) + 1
      ensures Placed(Unlink(old(rows), t), rows, old(timers), timers, old(keys), keys, t, clock, old(starts), h)
      ensures Bottom(rows) == Insert(Remove(Bottom(old(rows)), t), keys, t)
      ensures Counted(old(randomNr), randomNr, mask, levels, h)
    {
      UnlinkKeeps(rows, keys, t);
      UnlinkArmed(rows, Unlink(rows, t), timers, keys, t, clock, starts);
      BottomOf(rows, keys, t, 1);
      hide RowsSorted, Nested, AllArmed, Remove, Insert, SameBut, NoneOverdue, Bottom, Unlink, Link, Absent, Counted;
      RemoveTimer(t);
      ghost var ts := timers;
      timers := timers[t := timers[t].(activated := false)];
      ghost var off := timers;
      h := Schedule(t);
      PlacedFrom(Unlink(old(rows), t), rows, ts, off, timers, old(keys), keys, t, clock, old(starts), h);
    }

    /** The end of a firing in rt_timer_check: start a periodic timer that is still active, else clear its flag. */
    method Rearm(t: nat) returns (again: bool)
      requires Valid() && t < |timers| && (timers[t].periodic ==> timers[t].initTick < HALF) && t !in Bottom(rows)
      modifies `timers, `rows, `randomNr, `keys, `starts
      ensures Valid() && again == (old(timers)[t].periodic && old(timers)[t].activated)
      ensures again ==>
        && keys == old(keys)[t := Key(clock + old(timers)[t].initTick, old(starts))]
        && timers == Scheduled(old(timers), t, clock + old(timers)[t].initTick)
        && Bottom(rows) == Insert(Remove(Bottom(old(rows)), t), keys, t)
      ensures !again ==> keys == old(keys) && rows == old(rows) && timers == old(timers)[t := old(timers)[t].(activated := false)]
    {
      hide RowsSorted, Nested, Remove, Insert, Bottom, Unlink, Wrap;
      again := timers[t].periodic && timers[t].activated;
      if again {
        ghost var h := Start(t);
      } else {
        ClearUnlinked(Bottom(rows), timers, keys, t, clock, starts);
        hide AllArmed;
        timers := timers[t := timers[t].(activated := false)];
      }
    }

    /** rt_timer_stop */
    method Stop(t: nat) returns (ok: bool)
      requires Valid() && t < |timers|
      modifies `timers, `rows
      ensures Valid() && (old(OnTime()) ==> OnTime())
      ensures ok == old(timers)[t].activated
      ensures rows == Unlink(old(rows), t)
      ensures timers == old(timers)[t := old(timers)[t].(activated := false)]
      ensures Bottom(rows) == Remove(Bottom(old(rows)), t)
    {
      UnlinkKeeps(rows, keys, t);
      UnlinkArmed(rows, Unlink(rows, t), timers, keys, t, clock, starts);
      if !timers[t].activated {
        UnlinkAbsent(rows, keys, t);
        return false;
      }
      hide RowsSorted, Nested, AllArmed, Sorted, Remove, SameBut, NoneOverdue;
      RemoveTimer(t);
      timers := timers[t := timers[t].(activated := false)];
      ok := true;
    }

    /** rt_timer_detach and rt_timer_delete: the timer leaves the list; its flag stays. */
    method Detach(t: nat)
      requires Valid() && t < |timers|
      modifies `rows
      ensures Valid() && (old(OnTime()) ==> OnTime())
      ensures rows == Unlink(old(rows), t) && Bottom(rows) == Remove(Bottom(old(rows)), t)
    {
      UnlinkKeeps(rows, keys, t);
      UnlinkArmed(rows, Unlink(rows, t), timers, keys, t, clock, starts);
      hide RowsSorted, Nested, AllArmed, Sorted, Remove, SameBut, NoneOverdue;
      RemoveTimer(t);
    }

    /** rt_timer_list_next_timeout: the tick of a timer with the earliest deadline. */
    method NextTimeout() returns (r: nat)
      requires Valid()
      ensures Bottom(rows) == [] ==> r == TICKS - 1
      ensures Bottom(rows) != [] ==>
        exists x :: x in Bottom(rows) && r == timers[x].timeoutTick &&
          forall y :: y in Bottom(rows) ==> keys[x].deadline <= keys[y].deadline
    {
      if rows[levels - 1] == [] {
        return TICKS - 1;
      }
      var x := rows[levels - 1][0];
      assert x in Bottom(rows);
      r := timers[x].timeoutTick;
    }
  }

  lemma RowArmed(rows: seq<Row>, r: nat, timers: seq<Timer>, keys: seq<Key>, clock: int, starts: nat)
    requires Nested(rows) && r < |rows| && AllArmed(Bottom(rows), timers, keys, clock, starts)
    ensures AllArmed(rows[r], timers, keys, clock, starts)
  {
    forall x | x in rows[r]
      ensures Armed(x, timers, keys, clock, starts)
    {
      InBottom(rows, r, x);
    }
  }

  /** The walk in the next row may start below the timer that the walk in this row stopped at. */
  lemma BelowNotLater(upper: Row, row: Row, keys: seq<Key>, p: nat, q: nat, d: int)
    requires Sorted(upper, keys) && p == Rank(upper, keys, d)
    requires Sorted(row, keys) && q <= |row| && (p == 0 ==> q == 0) && (p > 0 ==> 0 < q && row[q - 1] == upper[p - 1])
    ensures forall i :: 0 <= i < q ==> KeyOf(keys, row[i]).deadline <= d
  {
    RankSplits(upper, keys, d);
    forall i | 0 <= i < q
      ensures KeyOf(keys, row[i]).deadline <= d
    {
      assert i < q - 1 ==> Before(KeyOf(keys, row[i]), KeyOf(keys, row[q - 1]));
    }
  }

  function Scheduled(ts: seq<Timer>, t: nat, d: int): seq<Timer>
    requires t < |ts|
  {
    ts[t := ts[t].(timeoutTick := Wrap(d), activated := true)]
  }

  /**
   * Timer `t` was given its deadline, `init_tick` from now, and inserted into the `h` lowest rows;
   * no other timer and no other row changed.
   */
  ghost predicate Placed(us: seq<Row>, ls: seq<Row>, ts: seq<Timer>, ts': seq<Timer>, ks: seq<Key>, ks': seq<Key>,
                         t: nat, clock: int, starts: nat, h: nat)
  {
    && t < |ts| == |ks| && 1 <= h <= |us|
    && ks' == ks[t := Key(clock + ts[t].initTick, starts)]
    && ts' == Scheduled(ts, t, clock + ts[t].initTick)
    && ls == Link(us, ks', t, h) && Bottom(ls) == Insert(Bottom(us), ks', t)
  }

  lemma PlacedBy(us: seq<Row>, ls: seq<Row>, ts: seq<Timer>, mid: seq<Timer>, ts': seq<Timer>, ks: seq<Key>, ks': seq<Key>,
                 t: nat, clock: int, starts: nat, h: nat)
    requires t < |ts| == |ks| && 1 <= h <= |us| && ks' == ks[t := Key(clock + ts[t].initTick, starts)]
    requires mid == ts[t := ts[t].(timeoutTick := Wrap(clock + ts[t].initTick))]
    requires ts' == mid[t := mid[t].(activated := true)]
    requires ls == Link(us, ks', t, h) && Bottom(ls) == Insert(Bottom(us), ks', t)
    ensures ts' == Scheduled(ts, t, clock + ts[t].initTick)
    ensures Placed(us, ls, ts, ts', ks, ks', t, clock, starts, h)
  {
    hide Wrap, Link, Insert, Bottom;
  }

  /** Starting does not depend on whether the timer was active. */
  lemma PlacedFrom(us: seq<Row>, ls: seq<Row>, ts: seq<Timer>, off: seq<Timer>, ts': seq<Timer>, ks: seq<Key>, ks': seq<Key>,
                   t: nat, clock: int, starts: nat, h: nat)
    requires t < |ts| && off == ts[t := ts[t].(activated := false)]
    requires Placed(us, ls, off, ts', ks, ks', t, clock, starts, h)
    ensures Placed(us, ls, ts, ts', ks, ks', t, clock, starts, h)
    ensures Bottom(ls) == Insert(Bottom(us), ks', t)
  {
  }

  /** A new key for an unlinked timer leaves the rows in order, and it is the youngest. */
  lemma RekeyKeeps(rows: seq<Row>, ts: seq<Timer>, keys: seq<Key>, t: nat, d: int, clock: int, starts: nat)
    requires RowsSorted(rows, keys) && t < |keys| == |ts| && Absent(rows, t)
    requires AllArmed(Bottom(rows), ts, keys, clock, starts)
    ensures var ks, ts' := keys[t := Key(d, starts)], ts[t := ts[t].(timeoutTick := Wrap(d))];
            && RowsSorted(rows, ks) && AllArmed(Bottom(rows), ts', ks, clock, starts + 1)
            && StampsBelow(Bottom(rows), ks, starts)
  {
    var ks, ts' := keys[t := Key(d, starts)], ts[t := ts[t].(timeoutTick := Wrap(d))];
    forall r | 0 <= r < |rows|
      ensures Sorted(rows[r], ks)
    {
      RekeyOutside(rows[r], keys, t, Key(d, starts));
    }
    forall x | x in Bottom(rows)
      ensures Armed(x, ts', ks, clock, starts + 1) && KeyOf(ks, x).stamp < starts
    {
      assert Armed(x, ts, keys, clock, starts);
    }
  }

  lemma StartArmed(us: Row, ls: Row, ts: seq<Timer>, keys: seq<Key>, t: nat, d: int, clock: int, starts: nat)
    requires t < |keys| == |ts| && AllArmed(us, ts, keys, clock, starts) && Joined(us, ls, t)
    requires clock <= d < clock + HALF
    ensures AllArmed(ls, Scheduled(ts, t, d), keys[t := Key(d, starts)], clock, starts + 1)
    ensures NoneOverdue(us, keys, clock) ==> NoneOverdue(ls, keys[t := Key(d, starts)], clock)
  {
    forall x | x in ls
      ensures Armed(x, Scheduled(ts, t, d), keys[t := Key(d, starts)], clock, starts + 1)
    {
      assert x != t ==> Armed(x, ts, keys, clock, starts);
    }
  }

  lemma UnlinkArmed(was: seq<Row>, us: seq<Row>, ts: seq<Timer>, keys: seq<Key>, t: nat, clock: int, starts: nat)
    requires AllArmed(Bottom(was), ts, keys, clock, starts) && SameBut(Bottom(was), Bottom(us), t) && t < |ts|
    ensures AllArmed(Bottom(us), ts, keys, clock, starts)
    ensures AllArmed(Bottom(us), ts[t := ts[t].(activated := false)], keys, clock, starts)
    ensures NoneOverdue(Bottom(was), keys, clock) ==> NoneOverdue(Bottom(us), keys, clock)
  {
    var ts' := ts[t := ts[t].(activated := false)];
    forall x | x in Bottom(us)
      ensures Armed(x, ts, keys, clock, starts) && Armed(x, ts', keys, clock, starts)
    {
      assert Armed(x, ts, keys, clock, starts);
    }
  }

  lemma ClearUnlinked(row: Row, ts: seq<Timer>, keys: seq<Key>, t: nat, clock: int, starts: nat)
    requires AllArmed(row, ts, keys, clock, starts) && t !in row && t < |ts|
    ensures AllArmed(row, ts[t := ts[t].(activated := false)], keys, clock, starts)
  {
    var ts' := ts[t := ts[t].(activated := false)];
    forall x | x in row
      ensures Armed(x, ts', keys, clock, starts)
    {
      assert Armed(x, ts, keys, clock, starts);
    }
  }

  lemma UnlinkAbsent(rows: seq<Row>, keys: seq<Key>, t: nat)
    requires RowsSorted(rows, keys) && Nested(rows) && t !in Bottom(rows)
    ensures Unlink(rows, t) == rows
  {
    forall r | 0 <= r < |rows|
      ensures Remove(rows[r], t) == rows[r]
    {
      if t in rows[r] {
        InBottom(rows, r, t);
      }
      RemoveAbsent(rows[r], t);
    }
  }
}
