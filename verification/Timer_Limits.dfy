/** What the test at the head of the timer list answers when checks were missed or the clock was set. */
module TimerLimits {
  import opened TimerRows
  import opened TimerList

  /** The timer at the head of the list, with its tick counter and its deadline. */
  ghost predicate HeadIs(rows: seq<Row>, ts: seq<Timer>, ks: seq<Key>, t: nat) {
    && rows != [] && RowsSorted(rows, ks) && Nested(rows) && Bottom(rows) != [] && Bottom(rows)[0] == t
    && t < |ts| && ts[t].activated && ts[t].timeoutTick == Wrap(KeyOf(ks, t).deadline)
  }

  /**
   * Whatever the clock has done since the last check: within one tick range the test at the head is right exactly when
   * the timer is overdue by less than half the range, or ahead by no more than the rest of it.
   */
  lemma HeadTestIff(rows: seq<Row>, ts: seq<Timer>, ks: seq<Key>, now: int, t: nat)
    requires HeadIs(rows, ts, ks, t) && -TICKS < now - KeyOf(ks, t).deadline < TICKS
    ensures var overdue := now - KeyOf(ks, t).deadline;
            (Ahead(Wrap(now), ts[t].timeoutTick) < HALF <==> overdue >= 0) <==> HALF - TICKS <= overdue < HALF
  {
    WrappedOrderIff(now, KeyOf(ks, t).deadline);
  }

  /** A due timer that is missed: the only one in the list, with no check for half the tick range. */
  lemma LateHeadMissed()
    ensures var rows, ts, ks := [[0]], [Timer(1, 1, false, true)], [Key(1, 0)];
            && HeadIs(rows, ts, ks, 0) && KeyOf(ks, 0).deadline <= 1 + HALF
            && Ahead(Wrap(1 + HALF), ts[0].timeoutTick) >= HALF
  {
    var row, ks := [0], [Key(1, 0)];
    assert Sorted(row, ks);
    assert Bottom([row]) == row;
  }
}
