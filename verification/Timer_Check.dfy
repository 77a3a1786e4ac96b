/** What one check of the timer list fires, as a relation between the list before and after. */
module TimerFiring {
  import opened Queues
  import opened TimerRows
  import opened TimerList

  /** For each timer, the timers that its callback stops. */
  type Callbacks = seq<seq<nat>>

  function Stops(stops: Callbacks, t: nat): seq<nat> { if t < |stops| then stops[t] else [] }

  predicate StopsKnown(stops: Callbacks, n: nat) {
    forall t, i :: 0 <= t < |stops| && 0 <= i < |stops[t]| ==> stops[t][i] < n
  }

  /** A callback from position `i` on stopped `x`. */
  ghost predicate StoppedFrom(x: nat, fired: Row, i: nat, stops: Callbacks) {
    exists j :: i <= j < |fired| && x in Stops(stops, fired[j])
  }

  /** Still or again linked: not fired and not stopped, or periodic and not stopped since it fired. */
  ghost predicate Present(x: nat, row0: Row, ts0: seq<Timer>, fired: Row, stops: Callbacks) {
    if x in fired then
      x < |ts0| && ts0[x].periodic && forall i :: 0 <= i < |fired| && fired[i] == x ==> !StoppedFrom(x, fired, i, stops)
    else
      x in row0 && !StoppedFrom(x, fired, 0, stops)
  }

  /** `fired` holds due timers of `row0` in order, none of them stopped by an earlier callback. */
  ghost predicate FiredInOrder(row0: Row, ks0: seq<Key>, fired: Row, now: int, stops: Callbacks) {
    && Sorted(fired, ks0)
    && (forall x :: x in fired ==> x in row0 && KeyOf(ks0, x).deadline <= now)
    && (forall i, j :: 0 <= i < j < |fired| ==> fired[j] !in Stops(stops, fired[i]))
  }

  /** Keys of timers that did not fire stand; those re-armed are due `init_tick` from now. */
  ghost predicate KeysAfter(row: Row, ts0: seq<Timer>, ks0: seq<Key>, ks: seq<Key>, fired: Row, now: int) {
    forall x :: x in row ==>
      if x in fired then x < |ts0| && KeyOf(ks, x).deadline == now + ts0[x].initTick else KeyOf(ks, x) == KeyOf(ks0, x)
  }

  /** What has fired comes before everything that has not. */
  ghost predicate FiredFirst(row: Row, ks0: seq<Key>, fired: Row) {
    forall f, x :: f in fired && x in row && x !in fired ==> Before(KeyOf(ks0, f), KeyOf(ks0, x))
  }

  ghost predicate Fired(row0: Row, ts0: seq<Timer>, ks0: seq<Key>, row: Row, ks: seq<Key>, fired: Row, now: int,
      stops: Callbacks) {
    && FiredInOrder(row0, ks0, fired, now, stops)
    && (forall x :: x in row <==> Present(x, row0, ts0, fired, stops))
    && KeysAfter(row, ts0, ks0, ks, fired, now)
    && FiredFirst(row, ks0, fired)
  }

  /** Settings that rt_timer_check and its restarts rely on. */
  predicate PeriodsPositive(ts: seq<Timer>) {
    forall x :: 0 <= x < |ts| && ts[x].periodic ==> 1 <= ts[x].initTick < HALF
  }

  /** Only flags and tick counters differ. */
  predicate SameSettings(ts: seq<Timer>, ts': seq<Timer>) {
    |ts'| == |ts| && forall x :: 0 <= x < |ts| ==> ts'[x].initTick == ts[x].initTick && ts'[x].periodic == ts[x].periodic
  }

  lemma NothingFired(row: Row, ts: seq<Timer>, ks: seq<Key>, now: int, stops: Callbacks)
    ensures Fired(row, ts, ks, row, ks, [], now, stops)
  {
  }

  /** Timer `t` at the head of the list is due, its callback runs, and it is re-armed or not. */
  lemma FireStep(row0: Row, ts0: seq<Timer>, ks0: seq<Key>, row: Row, ks: seq<Key>, fired: Row, now: int, stops: Callbacks,
                 t: nat, row': Row, ks': seq<Key>)
    requires Fired(row0, ts0, ks0, row, ks, fired, now, stops) && PeriodsPositive(ts0)
    requires row != [] && row[0] == t && t < |ks| && t < |ts0| && Sorted(row, ks) && KeyOf(ks, t).deadline <= now
    requires var again := ts0[t].periodic && t !in Stops(stops, t);
             && (forall x :: x in row' <==> (x in row && x != t && x !in Stops(stops, t)) || (x == t && again))
             && (forall x :: x != t ==> KeyOf(ks', x) == KeyOf(ks, x))
             && (again ==> KeyOf(ks', t).deadline == now + ts0[t].initTick)
    ensures t !in fired
    ensures Fired(row0, ts0, ks0, row', ks', fired + [t], now, stops)
  {
    var f := fired + [t];
    assert t in row;
    FireOrder(row0, ts0, ks0, row, ks, fired, now, stops, t);
    FireFirst(row, ts0, ks0, row', ks, fired, now, stops, t);
    forall x
      ensures x in row' <==> Present(x, row0, ts0, f, stops)
    {
      FirePresent(x, row0, ts0, fired, stops, t);
    }
  }

  lemma FireOrder(row0: Row, ts0: seq<Timer>, ks0: seq<Key>, row: Row, ks: seq<Key>, fired: Row, now: int,
      stops: Callbacks, t: nat)
    requires Fired(row0, ts0, ks0, row, ks, fired, now, stops)
    requires t in row && t !in fired && KeyOf(ks, t).deadline <= now
    ensures FiredInOrder(row0, ks0, fired + [t], now, stops)
  {
    var f := fired + [t];
    assert Present(t, row0, ts0, fired, stops);
    forall i, j | 0 <= i < j < |f|
      ensures Before(KeyOf(ks0, f[i]), KeyOf(ks0, f[j])) && f[j] !in Stops(stops, f[i])
    {
      assert f[i] == fired[i];
      if j < |fired| {
        assert f[j] == fired[j];
      }
    }
  }

  lemma FireFirst(row: Row, ts0: seq<Timer>, ks0: seq<Key>, row': Row, ks: seq<Key>, fired: Row, now: int,
      stops: Callbacks, t: nat)
    requires KeysAfter(row, ts0, ks0, ks, fired, now) && FiredFirst(row, ks0, fired)
    requires row != [] && row[0] == t && Sorted(row, ks) && t !in fired
    requires forall x :: x in row' && x != t ==> x in row
    ensures FiredFirst(row', ks0, fired + [t])
  {
    forall f, x | f in fired + [t] && x in row' && x !in fired + [t]
      ensures Before(KeyOf(ks0, f), KeyOf(ks0, x))
    {
      var i :| 0 <= i < |row| && row[i] == x;
      if f == t {
        assert Before(KeyOf(ks, row[0]), KeyOf(ks, row[i]));
        assert KeyOf(ks, t) == KeyOf(ks0, t) by { assert t in row; }
      }
    }
  }

  lemma FirePresent(x: nat, row0: Row, ts0: seq<Timer>, fired: Row, stops: Callbacks, t: nat)
    requires t !in fired && t < |ts0|
    ensures Present(x, row0, ts0, fired + [t], stops) <==>
            if x == t then ts0[t].periodic && t !in Stops(stops, t) else Present(x, row0, ts0, fired, stops) && x !in Stops(stops, t)
  {
    var f := fired + [t];
    forall i | 0 <= i <= |fired|
      ensures StoppedFrom(x, f, i, stops) <==> StoppedFrom(x, fired, i, stops) || x in Stops(stops, t)
    {
      if StoppedFrom(x, fired, i, stops) {
        var j :| i <= j < |fired| && x in Stops(stops, fired[j]);
        assert f[j] == fired[j];
      }
      assert f[|fired|] == t;
    }
    assert forall i :: 0 <= i < |fired| ==> f[i] == fired[i];
    if x == t {
      assert !StoppedFrom(x, fired, |fired|, stops);
      assert f[|fired|] == x;
    }
  }

  /** Nothing left is due: exactly the due timers fired, except those that an earlier callback stopped. */
  lemma FiredExactly(row0: Row, ts0: seq<Timer>, ks0: seq<Key>, row: Row, ks: seq<Key>, fired: Row, now: int,
      stops: Callbacks, x: nat)
    requires Fired(row0, ts0, ks0, row, ks, fired, now, stops)
    requires NothingDue(row, ks, now)
    ensures x in fired ==> x in row0 && KeyOf(ks0, x).deadline <= now
    ensures x in row0 && KeyOf(ks0, x).deadline <= now && x !in fired ==> exists f :: f in fired && x in Stops(stops, f)
    ensures x in row && x in fired ==> x < |ts0| && ts0[x].periodic && KeyOf(ks, x).deadline == now + ts0[x].initTick
    ensures x in row && x !in fired ==> x in row0 && KeyOf(ks0, x).deadline > now
  {
    assert x in row <==> Present(x, row0, ts0, fired, stops);
    if x in row0 && KeyOf(ks0, x).deadline <= now && x !in fired {
      assert StoppedFrom(x, fired, 0, stops);
    }
  }

  /** Callbacks that stop nothing: the fired timers are the due prefix of the list, in its order. */
  lemma FiredIsDuePrefix(row0: Row, ts0: seq<Timer>, ks0: seq<Key>, row: Row, ks: seq<Key>, fired: Row, now: int,
      stops: Callbacks)
    requires Fired(row0, ts0, ks0, row, ks, fired, now, stops) && Sorted(row0, ks0)
    requires NothingDue(row, ks, now)
    requires forall x :: 0 <= x < |stops| ==> stops[x] == []
    ensures fired == row0[..Rank(row0, ks0, now)]
    ensures forall x :: x in row <==> if x in fired then x < |ts0| && ts0[x].periodic else x in row0
  {
    var due := row0[..Rank(row0, ks0, now)];
    RankSplits(row0, ks0, now);
    forall x
      ensures x in due <==> x in fired
    {
      FiredExactly(row0, ts0, ks0, row, ks, fired, now, stops, x);
      if x in row0 && KeyOf(ks0, x).deadline <= now {
        var i :| 0 <= i < |row0| && row0[i] == x;
        assert row0[i] in due;
      }
    }
    SortedUnique(due, fired, ks0);
    forall x: nat
      ensures x in row <==> if x in fired then x < |ts0| && ts0[x].periodic else x in row0
    {
      assert x in row <==> Present(x, row0, ts0, fired, stops);
    }
  }

  /** What follows from a restart for the due timers: none is added. */
  lemma {:induction false} RankSameKeys(row: Row, ks: seq<Key>, ks': seq<Key>, d: int)
    requires forall x :: x in row ==> KeyOf(ks', x) == KeyOf(ks, x)
    ensures Rank(row, ks', d) == Rank(row, ks, d)
  {
    if row != [] {
      assert row[0] in row;
      forall x | x in row[1..]
        ensures KeyOf(ks', x) == KeyOf(ks, x)
      {
        assert x in row;
      }
      RankSameKeys(row[1..], ks, ks', d);
    }
  }

  lemma RankInsertLater(row: Row, ks: seq<Key>, t: nat, d: int)
    requires Sorted(row, ks) && t < |ks| && ks[t].deadline > d && Sorted(Insert(row, ks, t), ks)
    ensures Rank(Insert(row, ks, t), ks, d) == Rank(row, ks, d)
  {
    var p, q := Rank(row, ks, d), Rank(row, ks, ks[t].deadline);
    RankSplits(row, ks, d);
    RankSplits(row, ks, ks[t].deadline);
    var r := Insert(row, ks, t);
    assert q < |row| ==> KeyOf(ks, row[q]).deadline > ks[t].deadline;
    assert p < q || r[p] == t;
    RankUnique(r, ks, d, p);
  }

  /** The timers `us` were stopped: they are off the row and inactive, the others as before, and none became due. */
  ghost predicate Stopped(row: Row, ts: seq<Timer>, row': Row, ts': seq<Timer>, ks: seq<Key>, us: seq<nat>) {
    && SameSettings(ts, ts')
    && (forall x :: x in row' <==> x in row && x !in us)
    && (forall d :: Rank(row', ks, d) <= Rank(row, ks, d))
    && (forall x :: 0 <= x < |ts| ==> ts'[x].activated == (ts[x].activated && x !in us))
  }

  predicate AllBelow(us: seq<nat>, n: nat) {
    forall i :: 0 <= i < |us| ==> us[i] < n
  }

  lemma StopsInRange(stops: Callbacks, t: nat, n: nat)
    requires StopsKnown(stops, n)
    ensures AllBelow(Stops(stops, t), n)
  {
  }

  lemma NothingStopped(row: Row, ts: seq<Timer>, ks: seq<Key>)
    ensures Stopped(row, ts, row, ts, ks, [])
  {
  }

  lemma StoppedStep(row: Row, ts: seq<Timer>, row': Row, ts': seq<Timer>, ks: seq<Key>, us: seq<nat>, u: nat)
    requires Stopped(row, ts, row', ts', ks, us) && Sorted(row', ks) && u < |ts'|
    ensures Stopped(row, ts, Remove(row', u), ts'[u := ts'[u].(activated := false)], ks, us + [u])
  {
    RemoveSorted(row', ks, u);
    forall d
      ensures Rank(Remove(row', u), ks, d) <= Rank(row, ks, d)
    {
      RankRemove(row', ks, u, d);
      assert Rank(row', ks, d) <= Rank(row, ks, d);
    }
  }

  /** One rt_timer_stop of a callback that has stopped `us` so far. */
  method StopOne(list: TimerList, u: nat, ghost row: Row, ghost ts: seq<Timer>, ghost us: seq<nat>)
    requires list.Valid() && u < |list.timers| && Stopped(row, ts, Bottom(list.rows), list.timers, list.keys, us)
    modifies list`timers, list`rows
    ensures list.Valid() && Stopped(row, ts, Bottom(list.rows), list.timers, list.keys, us + [u])
    ensures |list.timers| == |old(list.timers)|
  {
    BottomSorted(list.rows, list.keys);
    StoppedStep(row, ts, Bottom(list.rows), list.timers, list.keys, us, u);
    hide Sorted, RowsSorted, AllArmed, Armed, KeyOf, Rank, Bottom, Wrap, Unlink, Nested, Queues.Remove, Stopped, NoneOverdue;
    var _ := list.Stop(u);
  }

  /** The callback of `t`: it stops timers and starts none. */
  method Callback(list: TimerList, t: nat, stops: Callbacks)
    requires list.Valid() && StopsKnown(stops, |list.timers|)
    modifies list`timers, list`rows
    ensures list.Valid() && Stopped(Bottom(old(list.rows)), old(list.timers), Bottom(list.rows), list.timers,
        list.keys, Stops(stops, t))
  {
    var us := Stops(stops, t);
    var i := 0;
    ghost var row, ts := Bottom(list.rows), list.timers;
    NothingStopped(row, ts, list.keys);
    StopsInRange(stops, t, |list.timers|);
    hide Stopped, Stops, StopsKnown, Bottom, RowsSorted, AllArmed, Nested, Wrap;
    assert us[..0] == [];
    while i < |us|
      invariant 0 <= i <= |us| && list.Valid() && |list.timers| == |ts|
      invariant Stopped(row, ts, Bottom(list.rows), list.timers, list.keys, us[..i])
    {
      assert us[..i + 1] == us[..i] + [us[i]];
      StopOne(list, us[i], row, ts, us[..i]);
      i := i + 1;
    }
    assert us[..|us|] == us;
  }

  /** The relation between the list before and after its head fired. */
  ghost predicate HeadFired(row: Row, ts: seq<Timer>, ks: seq<Key>, row': Row, ks': seq<Key>, now: int, stops: Callbacks) {
    && row != [] && row[0] < |ts| && row[0] < |ks|
    && var t := row[0];
       var again := ts[t].periodic && t !in Stops(stops, t);
       && (forall x :: x in row' <==> (x in row && x != t && x !in Stops(stops, t)) || (x == t && again))
       && (forall x :: x != t ==> KeyOf(ks', x) == KeyOf(ks, x))
       && (again ==> KeyOf(ks', t).deadline == now + ts[t].initTick)
       && Rank(row', ks', now) < Rank(row, ks, now)
  }

  /** One turn of the loop in rt_timer_check: unlink the head, run its callback, re-arm it if it is periodic and still active. */
  method FireHead(list: TimerList, stops: Callbacks) returns (t: nat)
    requires list.Valid() && PeriodsPositive(list.timers) && Bottom(list.rows) != []
    requires KeyOf(list.keys, Bottom(list.rows)[0]).deadline <= list.clock
    requires StopsKnown(stops, |list.timers|)
    modifies list`timers, list`rows, list`randomNr, list`keys, list`starts
    ensures list.Valid() && SameSettings(old(list.timers), list.timers) && t == Bottom(old(list.rows))[0]
    ensures HeadFired(Bottom(old(list.rows)), old(list.timers), old(list.keys), Bottom(list.rows), list.keys, list.clock, stops)
  {
    ghost var row, ks, ts, now := Bottom(list.rows), list.keys, list.timers, list.clock;
    t := RunHead(list, stops);
    ghost var row1, ts1, stamp := Bottom(list.rows), list.timers, list.starts;
    hide Armed, KeyOf, Bottom, Sorted, Nested, AllArmed, Queues.Remove, NoneOverdue, StopsKnown,
      Insert, Rank, Unlink, Link, Wrap, Stopped, HeadFired, SameSettings, PeriodsPositive, RowsSorted, Scheduled, Stops;
    BottomSorted(list.rows, list.keys);
    var again := list.Rearm(t);
    BottomSorted(list.rows, list.keys);
    if again {
      Rearmed(row, ts, ks, row1, ts1, Bottom(list.rows), list.timers, list.keys, t, now, stamp, stops);
    } else {
      NotRearmed(row, ts, ks, row1, ts1, list.timers, t, now, stops);
    }
  }

  /** The first half of a turn: the head is unlinked and its callback runs. */
  method RunHead(list: TimerList, stops: Callbacks) returns (t: nat)
    requires list.Valid() && PeriodsPositive(list.timers) && Bottom(list.rows) != [] && StopsKnown(stops, |list.timers|)
    modifies list`timers, list`rows
    ensures list.Valid() && Bottom(old(list.rows))[0] == t < |list.timers| == |old(list.timers)| == |list.keys|
    ensures Sorted(Bottom(old(list.rows)), list.keys) && t !in Bottom(list.rows)
    ensures Stopped(Remove(Bottom(old(list.rows)), t), old(list.timers), Bottom(list.rows), list.timers, list.keys,
        Stops(stops, t))
    ensures var was, now := old(list.timers)[t], list.timers[t];
            && now.periodic == was.periodic && now.initTick == was.initTick && (was.periodic ==> 1 <= was.initTick < HALF)
            && now.activated == (t !in Stops(stops, t))
  {
    ghost var row, ks, ts := Bottom(list.rows), list.keys, list.timers;
    t := list.rows[list.levels - 1][0];
    assert Armed(t, ts, ks, list.clock, list.starts) by { assert t in row; }
    assert row != [] && row[0] == t && ts[t].activated && Sorted(row, ks);
    hide Armed, KeyOf, Bottom, Sorted, Nested, AllArmed, Queues.Remove, NoneOverdue, StopsKnown,
      Insert, Rank, Unlink, Link, Wrap, Stopped, SameSettings, PeriodsPositive, RowsSorted, Stops;
    list.Detach(t);
    Callback(list, t, stops);
    AfterCallback(row, ts, ks, Bottom(list.rows), list.timers, t, list.clock, stops);
  }

  /** No linked timer is due. */
  predicate NothingDue(row: Row, ks: seq<Key>, now: int) {
    forall x :: x in row ==> KeyOf(ks, x).deadline > now
  }

  /**
   * rt_timer_check: fire the due timers in order until none is left. `Fired` relates the list before to the
   * list after, and FiredExactly and FiredIsDuePrefix say what that means.
   */
  method Check(list: TimerList, stops: Callbacks) returns (fired: Row)
    requires list.Valid() && PeriodsPositive(list.timers) && StopsKnown(stops, |list.timers|)
    modifies list`timers, list`rows, list`randomNr, list`keys, list`starts
    ensures list.Valid() && list.OnTime() && SameSettings(old(list.timers), list.timers)
    ensures NothingDue(Bottom(list.rows), list.keys, list.clock)
    ensures Fired(Bottom(old(list.rows)), old(list.timers), old(list.keys), Bottom(list.rows), list.keys, fired,
        list.clock, stops)
  {
    ghost var row0, ts0, ks0, now := Bottom(list.rows), list.timers, list.keys, list.clock;
    fired := [];
    NothingFired(row0, ts0, ks0, now, stops);
    hide Armed, KeyOf, Sorted, Nested, AllArmed, Rank, Wrap, HeadFired, Fired, SameSettings, PeriodsPositive, RowsSorted,
      StopsKnown, NothingDue, Bottom, Ahead, NoneOverdue;
    SettingsKept(ts0, ts0, ts0);
    while list.rows[list.levels - 1] != []
      invariant list.Valid() && list.clock == now && SameSettings(ts0, list.timers) && |list.timers| == |ts0|
      invariant PeriodsPositive(list.timers)
      invariant Fired(row0, ts0, ks0, Bottom(list.rows), list.keys, fired, now, stops)
      decreases Rank(Bottom(list.rows), list.keys, now)
    {
      var t := list.rows[list.levels - 1][0];
      ghost var row, ts, ks := Bottom(list.rows), list.timers, list.keys;
      HeadDue(list.rows, ts, ks, now, list.starts);
      assert list.tick == Wrap(now) && t == row[0];
      if Ahead(list.tick, list.timers[t].timeoutTick) < HALF {
        var t' := FireHead(list, stops);
        FireStepFrom(row0, ts0, ks0, row, ts, ks, fired, now, stops, Bottom(list.rows), list.keys);
        SettingsKept(ts0, ts, list.timers);
        fired := fired + [t'];
      } else {
        break;
      }
    }
    CheckDone(list.rows, list.keys, now);
  }

  /** The wrapped test at the head of the list tells exactly whether anything is due. */
  lemma HeadDue(rows: seq<Row>, ts: seq<Timer>, ks: seq<Key>, now: int, starts: nat)
    requires rows != [] && Bottom(rows) != [] && RowsSorted(rows, ks) && AllArmed(Bottom(rows), ts, ks, now, starts)
    ensures var row := Bottom(rows);
            && row == rows[|rows| - 1] && row[0] < |ts| && row[0] < |ks|
            && (Ahead(Wrap(now), ts[row[0]].timeoutTick) < HALF <==> KeyOf(ks, row[0]).deadline <= now)
            && (KeyOf(ks, row[0]).deadline > now ==> NothingDue(row, ks, now))
  {
    var row := Bottom(rows);
    assert Armed(row[0], ts, ks, now, starts);
    WrappedOrder(now, ks[row[0]].deadline);
    forall x | x in row && KeyOf(ks, row[0]).deadline > now
      ensures KeyOf(ks, x).deadline > now
    {
      var i :| 0 <= i < |row| && row[i] == x;
      assert i > 0 ==> Before(KeyOf(ks, row[0]), KeyOf(ks, row[i]));
    }
  }

  lemma FireStepFrom(row0: Row, ts0: seq<Timer>, ks0: seq<Key>, row: Row, ts: seq<Timer>, ks: seq<Key>, fired: Row, now: int,
                     stops: Callbacks, row': Row, ks': seq<Key>)
    requires Fired(row0, ts0, ks0, row, ks, fired, now, stops) && PeriodsPositive(ts) && SameSettings(ts0, ts)
    requires Sorted(row, ks) && row != [] && KeyOf(ks, row[0]).deadline <= now
    requires HeadFired(row, ts, ks, row', ks', now, stops)
    ensures Fired(row0, ts0, ks0, row', ks', fired + [row[0]], now, stops)
    ensures Rank(row', ks', now) < Rank(row, ks, now)
  {
    FireStep(row0, ts0, ks0, row, ks, fired, now, stops, row[0], row', ks');
  }

  lemma SettingsKept(ts0: seq<Timer>, ts: seq<Timer>, ts': seq<Timer>)
    requires (ts0 == ts || SameSettings(ts0, ts)) && (ts == ts' || SameSettings(ts, ts'))
    ensures SameSettings(ts0, ts') && |ts'| == |ts0|
    ensures PeriodsPositive(ts) ==> PeriodsPositive(ts')
  {
  }

  lemma CheckDone(rows: seq<Row>, ks: seq<Key>, now: int)
    requires rows != [] && (rows[|rows| - 1] == [] || NothingDue(Bottom(rows), ks, now))
    ensures NothingDue(Bottom(rows), ks, now) && NoneOverdue(Bottom(rows), ks, now)
  {
  }

  /** The clock part of rt_tick_increase: one tick passes, then the list is checked. */
  method TickAndCheck(list: TimerList, stops: Callbacks) returns (fired: Row)
    requires list.Valid() && list.OnTime() && PeriodsPositive(list.timers) && StopsKnown(stops, |list.timers|)
    modifies list`timers, list`rows, list`randomNr, list`keys, list`starts, list`tick, list`clock
    ensures list.Valid() && list.OnTime() && SameSettings(old(list.timers), list.timers)
    ensures list.clock == old(list.clock) + 1 && list.tick == (old(list.tick) + 1) % TICKS
    ensures NothingDue(Bottom(list.rows), list.keys, list.clock)
    ensures Fired(Bottom(old(list.rows)), old(list.timers), old(list.keys), Bottom(list.rows), list.keys, fired,
        list.clock, stops)
  {
    LaterArmed(Bottom(list.rows), list.timers, list.keys, list.clock, list.starts);
    WrapAdd(list.clock, 1);
    hide Sorted, AllArmed, Nested, Fired, NothingDue, NoneOverdue, SameSettings, PeriodsPositive, StopsKnown;
    list.clock := list.clock + 1;
    list.tick := (list.tick + 1) % TICKS;
    fired := Check(list, stops);
  }

  lemma LaterArmed(row: Row, ts: seq<Timer>, ks: seq<Key>, clock: int, starts: nat)
    requires AllArmed(row, ts, ks, clock, starts) && NoneOverdue(row, ks, clock)
    ensures AllArmed(row, ts, ks, clock + 1, starts)
  {
    forall x | x in row
      ensures Armed(x, ts, ks, clock + 1, starts)
    {
      assert Armed(x, ts, ks, clock, starts);
    }
  }

  lemma BottomSorted(rows: seq<Row>, ks: seq<Key>)
    requires RowsSorted(rows, ks)
    ensures Sorted(Bottom(rows), ks)
  {
  }

  lemma AfterCallback(row: Row, ts: seq<Timer>, ks: seq<Key>, row1: Row, ts1: seq<Timer>, t: nat, now: int, stops: Callbacks)
    requires row != [] && row[0] == t && Sorted(row, ks) && t < |ts| && ts[t].activated && PeriodsPositive(ts)
    requires Stopped(Remove(row, t), ts, row1, ts1, ks, Stops(stops, t))
    ensures t < |ts1| == |ts| && ts1[t].periodic == ts[t].periodic && ts1[t].initTick == ts[t].initTick
    ensures ts1[t].activated == (t !in Stops(stops, t)) && t !in row1
    ensures ts[t].periodic ==> 1 <= ts[t].initTick < HALF
  {
    RemoveSorted(row, ks, t);
  }

  /** Re-arming the head: the others keep their keys and no due timer is added. */
  lemma Rearmed(row: Row, ts: seq<Timer>, ks: seq<Key>, row1: Row, ts1: seq<Timer>, row': Row, ts': seq<Timer>, ks': seq<Key>,
                t: nat, now: int, stamp: nat, stops: Callbacks)
    requires row != [] && row[0] == t && Sorted(row, ks) && t < |ts| == |ks| && KeyOf(ks, t).deadline <= now
    requires Stopped(Remove(row, t), ts, row1, ts1, ks, Stops(stops, t)) && ts[t].periodic && t !in Stops(stops, t)
        && ts[t].initTick >= 1
    requires Sorted(row1, ks) && Sorted(row', ks')
    requires ks' == ks[t := Key(now + ts[t].initTick, stamp)] && row' == Insert(Remove(row1, t), ks', t)
    requires ts' == Scheduled(ts1, t, now + ts[t].initTick)
    ensures HeadFired(row, ts, ks, row', ks', now, stops) && SameSettings(ts, ts')
  {
    RemoveSorted(row, ks, t);
    RankRemove(row, ks, t, now);
    assert Rank(row1, ks, now) <= Rank(Remove(row, t), ks, now);
    RankInsertRekeyed(row1, row', ks, ks', t, now, stamp, now + ts[t].initTick);
  }

  lemma RankInsertRekeyed(row: Row, row': Row, ks: seq<Key>, ks': seq<Key>, t: nat, now: int, stamp: nat, d: int)
    requires Sorted(row, ks) && Sorted(row', ks') && t < |ks| && t !in row && d > now
    requires ks' == ks[t := Key(d, stamp)] && row' == Insert(Remove(row, t), ks', t)
    ensures Rank(row', ks', now) == Rank(row, ks, now)
    ensures forall x :: x in row' <==> x in row || x == t
  {
    RemoveAbsent(row, t);
    RankSameKeys(row, ks, ks', now);
    RekeyOutside(row, ks, t, Key(d, stamp));
    RankInsertLater(row, ks', t, now);
    hide Sorted, Rank, KeyOf;
    InsertedMembers(row, ks', t);
  }

  lemma InsertedMembers(row: Row, ks: seq<Key>, t: nat)
    requires t < |ks|
    ensures forall x :: x in Insert(row, ks, t) <==> x in row || x == t
  {
    var p := Rank(row, ks, KeyOf(ks, t).deadline);
    hide Rank, KeyOf;
    assert row == row[..p] + row[p..];
  }

  lemma NotRearmed(row: Row, ts: seq<Timer>, ks: seq<Key>, row1: Row, ts1: seq<Timer>, ts': seq<Timer>, t: nat,
      now: int, stops: Callbacks)
    requires row != [] && row[0] == t && Sorted(row, ks) && t < |ts| == |ks| && KeyOf(ks, t).deadline <= now
    requires Stopped(Remove(row, t), ts, row1, ts1, ks, Stops(stops, t)) && t < |ts1|
        && ts' == ts1[t := ts1[t].(activated := false)]
    requires !(ts[t].periodic && t !in Stops(stops, t))
    ensures HeadFired(row, ts, ks, row1, ks, now, stops) && SameSettings(ts, ts')
  {
    RemoveSorted(row, ks, t);
    RankRemove(row, ks, t, now);
    assert Rank(row1, ks, now) <= Rank(Remove(row, t), ks, now);
  }

  /**
   * A periodic timer that is re-armed in the check is due again in the same check exactly when its period is 0:
   * then the loop does not end.
   */
  lemma RearmedDueIff(now: int, initTick: nat)
    requires initTick < HALF
    ensures Ahead(Wrap(now), Wrap(now + initTick)) < HALF <==> initTick == 0
  {
    WrappedOrder(now, now + initTick);
  }
}
