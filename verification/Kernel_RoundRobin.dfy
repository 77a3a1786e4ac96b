/** Time slices: what rt_tick_increase does to the running thread, and when each ready thread gets its turn. */
module RoundRobin {
  import opened Queues
  import opened ReadyBits
  import opened KernelState
  import opened KernelPlacement
  import opened KernelRuns

  const WORD: nat := 0x1_0000_0000

  /** `remaining` and `init` are the remaining_tick and init_tick of each thread. */
  datatype Clock = Clock(kernel: State, tick: nat, remaining: seq<nat>, init: seq<nat>)

  /** The running thread is ready. */
  predicate Running(c: Clock) {
    && Inv(c.kernel) && c.kernel.current < |c.kernel.threads| == |c.remaining| == |c.init|
    && c.kernel.threads[c.kernel.current].stat == Ready
  }

  lemma RunningIsQueued(s: State)
    requires Inv(s) && s.current < |s.threads| && s.threads[s.current].stat == Ready
    ensures s.threads[s.current].priority < |s.ready| && s.current in s.ready[s.threads[s.current].priority] && SomeReady(s)
  {
    assert PlacedAt(s, s.current) && ThreadSized(s.threads[s.current], s.wide);
  }

  /** rt_thread_yield with its scheduling. */
  function YieldSchedule(s: State): State
    requires Inv(s) && s.current < |s.threads| && s.threads[s.current].stat == Ready
  {
    RunningIsQueued(s);
    if |s.ready[s.threads[s.current].priority]| > 1 then
      YieldKeeps(s);
      YieldRuns(s);
      ScheduleNext(YieldThread(s))
    else s
  }

  lemma YieldRuns(s: State)
    requires Inv(s) && s.current < |s.threads| && s.threads[s.current].stat == Ready
    ensures Inv(YieldThread(s)) && SomeReady(YieldThread(s)) && YieldThread(s).threads == s.threads
        && YieldThread(s).current == s.current
  {
    YieldKeeps(s);
    RunningIsQueued(YieldThread(s));
  }

  /** The time-slice part of rt_tick_increase. */
  function Tick(c: Clock): Clock
    requires Running(c)
  {
    var t, d := c.kernel.current, c.(tick := (c.tick + 1) % WORD);
    var left := (c.remaining[t] + WORD - 1) % WORD;
    if left == 0 then d.(remaining := c.remaining[t := c.init[t]], kernel := YieldSchedule(c.kernel))
    else d.(remaining := c.remaining[t := left])
  }

  lemma TickShape(c: Clock)
    requires Running(c)
    ensures var s, t := c.kernel, c.kernel.current;
            var left := (c.remaining[t] + WORD - 1) % WORD;
            && (left != 0 ==> Tick(c) == Clock(s, (c.tick + 1) % WORD, c.remaining[t := left], c.init))
            && (left == 0 ==> Tick(c) == Clock(YieldSchedule(s), (c.tick + 1) % WORD, c.remaining[t := c.init[t]], c.init))
            && s.threads[t].priority < |s.ready|
            && (|s.ready[s.threads[t].priority]| <= 1 ==> YieldSchedule(s) == s)
            && (|s.ready[s.threads[t].priority]| > 1 ==> Inv(YieldThread(s)) && SomeReady(YieldThread(s)) && YieldSchedule(s) == ScheduleNext(YieldThread(s)))
  {
    RunningIsQueued(c.kernel);
    YieldRuns(c.kernel);
  }

  lemma TickKeeps(c: Clock)
    requires Running(c)
    ensures Running(Tick(c)) && Tick(c).init == c.init
  {
    var s := c.kernel;
    RunningIsQueued(s);
    if |s.ready[s.threads[s.current].priority]| > 1 {
      YieldRuns(s);
      ScheduleKeeps(YieldThread(s));
      SchedulePicksHighest(YieldThread(s));
    }
    hide Inv;
  }

  function After(c: Clock, n: nat): (r: Clock)
    requires Running(c)
    ensures Running(r)
    decreases n
  {
    if n == 0 then c else TickKeeps(c); After(Tick(c), n - 1)
  }

  lemma {:induction false} AfterAdds(c: Clock, m: nat, n: nat)
    requires Running(c)
    ensures After(c, m + n) == After(After(c, m), n)
    decreases m
  {
    hide Running, Tick;
    if m > 0 {
      TickKeeps(c);
      AfterAdds(Tick(c), m - 1, n);
    }
  }

  // ----- turns -----

  predicate Slice(c: Clock, t: nat) {
    t < |c.remaining| && t < |c.init| && 1 <= c.remaining[t] < WORD && 1 <= c.init[t] < WORD
  }

  /**
   * Priority `p` is the strongest with ready threads, its first one runs, and all its threads have slices of at
   * least one tick.
   */
  predicate Turns(c: Clock, p: nat) {
    && Running(c) && c.kernel.lockNest == 0 && p < |c.kernel.ready|
    && c.kernel.ready[p] != [] && c.kernel.current == c.kernel.ready[p][0]
    && (forall i :: 0 <= i < p ==> c.kernel.ready[i] == [])
    && forall t :: t in c.kernel.ready[p] ==> Slice(c, t)
  }

  function Rotate(q: Queue, i: nat): Queue
    requires i <= |q|
  {
    q[i..] + q[..i]
  }

  lemma RotateMembers(q: Queue, i: nat)
    requires i <= |q|
    ensures forall x :: x in Rotate(q, i) <==> x in q
  {
    assert q == q[..i] + q[i..];
  }

  lemma CurrentPriority(c: Clock, p: nat)
    requires Turns(c, p)
    ensures c.kernel.threads[c.kernel.current].priority == p
  {
    assert c.kernel.current in c.kernel.ready[p] && PlacedAt(c.kernel, c.kernel.current);
  }

  /** While its slice lasts the thread goes on. */
  lemma CountDown(c: Clock, p: nat)
    requires Turns(c, p) && c.remaining[c.kernel.current] > 1
    ensures var t := c.kernel.current; Tick(c) == c.(tick := (c.tick + 1) % WORD,
        remaining := c.remaining[t := c.remaining[t] - 1])
    ensures Turns(Tick(c), p)
  {
    TickKeeps(c);
    hide Inv;
    assert Slice(c, c.kernel.current);
    var t := c.kernel.current;
    var d := c.(tick := (c.tick + 1) % WORD, remaining := c.remaining[t := c.remaining[t] - 1]);
    assert Tick(c) == d;
    hide Inv, Running, Tick;
    forall x | x in c.kernel.ready[p]
      ensures Slice(d, x)
    {
      assert Slice(c, x);
    }
  }

  /** rt_thread_yield rotates the ready list. */
  lemma YieldRotates(s: State, p: nat)
    requires Inv(s) && p < |s.ready| && s.ready[p] != [] && s.current == s.ready[p][0] && s.current < |s.threads|
    requires s.threads[s.current].stat == Ready && s.threads[s.current].priority == p
    ensures var r := YieldThread(s);
            |r.ready| == |s.ready| && r.ready[p] == Rotate(s.ready[p], 1) && forall i :: 0 <= i < |s.ready| && i != p ==> r.ready[i] == s.ready[i] {
    var q := s.ready[p];
    if |q| > 1 {
      var u := Unlink(s, s.current);
      assert u.ready[p] == q[1..];
      forall i | 0 <= i < |s.ready| && i != p
        ensures u.ready[i] == s.ready[i]
      {
        assert PlacedAt(s, s.current);
        RemoveAbsent(s.ready[i], s.current);
      }
    } else {
      assert Rotate(q, 1) == q;
    }
  }

  /** The top ready list is the one whose head runs next. */
  lemma TopRuns(s: State, p: nat)
    requires Inv(s) && s.lockNest == 0 && p < |s.ready| && s.ready[p] != [] && forall i :: 0 <= i < p ==> s.ready[i] == []
    ensures SomeReady(s) && ScheduleNext(s) == s.(current := s.ready[p][0])
  {
    SchedulePicksHighest(s);
    var c := ScheduleNext(s).current;
    var o := s.threads[c].priority;
    assert ThreadSized(s.threads[c], s.wide);
    var h := s.ready[p][0];
    assert h in s.ready[p] && PlacedAt(s, h);
    assert s.ready[o] != [];
    hide Inv;
  }

  /** When its slice is used up it gets a new one and goes behind the others. */
  lemma Expire(c: Clock, p: nat)
    requires Turns(c, p) && c.remaining[c.kernel.current] == 1
    ensures var t := c.kernel.current; Tick(c).remaining == c.remaining[t := c.init[t]] && Tick(c).init == c.init
    ensures Turns(Tick(c), p) && Tick(c).kernel.ready[p] == Rotate(c.kernel.ready[p], 1)
  {
    var q := c.kernel.ready[p];
    TickKeeps(c);
    TickRotates(c, p);
    RotateMembers(q, 1);
    assert Running(c);
    hide Inv, Running, Tick, Rotate;
    forall t | t in Tick(c).kernel.ready[p]
      ensures Slice(Tick(c), t)
    {
      assert Slice(c, t);
    }
  }

  lemma TickRotates(c: Clock, p: nat)
    requires Turns(c, p) && c.remaining[c.kernel.current] == 1
    ensures var t, d, q := c.kernel.current, Tick(c), c.kernel.ready[p];
            && d.remaining == c.remaining[t := c.init[t]] && d.init == c.init && d.kernel.lockNest == 0
            && |d.kernel.ready| == |c.kernel.ready| && d.kernel.ready[p] == Rotate(q, 1) && d.kernel.current == Rotate(q, 1)[0]
            && forall i :: 0 <= i < p ==> d.kernel.ready[i] == []
  {
    var s, q := c.kernel, c.kernel.ready[p];
    CurrentPriority(c, p);
    YieldRuns(s);
    YieldRotates(s, p);
    TopRuns(YieldThread(s), p);
    assert |q| == 1 ==> Rotate(q, 1) == q;
    hide Inv, YieldThread, ScheduleNext, Rotate;
  }

  /** One whole turn of the running thread. */
  lemma {:induction false} FirstTurn(c: Clock, p: nat)
    requires Turns(c, p)
    ensures var t, q := c.kernel.current, c.kernel.ready[p]; var n := c.remaining[t]; var r := After(c, n);
            && Turns(r, p) && r.kernel.ready[p] == Rotate(q, 1) && r.remaining == c.remaining[t := c.init[t]] && r.init == c.init
            && forall m :: 0 <= m < n ==> After(c, m).kernel.current == t
    decreases c.remaining[c.kernel.current]
  {
    var t := c.kernel.current;
    assert Slice(c, t);
    var n, d := c.remaining[t], Tick(c);
    TickKeeps(c);
    if n == 1 {
      Expire(c, p);
      assert After(c, 1) == After(d, 0);
    } else {
      CountDown(c, p);
      FirstTurn(d, p);
      hide Inv, Running, Tick;
      forall m | 0 <= m < n
        ensures After(c, m).kernel.current == t
      {
        assert m > 0 ==> After(c, m) == After(d, m - 1);
      }
    }
  }

  /** The ticks left to all the threads of `q`. */
  function Left(q: Queue, remaining: seq<nat>): nat {
    if q == [] then 0 else Left(q[..|q| - 1], remaining) + (if q[|q| - 1] < |remaining| then remaining[q[|q| - 1]] else 0)
  }

  /** After `i` turns the list is rotated by `i`; who had a turn has a new slice. */
  predicate Turned(c: Clock, r: Clock, p: nat, i: nat)
    requires p < |c.kernel.ready| && i <= |c.kernel.ready[p]|
  {
    var q := c.kernel.ready[p];
    && Turns(r, p) && r.kernel.ready[p] == Rotate(q, i) && r.init == c.init && |r.remaining| == |c.remaining| == |c.init|
    && forall j :: 0 <= j < |q| && q[j] < |c.remaining| ==> r.remaining[q[j]] == if j < i then c.init[q[j]] else c.remaining[q[j]]
  }

  /** The thread at position `i` runs after the ticks left to those in front of it, in which only those run. */
  ghost predicate Arrives(c: Clock, p: nat, i: nat)
    requires Turns(c, p) && i <= |c.kernel.ready[p]|
  {
    var q := c.kernel.ready[p];
    var n := Left(q[..i], c.remaining);
    && Turned(c, After(c, n), p, i) && After(c, n).kernel.current == Rotate(q, i)[0]
    && forall m :: 0 <= m < n ==> After(c, m).kernel.current in q[..i]
  }

  /** The round-robin bound. With `i` the length of the list: after the ticks left to all, the round starts again. */
  lemma {:induction false} TurnComes(c: Clock, p: nat, i: nat)
    requires Turns(c, p) && i <= |c.kernel.ready[p]|
    ensures Arrives(c, p, i)
    decreases i
  {
    if i == 0 {
      assert Rotate(c.kernel.ready[p], 0) == c.kernel.ready[p];
    } else {
      TurnComes(c, p, i - 1);
      NextTurn(c, p, i);
    }
  }

  lemma NextTurn(c: Clock, p: nat, i: nat)
    requires Turns(c, p) && 0 < i <= |c.kernel.ready[p]| && Arrives(c, p, i - 1)
    ensures Arrives(c, p, i)
  {
    hide Inv, Running, Tick, After, Slice;
    var q := c.kernel.ready[p];
    var n := Left(q[..i - 1], c.remaining);
    var d, t := After(c, n), q[i - 1];
    TurnedHead(c, d, p, i - 1);
    RotateNext(q, i);
    LeftNext(c, q, i);
    var k := c.remaining[t];
    assert forall m :: 0 <= m < n ==> After(c, m).kernel.current in q[..i - 1];
    assert Left(q[..i], c.remaining) == n + k;
    hide Turns, Rotate, Turned, Left;
    FirstTurn(d, p);
    AfterAdds(c, n, k);
    var r := After(d, k);
    TurnedNext(c, d, r, p, i);
    TurnHead(r, p);
    forall m | 0 <= m < n + k
      ensures After(c, m).kernel.current in q[..i]
    {
      if m >= n {
        AfterAdds(c, n, m - n);
      }
    }
  }

  lemma LeftNext(c: Clock, q: Queue, i: nat)
    requires 0 < i <= |q| && q[i - 1] < |c.remaining|
    ensures Left(q[..i], c.remaining) == Left(q[..i - 1], c.remaining) + c.remaining[q[i - 1]]
  {
    assert q[..i][..i - 1] == q[..i - 1];
  }

  lemma TurnHead(r: Clock, p: nat)
    requires Turns(r, p)
    ensures p < |r.kernel.ready| && r.kernel.ready[p] != [] && r.kernel.current == r.kernel.ready[p][0]
  {
  }

  lemma RotateNext(q: Queue, i: nat)
    requires 0 < i <= |q|
    ensures Rotate(Rotate(q, i - 1), 1) == Rotate(q, i) && Rotate(q, i - 1)[0] == q[i - 1]
    ensures q[..i][..i - 1] == q[..i - 1] && q[i - 1] in q[..i] && forall x :: x in q[..i - 1] ==> x in q[..i]
  {
    assert q[..i][i - 1] == q[i - 1];
    assert q[..i] == q[..i - 1] + [q[i - 1]];
  }

  lemma TurnedHead(c: Clock, d: Clock, p: nat, i: nat)
    requires p < |c.kernel.ready| && i < |c.kernel.ready[p]| && Turns(c, p) && Turned(c, d, p, i)
    ensures var q := c.kernel.ready[p]; var t := q[i];
            && NoDup(q) && t < |c.remaining| == |d.remaining| == |c.init| && d.kernel.current == t
                && d.remaining[t] == c.remaining[t] && d.init == c.init
            && Turns(d, p) && d.kernel.ready[p] == Rotate(q, i)
  {
    var q := c.kernel.ready[p];
    assert q[i] in q && Slice(c, q[i]);
    QueueNoDup(c.kernel, p);
    assert Rotate(q, i)[0] == q[i];
    hide Inv, Running;
  }

  lemma TurnedNext(c: Clock, d: Clock, r: Clock, p: nat, i: nat)
    requires p < |c.kernel.ready| && 0 < i <= |c.kernel.ready[p]| && NoDup(c.kernel.ready[p]) && Turned(c, d, p, i - 1)
    requires var q := c.kernel.ready[p]; var t := q[i - 1];
             && Turns(r, p) && r.kernel.ready[p] == Rotate(q, i) && t < |c.init|
                 && r.remaining == d.remaining[t := d.init[t]] && r.init == d.init
    ensures Turned(c, r, p, i)
  {
    hide Turns, Rotate;
  }

  lemma QueueNoDup(s: State, p: nat)
    requires Inv(s) && p < |s.ready|
    ensures QueueOk(s.ready[p], |s.threads|)
  {
  }
}

/** The tick counter and the time slices of the threads of one kernel. */
module SystemClock {
  import opened KernelState
  import opened KernelRuns
  import opened KernelMachine
  import opened RoundRobin

  class SystemClock {
    const kernel: Kernel
    const init: seq<nat>
    var tick: nat
    var remaining: seq<nat>

    ghost function View(): Clock
      reads this, kernel
    {
      Clock(kernel.View(), tick, remaining, init)
    }

    constructor (kernel: Kernel, init: seq<nat>)
      ensures this.kernel == kernel && View() == Clock(kernel.View(), 0, init, init)
    {
      this.kernel, this.init := kernel, init;
      tick, remaining := 0, init;
    }

    /** rt_tick_increase up to the timer check. */
    method Increase()
      requires Running(View())
      modifies this, kernel
      ensures Running(View()) && View() == Tick(old(View()))
    {
      ghost var c, s := View(), kernel.View();
      TickKeeps(c);
      TickShape(c);
      YieldRuns(s);
      RunningIsQueued(s);
      assert kernel.Valid();
      hide Inv, YieldThread, ScheduleNext, SomeReady, Tick, YieldSchedule, Running;
      tick := (tick + 1) % WORD;
      var t := kernel.current;
      remaining := remaining[t := (remaining[t] + WORD - 1) % WORD];
      if remaining[t] == 0 {
        remaining := remaining[t := init[t]];
        var moved := kernel.YieldNode();
        if moved {
          kernel.Reschedule();
        } else {
          assert kernel.View() == s;
        }
      }
    }
  }
}
