/** Runs of the kernel: any sequence of critical sections from a boot state. */
module KernelRuns {
  import opened Queues
  import opened WordBits
  import opened ByteBits
  import opened ReadyBits
  import opened KernelState
  import opened KernelPlacement

  datatype Step =
    | Startup(t: nat)
    | Resume(t: nat)
    | Suspend(t: nat)
    | SetPriority(t: nat, p: nat)
    | Yield
    | Timeout(t: nat)
    | Exit(toDefunct: bool)
    | Remove(t: nat, toDefunct: bool)
    | Block(q: nat, prio: bool, timed: bool)
    | Sleep
    | Wake(q: nat, failed: bool)
    | Schedule
    | EnterCritical
    | LeaveCritical

  /** What the code demands of a caller. A timeout needs a linked timer only: its assertion is proved, not assumed. */
  predicate Enabled(s: State, step: Step) {
    match step
    case Startup(t) => t < |s.threads| && s.threads[t].stat == Init
    case Resume(t) => t < |s.threads|
    case Suspend(t) => t < |s.threads|
    case SetPriority(t, p) => t < |s.threads| && p < Levels(s.wide)
    case Yield => s.current < |s.threads|
    case Timeout(t) => t < |s.threads| && s.threads[t].timerOn
    case Exit(_) => s.current < |s.threads| && s.threads[s.current].stat != Close
    case Remove(t, _) => t < |s.threads| && s.threads[t].stat != Close
    case Block(q, _, _) => s.current < |s.threads| && q < |s.waits| && s.threads[s.current].stat == Ready
    case Sleep => s.current < |s.threads| && s.threads[s.current].stat == Ready
    case Wake(q, _) => q < |s.waits| && s.waits[q] != []
    case Schedule => SomeReady(s)
    case EnterCritical => true
    case LeaveCritical => true
  }

  lemma TimeoutFindsSuspended(s: State, t: nat)
    requires Inv(s) && t < |s.threads| && s.threads[t].timerOn
    ensures s.threads[t].stat == KernelState.Suspend
  {
    assert TimerFits(s.threads[t]);
  }

  function Apply(s: State, step: Step): State
    requires Inv(s) && Enabled(s, step)
  {
    match step
    case Startup(t) => StartupThread(s, t)
    case Resume(t) => ResumeThread(s, t)
    case Suspend(t) => SuspendThread(s, t)
    case SetPriority(t, p) => ChangePriority(s, t, p)
    case Yield => YieldThread(s)
    case Timeout(t) => TimeoutThread(s, t)
    case Exit(d) => CloseThread(s, s.current, d)
    case Remove(t, d) => CloseThread(s, t, d)
    case Block(q, prio, timed) => BlockThread(s, q, prio, timed)
    case Sleep => SleepThread(s)
    case Wake(q, failed) => WakeFirst(s, q, failed)
    case Schedule => ScheduleNext(s)
    case EnterCritical => s.(lockNest := s.lockNest + 1)
    case LeaveCritical => s.(lockNest := if s.lockNest > 0 then s.lockNest - 1 else 0)
  }

  lemma BookkeepingKeeps(s: State, current: nat, nest: nat)
    requires Inv(s)
    ensures Inv(s.(current := current, lockNest := nest))
  {
    var r := s.(current := current, lockNest := nest);
    forall t | 0 <= t < |s.threads|
      ensures PlacedAt(r, t)
    {
      assert PlacedAt(s, t);
    }
  }

  lemma ScheduleKeeps(s: State)
    requires Inv(s) && SomeReady(s)
    ensures Inv(ScheduleNext(s))
  {
    BookkeepingKeeps(s, ScheduleNext(s).current, s.lockNest);
  }

  /** Every enabled critical section keeps the invariant. */
  lemma StepKeeps(s: State, step: Step)
    requires Inv(s) && Enabled(s, step)
    ensures Inv(Apply(s, step))
  {
    hide Inv;
    match step
    case Startup(t) => StartupKeeps(s, t);
    case Resume(t) => ResumeKeeps(s, t);
    case Suspend(t) => SuspendKeeps(s, t);
    case SetPriority(t, p) => ChangePriorityKeeps(s, t, p);
    case Yield => YieldKeeps(s);
    case Timeout(t) =>
      TimeoutFindsSuspended(s, t);
      TimeoutKeeps(s, t);
    case Exit(d) => CloseKeeps(s, s.current, d);
    case Remove(t, d) => CloseKeeps(s, t, d);
    case Block(q, prio, timed) => BlockKeeps(s, q, prio, timed);
    case Sleep => SleepKeeps(s);
    case Wake(q, failed) => WakeFirstKeeps(s, q, failed);
    case Schedule => ScheduleKeeps(s);
    case EnterCritical => BookkeepingKeeps(s, s.current, s.lockNest + 1);
    case LeaveCritical => BookkeepingKeeps(s, s.current, if s.lockNest > 0 then s.lockNest - 1 else 0);
  }

  /** The run `steps` leads from `s` to `r`. */
  predicate Leads(s: State, steps: seq<Step>, r: State)
    requires Inv(s)
    decreases |steps|
  {
    if steps == [] then r == s
    else Enabled(s, steps[0]) && (StepKeeps(s, steps[0]); Leads(Apply(s, steps[0]), steps[1..], r))
  }

  /** rt_system_scheduler_init with threads that are initialised and not started. */
  predicate Boot(s: State) {
    && s.bits == Bits(0, seq(32, _ => 0)) && s.lockNest == 0 && s.defunct == []
    && s.ready == seq(Levels(s.wide), _ => []) && (forall q :: 0 <= q < |s.waits| ==> s.waits[q] == [])
    && forall t :: 0 <= t < |s.threads| ==> BootThread(s.threads[t], s.wide)
  }

  predicate BootThread(th: Thread, wide: bool) {
    && th.stat == Init && !th.timerOn && th.mask == Mask(0, 0, 0)
    && th.priority == th.initPriority < Levels(wide)
  }

  lemma EmptyWord(p: nat)
    requires p < 32
    ensures !Has(0, p)
  {
  }

  lemma EmptyByte(p: nat)
    requires p < 8
    ensures !Has8(0, p) && Zero8(0)
  {
  }

  lemma BootBits(s: State)
    requires Boot(s)
    ensures Sized(s) && BitsAgree(s)
  {
    hide Has, Has8, Zero8;
    forall n | 0 <= n < 32
      ensures GroupAgrees(s.bits, n)
    {
      EmptyWord(n);
      EmptyByte(0);
    }
    forall p | 0 <= p < |s.ready|
      ensures !IsSet(s.bits, s.wide, p)
    {
      if s.wide {
        EmptyByte(p % 8);
      } else {
        EmptyWord(p);
      }
    }
  }

  lemma BootInv(s: State)
    requires Boot(s)
    ensures Inv(s)
  {
    BootBits(s);
    hide BitsAgree;
    forall t | 0 <= t < |s.threads|
      ensures PlacedAt(s, t)
    {
    }
  }

  /** Placement, timers, masks and bitmap agree after every run. */
  lemma {:induction false} RunsKeepInvariant(s: State, steps: seq<Step>, r: State)
    requires Inv(s) && Leads(s, steps, r)
    ensures Inv(r)
    decreases |steps|
  {
    if steps != [] {
      StepKeeps(s, steps[0]);
      RunsKeepInvariant(Apply(s, steps[0]), steps[1..], r);
    }
  }

  /** What that means for each thread in every state that a booted kernel reaches. */
  lemma ReachablePlacement(s: State, steps: seq<Step>, r: State, t: nat)
    requires Boot(s) && t < |r.threads|
    requires (BootInv(s); Leads(s, steps, r))
    ensures r.threads[t].timerOn ==> r.threads[t].stat == KernelState.Suspend
    ensures forall p :: 0 <= p < |r.ready| ==> (t in r.ready[p] <==> r.threads[t].stat == Ready && r.threads[t].priority == p)
    ensures forall q :: 0 <= q < |r.waits| && t in r.waits[q] ==>
              r.threads[t].stat == KernelState.Suspend && forall q' :: 0 <= q' < |r.waits| && t in r.waits[q'] ==> q' == q
  {
    BootInv(s);
    RunsKeepInvariant(s, steps, r);
    assert PlacedAt(r, t) && TimerFits(r.threads[t]);
  }

  // ----- scheduling -----

  /** An unlocked rt_schedule makes current the head of the ready list of the highest priority; a locked one changes nothing. */
  lemma SchedulePicksHighest(s: State)
    requires Inv(s) && SomeReady(s)
    ensures s.lockNest != 0 ==> ScheduleNext(s) == s
    ensures s.lockNest == 0 ==>
      var c := ScheduleNext(s).current;
      && c < |s.threads| && s.threads[c].stat == Ready
      && s.ready[s.threads[c].priority] != [] && s.ready[s.threads[c].priority][0] == c
      && (forall p :: 0 <= p < s.threads[c].priority ==> s.ready[p] == [])
      && forall t :: 0 <= t < |s.threads| && s.threads[t].stat == Ready ==> s.threads[c].priority <= s.threads[t].priority
  {
    if s.lockNest == 0 {
      var p0 :| 0 <= p0 < |s.ready| && s.ready[p0] != [];
      HighestIsLeast(s.bits, s.wide, p0);
      var h := Highest(s.bits, s.wide);
      hide Highest, IsSet;
      forall p | 0 <= p < h
        ensures s.ready[p] == []
      {
        if IsSet(s.bits, s.wide, p) {
          HighestIsLeast(s.bits, s.wide, p);
        }
      }
      var c := s.ready[h][0];
      assert c in s.ready[h];
      assert PlacedAt(s, c);
      forall t | 0 <= t < |s.threads| && s.threads[t].stat == Ready
        ensures h <= s.threads[t].priority
      {
        assert PlacedAt(s, t);
        assert t in s.ready[s.threads[t].priority];
        HighestIsLeast(s.bits, s.wide, s.threads[t].priority);
      }
    }
  }

  // ----- waking all -----

  /** The threads of a list that have priority `p`, in order. */
  function OfPriority(q: Queue, threads: seq<Thread>, p: nat): Queue {
    if q == [] then []
    else (if q[0] < |threads| && threads[q[0]].priority == p then [q[0]] else []) + OfPriority(q[1..], threads, p)
  }

  /** One wake-up takes the head off its list, because it is suspended. */
  lemma WakeFirstEffect(s: State, q: nat, failed: bool)
    requires Inv(s) && q < |s.waits| && s.waits[q] != []
    ensures var t, r := s.waits[q][0], WakeFirst(s, q, failed);
            && t < |s.threads| && Inv(r) && r.waits[q] == s.waits[q][1..]
            && r.threads == s.threads[t := s.threads[t].(stat := Ready, timerOn := false,
                error := if failed then Failed else s.threads[t].error)]
            && r.ready == s.ready[s.threads[t].priority := s.ready[s.threads[t].priority] + [t]]
  {
    WakeFirstKeeps(s, q, failed);
    var t := s.waits[q][0];
    assert t in s.waits[q];
    assert PlacedAt(s, t);
    var u := if failed then WithThread(s, t, s.threads[t].(error := Failed)) else s;
    UnlinkReady(u, t);
    hide Inv, PutBits;
  }

  /** rt_ipc_list_resume_all. It ends because every thread on the list is suspended. */
  function WakeAll(s: State, q: nat): State
    requires Inv(s) && q < |s.waits|
    decreases |s.waits[q]|
  {
    if s.waits[q] == [] then s
    else
      WakeFirstEffect(s, q, true);
      WakeAll(WakeFirst(s, q, true), q)
  }

  /** Everybody on the list becomes ready with an error; nobody else changes. */
  lemma {:induction false} WakeAllThreads(s: State, q: nat)
    requires Inv(s) && q < |s.waits|
    ensures var r := WakeAll(s, q);
            && Inv(r) && SameForm(s, r) && r.waits[q] == []
            && (forall t :: t in s.waits[q] ==> t < |r.threads| && r.threads[t].stat == Ready && r.threads[t].error == Failed)
            && (forall t :: 0 <= t < |s.threads| && t !in s.waits[q] ==> r.threads[t] == s.threads[t])
    decreases |s.waits[q]|
  {
    if s.waits[q] != [] {
      var t, u := s.waits[q][0], WakeFirst(s, q, true);
      WakeFirstEffect(s, q, true);
      HeadOnce(s.waits[q], |s.threads|);
      hide Inv, WakeFirst, QueueOk;
      WakeAllThreads(u, q);
    }
  }

  lemma HeadOnce(q: Queue, n: nat)
    requires q != [] && QueueOk(q, n)
    ensures forall t :: t in q <==> t == q[0] || t in q[1..]
    ensures q[0] !in q[1..]
  {
    assert q == [q[0]] + q[1..];
  }

  /** They join the ready lists in list order, behind the threads that were ready. */
  lemma {:induction false} WakeAllReady(s: State, q: nat)
    requires Inv(s) && q < |s.waits|
    ensures var r := WakeAll(s, q);
            |r.ready| == |s.ready| && forall p :: 0 <= p < |s.ready| ==> r.ready[p] == s.ready[p] + OfPriority(s.waits[q], s.threads, p)
    decreases |s.waits[q]|
  {
    if s.waits[q] != [] {
      var t, u := s.waits[q][0], WakeFirst(s, q, true);
      WakeFirstEffect(s, q, true);
      WakeAllReady(u, q);
      hide Inv, WakeFirst;
      forall p | 0 <= p < |s.ready|
        ensures WakeAll(s, q).ready[p] == s.ready[p] + OfPriority(s.waits[q], s.threads, p)
      {
        SamePriorities(u.waits[q], s.threads, u.threads, p);
        var own := if s.threads[t].priority == p then [t] else [];
        assert u.ready[p] == s.ready[p] + own;
        assert OfPriority(s.waits[q], s.threads, p) == own + OfPriority(u.waits[q], s.threads, p);
        hide OfPriority;
        assert (s.ready[p] + own) + OfPriority(u.waits[q], s.threads, p) == s.ready[p] + (own + OfPriority(u.waits[q],
            s.threads, p));
      }
    }
  }

  lemma {:induction false} SamePriorities(q: Queue, a: seq<Thread>, b: seq<Thread>, p: nat)
    requires |a| == |b| && forall t :: 0 <= t < |a| ==> a[t].priority == b[t].priority
    ensures OfPriority(q, a, p) == OfPriority(q, b, p)
  {
    if q != [] {
      SamePriorities(q[1..], a, b, p);
    }
  }

  // ----- priority-ordered wait lists -----

  /** The priority of the thread at position `i`. */
  function PriorityAt(q: Queue, threads: seq<Thread>, i: nat): nat
    requires i < |q|
  {
    if q[i] < |threads| then threads[q[i]].priority else 0
  }

  predicate ByPriority(q: Queue, threads: seq<Thread>) {
    && (forall i :: 0 <= i < |q| ==> q[i] < |threads|)
    && forall i, j :: 0 <= i < j < |q| ==> PriorityAt(q, threads, i) <= PriorityAt(q, threads, j)
  }

  lemma {:induction false} PositionSplits(q: Queue, threads: seq<Thread>, p: nat)
    requires ByPriority(q, threads)
    ensures var i := PrioPosition(q, threads, p);
            && (forall j :: 0 <= j < i ==> PriorityAt(q, threads, j) <= p)
            && (forall j :: i <= j < |q| ==> PriorityAt(q, threads, j) > p)
  {
    if q != [] && p >= threads[q[0]].priority {
      var tail := q[1..];
      assert forall j :: 0 <= j < |tail| ==> PriorityAt(tail, threads, j) == PriorityAt(q, threads, j + 1);
      PositionSplits(tail, threads, p);
      var i := PrioPosition(tail, threads, p);
      forall j | 0 <= j < |q|
        ensures if j < i + 1 then PriorityAt(q, threads, j) <= p else PriorityAt(q, threads, j) > p
      {
        assert j > 0 ==> PriorityAt(q, threads, j) == PriorityAt(tail, threads, j - 1);
      }
    } else if q != [] {
      forall j | 0 <= j < |q|
        ensures PriorityAt(q, threads, j) > p
      {
        assert PriorityAt(q, threads, 0) > p;
      }
    }
  }

  /** While queued threads keep their priorities the list stays sorted, and equal priorities stay in arrival order. */
  lemma PrioListSorted(q: Queue, threads: seq<Thread>, t: nat)
    requires ByPriority(q, threads) && t < |threads|
    ensures var i := PrioPosition(q, threads, threads[t].priority);
            && ByPriority(InsertAt(q, i, t), threads)
            && (forall j :: 0 <= j < i ==> PriorityAt(q, threads, j) <= threads[t].priority)
            && (forall j :: i <= j < |q| ==> PriorityAt(q, threads, j) > threads[t].priority)
  {
    PositionSplits(q, threads, threads[t].priority);
    var i := PrioPosition(q, threads, threads[t].priority);
    var r := InsertAt(q, i, t);
    forall j | 0 <= j < |r|
      ensures r[j] < |threads|
    {
      InsertedPriority(q, threads, i, t, j);
    }
    forall j, k | 0 <= j < k < |r|
      ensures PriorityAt(r, threads, j) <= PriorityAt(r, threads, k)
    {
      InsertedPriority(q, threads, i, t, j);
      InsertedPriority(q, threads, i, t, k);
      hide PrioPosition, PriorityAt, InsertAt;
    }
  }

  lemma InsertedPriority(q: Queue, threads: seq<Thread>, i: nat, t: nat, j: nat)
    requires ByPriority(q, threads) && t < |threads| && i <= |q| && j <= |q|
    ensures var r := InsertAt(q, i, t);
            && |r| == |q| + 1 && r[j] < |threads|
            && PriorityAt(r, threads, j) ==
               if j < i then PriorityAt(q, threads, j) else if j == i then threads[t].priority else PriorityAt(q, threads, j - 1)
  {
    assert InsertAt(q, i, t)[j] == if j < i then q[j] else if j == i then t else q[j - 1];
  }

  // ----- blocking with the scheduler locked -----

  /**
   * A blocking call does not test what rt_thread_suspend returns. It keeps the lists sound exactly when the caller is
   * ready, or suspended (under a scheduler lock) but on no wait list.
   */
  lemma BlockKeepsIff(s: State, q: nat, prio: bool, timed: bool)
    requires Inv(s) && s.current < |s.threads| && q < |s.waits|
    ensures Inv(BlockThread(s, q, prio, timed)) <==>
              s.threads[s.current].stat == Ready || (s.threads[s.current].stat == KernelState.Suspend && Unlinked(s, s.current))
  {
    var t := s.current;
    if s.threads[t].stat == Ready {
      BlockKeeps(s, q, prio, timed);
    } else {
      var u := WithThread(s, t, s.threads[t].(error := Ok));
      ErrorKeeps(s, t, Ok);
      var i := if prio then PrioPosition(u.waits[q], u.threads, u.threads[t].priority) else |u.waits[q]|;
      var r := BlockThread(s, q, prio, timed);
      assert r.waits == u.waits[q := InsertAt(u.waits[q], i, t)];
      if s.threads[t].stat == KernelState.Suspend && Unlinked(s, t) {
        EnqueueKeeps(u, t, q, i, timed);
      } else {
        hide BitsAgree, ThreadsOk;
        assert r.waits[q][i] == t;
        assert t in r.waits[q];
        assert PlacedAt(s, t);
        BlockedTwice(s, r, t, q, i);
      }
    }
  }

  lemma BlockedTwice(s: State, r: State, t: nat, q: nat, i: nat)
    requires Inv(s) && t < |s.threads| == |r.threads| && q < |s.waits| == |r.waits| && i <= |s.waits[q]|
    requires r.threads[t].stat == s.threads[t].stat != Ready && r.waits == s.waits[q := InsertAt(s.waits[q], i, t)]
    requires s.threads[t].stat == KernelState.Suspend ==> !Unlinked(s, t)
    ensures !Placed(r)
  {
    assert PlacedAt(s, t);
    assert r.waits[q][i] == t;
    assert t in r.waits[q];
    hide BitsAgree, ThreadsOk, Sized;
    if s.threads[t].stat == KernelState.Suspend {
      var w :| 0 <= w < |s.waits| && t in s.waits[w];
      if w == q {
        var j :| 0 <= j < |s.waits[q]| && s.waits[q][j] == t;
        assert r.waits[q][if j < i then j else j + 1] == t;
        assert !NoDup(r.waits[q]);
      } else {
        assert t in r.waits[w];
        assert !PlacedAt(r, t);
      }
    } else {
      assert !PlacedAt(r, t);
    }
  }
}
