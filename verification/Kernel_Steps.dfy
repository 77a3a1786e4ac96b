/** What each critical section does to threads and lists, told without the steps that it takes. */
module KernelSteps {
  import opened Queues
  import opened ReadyBits
  import opened KernelState
  import opened KernelPlacement
  import opened KernelRuns

  /** The thread comes off the one kind of list that its status allows. */
  lemma UnlinkEffect(s: State, t: nat)
    requires Inv(s) && t < |s.threads|
    ensures var u, th := Unlink(s, t), s.threads[t];
            && th.priority < |s.ready|
            && u.ready == (if th.stat == Ready then s.ready[th.priority := Queues.Remove(s.ready[th.priority], t)] else s.ready)
            && u.waits == (if th.stat == KernelState.Suspend then RemoveAll(s.waits, t) else s.waits)
            && u.defunct == (if th.stat == Close then Queues.Remove(s.defunct, t) else s.defunct)
  {
    var u, th := Unlink(s, t), s.threads[t];
    assert PlacedAt(s, t) && ThreadSized(th, s.wide);
    hide Inv;
    forall p | 0 <= p < |s.ready| && !(th.stat == Ready && p == th.priority)
      ensures u.ready[p] == s.ready[p]
    {
      RemoveAbsent(s.ready[p], t);
    }
    forall q | 0 <= q < |s.waits| && th.stat != KernelState.Suspend
      ensures u.waits[q] == s.waits[q]
    {
      RemoveAbsent(s.waits[q], t);
    }
    if th.stat != Close {
      RemoveAbsent(s.defunct, t);
    }
  }

  /** `r` differs from `s` in these threads and lists, and in the bitmap. */
  predicate Becomes(s: State, r: State, threads: seq<Thread>, ready: seq<Queue>, waits: seq<Queue>, defunct: Queue) {
    r == State(s.wide, threads, ready, waits, defunct, r.bits, s.current, s.lockNest)
  }

  /** The ready lists with `t` at the end of the one of its priority. */
  function Queued(ready: seq<Queue>, p: nat, t: nat): seq<Queue>
    requires p < |ready|
  {
    ready[p := ready[p] + [t]]
  }

  /** The ready lists without `t`, which is on the one of its priority. */
  function Dequeued(ready: seq<Queue>, p: nat, t: nat): seq<Queue>
    requires p < |ready|
  {
    ready[p := Queues.Remove(ready[p], t)]
  }

  lemma InsertEffect(s: State, t: nat, th: Thread)
    requires Inv(s) && t < |s.threads| && s.threads[t].stat == KernelState.Suspend
    requires ThreadSized(th, s.wide)
    ensures Becomes(s, InsertReady(WithThread(Unlink(s, t), t, th), t), s.threads[t := th.(stat := Ready)],
                    Queued(s.ready, th.priority, t), RemoveAll(s.waits, t), s.defunct)
  {
    UnlinkEffect(s, t);
    hide Inv, PutBits, RemoveAll, Queues.Remove;
    assert s.threads[t := th][t := th.(stat := Ready)] == s.threads[t := th.(stat := Ready)];
  }

  /** A timed-out thread is ready at the end of its list, in error, with its timer off, and waits nowhere any more. */
  lemma TimeoutEffect(s: State, t: nat)
    requires Inv(s) && t < |s.threads| && s.threads[t].timerOn
    ensures var th := s.threads[t];
            && th.priority < |s.ready|
            && Becomes(s, TimeoutThread(s, t), s.threads[t := th.(stat := Ready, timerOn := false, error := TimedOut)],
                       Queued(s.ready, th.priority, t), RemoveAll(s.waits, t), s.defunct)
  {
    TimeoutFindsSuspended(s, t);
    assert ThreadSized(s.threads[t], s.wide);
    InsertEffect(s, t, s.threads[t].(timerOn := false, error := TimedOut));
  }

  /** A resumed thread is ready at the end of its list with its timer off; a thread that is not suspended stays as it is. */
  lemma ResumeEffect(s: State, t: nat)
    requires Inv(s) && t < |s.threads|
    ensures s.threads[t].stat != KernelState.Suspend ==> ResumeThread(s, t) == s
    ensures s.threads[t].stat == KernelState.Suspend ==>
              var th := s.threads[t];
              && th.priority < |s.ready|
              && Becomes(s, ResumeThread(s, t), s.threads[t := th.(stat := Ready, timerOn := false)],
                         Queued(s.ready, th.priority, t), RemoveAll(s.waits, t), s.defunct)
  {
    if s.threads[t].stat == KernelState.Suspend {
      assert ThreadSized(s.threads[t], s.wide);
      InsertEffect(s, t, s.threads[t].(timerOn := false));
    }
  }

  /** A started thread is ready at the end of the list of its initial priority. */
  lemma StartupEffect(s: State, t: nat)
    requires Inv(s) && t < |s.threads| && s.threads[t].stat == Init
    ensures var th := s.threads[t];
            && th.initPriority < |s.ready|
            && Becomes(s, StartupThread(s, t),
                       s.threads[t := th.(priority := th.initPriority, mask := MaskOf(th.initPriority, s.wide),
                                          stat := Ready, timerOn := false)],
                       Queued(s.ready, th.initPriority, t), s.waits, s.defunct)
  {
    var th := s.threads[t].(priority := s.threads[t].initPriority, mask := MaskOf(s.threads[t].initPriority, s.wide),
        stat := KernelState.Suspend);
    InitUnlinked(s, t);
    FloatingInv(s, t, th);
    var u := WithThread(s, t, th);
    ResumeEffect(u, t);
    AbsentFromAll(s.waits, t);
    hide Inv, MaskOf, ResumeThread;
    assert s.threads[t := th][t := th.(stat := Ready, timerOn := false)] == s.threads[t := th.(stat := Ready, timerOn := false)];
  }

  lemma AbsentFromAll(qs: seq<Queue>, t: nat)
    requires forall q :: 0 <= q < |qs| ==> t !in qs[q]
    ensures RemoveAll(qs, t) == qs
  {
    forall q | 0 <= q < |qs|
      ensures Queues.Remove(qs[q], t) == qs[q]
    {
      RemoveAbsent(qs[q], t);
    }
  }

  lemma RemoveEffect(s: State, t: nat)
    requires Inv(s) && t < |s.threads|
    ensures Sized(s)
    ensures var th := s.threads[t];
            && th.priority < |s.ready|
            && Becomes(s, RemoveReady(s, t), s.threads, if th.stat == Ready then Dequeued(s.ready, th.priority, t) else s.ready,
                       if th.stat == KernelState.Suspend then RemoveAll(s.waits, t) else s.waits,
                       if th.stat == Close then Queues.Remove(s.defunct, t) else s.defunct)
  {
    UnlinkEffect(s, t);
    hide DropBits, Queues.Remove, RemoveAll;
  }

  /** A suspended thread is off its ready list with its timer off; one that is not ready stays as it is. */
  lemma SuspendEffect(s: State, t: nat)
    requires Inv(s) && t < |s.threads|
    ensures s.threads[t].stat != Ready ==> SuspendThread(s, t) == s
    ensures s.threads[t].stat == Ready ==>
              var th := s.threads[t];
              && th.priority < |s.ready|
              && Becomes(s, SuspendThread(s, t), s.threads[t := th.(stat := KernelState.Suspend, timerOn := false)],
                         Dequeued(s.ready, th.priority, t), s.waits, s.defunct)
  {
    if s.threads[t].stat == Ready {
      RemoveEffect(s, t);
      SuspendIsPark(s, t);
      hide Inv, RemoveReady, SuspendThread;
    }
  }

  /** A thread with a new priority has its masks; a ready one goes to the end of the new list. */
  lemma ChangePriorityEffect(s: State, t: nat, p: nat)
    requires Inv(s) && t < |s.threads| && p < Levels(s.wide)
    ensures var th := s.threads[t];
            && th.priority < |s.ready| && p < |s.ready|
            && Becomes(s, ChangePriority(s, t, p), s.threads[t := th.(priority := p, mask := MaskOf(p, s.wide))],
                       if th.stat == Ready then Queued(Dequeued(s.ready, th.priority, t), p, t) else s.ready, s.waits, s.defunct)
  {
    var th := s.threads[t].(priority := p, mask := MaskOf(p, s.wide));
    RemoveEffect(s, t);
    hide Inv, RemoveReady, MaskOf, PutBits;
    assert s.threads[t := th][t := th] == s.threads[t := th];
  }

  /** A yielding thread goes to the end of its ready list when another is on it; otherwise nothing happens. */
  lemma YieldEffect(s: State)
    requires Inv(s) && s.current < |s.threads|
    ensures var t, th := s.current, s.threads[s.current];
            && th.priority < |s.ready|
            && if th.stat == Ready && |s.ready[th.priority]| > 1
               then YieldThread(s) == s.(ready := Queued(Dequeued(s.ready, th.priority, t), th.priority, t))
               else YieldThread(s) == s
  {
    UnlinkEffect(s, s.current);
    hide Inv, Queues.Remove, RemoveAll;
  }

  /** A sleeping thread is off its ready list, on no other one, and its timer runs. */
  lemma SleepEffect(s: State)
    requires Inv(s) && s.current < |s.threads| && s.threads[s.current].stat == Ready
    ensures var t, th := s.current, s.threads[s.current];
            && th.priority < |s.ready|
            && Becomes(s, SleepThread(s), s.threads[t := th.(stat := KernelState.Suspend, timerOn := true)],
                       Dequeued(s.ready, th.priority, t), s.waits, s.defunct)
  {
    SuspendEffect(s, s.current);
    hide Inv, SuspendThread;
    var ts, t, th := s.threads, s.current, s.threads[s.current].(stat := KernelState.Suspend);
    assert ts[t := th.(timerOn := false)][t := th.(timerOn := true)] == ts[t := th.(timerOn := true)];
  }

  /** A closed thread is off every list, its timer is off, and it heads the defunct list when it is to be cleaned up later. */
  lemma CloseEffect(s: State, t: nat, toDefunct: bool)
    requires Inv(s) && t < |s.threads| && s.threads[t].stat != Close
    ensures var th := s.threads[t];
            && th.priority < |s.ready|
            && Becomes(s, CloseThread(s, t, toDefunct), s.threads[t := th.(stat := Close, timerOn := false)],
                       if th.stat == Ready then Dequeued(s.ready, th.priority, t) else s.ready,
                       if th.stat == KernelState.Suspend then RemoveAll(s.waits, t) else s.waits,
                       if toDefunct then [t] + s.defunct else s.defunct)
  {
    RemoveEffect(s, t);
    hide Inv, RemoveReady;
  }

  lemma {:induction false} PositionSame(q: Queue, a: seq<Thread>, b: seq<Thread>, p: nat)
    requires |a| == |b| && forall t :: 0 <= t < |a| ==> a[t].priority == b[t].priority
    ensures PrioPosition(q, a, p) == PrioPosition(q, b, p)
  {
    if q != [] {
      PositionSame(q[1..], a, b, p);
    }
  }

  /** A blocked thread is off its ready list, stands at its place on the wait list, and its timer runs if the wait is bounded. */
  lemma BlockEffect(s: State, q: nat, prio: bool, timed: bool)
    requires Inv(s) && s.current < |s.threads| && q < |s.waits| && s.threads[s.current].stat == Ready
    ensures var t, th := s.current, s.threads[s.current];
            var i := if prio then PrioPosition(s.waits[q], s.threads, th.priority) else |s.waits[q]|;
            && th.priority < |s.ready|
            && Becomes(s, BlockThread(s, q, prio, timed),
                       s.threads[t := th.(stat := KernelState.Suspend, timerOn := timed, error := Ok)],
                       Dequeued(s.ready, th.priority, t), s.waits[q := InsertAt(s.waits[q], i, t)], s.defunct)
  {
    var t := s.current;
    var s1 := WithThread(s, t, s.threads[t].(error := Ok));
    ErrorKeeps(s, t, Ok);
    SuspendEffect(s1, t);
    var u := SuspendThread(s1, t);
    var th := s.threads[t].(error := Ok, stat := KernelState.Suspend, timerOn := false);
    hide Inv, SuspendThread, InsertAt, Dequeued;
    assert u.threads == s.threads[t := th];
    PositionSame(s.waits[q], s.threads, u.threads, s.threads[t].priority);
    assert s.threads[t := th][t := th.(timerOn := true)] == s.threads[t := th.(timerOn := true)];
  }

  /** The first waiter of a list is ready at the end of its ready list, off the wait list, in error if the object goes away. */
  lemma WakeEffect(s: State, q: nat, failed: bool)
    requires Inv(s) && q < |s.waits| && s.waits[q] != []
    ensures var t := s.waits[q][0];
            && t < |s.threads| && s.threads[t].priority < |s.ready|
            && var th := s.threads[t];
               Becomes(s, WakeFirst(s, q, failed),
                       s.threads[t := th.(stat := Ready, timerOn := false, error := if failed then Failed else th.error)],
                       Queued(s.ready, th.priority, t), RemoveAll(s.waits, t), s.defunct)
  {
    var t := s.waits[q][0];
    assert t in s.waits[q];
    assert PlacedAt(s, t);
    var e := if failed then Failed else s.threads[t].error;
    var u := if failed then WithThread(s, t, s.threads[t].(error := Failed)) else s;
    if failed { ErrorKeeps(s, t, Failed); }
    ResumeEffect(u, t);
    assert WakeFirst(s, q, failed) == ResumeThread(u, t);
    hide Inv, ResumeThread, WakeFirst, RemoveAll, Queued;
    assert u.threads == s.threads[t := s.threads[t].(error := e)];
  }
}
