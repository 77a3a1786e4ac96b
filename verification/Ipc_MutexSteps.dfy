/** What a take and a release do, branch by branch, and what nested takes and releases come to. */
module MutexSteps {
  import opened Wrappers
  import opened Queues
  import opened ReadyBits
  import opened KernelState
  import opened KernelPlacement
  import opened KernelRuns
  import opened KernelSteps
  import opened MutexState

  /** The running thread's error field. */
  function WithError(s: State, e: Error): State
    requires s.current < |s.threads|
  {
    s.(threads := s.threads[s.current := s.threads[s.current].(error := e)])
  }

  // ----- take -----

  /** A free mutex is taken at once with a hold of one, and the owner's priority is noted. */
  lemma TakeFree(m: Mutex, c: Config, wait: bool, timed: bool)
    requires MutexInv(m, c) && m.k.current < |m.k.threads| && m.owner == None
    ensures TakeMutex(m, c, wait, timed) ==
            (Mutex(WithError(m.k, Ok), 0, Some(m.k.current), 1, m.k.threads[m.k.current].priority), Done)
  {
  }

  /** The owner takes again at once: one more hold and nothing else. */
  lemma TakeAgain(m: Mutex, c: Config, wait: bool, timed: bool)
    requires MutexInv(m, c) && m.k.current < |m.k.threads| && m.owner == Some(m.k.current) && m.hold < 255
    ensures TakeMutex(m, c, wait, timed) == (m.(k := WithError(m.k, Ok), hold := m.hold + 1), Done)
  {
  }

  /** A caller that gives no time does not wait for somebody else's mutex: its error is a timeout at once. */
  lemma TakeNoTime(m: Mutex, c: Config, timed: bool)
    requires MutexInv(m, c) && m.k.current < |m.k.threads| && m.owner.Some? && m.owner.value != m.k.current
    ensures TakeMutex(m, c, false, timed) == (m.(k := WithError(m.k, TimedOut)), NoTime)
  {
    var t, ts := m.k.current, m.k.threads;
    assert ts[t := ts[t].(error := Ok)][t := ts[t].(error := TimedOut)] == ts[t := ts[t].(error := TimedOut)];
  }

  /** The threads after `t` raised `o` to its own priority. */
  function Raised(threads: seq<Thread>, wide: bool, t: nat, o: nat): seq<Thread>
    requires t < |threads| && o < |threads| && threads[t].priority < Levels(wide)
  {
    var p := threads[t].priority;
    if p < threads[o].priority then threads[o := threads[o].(priority := p, mask := MaskOf(p, wide))] else threads
  }

  /** The ready lists after that: a ready owner goes to the end of its new list. */
  function RaisedLists(ready: seq<Queue>, threads: seq<Thread>, t: nat, o: nat): (r: seq<Queue>)
    requires t < |threads| && o < |threads| && threads[t].priority < |ready| && threads[o].priority < |ready|
    ensures |r| == |ready|
  {
    var p := threads[t].priority;
    if p < threads[o].priority && threads[o].stat == Ready then Queued(Dequeued(ready, threads[o].priority, o), p, o) else ready
  }

  /**
   * A caller that waits raises a weaker owner to its own priority, is suspended and stands at its place on the wait list,
   * with its timer on if the wait is bounded. Ownership does not change.
   */
  lemma TakeWaits(m: Mutex, c: Config, timed: bool)
    requires MutexInv(m, c) && m.k.current < |m.k.threads| && m.k.threads[m.k.current].stat == Ready
    requires m.owner.Some? && m.owner.value != m.k.current
    ensures m.owner.value < |m.k.threads| && Ranked(m.k, m.k.current) && Ranked(m.k, m.owner.value)
    ensures var s, t, o, r := m.k, m.k.current, m.owner.value, TakeMutex(m, c, true, timed);
            var th, raised := s.threads[t], Raised(s.threads, s.wide, t, o);
            var i := if c.prio then PrioPosition(s.waits[c.q], raised, th.priority) else |s.waits[c.q]|;
            && r.1 == Waiting && r.0 == m.(k := r.0.k)
            && Becomes(s, r.0.k, raised[t := th.(stat := KernelState.Suspend, timerOn := timed, error := Ok)],
                       Dequeued(RaisedLists(s.ready, s.threads, t, o), th.priority, t),
                       s.waits[c.q := InsertAt(s.waits[c.q], i, t)], s.defunct)
  {
    assert ThreadSized(m.k.threads[m.k.current], m.k.wide) && ThreadSized(m.k.threads[m.owner.value], m.k.wide);
    TakeWaitsShape(m, c, timed);
    BoostBlockEffect(m.k, m.owner.value, c, timed);
    hide Inv, MutexOk, BlockThread, Boost, TakeMutex, InsertAt, RaisedLists, Raised, Dequeued;
  }

  lemma TakeWaitsShape(m: Mutex, c: Config, timed: bool)
    requires MutexInv(m, c) && m.k.current < |m.k.threads| && m.k.threads[m.k.current].stat == Ready
    requires m.owner.Some? && m.owner.value != m.k.current
    ensures m.owner.value < |m.k.threads| && Ranked(m.k, m.k.current) && Inv(WithError(m.k, Ok))
    ensures TakeMutex(m, c, true, timed) ==
            (m.(k := BlockThread(Boost(WithError(m.k, Ok), m.owner.value, m.k.threads[m.k.current].priority), c.q, c.prio, timed)),
             Waiting)
  {
    ErrorKeeps(m.k, m.k.current, Ok);
    assert ThreadSized(m.k.threads[m.k.current], m.k.wide);
    hide Boost, BlockThread, Placed, BitsAgree, ThreadsOk;
  }

  /** Raising the owner and blocking, on the kernel state. */
  lemma BoostBlockEffect(s: State, o: nat, c: Config, timed: bool)
    requires Inv(s) && s.current < |s.threads| && s.threads[s.current].stat == Ready && c.q < |s.waits|
    requires o != s.current && Ranked(s, s.current) && Ranked(s, o) && Inv(WithError(s, Ok))
    ensures var t, th, raised := s.current, s.threads[s.current], Raised(s.threads, s.wide, s.current, o);
            var i := if c.prio then PrioPosition(s.waits[c.q], raised, th.priority) else |s.waits[c.q]|;
            Becomes(s, BlockThread(Boost(WithError(s, Ok), o, th.priority), c.q, c.prio, timed),
                    raised[t := th.(stat := KernelState.Suspend, timerOn := timed, error := Ok)],
                    Dequeued(RaisedLists(s.ready, s.threads, t, o), th.priority, t),
                    s.waits[c.q := InsertAt(s.waits[c.q], i, t)], s.defunct)
  {
    var t, th := s.current, s.threads[s.current];
    var b := Boost(WithError(s, Ok), o, th.priority);
    hide Inv, MaskOf;
    BoostEffect(s, WithError(s, Ok), o);
    var raised, parked := Raised(s.threads, s.wide, t, o), th.(stat := KernelState.Suspend, timerOn := timed, error := Ok);
    assert |b.threads| == |raised| && forall x :: 0 <= x < |raised| ==> raised[x].priority == b.threads[x].priority;
    assert raised[t := th.(error := Ok)][t := parked] == raised[t := parked];
    hide Boost, RaisedLists, Raised;
    BlockEffect(b, c.q, c.prio, timed);
    hide BlockThread, InsertAt, Dequeued;
    PositionSame(s.waits[c.q], b.threads, raised, th.priority);
  }

  /** The priority of `t` is in range. */
  predicate Ranked(s: State, t: nat) {
    t < |s.threads| && s.threads[t].priority < Levels(s.wide) == |s.ready|
  }

  /** Boosting, after the error of the caller is cleared. */
  lemma BoostEffect(s: State, u: State, o: nat)
    requires Inv(u) && s.current < |s.threads| && u == WithError(s, Ok) && o < |s.threads| && o != s.current
    requires Ranked(s, s.current) && Ranked(s, o)
    ensures var t := s.current;
            Becomes(s, Boost(u, o, s.threads[t].priority),
                    Raised(s.threads, s.wide, t, o)[t := s.threads[t].(error := Ok)],
                    RaisedLists(s.ready, s.threads, t, o), s.waits, s.defunct)
  {
    ChangePriorityEffect(u, o, s.threads[s.current].priority);
    hide Inv, ChangePriority, MaskOf, Dequeued, Queued;
  }

  // ----- release -----

  /** A thread that is not the owner gets an error, and nothing else happens. */
  lemma ReleaseForeign(m: Mutex, c: Config)
    requires MutexInv(m, c) && m.k.current < |m.k.threads| && m.owner != Some(m.k.current)
    ensures ReleaseMutex(m, c) == (m.(k := WithError(m.k, Failed)), false)
  {
  }

  /** A release at depth above one takes back one hold and does nothing else. */
  lemma ReleaseInner(m: Mutex, c: Config)
    requires MutexInv(m, c) && m.owner == Some(m.k.current) && m.hold > 1
    ensures m.k.current < |m.k.threads| && m.original < Levels(m.k.wide)
    ensures ReleaseMutex(m, c) == (m.(hold := m.hold - 1), true)
  {
  }

  /** `r` is `s` after thread `t` was given the priority `p`, if it had another. */
  predicate Reprioritised(s: State, r: State, t: nat, p: nat) {
    && Sized(s) && t < |s.threads| && s.threads[t].priority < |s.ready| && p < |s.ready|
    && var th := s.threads[t];
       if th.priority == p then r == s
       else
         Becomes(s, r, s.threads[t := th.(priority := p, mask := MaskOf(p, s.wide))],
                 if th.stat == Ready then Queued(Dequeued(s.ready, th.priority, t), p, t) else s.ready, s.waits, s.defunct)
  }

  lemma RestoreReprioritises(s: State, t: nat, p: nat)
    requires Inv(s) && t < |s.threads| && p < Levels(s.wide)
    ensures Reprioritised(s, Restore(s, t, p), t, p)
  {
    ChangePriorityEffect(s, t, p);
    assert ThreadSized(s.threads[t], s.wide);
    hide ChangePriority, MaskOf, ThreadSized;
  }

  /** The last release with nobody waiting: the owner has its own priority again and the mutex is free. */
  lemma ReleaseFrees(m: Mutex, c: Config)
    requires MutexInv(m, c) && m.owner == Some(m.k.current) && m.hold == 1 && m.k.waits[c.q] == []
    ensures m.k.current < |m.k.threads| && m.original < Levels(m.k.wide)
    ensures var r := ReleaseMutex(m, c);
            && r.1 && r.0 == Mutex(r.0.k, 1, None, 0, 255)
            && Reprioritised(m.k, r.0.k, m.k.current, m.original)
  {
    LastReleaseShape(m, c);
    RestoreReprioritises(m.k, m.k.current, m.original);
    hide Inv, Restore, MaskOf, Queued, Dequeued;
  }

  /**
   * The last release with waiters: the owner has its own priority again, and the first waiter is ready at the end of its
   * list, off the wait list, with its timer off. It owns the mutex with a hold of one, and its priority is noted.
   */
  lemma ReleaseHandsOver(m: Mutex, c: Config)
    requires MutexInv(m, c) && m.owner == Some(m.k.current) && m.hold == 1 && m.k.waits[c.q] != []
    ensures m.k.current < |m.k.threads| && m.original < Levels(m.k.wide)
    ensures var s, heir, r := Restore(m.k, m.k.current, m.original), m.k.waits[c.q][0], ReleaseMutex(m, c);
            && Reprioritised(m.k, s, m.k.current, m.original) && heir < |m.k.threads| && |s.threads| == |m.k.threads|
            && r.1 && r.0 == Mutex(r.0.k, 0, Some(heir), 1, m.k.threads[heir].priority)
            && s.threads[heir] == m.k.threads[heir] && s.threads[heir].priority < |s.ready|
            && Becomes(s, r.0.k, s.threads[heir := s.threads[heir].(stat := Ready, timerOn := false)],
                       Queued(s.ready, s.threads[heir].priority, heir), RemoveAll(s.waits, heir), s.defunct)
            && r.0.k.waits[c.q] == m.k.waits[c.q][1..]
  {
    var t := m.k.current;
    LastReleaseShape(m, c);
    OwnerApart(m, c);
    RestoreReprioritises(m.k, t, m.original);
    var s, heir := Restore(m.k, t, m.original), m.k.waits[c.q][0];
    assert heir in m.k.waits[c.q];
    hide MutexInv, Restore, MaskOf, Queued, Dequeued;
    assert s.waits == m.k.waits && s.threads[heir] == m.k.threads[heir];
    WaiterSuspended(s, c.q);
    ResumeEffect(s, heir);
    hide Inv, ResumeThread, RemoveAll;
    HeadRemoved(s, c.q);
  }

  lemma WaiterSuspended(s: State, q: nat)
    requires Inv(s) && q < |s.waits| && s.waits[q] != []
    ensures s.waits[q][0] < |s.threads| && s.threads[s.waits[q][0]].stat == KernelState.Suspend
  {
    assert s.waits[q][0] in s.waits[q];
    assert PlacedAt(s, s.waits[q][0]);
  }

  lemma HeadRemoved(s: State, q: nat)
    requires q < |s.waits| && s.waits[q] != []
    ensures RemoveAll(s.waits, s.waits[q][0])[q] == s.waits[q][1..]
  {
  }

  // ----- nested takes and releases -----

  function Repeat(step: MutexStep, n: nat): seq<MutexStep> { seq(n, _ => step) }

  /** `r` is the only state that the run leads to. */
  lemma {:induction false} LeadsJoin(m: Mutex, c: Config, first: seq<MutexStep>, mid: Mutex, second: seq<MutexStep>, r: Mutex)
    requires MutexInv(m, c) && MutexLeads(m, c, first, mid)
    requires MutexInv(mid, c) && MutexLeads(mid, c, second, r)
    ensures MutexLeads(m, c, first + second, r)
    decreases |first|
  {
    var all := first + second;
    hide MutexInv, MutexEnabled, MutexApply;
    if first == [] {
      assert all == second;
    } else {
      MutexStepKeeps(m, c, first[0]);
      LeadsJoin(MutexApply(m, c, first[0]), c, first[1..], mid, second, r);
      assert all[0] == first[0] && all[1..] == first[1..] + second;
    }
  }

  /** The running thread is ready, without an error, and owns the mutex; nobody waits and its priority is the one noted. */
  predicate Alone(m: Mutex, c: Config) {
    && MutexInv(m, c) && m.owner == Some(m.k.current) && m.k.current < |m.k.threads| && m.k.waits[c.q] == []
    && var th := m.k.threads[m.k.current];
       th.stat == Ready && th.error == Ok && th.priority == m.original
  }

  lemma {:induction false} TakesUp(m: Mutex, c: Config, n: nat, wait: bool, timed: bool)
    requires Alone(m, c) && m.hold + n <= 255
    ensures Alone(m.(hold := m.hold + n), c) && MutexLeads(m, c, Repeat(Take(wait, timed), n), m.(hold := m.hold + n))
    decreases n
  {
    if n > 0 {
      var step, r := Take(wait, timed), m.(hold := m.hold + 1);
      MutexStepKeeps(m, c, step);
      TakeAgain(m, c, wait, timed);
      assert m.k.threads[m.k.current := m.k.threads[m.k.current]] == m.k.threads;
      assert MutexApply(m, c, step) == r;
      assert Repeat(step, n)[0] == step && Repeat(step, n)[1..] == Repeat(step, n - 1);
      hide Inv, MutexOk, TakeMutex;
      TakesUp(r, c, n - 1, wait, timed);
    }
  }

  lemma {:induction false} ReleasesDown(m: Mutex, c: Config)
    requires Alone(m, c)
    ensures MutexLeads(m, c, Repeat(Release, m.hold), Mutex(m.k, 1, None, 0, 255))
    decreases m.hold
  {
    var n := m.hold;
    assert n > 0;
    MutexStepKeeps(m, c, Release);
    assert Repeat(Release, n)[0] == Release && Repeat(Release, n)[1..] == Repeat(Release, n - 1);
    if n == 1 {
      ReleaseFrees(m, c);
      hide Inv, MutexOk, ReleaseMutex;
      assert MutexApply(m, c, Release) == Mutex(m.k, 1, None, 0, 255);
    } else {
      ReleaseInner(m, c);
      hide Inv, MutexOk, ReleaseMutex;
      ReleasesDown(m.(hold := n - 1), c);
    }
  }

  /** A ready thread that takes a free mutex n times and releases it n times, up to the 255 of the counter, leaves it free. */
  lemma TakesAndReleases(m: Mutex, c: Config, n: nat, wait: bool, timed: bool)
    requires MutexInv(m, c) && m.owner == None && m.k.current < |m.k.threads| && m.k.threads[m.k.current].stat == Ready
    requires 1 <= n <= 255
    ensures var steps := Repeat(Take(wait, timed), n) + Repeat(Release, n);
            MutexLeads(m, c, steps, Mutex(WithError(m.k, Ok), 1, None, 0, 255))
  {
    var step, k := Take(wait, timed), WithError(m.k, Ok);
    var m1 := Mutex(k, 0, Some(m.k.current), 1, m.k.threads[m.k.current].priority);
    TakeFree(m, c, wait, timed);
    MutexStepKeeps(m, c, step);
    assert MutexApply(m, c, step) == m1 && Alone(m1, c);
    hide Inv, MutexInv, TakeMutex;
    TakesUp(m1, c, n - 1, wait, timed);
    var top := m1.(hold := n);
    ReleasesDown(top, c);
    LeadsJoin(m1, c, Repeat(step, n - 1), top, Repeat(Release, n), Mutex(k, 1, None, 0, 255));
    var steps := Repeat(step, n) + Repeat(Release, n);
    assert steps[0] == step && steps[1..] == Repeat(step, n - 1) + Repeat(Release, n);
  }
}
