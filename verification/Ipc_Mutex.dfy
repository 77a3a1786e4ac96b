/** One mutex with priority inheritance on top of the kernel state. */
module MutexState {
  import opened Wrappers
  import opened Queues
  import opened ReadyBits
  import opened KernelState
  import opened KernelPlacement
  import opened KernelRuns
  import opened KernelSteps

  /** `original` is meaningful while there is an owner; 255 otherwise. `hold` is an 8-bit counter. */
  datatype Mutex = Mutex(k: State, value: nat, owner: Option<nat>, hold: nat, original: nat)

  /** The static setting: the mutex's wait list and its flag. */
  datatype Config = Config(q: nat, prio: bool)

  datatype Taken = Done | Waiting | NoTime

  // ----- the two critical sections -----

  /** rt_mutex_take by the current thread, up to the scheduling. */
  function TakeMutex(m: Mutex, c: Config, wait: bool, timed: bool): (Mutex, Taken)
    requires Inv(m.k) && m.k.current < |m.k.threads| && c.q < |m.k.waits|
    requires m.owner.Some? ==> m.owner.value < |m.k.threads|
  {
    var t := m.k.current;
    var s := WithThread(m.k, t, m.k.threads[t].(error := Ok));
    ErrorKeeps(m.k, t, Ok);
    if m.owner == Some(t) then
      (m.(k := s, hold := (m.hold + 1) % 256), Done)
    else if m.value > 0 then
      (Mutex(s, m.value - 1, Some(t), (m.hold + 1) % 256, s.threads[t].priority), Done)
    else if !wait then
      (m.(k := WithThread(s, t, s.threads[t].(error := TimedOut))), NoTime)
    else
      var b := if m.owner.Some? then Boost(s, m.owner.value, s.threads[t].priority) else s;
      (m.(k := BlockThread(b, c.q, c.prio, timed)), Waiting)
  }

  /** The owner is given the priority of a stronger thread that is about to wait. */
  function Boost(s: State, o: nat, p: nat): (r: State)
    requires Inv(s) && o < |s.threads| && p < Levels(s.wide)
    ensures Inv(r) && SameForm(s, r) && r.current == s.current
  {
    ChangePriorityKeeps(s, o, p);
    if p < s.threads[o].priority then ChangePriority(s, o, p) else s
  }

  /** rt_mutex_release by the current thread, up to the scheduling; false is its error return. */
  function ReleaseMutex(m: Mutex, c: Config): (Mutex, bool)
    requires Inv(m.k) && m.k.current < |m.k.threads| && c.q < |m.k.waits|
    requires m.owner == Some(m.k.current) ==> m.original < Levels(m.k.wide)
  {
    var t := m.k.current;
    if m.owner != Some(t) then
      (m.(k := WithThread(m.k, t, m.k.threads[t].(error := Failed))), false)
    else
      var hold := (m.hold + 255) % 256;
      if hold != 0 then (m.(hold := hold), true)
      else (PassOn(Restore(m.k, t, m.original), c.q, m.value, hold), true)
  }

  /** The owner goes back to the priority it had before it took the mutex. */
  function Restore(s: State, t: nat, p: nat): (r: State)
    requires Inv(s) && t < |s.threads| && p < Levels(s.wide)
    ensures Inv(r) && SameForm(s, r)
  {
    ChangePriorityKeeps(s, t, p);
    if p != s.threads[t].priority then ChangePriority(s, t, p) else s
  }

  /** The mutex goes to the first waiter, or becomes free. */
  function PassOn(s: State, q: nat, value: nat, hold: nat): Mutex
    requires Inv(s) && q < |s.waits|
  {
    if s.waits[q] != [] then
      var heir := s.waits[q][0];
      assert heir in s.waits[q];
      Mutex(WakeFirst(s, q, false), value, Some(heir), (hold + 1) % 256, s.threads[heir].priority)
    else
      Mutex(s, value + 1, None, hold, 255)
  }

  // ----- the invariant -----

  /** No owner, value one and no hold go together; waiters imply an owner, who is not one of them. */
  predicate Owned(threads: seq<Thread>, q: Queue, owner: Option<nat>, value: nat, hold: nat) {
    && value <= 1 && hold < 256
    && (owner == None <==> value == 1) && (owner == None <==> hold == 0)
    && (q != [] ==> owner.Some?)
    && (owner.Some? ==> owner.value < |threads| && threads[owner.value].stat != Init && owner.value !in q)
  }

  /** While owned, the owner runs at its own priority or a stronger one. */
  predicate Boosted(threads: seq<Thread>, owner: Option<nat>, original: nat, levels: nat) {
    owner.Some? && owner.value < |threads| ==> threads[owner.value].priority <= original < levels
  }

  /** Priority order on the wait list, and nobody on it is stronger than the owner. */
  predicate Inherits(threads: seq<Thread>, q: Queue, owner: Option<nat>) {
    && ByPriority(q, threads)
    && (owner.Some? && owner.value < |threads| ==> NoneStronger(threads, q, threads[owner.value].priority))
  }

  predicate NoneStronger(threads: seq<Thread>, q: Queue, p: nat) {
    forall w :: 0 <= w < |q| ==> p <= PriorityAt(q, threads, w)
  }

  predicate MutexOk(threads: seq<Thread>, q: Queue, levels: nat, prio: bool, owner: Option<nat>, value: nat, hold: nat,
      original: nat) {
    && Owned(threads, q, owner, value, hold) && Boosted(threads, owner, original, levels)
    && (prio ==> Inherits(threads, q, owner))
  }

  predicate MutexInv(m: Mutex, c: Config) {
    && Inv(m.k) && c.q < |m.k.waits|
    && MutexOk(m.k.threads, m.k.waits[c.q], Levels(m.k.wide), c.prio, m.owner, m.value, m.hold, m.original)
  }

  // ----- what the kernel functions do to priorities and to the wait list -----

  /** Priorities of the queued threads are all that a list's order depends on. */
  lemma SameQueuePriorities(q: Queue, a: seq<Thread>, b: seq<Thread>)
    requires |a| == |b| && forall t :: t in q && t < |a| ==> b[t].priority == a[t].priority
    ensures ByPriority(q, a) ==> ByPriority(q, b)
    ensures forall i :: 0 <= i < |q| ==> PriorityAt(q, b, i) == PriorityAt(q, a, i)
  {
    forall i | 0 <= i < |q|
      ensures PriorityAt(q, b, i) == PriorityAt(q, a, i)
    {
      assert q[i] in q;
    }
  }

  /** Neither priorities nor the owner's being started change. */
  predicate SameRanks(a: seq<Thread>, b: seq<Thread>) {
    |b| == |a| && forall t :: 0 <= t < |a| ==> b[t].priority == a[t].priority && (a[t].stat != Init ==> b[t].stat != Init)
  }

  lemma SameRanksOk(a: seq<Thread>, b: seq<Thread>, q: Queue, levels: nat, prio: bool, owner: Option<nat>, value: nat,
      hold: nat, original: nat)
    requires SameRanks(a, b) && MutexOk(a, q, levels, prio, owner, value, hold, original)
    ensures MutexOk(b, q, levels, prio, owner, value, hold, original)
  {
    SameQueuePriorities(q, a, b);
    hide ByPriority, PriorityAt;
  }

  // ----- take -----

  lemma TakeKeeps(m: Mutex, c: Config, wait: bool, timed: bool)
    requires MutexInv(m, c) && m.k.current < |m.k.threads| && m.k.threads[m.k.current].stat == Ready
    requires m.owner == Some(m.k.current) ==> m.hold < 255
    ensures MutexInv(TakeMutex(m, c, wait, timed).0, c)
  {
    var t := m.k.current;
    var s := WithThread(m.k, t, m.k.threads[t].(error := Ok));
    ErrorMutex(m, c, t, Ok);
    if m.owner == Some(t) {
    } else if m.value > 0 {
      assert ByPriority([], s.threads);
    } else if wait {
      WaitKeeps(m.(k := s), c, timed);
    } else {
      ErrorMutex(m.(k := s), c, t, TimedOut);
    }
    hide Inv, ByPriority, PriorityAt, BlockThread;
  }

  /** A thread's error field is nobody else's concern. */
  lemma ErrorMutex(m: Mutex, c: Config, t: nat, e: Error)
    requires MutexInv(m, c) && t < |m.k.threads|
    ensures MutexInv(m.(k := WithThread(m.k, t, m.k.threads[t].(error := e))), c)
  {
    ErrorKeeps(m.k, t, e);
    hide Inv, MutexOk;
    SameRanksOk(m.k.threads, m.k.threads[t := m.k.threads[t].(error := e)], m.k.waits[c.q], Levels(m.k.wide), c.prio,
                m.owner, m.value, m.hold, m.original);
  }

  /** Waiting behind the owner: boost it, then block. */
  lemma WaitKeeps(m: Mutex, c: Config, timed: bool)
    requires MutexInv(m, c) && m.k.current < |m.k.threads| && m.k.threads[m.k.current].stat == Ready
    requires m.owner.Some? && m.owner.value != m.k.current && m.owner.value < |m.k.threads|
    ensures MutexInv(m.(k := BlockThread(Boost(m.k, m.owner.value, m.k.threads[m.k.current].priority), c.q, c.prio, timed)), c)
  {
    var s, t, o, p := m.k, m.k.current, m.owner.value, m.k.threads[m.k.current].priority;
    assert ThreadSized(s.threads[t], s.wide);
    var b := Boost(s, o, p);
    BoostThreads(s, o, p);
    hide Inv, MutexOk, Boost, BlockThread;
    BlockOk(s.threads, b, c, timed, o, m.value, m.hold, m.original);
  }

  /** Blocking behind the owner `o`, with the threads `a` before it was boosted. */
  lemma BlockOk(a: seq<Thread>, b: State, c: Config, timed: bool, o: nat, value: nat, hold: nat, original: nat)
    requires Inv(b) && Sized(b) && c.q < |b.waits| && b.current < |a| == |b.threads| && o < |a| && o != b.current
    requires a[b.current].stat == Ready && a[b.current] == b.threads[b.current]
    requires MutexOk(a, b.waits[c.q], Levels(b.wide), c.prio, Some(o), value, hold, original)
    requires if a[b.current].priority < a[o].priority
             then b.threads == a[o := b.threads[o]] && b.threads[o].priority == a[b.current].priority && b.threads[o].stat == a[o].stat
             else b.threads == a
    ensures var r := BlockThread(b, c.q, c.prio, timed);
            Inv(r) && MutexOk(r.threads, r.waits[c.q], Levels(b.wide), c.prio, Some(o), value, hold, original)
  {
    hide Inv, MutexOk, Sized;
    BlockKeeps(b, c.q, c.prio, timed);
    BlockEffect(b, c.q, c.prio, timed);
    var r := BlockThread(b, c.q, c.prio, timed);
    hide BlockThread, InsertAt, Dequeued;
    PositionSame(b.waits[c.q], b.threads, r.threads, a[b.current].priority);
    WaitOk(a, b.threads, r.threads, b.waits[c.q], b.current, o, Levels(b.wide), c.prio, value, hold, original);
  }

  /** A boost changes the priority of a weaker owner and nothing else that matters here. */
  lemma BoostThreads(s: State, o: nat, p: nat)
    requires Inv(s) && o < |s.threads| && p < Levels(s.wide)
    ensures var b := Boost(s, o, p);
            && Inv(b) && Sized(b) && b.waits == s.waits && |b.threads| == |s.threads| && b.current == s.current
            && if p < s.threads[o].priority
               then b.threads == s.threads[o := b.threads[o]] && b.threads[o].priority == p && b.threads[o].stat == s.threads[o].stat
               else b == s
  {
    ChangePriorityEffect(s, o, p);
    hide Inv, ChangePriority;
  }

  /** The same on threads and list alone. */
  lemma WaitOk(a: seq<Thread>, b: seq<Thread>, r: seq<Thread>, q: Queue, t: nat, o: nat, levels: nat, prio: bool,
      value: nat, hold: nat, original: nat)
    requires MutexOk(a, q, levels, prio, Some(o), value, hold, original)
    requires t < |a| == |b| == |r| && o < |a| && o != t && a[t].stat == Ready
    requires b == a || (a[t].priority < a[o].priority && b == a[o := b[o]] && b[o].priority == a[t].priority
        && b[o].stat == a[o].stat)
    requires a[t].priority < a[o].priority ==> b != a
    requires r == b[t := r[t]] && r[t].priority == b[t].priority && r[t].stat == KernelState.Suspend
    ensures var i := if prio then PrioPosition(q, r, b[t].priority) else |q|;
            MutexOk(r, InsertAt(q, i, t), levels, prio, Some(o), value, hold, original)
  {
    assert o !in q;
    SameQueuePriorities(q, a, r);
    if prio {
      WaitInherits(q, r, t, o);
    }
    InsertedMembers(q, t, o);
    hide ByPriority, PriorityAt, PrioPosition, InsertAt;
  }

  lemma InsertedMembers(q: Queue, t: nat, o: nat)
    requires o != t && o !in q
    ensures forall i :: 0 <= i <= |q| ==> o !in InsertAt(q, i, t)
  {
  }

  lemma WaitInherits(q: Queue, threads: seq<Thread>, t: nat, o: nat)
    requires ByPriority(q, threads) && t < |threads| && o < |threads| && threads[o].priority <= threads[t].priority
    requires NoneStronger(threads, q, threads[o].priority)
    ensures var r := InsertAt(q, PrioPosition(q, threads, threads[t].priority), t);
            ByPriority(r, threads) && NoneStronger(threads, r, threads[o].priority)
  {
    PrioListSorted(q, threads, t);
    var i := PrioPosition(q, threads, threads[t].priority);
    forall w | 0 <= w < |InsertAt(q, i, t)|
      ensures threads[o].priority <= PriorityAt(InsertAt(q, i, t), threads, w)
    {
      InsertedPriority(q, threads, i, t, w);
    }
  }

  // ----- release -----

  lemma ReleaseKeeps(m: Mutex, c: Config)
    requires MutexInv(m, c) && m.k.current < |m.k.threads|
    ensures MutexInv(ReleaseMutex(m, c).0, c)
  {
    var t := m.k.current;
    hide Inv, MutexOk;
    if m.owner != Some(t) {
      ErrorMutex(m, c, t, Failed);
    } else if m.hold == 1 {
      LastRelease(m, c);
    } else {
      InnerRelease(m, c);
    }
  }

  lemma InnerRelease(m: Mutex, c: Config)
    requires MutexInv(m, c) && m.owner == Some(m.k.current) && m.hold != 1
    ensures MutexInv(ReleaseMutex(m, c).0, c)
  {
    assert m.hold >= 2 && (m.hold + 255) % 256 == m.hold - 1;
    hide Inv, ByPriority, PriorityAt, PassOn, Restore, NoneStronger;
  }

  /** The last release restores the owner's priority and passes the mutex on. */
  lemma LastRelease(m: Mutex, c: Config)
    requires MutexInv(m, c) && m.owner == Some(m.k.current) && m.hold == 1
    ensures m.k.current < |m.k.threads| && m.original < Levels(m.k.wide)
    ensures var s := Restore(m.k, m.k.current, m.original);
            && c.q < |s.waits| && ReleaseMutex(m, c).0 == PassOn(s, c.q, 0, 0) && MutexInv(ReleaseMutex(m, c).0, c)
            && s.waits == m.k.waits && |s.threads| == |m.k.threads| && s.threads[m.k.current].priority == m.original
  {
    OwnerApart(m, c);
    LastReleaseShape(m, c);
    hide *;
    RestoreEffect(m.k, m.k.current, m.original, c);
    PassOnKeeps(Restore(m.k, m.k.current, m.original), c);
  }

  lemma LastReleaseShape(m: Mutex, c: Config)
    requires MutexInv(m, c) && m.owner == Some(m.k.current) && m.hold == 1
    ensures m.k.current < |m.k.threads| && m.original < Levels(m.k.wide) && Inv(m.k) && c.q < |m.k.waits| && m.value == 0
    ensures ReleaseMutex(m, c).0 == PassOn(Restore(m.k, m.k.current, m.original), c.q, 0, 0)
  {
    hide Inv, Restore, PassOn;
  }

  lemma RestoreEffect(s: State, t: nat, p: nat, c: Config)
    requires Inv(s) && t < |s.threads| && p < Levels(s.wide) && c.q < |s.waits| && t !in s.waits[c.q]
    ensures var r := Restore(s, t, p);
            && r.waits == s.waits && |r.threads| == |s.threads| && r.threads[t].priority == p
            && (ByPriority(s.waits[c.q], s.threads) ==> ByPriority(s.waits[c.q], r.threads))
  {
    ChangePriorityEffect(s, t, p);
    SameQueuePriorities(s.waits[c.q], s.threads, Restore(s, t, p).threads);
    hide ByPriority, PriorityAt, Inv, ChangePriority;
  }

  lemma PassOnKeeps(s: State, c: Config)
    requires Inv(s) && c.q < |s.waits| && (c.prio ==> ByPriority(s.waits[c.q], s.threads))
    ensures MutexInv(PassOn(s, c.q, 0, 0), c)
  {
    if s.waits[c.q] != [] {
      HandOver(s, c, 0);
    } else {
      EmptyByPriority(s.threads);
    }
    hide Inv, ByPriority, PriorityAt, WakeFirst;
  }

  lemma EmptyByPriority(threads: seq<Thread>)
    ensures ByPriority([], threads)
  {
  }

  /** The first waiter becomes owner; in a priority-ordered list nobody behind it is stronger. */
  lemma HandOver(s: State, c: Config, value: nat)
    requires Inv(s) && c.q < |s.waits| && s.waits[c.q] != [] && value == 0 && (c.prio ==> ByPriority(s.waits[c.q], s.threads))
    ensures var heir := s.waits[c.q][0];
            && heir < |s.threads|
            && MutexInv(Mutex(WakeFirst(s, c.q, false), value, Some(heir), 1, s.threads[heir].priority), c)
  {
    WakeFirstEffect(s, c.q, false);
    var q, heir, r := s.waits[c.q], s.waits[c.q][0], WakeFirst(s, c.q, false);
    HeadOnce(q, |s.threads|);
    assert ThreadSized(s.threads[heir], s.wide);
    hide Inv, WakeFirst;
    if c.prio {
      TailByPriority(q, s.threads);
      SameQueuePriorities(q[1..], s.threads, r.threads);
    }
    hide ByPriority, PriorityAt;
  }

  lemma TailByPriority(q: Queue, threads: seq<Thread>)
    requires ByPriority(q, threads) && q != []
    ensures ByPriority(q[1..], threads) && NoneStronger(threads, q[1..], threads[q[0]].priority)
  {
    assert forall w :: 0 <= w < |q| - 1 ==> PriorityAt(q[1..], threads, w) == PriorityAt(q, threads, w + 1);
    assert PriorityAt(q, threads, 0) == threads[q[0]].priority;
  }

  // ----- the rest of the kernel -----

  /** Steps that are not the mutex's: nothing else puts threads on its list or changes priorities. */
  predicate Foreign(s: State, step: Step, c: Config) {
    Enabled(s, step) && !step.SetPriority? && !(step.Block? && step.q == c.q) && !(step.Wake? && step.q == c.q)
  }

  /** The list is as before, or one thread left it. */
  ghost predicate Quiet(s: State, r: State, q: nat) {
    && |r.threads| == |s.threads| && q < |s.waits| && |r.waits| == |s.waits| && r.wide == s.wide
    && (forall t :: 0 <= t < |s.threads| && s.threads[t].stat != Init ==>
          r.threads[t].stat != Init && r.threads[t].priority == s.threads[t].priority)
    && (r.waits[q] == s.waits[q] || exists t :: r.waits[q] == Queues.Remove(s.waits[q], t))
  }

  lemma UnlinkQuiet(s: State, t: nat, r: State, q: nat)
    requires q < |s.waits| && |r.waits| == |s.waits| && |r.threads| == |s.threads| && r.wide == s.wide
    requires r.waits[q] == Unlink(s, t).waits[q]
    requires forall x :: 0 <= x < |s.threads| && s.threads[x].stat != Init ==> r.threads[x].stat != Init && r.threads[x].priority == s.threads[x].priority
    ensures Quiet(s, r, q)
  {
    assert r.waits[q] == Queues.Remove(s.waits[q], t);
  }

  lemma ForeignQuiet(s: State, step: Step, c: Config)
    requires Inv(s) && Foreign(s, step, c) && c.q < |s.waits|
    ensures Quiet(s, Apply(s, step), c.q)
  {
    var r := Apply(s, step);
    hide BitsAgree, Placed, ThreadsOk, PutBits, DropBits, MaskOf, Quiet;
    match step
    case Startup(t) => UnlinkQuiet(s, t, r, c.q);
    case Resume(t) => ResumeQuiet(s, t, c.q);
    case Suspend(t) => SuspendQuiet(s, t, c.q);
    case Yield => YieldQuiet(s, c.q);
    case Timeout(t) => UnlinkQuiet(s, t, r, c.q);
    case Exit(d) => CloseQuiet(s, s.current, d, c.q);
    case Remove(t, d) => CloseQuiet(s, t, d, c.q);
    case Block(q, prio, timed) => BlockQuiet(s, q, prio, timed, c.q);
    case Sleep => SleepQuiet(s, c.q);
    case Wake(q, failed) => WakeQuiet(s, q, failed, c.q);
    case Schedule => SameQuiet(s, r, c.q);
    case EnterCritical => SameQuiet(s, r, c.q);
    case LeaveCritical => SameQuiet(s, r, c.q);
  }

  lemma SameQuiet(s: State, r: State, q: nat)
    requires q < |s.waits| && r.waits == s.waits && r.threads == s.threads && r.wide == s.wide
    ensures Quiet(s, r, q)
  {
  }

  lemma ResumeQuiet(s: State, t: nat, q: nat)
    requires Inv(s) && t < |s.threads| && q < |s.waits|
    ensures Quiet(s, ResumeThread(s, t), q)
  {
    if s.threads[t].stat == KernelState.Suspend {
      UnlinkQuiet(s, t, ResumeThread(s, t), q);
    }
  }

  lemma SuspendQuiet(s: State, t: nat, q: nat)
    requires Inv(s) && t < |s.threads| && q < |s.waits|
    ensures Quiet(s, SuspendThread(s, t), q)
  {
    if s.threads[t].stat == Ready {
      UnlinkQuiet(s, t, SuspendThread(s, t), q);
    }
  }

  lemma YieldQuiet(s: State, q: nat)
    requires Inv(s) && s.current < |s.threads| && q < |s.waits|
    ensures Quiet(s, YieldThread(s), q)
  {
    if YieldThread(s) != s {
      UnlinkQuiet(s, s.current, YieldThread(s), q);
    }
  }

  lemma CloseQuiet(s: State, t: nat, d: bool, q: nat)
    requires Inv(s) && t < |s.threads| && q < |s.waits|
    ensures Quiet(s, CloseThread(s, t, d), q)
  {
    if s.threads[t].stat != Init {
      UnlinkQuiet(s, t, CloseThread(s, t, d), q);
    }
  }

  lemma BlockQuiet(s: State, at: nat, prio: bool, timed: bool, q: nat)
    requires Inv(s) && s.current < |s.threads| && at < |s.waits| && s.threads[s.current].stat == Ready && q < |s.waits| && at != q
    ensures Quiet(s, BlockThread(s, at, prio, timed), q)
  {
    UnlinkQuiet(s, s.current, BlockThread(s, at, prio, timed), q);
  }

  lemma SleepQuiet(s: State, q: nat)
    requires Inv(s) && s.current < |s.threads| && s.threads[s.current].stat == Ready && q < |s.waits|
    ensures Quiet(s, SleepThread(s), q)
  {
    UnlinkQuiet(s, s.current, SleepThread(s), q);
  }

  lemma WakeQuiet(s: State, at: nat, failed: bool, q: nat)
    requires Inv(s) && at < |s.waits| && s.waits[at] != [] && q < |s.waits|
    ensures Quiet(s, WakeFirst(s, at, failed), q)
  {
    var t := s.waits[at][0];
    assert t in s.waits[at];
    assert PlacedAt(s, t);
    UnlinkQuiet(s, t, WakeFirst(s, at, failed), q);
  }

  lemma {:induction false} RemoveByPriority(q: Queue, threads: seq<Thread>, t: nat, p: nat)
    requires ByPriority(q, threads) && NoneStronger(threads, q, p)
    ensures ByPriority(Queues.Remove(q, t), threads) && NoneStronger(threads, Queues.Remove(q, t), p)
  {
    if q != [] {
      TailByPriority(q, threads);
      assert forall w :: 0 <= w < |q| - 1 ==> PriorityAt(q[1..], threads, w) == PriorityAt(q, threads, w + 1);
      assert PriorityAt(q, threads, 0) >= p;
      if q[0] != t {
        RemoveByPriority(q[1..], threads, t, p);
        RemoveByPriority(q[1..], threads, t, threads[q[0]].priority);
        ConsByPriority(q[0], Queues.Remove(q[1..], t), threads, p);
      }
    }
  }

  lemma ConsByPriority(x: nat, r: Queue, threads: seq<Thread>, p: nat)
    requires x < |threads| && ByPriority(r, threads) && NoneStronger(threads, r, threads[x].priority) && p <= threads[x].priority
    ensures ByPriority([x] + r, threads) && NoneStronger(threads, [x] + r, p)
  {
    var q := [x] + r;
    forall w | 0 <= w < |q|
      ensures PriorityAt(q, threads, w) == if w == 0 then threads[x].priority else PriorityAt(r, threads, w - 1)
    {
    }
  }

  /** A thread that leaves the list, by timeout or otherwise, takes nothing from the invariant. */
  lemma ForeignKeeps(m: Mutex, c: Config, step: Step)
    requires MutexInv(m, c) && Foreign(m.k, step, c)
    ensures MutexInv(m.(k := Apply(m.k, step)), c)
  {
    StepKeeps(m.k, step);
    ForeignQuiet(m.k, step, c);
    var s, r := m.k, Apply(m.k, step);
    QueuedStarted(s, c.q);
    hide Inv, Apply, Foreign;
    QuietOk(s, r, c.q, Levels(s.wide), c.prio, m.owner, m.value, m.hold, m.original);
  }

  lemma QueuedStarted(s: State, q: nat)
    requires Inv(s) && q < |s.waits|
    ensures forall t :: t in s.waits[q] ==> t < |s.threads| && s.threads[t].stat != Init
  {
    forall t | t in s.waits[q]
      ensures t < |s.threads| && s.threads[t].stat != Init
    {
      assert PlacedAt(s, t);
    }
  }

  lemma QuietOk(s: State, r: State, q: nat, levels: nat, prio: bool, owner: Option<nat>, value: nat, hold: nat, original: nat)
    requires Quiet(s, r, q) && MutexOk(s.threads, s.waits[q], levels, prio, owner, value, hold, original)
    requires forall t :: t in s.waits[q] ==> t < |s.threads| && s.threads[t].stat != Init
    ensures MutexOk(r.threads, r.waits[q], levels, prio, owner, value, hold, original)
  {
    SameQueuePriorities(s.waits[q], s.threads, r.threads);
    if r.waits[q] != s.waits[q] {
      var t :| r.waits[q] == Queues.Remove(s.waits[q], t);
      RemoveSubset(s.waits[q], t);
      if prio {
        RemoveByPriority(s.waits[q], r.threads, t, if owner.Some? then r.threads[owner.value].priority else 0);
      }
    }
    hide ByPriority, PriorityAt, Queues.Remove;
  }

  // ----- runs -----

  datatype MutexStep = Take(wait: bool, timed: bool) | Release | Other(step: Step)

  predicate MutexEnabled(m: Mutex, c: Config, step: MutexStep) {
    match step
    case Take(_, _) =>
      m.k.current < |m.k.threads| && m.k.threads[m.k.current].stat == Ready && (m.owner == Some(m.k.current) ==> m.hold < 255)
    case Release => m.k.current < |m.k.threads|
    case Other(st) => Foreign(m.k, st, c)
  }

  function MutexApply(m: Mutex, c: Config, step: MutexStep): Mutex
    requires MutexInv(m, c) && MutexEnabled(m, c, step)
  {
    match step
    case Take(wait, timed) => TakeMutex(m, c, wait, timed).0
    case Release => ReleaseMutex(m, c).0
    case Other(st) => m.(k := Apply(m.k, st))
  }

  lemma MutexStepKeeps(m: Mutex, c: Config, step: MutexStep)
    requires MutexInv(m, c) && MutexEnabled(m, c, step)
    ensures MutexInv(MutexApply(m, c, step), c)
  {
    hide Inv, MutexOk;
    match step
    case Take(wait, timed) => TakeKeeps(m, c, wait, timed);
    case Release => ReleaseKeeps(m, c);
    case Other(st) => ForeignKeeps(m, c, st);
  }

  predicate MutexLeads(m: Mutex, c: Config, steps: seq<MutexStep>, r: Mutex)
    requires MutexInv(m, c)
    decreases |steps|
  {
    if steps == [] then r == m
    else
      && MutexEnabled(m, c, steps[0])
      && (MutexStepKeeps(m, c, steps[0]); MutexLeads(MutexApply(m, c, steps[0]), c, steps[1..], r))
  }

  /** The invariant holds along every run, whoever takes, waits, times out or is woken. */
  lemma {:induction false} RunsKeepMutex(m: Mutex, c: Config, steps: seq<MutexStep>, r: Mutex)
    requires MutexInv(m, c) && MutexLeads(m, c, steps, r)
    ensures MutexInv(r, c)
    decreases |steps|
  {
    if steps != [] {
      MutexStepKeeps(m, c, steps[0]);
      RunsKeepMutex(MutexApply(m, c, steps[0]), c, steps[1..], r);
    }
  }

  /** In every reachable state nobody waits at a stronger priority than the owner runs at. */
  lemma NoInversion(m: Mutex, c: Config, steps: seq<MutexStep>, r: Mutex, w: nat)
    requires MutexInv(m, c) && MutexLeads(m, c, steps, r) && c.prio
    requires c.q < |r.k.waits| && w in r.k.waits[c.q]
    ensures r.owner.Some? && r.owner.value != w && r.owner.value < |r.k.threads| && w < |r.k.threads|
    ensures r.k.threads[r.owner.value].priority <= r.k.threads[w].priority
  {
    RunsKeepMutex(m, c, steps, r);
    hide Inv;
    var q := r.k.waits[c.q];
    var i :| 0 <= i < |q| && q[i] == w;
    assert PriorityAt(q, r.k.threads, i) >= r.k.threads[r.owner.value].priority;
  }

  /** `o` owns the mutex in every state of the run. */
  predicate OwnsThrough(m: Mutex, c: Config, steps: seq<MutexStep>, o: nat)
    requires MutexInv(m, c)
    decreases |steps|
  {
    && m.owner == Some(o)
    && (steps != [] ==>
          && MutexEnabled(m, c, steps[0])
          && (MutexStepKeeps(m, c, steps[0]); OwnsThrough(MutexApply(m, c, steps[0]), c, steps[1..], o)))
  }

  lemma StepKeepsOriginal(m: Mutex, c: Config, step: MutexStep)
    requires MutexInv(m, c) && MutexEnabled(m, c, step) && m.owner.Some? && MutexApply(m, c, step).owner == m.owner
    ensures MutexApply(m, c, step).original == m.original
  {
    if step.Release? && m.owner == Some(m.k.current) && m.hold == 1 {
      RestoreEffect(m.k, m.k.current, m.original, c);
      assert m.k.current !in m.k.waits[c.q];
    }
    hide Inv, WakeFirst, ChangePriority, BlockThread, Apply;
  }

  lemma {:induction false} OriginalStands(m: Mutex, c: Config, steps: seq<MutexStep>, r: Mutex, o: nat)
    requires MutexInv(m, c) && MutexLeads(m, c, steps, r) && OwnsThrough(m, c, steps, o)
    ensures r.original == m.original && r.owner == Some(o) && MutexInv(r, c)
    decreases |steps|
  {
    if steps != [] {
      MutexStepKeeps(m, c, steps[0]);
      var m' := MutexApply(m, c, steps[0]);
      assert m'.owner == Some(o) by { assert OwnsThrough(m', c, steps[1..], o); }
      StepKeepsOriginal(m, c, steps[0]);
      OriginalStands(m', c, steps[1..], r, o);
    }
  }

  /** However often it was boosted in between, the final release gives the owner the priority it had at the first take. */
  lemma ReleaseRestoresPriority(m: Mutex, c: Config, wait: bool, timed: bool, steps: seq<MutexStep>, r: Mutex)
    requires MutexInv(m, c) && m.owner == None && MutexEnabled(m, c, Take(wait, timed))
    requires (MutexStepKeeps(m, c, Take(wait, timed)); OwnsThrough(MutexApply(m, c, Take(wait, timed)), c, steps, m.k.current))
    requires MutexLeads(MutexApply(m, c, Take(wait, timed)), c, steps, r)
    requires r.k.current == m.k.current && r.hold == 1
    ensures r.k.current < |r.k.threads|
    ensures MutexInv(r, c)
    ensures var k := ReleaseMutex(r, c).0.k;
            m.k.current < |k.threads| && k.threads[m.k.current].priority == m.k.threads[m.k.current].priority
  {
    var t := m.k.current;
    MutexStepKeeps(m, c, Take(wait, timed));
    var m1 := MutexApply(m, c, Take(wait, timed));
    OriginalStands(m1, c, steps, r, t);
    assert m1.original == m.k.threads[t].priority;
    FinalRelease(r, c);
  }

  /** The same for a thread that was handed the mutex: its final release gives it the priority it had at the hand-over. */
  lemma ReleaseRestoresHeir(m: Mutex, c: Config, steps: seq<MutexStep>, r: Mutex)
    requires MutexInv(m, c) && m.owner == Some(m.k.current) && m.hold == 1 && m.k.waits[c.q] != []
    requires (ReleaseKeeps(m, c); OwnsThrough(ReleaseMutex(m, c).0, c, steps, m.k.waits[c.q][0]))
    requires MutexLeads(ReleaseMutex(m, c).0, c, steps, r)
    requires r.k.current == m.k.waits[c.q][0] && r.hold == 1
    ensures MutexInv(r, c) && r.k.current < |r.k.threads|
    ensures var heir, k := m.k.waits[c.q][0], ReleaseMutex(r, c).0.k;
            heir < |m.k.threads| && heir < |k.threads| && k.threads[heir].priority == m.k.threads[heir].priority
  {
    var heir, m1 := m.k.waits[c.q][0], ReleaseMutex(m, c).0;
    ReleaseKeeps(m, c);
    HeirRecorded(m, c);
    hide *;
    OriginalStands(m1, c, steps, r, heir);
    OwnerInRange(r, c);
    FinalRelease(r, c);
  }

  /** The hand-over records the heir's priority, which the release does not change. */
  lemma HeirRecorded(m: Mutex, c: Config)
    requires MutexInv(m, c) && m.owner == Some(m.k.current) && m.hold == 1 && m.k.waits[c.q] != []
    ensures var heir, r := m.k.waits[c.q][0], ReleaseMutex(m, c).0;
            heir < |m.k.threads| && r.owner == Some(heir) && r.original == m.k.threads[heir].priority
  {
    OwnerApart(m, c);
    LastRelease(m, c);
    RestoreRanks(m.k, m.k.current, m.original);
    assert m.k.waits[c.q][0] in m.k.waits[c.q];
    hide Inv, Restore, ReleaseMutex, MutexInv, WakeFirst;
  }

  lemma OwnerInRange(m: Mutex, c: Config)
    requires MutexInv(m, c) && m.owner.Some?
    ensures m.owner.value < |m.k.threads|
  {
  }

  lemma FinalRelease(r: Mutex, c: Config)
    requires MutexInv(r, c) && r.k.current < |r.k.threads| && r.owner == Some(r.k.current) && r.hold == 1
    ensures var k := ReleaseMutex(r, c).0.k;
            |k.threads| == |r.k.threads| && k.threads[r.k.current].priority == r.original
  {
    var t := r.k.current;
    LastRelease(r, c);
    var s := Restore(r.k, t, r.original);
    hide Inv, MutexInv, WakeFirst, Restore, ReleaseMutex;
    if s.waits[c.q] != [] {
      WakeFirstEffect(s, c.q, false);
    }
  }

  /** Somebody on the list is stronger than `p`. */
  predicate SomeStronger(threads: seq<Thread>, q: Queue, p: nat) {
    exists i :: 0 <= i < |q| && q[i] < |threads| && threads[q[i]].priority < p
  }

  /**
   * The last release leaves a thread waiting that is stronger than the new owner exactly when the list is a FIFO and the
   * thread that came first is not the strongest on it.
   */
  lemma InversionIff(m: Mutex, c: Config)
    requires MutexInv(m, c) && m.owner == Some(m.k.current) && m.hold == 1 && m.k.waits[c.q] != []
    ensures var q, r := m.k.waits[c.q], ReleaseMutex(m, c).0;
            && q[0] < |m.k.threads| == |r.k.threads| && r.owner == Some(q[0]) && c.q < |r.k.waits| && r.k.waits[c.q] == q[1..]
            && (SomeStronger(r.k.threads, r.k.waits[c.q], r.k.threads[q[0]].priority)
                <==> !c.prio && SomeStronger(m.k.threads, q, m.k.threads[q[0]].priority))
  {
    var q, t, r := m.k.waits[c.q], m.k.current, ReleaseMutex(m, c).0;
    LastRelease(m, c);
    LastReleaseShape(m, c);
    OwnerApart(m, c);
    var s := Restore(m.k, t, m.original);
    RestoreRanks(m.k, t, m.original);
    PassOnRanks(s, c.q);
    HeadOnce(q, |m.k.threads|);
    assert forall x :: x in q && x < |m.k.threads| ==> x != t && r.k.threads[x].priority == m.k.threads[x].priority;
    hide Inv, MutexInv, WakeFirst, Restore, ReleaseMutex, PassOn;
    SameStronger(q, m.k.threads, r.k.threads);
    if c.prio {
      HeadStrongest(q, m.k.threads);
    }
  }

  /** Behind the head or anywhere on the list: the head is not stronger than itself. */
  lemma SameStronger(q: Queue, a: seq<Thread>, b: seq<Thread>)
    requires q != [] && |a| == |b| && q[0] < |a|
    requires forall x :: x in q && x < |a| ==> b[x].priority == a[x].priority
    ensures SomeStronger(b, q[1..], b[q[0]].priority) <==> SomeStronger(a, q, a[q[0]].priority)
  {
    assert q[0] in q;
    if SomeStronger(b, q[1..], b[q[0]].priority) {
      var i :| 0 <= i < |q| - 1 && q[1..][i] < |b| && b[q[1..][i]].priority < b[q[0]].priority;
      assert q[i + 1] in q && a[q[i + 1]].priority < a[q[0]].priority;
    }
    if SomeStronger(a, q, a[q[0]].priority) {
      var i :| 0 <= i < |q| && q[i] < |a| && a[q[i]].priority < a[q[0]].priority;
      assert q[i] in q && i > 0 && q[1..][i - 1] == q[i];
    }
  }

  lemma HeadStrongest(q: Queue, threads: seq<Thread>)
    requires q != [] && ByPriority(q, threads)
    ensures q[0] < |threads| && !SomeStronger(threads, q, threads[q[0]].priority)
  {
    forall i | 0 <= i < |q|
      ensures threads[q[0]].priority <= threads[q[i]].priority
    {
      assert PriorityAt(q, threads, 0) <= PriorityAt(q, threads, i);
    }
  }

  lemma PassOnRanks(s: State, q: nat)
    requires Inv(s) && q < |s.waits| && s.waits[q] != []
    ensures var r := PassOn(s, q, 0, 0);
            && s.waits[q][0] < |s.threads| == |r.k.threads| && r.owner == Some(s.waits[q][0]) && q < |r.k.waits|
                && r.k.waits[q] == s.waits[q][1..]
            && forall x :: 0 <= x < |s.threads| ==> r.k.threads[x].priority == s.threads[x].priority
  {
    WakeFirstEffect(s, q, false);
    hide Inv, WakeFirst;
  }

  lemma OwnerApart(m: Mutex, c: Config)
    requires MutexInv(m, c) && m.owner.Some?
    ensures m.owner.value !in m.k.waits[c.q] && QueueOk(m.k.waits[c.q], |m.k.threads|)
    ensures c.prio ==> ByPriority(m.k.waits[c.q], m.k.threads)
  {
  }

  lemma RestoreRanks(s: State, t: nat, p: nat)
    requires Inv(s) && t < |s.threads| && p < Levels(s.wide)
    ensures var r := Restore(s, t, p); |r.threads| == |s.threads| && forall x :: 0 <= x < |s.threads| && x != t ==> r.threads[x].priority == s.threads[x].priority
  {
    ChangePriorityEffect(s, t, p);
    hide Inv, ChangePriority;
  }

  // ----- where the code falls short -----

  /** The 8-bit hold counter keeps its meaning on a nested take exactly while it is below 255. */
  lemma NestedTakeKeepsIff(m: Mutex, c: Config, wait: bool, timed: bool)
    requires MutexInv(m, c) && m.k.current < |m.k.threads| && m.k.threads[m.k.current].stat == Ready
    requires m.owner == Some(m.k.current)
    ensures MutexInv(TakeMutex(m, c, wait, timed).0, c) <==> m.hold < 255
  {
    if m.hold < 255 {
      TakeKeeps(m, c, wait, timed);
    }
    hide Inv;
  }
}

/** The mutex object and the functions that change it and the kernel. */
module MutexObject {
  import opened Wrappers
  import opened ReadyBits
  import opened KernelState
  import opened KernelPlacement
  import opened KernelRuns
  import opened KernelSteps
  import opened KernelMachine
  import opened MutexState

  class MutexObject {
    const kernel: Kernel
    const config: Config
    var value: nat
    var owner: Option<nat>
    var hold: nat
    var original: nat

    ghost function View(): Mutex
      reads this, kernel
    {
      Mutex(kernel.View(), value, owner, hold, original)
    }

    ghost predicate Valid()
      reads this, kernel
    {
      MutexInv(View(), config)
    }

    /** rt_mutex_init */
    constructor (kernel: Kernel, config: Config)
      requires kernel.Valid() && config.q < |kernel.waits| && kernel.waits[config.q] == []
      ensures Valid() && this.kernel == kernel && this.config == config && owner == None
      ensures kernel.View() == old(kernel.View())
    {
      this.kernel, this.config := kernel, config;
      value, owner, hold, original := 1, None, 0, 255;
      new;
      EmptyByPriority(kernel.threads);
    }

    /** rt_mutex_take: one more hold, the free mutex, an error, or a place on the wait list behind a boosted owner. */
    method TakeIt(wait: bool, timed: bool) returns (r: Taken)
      requires Valid() && kernel.current < |kernel.threads| && kernel.threads[kernel.current].stat == Ready
      requires owner == Some(kernel.current) ==> hold < 255
      modifies this, kernel
      ensures Valid() && (View(), r) == TakeMutex(old(View()), config, wait, timed)
    {
      ghost var m := View();
      TakeKeeps(m, config, wait, timed);
      ErrorKeeps(m.k, m.k.current, Ok);
      hide Inv, MutexOk, BlockThread, ChangePriority;
      var t := kernel.current;
      kernel.threads := kernel.threads[t := kernel.threads[t].(error := Ok)];
      if owner == Some(t) {
        hold := (hold + 1) % 256;
        r := Done;
      } else if value > 0 {
        value := value - 1;
        owner := Some(t);
        original := kernel.threads[t].priority;
        hold := (hold + 1) % 256;
        r := Done;
      } else if !wait {
        kernel.threads := kernel.threads[t := kernel.threads[t].(error := TimedOut)];
        r := NoTime;
      } else {
        WaiterFacts(m, config);
        WaitBehindOwner(timed);
        r := Waiting;
      }
    }

    /** Boost the owner if the caller is stronger, then block. */
    method WaitBehindOwner(timed: bool)
      requires kernel.Valid() && config.q < |kernel.waits| && owner.Some? && owner.value < |kernel.threads|
          && owner.value != kernel.current
      requires kernel.current < |kernel.threads| && kernel.threads[kernel.current].stat == Ready
      modifies kernel
      ensures var s := old(kernel.View());
              kernel.View() == BlockThread(Boost(s, owner.value, s.threads[s.current].priority), config.q, config.prio, timed)
    {
      ghost var s := kernel.View();
      hide Inv, BlockThread, ChangePriority;
      var o, p := owner.value, kernel.threads[kernel.current].priority;
      if p < kernel.threads[o].priority {
        ChangePriorityEffect(s, o, p);
        kernel.ControlPriority(o, p);
      }
      assert kernel.View() == Boost(s, o, p);
      kernel.BlockCurrent(config.q, config.prio, timed);
    }

    /** rt_mutex_release */
    method ReleaseIt() returns (ok: bool)
      requires Valid() && kernel.current < |kernel.threads|
      modifies this, kernel
      ensures Valid() && (View(), ok) == ReleaseMutex(old(View()), config)
    {
      ghost var m := View();
      ReleaseKeeps(m, config);
      ReleaseFacts(m, config);
      hide Inv, MutexOk, PassOn, Restore;
      var t := kernel.current;
      if owner != Some(t) {
        kernel.threads := kernel.threads[t := kernel.threads[t].(error := Failed)];
        return false;
      }
      hold := (hold + 255) % 256;
      ok := true;
      if hold == 0 {
        RestorePriority(t);
        PassItOn();
      }
    }

    method RestorePriority(t: nat)
      requires kernel.Valid() && t < |kernel.threads| && original < Levels(kernel.wide)
      modifies kernel
      ensures kernel.View() == Restore(old(kernel.View()), t, original)
    {
      hide Inv, ChangePriority;
      if original != kernel.threads[t].priority {
        kernel.ControlPriority(t, original);
      }
    }

    /** The end of the last release: wake the first waiter as the new owner, or free the mutex. */
    method PassItOn()
      requires kernel.Valid() && config.q < |kernel.waits|
      modifies this, kernel
      ensures View() == PassOn(old(kernel.View()), config.q, old(value), old(hold))
    {
      hide Inv, WakeFirst;
      if kernel.waits[config.q] != [] {
        QueueInRange(kernel.View(), config.q);
        var heir := kernel.waits[config.q][0];
        owner := Some(heir);
        original := kernel.threads[heir].priority;
        hold := (hold + 1) % 256;
        kernel.WakeOne(config.q, false);
      } else {
        value := value + 1;
        owner := None;
        original := 255;
      }
    }
  }

  lemma WaiterFacts(m: Mutex, c: Config)
    requires MutexInv(m, c) && m.value == 0 && m.owner != Some(m.k.current)
    ensures m.owner.Some? && m.owner.value < |m.k.threads| && m.owner.value != m.k.current && c.q < |m.k.waits|
  {
  }

  lemma ReleaseFacts(m: Mutex, c: Config)
    requires MutexInv(m, c)
    ensures m.owner.Some? ==> m.original < Levels(m.k.wide)
    ensures c.q < |m.k.waits|
  {
  }
}
