/** Threads, ready lists, wait lists and the bitmap as a value; one function for each critical section of the kernel. */
module KernelState {
  import opened Queues
  import opened ReadyBits

  datatype Stat = Init | Ready | Suspend | Close

  datatype Error = Ok | TimedOut | Failed

  datatype Thread = Thread(stat: Stat, priority: nat, initPriority: nat, mask: Mask, timerOn: bool, error: Error)

  /** `waits` are the suspend lists of the IPC objects; `lockNest` is rt_scheduler_lock_nest. */
  datatype State = State(wide: bool, threads: seq<Thread>, ready: seq<Queue>, waits: seq<Queue>, defunct: Queue,
                         bits: Bits, current: nat, lockNest: nat)

  predicate Sized(s: State) {
    && |s.ready| == Levels(s.wide) && |s.bits.table| == 32
    && forall t :: 0 <= t < |s.threads| ==> ThreadSized(s.threads[t], s.wide)
  }

  predicate ThreadSized(th: Thread, wide: bool) {
    th.priority < Levels(wide) && th.initPriority < Levels(wide) && th.mask.number < 32
  }

  // ----- the invariant -----

  /** A thread that can be scheduled or woken has the masks of its priority. */
  predicate Masked(th: Thread, wide: bool)
    requires ThreadSized(th, wide)
  {
    th.stat == Ready || th.stat == Suspend ==> th.mask == MaskOf(th.priority, wide)
  }

  /** A linked thread timer belongs to a suspended thread. */
  predicate TimerFits(th: Thread) { th.timerOn ==> th.stat == Suspend }

  predicate ThreadsOk(s: State)
    requires Sized(s)
  {
    forall t :: 0 <= t < |s.threads| ==> Masked(s.threads[t], s.wide) && TimerFits(s.threads[t])
  }

  /** Thread `t` is on exactly the lists that its status allows. */
  predicate PlacedAt(s: State, t: nat)
    requires t < |s.threads|
  {
    && (forall p :: 0 <= p < |s.ready| ==> (t in s.ready[p] <==> s.threads[t].stat == Ready && s.threads[t].priority == p))
    && (forall q :: 0 <= q < |s.waits| && t in s.waits[q] ==> s.threads[t].stat == Suspend)
    && (t in s.defunct ==> s.threads[t].stat == Close)
    && (forall q, r :: 0 <= q < |s.waits| && 0 <= r < |s.waits| && t in s.waits[q] && t in s.waits[r] ==> q == r)
  }

  /** Thread `t` is on no list. */
  predicate Unlinked(s: State, t: nat) {
    && (forall p :: 0 <= p < |s.ready| ==> t !in s.ready[p])
    && (forall q :: 0 <= q < |s.waits| ==> t !in s.waits[q])
    && t !in s.defunct
  }

  /** The lists hold threads only, and each at most once. */
  predicate ListsOk(s: State) {
    && (forall p :: 0 <= p < |s.ready| ==> QueueOk(s.ready[p], |s.threads|))
    && (forall q :: 0 <= q < |s.waits| ==> QueueOk(s.waits[q], |s.threads|))
    && QueueOk(s.defunct, |s.threads|)
  }

  predicate QueueOk(q: Queue, n: nat) {
    NoDup(q) && forall t :: t in q ==> t < n
  }

  /** Every thread but `x` is where its status says. */
  predicate PlacedExcept(s: State, x: nat) {
    ListsOk(s) && forall t :: 0 <= t < |s.threads| && t != x ==> PlacedAt(s, t)
  }

  predicate Placed(s: State) {
    ListsOk(s) && forall t :: 0 <= t < |s.threads| ==> PlacedAt(s, t)
  }

  /** The bitmap agrees with the ready lists. */
  predicate BitsAgree(s: State)
    requires Sized(s)
  {
    Consistent(s.bits, s.wide) && forall p :: 0 <= p < |s.ready| ==> (IsSet(s.bits, s.wide, p) <==> s.ready[p] != [])
  }

  predicate Inv(s: State) {
    Sized(s) && ThreadsOk(s) && Placed(s) && BitsAgree(s)
  }

  // ----- critical sections -----

  /** The same threads, lists and bitmap form. */
  predicate SameForm(s: State, r: State) {
    r.wide == s.wide && |r.threads| == |s.threads| && |r.waits| == |s.waits| && r.lockNest == s.lockNest
  }

  function WithThread(s: State, t: nat, th: Thread): (r: State)
    requires t < |s.threads|
    ensures Sized(s) && ThreadSized(th, s.wide) ==> Sized(r)
    ensures SameForm(s, r)
  {
    s.(threads := s.threads[t := th])
  }

  /** rt_list_remove on the one list node of a thread: it leaves whatever list it is on. */
  function Unlink(s: State, t: nat): (r: State)
    ensures Sized(s) ==> Sized(r)
    ensures SameForm(s, r)
  {
    s.(ready := RemoveAll(s.ready, t), waits := RemoveAll(s.waits, t), defunct := Remove(s.defunct, t))
  }

  /** rt_schedule_insert_thread */
  function InsertReady(s: State, t: nat): (r: State)
    requires Sized(s) && t < |s.threads|
    ensures Sized(r) && SameForm(s, r)
  {
    var th := s.threads[t];
    s.(threads := s.threads[t := th.(stat := Ready)],
       ready := s.ready[th.priority := s.ready[th.priority] + [t]],
       bits := PutBits(s.bits, th.mask, s.wide))
  }

  /** rt_schedule_remove_thread */
  function RemoveReady(s: State, t: nat): (r: State)
    requires Sized(s) && t < |s.threads|
    ensures Sized(r) && SameForm(s, r)
  {
    var u, th := Unlink(s, t), s.threads[t];
    if u.ready[th.priority] == [] then u.(bits := DropBits(u.bits, th.mask, u.wide)) else u
  }

  /** rt_thread_resume */
  function ResumeThread(s: State, t: nat): (r: State)
    requires Sized(s) && t < |s.threads|
    ensures Sized(r) && SameForm(s, r)
  {
    if s.threads[t].stat != Suspend then s
    else InsertReady(WithThread(Unlink(s, t), t, s.threads[t].(timerOn := false)), t)
  }

  /** rt_thread_startup, up to the scheduling */
  function StartupThread(s: State, t: nat): (r: State)
    requires Sized(s) && t < |s.threads|
    ensures Sized(r) && SameForm(s, r)
  {
    var th := s.threads[t];
    ResumeThread(WithThread(s, t, th.(priority := th.initPriority, mask := MaskOf(th.initPriority, s.wide), stat := Suspend)), t)
  }

  /** rt_thread_suspend */
  function SuspendThread(s: State, t: nat): (r: State)
    requires Sized(s) && t < |s.threads|
    ensures Sized(r) && SameForm(s, r)
  {
    if s.threads[t].stat != Ready then s
    else
      var u := RemoveReady(WithThread(s, t, s.threads[t].(stat := Suspend)), t);
      WithThread(u, t, u.threads[t].(timerOn := false))
  }

  /** RT_THREAD_CTRL_CHANGE_PRIORITY */
  function ChangePriority(s: State, t: nat, p: nat): (r: State)
    requires Sized(s) && t < |s.threads| && p < Levels(s.wide)
    ensures Sized(r) && SameForm(s, r)
  {
    var th := s.threads[t];
    if th.stat == Ready then
      var u := RemoveReady(s, t);
      InsertReady(WithThread(u, t, th.(priority := p, mask := MaskOf(p, s.wide))), t)
    else
      WithThread(s, t, th.(priority := p, mask := MaskOf(p, s.wide)))
  }

  /** rt_thread_yield, up to the scheduling */
  function YieldThread(s: State): (r: State)
    requires Sized(s) && s.current < |s.threads|
    ensures Sized(r) && SameForm(s, r)
  {
    var t, th := s.current, s.threads[s.current];
    if th.stat == Ready && |s.ready[th.priority]| > 1 then
      var u := Unlink(s, t);
      u.(ready := u.ready[th.priority := u.ready[th.priority] + [t]])
    else s
  }

  /** rt_thread_timeout, called by rt_timer_check with the timer already unlinked, up to the scheduling */
  function TimeoutThread(s: State, t: nat): (r: State)
    requires Sized(s) && t < |s.threads|
    ensures Sized(r) && SameForm(s, r)
  {
    InsertReady(WithThread(Unlink(s, t), t, s.threads[t].(timerOn := false, error := TimedOut)), t)
  }

  /** The critical section of rt_thread_exit, rt_thread_delete and rt_thread_detach. */
  function CloseThread(s: State, t: nat, toDefunct: bool): (r: State)
    requires Sized(s) && t < |s.threads|
    ensures Sized(r) && SameForm(s, r)
  {
    var u := if s.threads[t].stat != Init then RemoveReady(s, t) else s;
    var v := WithThread(u, t, u.threads[t].(stat := Close, timerOn := false));
    if toDefunct then v.(defunct := [t] + v.defunct) else v
  }

  /** Where rt_ipc_list_suspend puts a thread on a priority-ordered wait list: in front of the first weaker one. */
  function PrioPosition(q: Queue, threads: seq<Thread>, p: nat): (i: nat)
    ensures i <= |q|
  {
    if q == [] || (q[0] < |threads| && p < threads[q[0]].priority) then 0 else 1 + PrioPosition(q[1..], threads, p)
  }

  /** The critical section of a call that blocks: rt_ipc_list_suspend, then the thread timer. */
  function BlockThread(s: State, q: nat, prio: bool, timed: bool): (r: State)
    requires Sized(s) && s.current < |s.threads| && q < |s.waits|
    ensures Sized(r) && SameForm(s, r)
  {
    var t := s.current;
    var u := SuspendThread(WithThread(s, t, s.threads[t].(error := Ok)), t);
    var i := if prio then PrioPosition(u.waits[q], u.threads, u.threads[t].priority) else |u.waits[q]|;
    var v := u.(waits := u.waits[q := InsertAt(u.waits[q], i, t)]);
    if timed then WithThread(v, t, v.threads[t].(timerOn := true)) else v
  }

  /** rt_thread_sleep, up to the scheduling */
  function SleepThread(s: State): (r: State)
    requires Sized(s) && s.current < |s.threads|
    ensures Sized(r) && SameForm(s, r)
  {
    var u := SuspendThread(s, s.current);
    WithThread(u, s.current, u.threads[s.current].(timerOn := true))
  }

  /** rt_ipc_list_resume, and one turn of rt_ipc_list_resume_all when `failed`. */
  function WakeFirst(s: State, q: nat, failed: bool): (r: State)
    requires Sized(s) && ListsOk(s) && q < |s.waits| && s.waits[q] != []
    ensures Sized(r) && SameForm(s, r)
  {
    var t := s.waits[q][0];
    assert t in s.waits[q];
    ResumeThread(if failed then WithThread(s, t, s.threads[t].(error := Failed)) else s, t)
  }

  predicate SomeReady(s: State) { exists p :: 0 <= p < |s.ready| && s.ready[p] != [] }

  /** rt_schedule */
  function ScheduleNext(s: State): (r: State)
    requires Sized(s) && BitsAgree(s) && SomeReady(s)
    ensures Sized(r) && SameForm(s, r)
  {
    if s.lockNest != 0 then s
    else
      var p :| 0 <= p < |s.ready| && s.ready[p] != [];
      HighestIsLeast(s.bits, s.wide, p);
      s.(current := s.ready[Highest(s.bits, s.wide)][0])
  }
}
