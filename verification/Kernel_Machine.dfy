/** The kernel's global variables and the functions that change them, step by step. */
module KernelMachine {
  import opened Queues
  import opened WordBits
  import opened ByteBits
  import opened ReadyBits
  import opened KernelState
  import opened KernelPlacement
  import opened KernelRuns

  class Kernel {
    const wide: bool
    var threads: seq<Thread>
    var ready: seq<Queue>
    var waits: seq<Queue>
    var defunct: Queue
    var group: bv32
    var table: seq<bv8>
    var current: nat
    var lockNest: nat

    ghost function View(): State
      reads this
    {
      State(wide, threads, ready, waits, defunct, Bits(group, table), current, lockNest)
    }

    ghost predicate Valid()
      reads this
    {
      Inv(View())
    }

    /** rt_system_scheduler_init; the threads are initialised and not started. */
    constructor (wide: bool, threads: seq<Thread>, lists: nat)
      requires forall t :: 0 <= t < |threads| ==> BootThread(threads[t], wide)
      ensures Valid() && Boot(View()) && View().threads == threads && |waits| == lists
    {
      this.wide, this.threads := wide, threads;
      ready := seq(Levels(wide), _ => []);
      waits := seq(lists, _ => []);
      defunct, group, table, current, lockNest := [], 0, seq(32, _ => 0), 0, 0;
      new;
      BootInv(View());
    }

    /** rt_list_remove on the list node of thread `t`. */
    method UnlinkNode(t: nat)
      modifies `ready, `waits, `defunct
      ensures View() == Unlink(old(View()), t)
    {
      ready := RemoveAll(ready, t);
      waits := RemoveAll(waits, t);
      defunct := Queues.Remove(defunct, t);
    }

    /** rt_schedule_insert_thread */
    method InsertThread(t: nat)
      requires Sized(View()) && t < |threads|
      modifies `threads, `ready, `group, `table
      ensures View() == InsertReady(old(View()), t)
    {
      var mask, p := threads[t].mask, threads[t].priority;
      threads := threads[t := threads[t].(stat := Ready)];
      ready := ready[p := ready[p] + [t]];
      if wide {
        table := table[mask.number := Or8(table[mask.number], mask.highMask)];
      }
      group := Or(group, mask.numberMask);
    }

    /** rt_schedule_remove_thread */
    method RemoveThread(t: nat)
      requires Sized(View()) && t < |threads|
      modifies `ready, `waits, `defunct, `group, `table
      ensures View() == RemoveReady(old(View()), t)
    {
      var mask := threads[t].mask;
      UnlinkNode(t);
      if ready[threads[t].priority] == [] {
        if wide {
          table := table[mask.number := AndNot8(table[mask.number], mask.highMask)];
          if Zero8(table[mask.number]) {
            group := AndNot(group, mask.numberMask);
          }
        } else {
          group := AndNot(group, mask.numberMask);
        }
      }
    }

    /** rt_thread_resume */
    method ResumeNode(t: nat) returns (ok: bool)
      requires Valid() && t < |threads|
      modifies `threads, `ready, `waits, `defunct, `group, `table
      ensures Valid() && View() == ResumeThread(old(View()), t) && ok == (old(threads)[t].stat == KernelState.Suspend)
    {
      ResumeKeeps(View(), t);
      hide Inv, InsertReady, Unlink;
      if threads[t].stat != KernelState.Suspend {
        return false;
      }
      UnlinkNode(t);
      threads := threads[t := threads[t].(timerOn := false)];
      InsertThread(t);
      ok := true;
    }

    /** rt_thread_startup */
    method StartupNode(t: nat)
      requires Valid() && t < |threads| && threads[t].stat == Init
      modifies `threads, `ready, `waits, `defunct, `group, `table
      ensures Valid() && View() == StartupThread(old(View()), t)
    {
      ghost var s := View();
      StartupKeeps(s, t);
      StartupReadies(s, t);
      hide Inv;
      var p := threads[t].initPriority;
      threads := threads[t := threads[t].(priority := p)];
      threads := threads[t := threads[t].(mask := MaskOf(p, wide))];
      threads := threads[t := threads[t].(stat := KernelState.Suspend)];
      assert View() == WithThread(s, t, s.threads[t].(priority := p, mask := MaskOf(p, s.wide), stat := KernelState.Suspend));
      var _ := ResumeNode(t);
    }

    /** rt_thread_suspend */
    method SuspendNode(t: nat) returns (ok: bool)
      requires Valid() && t < |threads|
      modifies `threads, `ready, `waits, `defunct, `group, `table
      ensures Valid() && View() == SuspendThread(old(View()), t) && ok == (old(threads)[t].stat == Ready)
    {
      SuspendKeeps(View(), t);
      hide Inv, RemoveReady;
      if threads[t].stat != Ready {
        return false;
      }
      threads := threads[t := threads[t].(stat := KernelState.Suspend)];
      RemoveThread(t);
      threads := threads[t := threads[t].(timerOn := false)];
      ok := true;
    }

    /** RT_THREAD_CTRL_CHANGE_PRIORITY of rt_thread_control */
    method ControlPriority(t: nat, p: nat)
      requires Valid() && t < |threads| && p < Levels(wide)
      modifies `threads, `ready, `waits, `defunct, `group, `table
      ensures Valid() && View() == ChangePriority(old(View()), t, p)
    {
      ghost var s := View();
      ChangePriorityKeeps(s, t, p);
      hide Inv, RemoveReady, InsertReady;
      if threads[t].stat == Ready {
        RemoveThread(t);
        RemoveReadyThreads(s, t);
        threads := threads[t := threads[t].(priority := p)];
        threads := threads[t := threads[t].(mask := MaskOf(p, wide))];
        assert threads == s.threads[t := s.threads[t].(priority := p, mask := MaskOf(p, wide))];
        InsertThread(t);
      } else {
        threads := threads[t := threads[t].(priority := p)];
        threads := threads[t := threads[t].(mask := MaskOf(p, wide))];
        assert threads == s.threads[t := s.threads[t].(priority := p, mask := MaskOf(p, wide))];
      }
    }

    /** rt_thread_yield: the current thread goes to the end of its ready list. */
    method YieldNode() returns (moved: bool)
      requires Valid() && current < |threads|
      modifies `ready, `waits, `defunct
      ensures Valid() && View() == YieldThread(old(View()))
      ensures moved == (old(threads)[current].stat == Ready && |old(ready)[old(threads)[current].priority]| > 1)
    {
      YieldKeeps(View());
      hide Inv;
      var t, p := current, threads[current].priority;
      moved := threads[t].stat == Ready && |ready[p]| > 1;
      if moved {
        UnlinkNode(t);
        ready := ready[p := ready[p] + [t]];
      }
    }

    /** rt_thread_timeout; rt_timer_check has unlinked the timer. That the thread is suspended is proved. */
    method TimeoutNode(t: nat)
      requires Valid() && t < |threads| && threads[t].timerOn
      modifies `threads, `ready, `waits, `defunct, `group, `table
      ensures Valid() && View() == TimeoutThread(old(View()), t)
    {
      TimeoutFindsSuspended(View(), t);
      TimeoutKeeps(View(), t);
      ghost var s := View();
      hide Inv, InsertReady, Unlink;
      threads := threads[t := threads[t].(timerOn := false)];
      assert threads[t].stat == KernelState.Suspend;
      threads := threads[t := threads[t].(error := TimedOut)];
      assert threads == s.threads[t := s.threads[t].(timerOn := false, error := TimedOut)];
      UnlinkNode(t);
      assert View() == WithThread(Unlink(s, t), t, s.threads[t].(timerOn := false, error := TimedOut)) by { UnlinkThreads(s, t); }
      InsertThread(t);
    }

    /** rt_thread_exit on the current thread, and rt_thread_delete and rt_thread_detach on any. */
    method CloseNode(t: nat, toDefunct: bool)
      requires Valid() && t < |threads| && threads[t].stat != Close
      modifies `threads, `ready, `waits, `defunct, `group, `table
      ensures Valid() && View() == CloseThread(old(View()), t, toDefunct)
    {
      CloseKeeps(View(), t, toDefunct);
      hide Inv, RemoveReady;
      if threads[t].stat != Init {
        RemoveThread(t);
      }
      threads := threads[t := threads[t].(stat := Close, timerOn := false)];
      if toDefunct {
        defunct := [t] + defunct;
      }
    }

    /** The search of rt_ipc_list_suspend for the first thread with a weaker priority. */
    method FindPosition(q: nat, p: nat) returns (i: nat)
      requires q < |waits| && forall k :: 0 <= k < |waits[q]| ==> waits[q][k] < |threads|
      ensures i == PrioPosition(waits[q], threads, p)
    {
      i := 0;
      while i < |waits[q]|
        invariant i <= |waits[q]| && PrioPosition(waits[q], threads, p) == i + PrioPosition(waits[q][i..], threads, p)
      {
        if p < threads[waits[q][i]].priority {
          break;
        }
        assert waits[q][i..][1..] == waits[q][i + 1..];
        i := i + 1;
      }
    }

    /** A call that blocks the current thread: rt_ipc_list_suspend, then the thread timer if it is bounded in time. */
    method BlockCurrent(q: nat, prio: bool, timed: bool)
      requires Valid() && current < |threads| && q < |waits| && threads[current].stat == Ready
      modifies `threads, `ready, `waits, `defunct, `group, `table
      ensures Valid() && View() == BlockThread(old(View()), q, prio, timed)
    {
      ghost var s := View();
      BlockKeeps(s, q, prio, timed);
      ErrorKeeps(s, current, Ok);
      hide Inv, SuspendThread;
      threads := threads[current := threads[current].(error := Ok)];
      var _ := SuspendNode(current);
      ghost var u := View();
      QueueInRange(u, q);
      var i := |waits[q]|;
      if prio {
        i := FindPosition(q, threads[current].priority);
      }
      waits := waits[q := InsertAt(waits[q], i, current)];
      if timed {
        threads := threads[current := threads[current].(timerOn := true)];
      }
    }

    /** rt_thread_sleep */
    method SleepCurrent()
      requires Valid() && current < |threads| && threads[current].stat == Ready
      modifies `threads, `ready, `waits, `defunct, `group, `table
      ensures Valid() && View() == SleepThread(old(View()))
    {
      SleepKeeps(View());
      hide Inv, SuspendThread;
      var _ := SuspendNode(current);
      threads := threads[current := threads[current].(timerOn := true)];
    }

    /** rt_ipc_list_resume */
    method WakeOne(q: nat, failed: bool)
      requires Valid() && q < |waits| && waits[q] != []
      modifies `threads, `ready, `waits, `defunct, `group, `table
      ensures Valid() && View() == WakeFirst(old(View()), q, failed)
    {
      QueueInRange(View(), q);
      var t := waits[q][0];
      if failed {
        ErrorKeeps(View(), t, Failed);
        threads := threads[t := threads[t].(error := Failed)];
      }
      hide Inv, ResumeThread;
      var _ := ResumeNode(t);
    }

    /** rt_ipc_list_resume_all */
    method WakeEveryone(q: nat)
      requires Valid() && q < |waits|
      modifies `threads, `ready, `waits, `defunct, `group, `table
      ensures Valid() && View() == WakeAll(old(View()), q)
      ensures q < |waits| && waits[q] == []
    {
      ghost var s := View();
      hide Inv, WakeFirst;
      while waits[q] != []
        invariant Valid() && q < |waits| && |waits| == |s.waits|
        invariant WakeAll(View(), q) == WakeAll(s, q)
        decreases |waits[q]|
      {
        WakeFirstEffect(View(), q, true);
        WakeOne(q, true);
      }
    }

    /** rt_schedule */
    method Reschedule()
      requires Valid() && SomeReady(View())
      modifies `current
      ensures Valid() && View() == ScheduleNext(old(View()))
    {
      ScheduleKeeps(View());
      if lockNest == 0 {
        HighestReady(View());
        hide Inv, BitsAgree, Sized, Ffs, IsSet, Consistent;
        var highest;
        if wide {
          var number := Ffs(group) - 1;
          highest := 8 * number + Ffs(Widen(table[number])) - 1;
        } else {
          highest := Ffs(group) - 1;
        }
        assert highest == Highest(Bits(group, table), wide);
        var to := ready[highest][0];
        if to != current {
          current := to;
        }
      }
    }

    method Enter()
      requires Valid()
      modifies `lockNest
      ensures Valid() && View() == old(View()).(lockNest := old(lockNest) + 1)
    {
      BookkeepingKeeps(View(), current, lockNest + 1);
      lockNest := lockNest + 1;
    }

    /** rt_exit_critical: the last leave schedules. */
    method Leave()
      requires Valid() && SomeReady(View())
      modifies `lockNest, `current
      ensures Valid()
      ensures old(lockNest) > 1 ==> View() == old(View()).(lockNest := old(lockNest) - 1)
      ensures old(lockNest) <= 1 ==> View() == ScheduleNext(old(View()).(lockNest := 0))
    {
      var nest := lockNest as int - 1;
      BookkeepingKeeps(View(), current, if nest <= 0 then 0 else nest);
      if nest <= 0 {
        lockNest := 0;
        Reschedule();
      } else {
        lockNest := nest;
      }
    }
  }

  /** The priority read out of the bitmap has a ready thread. */
  lemma HighestReady(s: State)
    requires Sized(s) && BitsAgree(s) && SomeReady(s)
    ensures 0 <= Highest(s.bits, s.wide) < |s.ready| && s.ready[Highest(s.bits, s.wide)] != []
    ensures s.wide ==> 0 <= Ffs(s.bits.group) - 1 < 32
    ensures s.lockNest == 0 ==> ScheduleNext(s) == s.(current := s.ready[Highest(s.bits, s.wide)][0])
  {
    var p :| 0 <= p < |s.ready| && s.ready[p] != [];
    HighestIsLeast(s.bits, s.wide, p);
  }

  lemma UnlinkThreads(s: State, t: nat)
    ensures Unlink(s, t) == State(s.wide, s.threads, Unlink(s, t).ready, Unlink(s, t).waits, Unlink(s, t).defunct,
        s.bits, s.current, s.lockNest)
  {
  }

  lemma RemoveReadyThreads(s: State, t: nat)
    requires Sized(s) && t < |s.threads|
    ensures RemoveReady(s, t).threads == s.threads
  {
  }

  lemma StartupReadies(s: State, t: nat)
    requires Inv(s) && t < |s.threads| && s.threads[t].stat == Init
    ensures Inv(WithThread(s, t, s.threads[t].(priority := s.threads[t].initPriority,
        mask := MaskOf(s.threads[t].initPriority, s.wide), stat := KernelState.Suspend)))
  {
    InitUnlinked(s, t);
    FloatingInv(s, t, s.threads[t].(priority := s.threads[t].initPriority, mask := MaskOf(s.threads[t].initPriority,
        s.wide), stat := KernelState.Suspend));
  }

  lemma QueueInRange(s: State, q: nat)
    requires Inv(s) && q < |s.waits|
    ensures forall k :: 0 <= k < |s.waits[q]| ==> s.waits[q][k] < |s.threads|
  {
    forall k | 0 <= k < |s.waits[q]|
      ensures s.waits[q][k] < |s.threads|
    {
      assert s.waits[q][k] in s.waits[q];
    }
  }
}
