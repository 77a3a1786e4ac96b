/** Every critical section keeps threads, lists and bitmap in agreement. */
module KernelPlacement {
  import opened Queues
  import opened ReadyBits
  import opened KernelState

  // ----- one thread off its list -----

  lemma UnlinkQueue(q: Queue, t: nat, n: nat)
    requires QueueOk(q, n)
    ensures QueueOk(Remove(q, t), n)
    ensures forall x :: x in Remove(q, t) <==> x in q && x != t
  {
    RemoveMembers(q, t);
  }

  /** Membership in every list after an unlink. */
  lemma UnlinkLists(s: State, t: nat)
    requires ListsOk(s)
    ensures var u := Unlink(s, t);
            && ListsOk(u) && Unlinked(u, t)
            && (forall p, x :: 0 <= p < |s.ready| && x != t ==> (x in u.ready[p] <==> x in s.ready[p]))
            && (forall q, x :: 0 <= q < |s.waits| && x != t ==> (x in u.waits[q] <==> x in s.waits[q]))
            && (forall x :: x != t ==> (x in u.defunct <==> x in s.defunct))
  {
    var u := Unlink(s, t);
    forall p | 0 <= p < |s.ready|
      ensures QueueOk(u.ready[p], |s.threads|) && forall x :: x in u.ready[p] <==> x in s.ready[p] && x != t
    {
      UnlinkQueue(s.ready[p], t, |s.threads|);
    }
    forall q | 0 <= q < |s.waits|
      ensures QueueOk(u.waits[q], |s.threads|) && forall x :: x in u.waits[q] <==> x in s.waits[q] && x != t
    {
      UnlinkQueue(s.waits[q], t, |s.threads|);
    }
    UnlinkQueue(s.defunct, t, |s.threads|);
  }

  lemma UnlinkFloats(s: State, t: nat)
    requires PlacedExcept(s, t)
    ensures PlacedExcept(Unlink(s, t), t) && Unlinked(Unlink(s, t), t)
  {
    UnlinkLists(s, t);
    var u := Unlink(s, t);
    hide ListsOk;
    forall x | 0 <= x < |s.threads| && x != t
      ensures PlacedAt(u, x)
    {
      assert PlacedAt(s, x);
    }
  }

  /** What a floating thread's fields say does not matter to the others. */
  lemma FieldsFloat(s: State, t: nat, th: Thread)
    requires PlacedExcept(s, t) && Unlinked(s, t) && t < |s.threads|
    ensures PlacedExcept(WithThread(s, t, th), t) && Unlinked(WithThread(s, t, th), t)
  {
    var u := WithThread(s, t, th);
    forall x | 0 <= x < |s.threads| && x != t
      ensures PlacedAt(u, x)
    {
      assert PlacedAt(s, x);
    }
  }

  /** Fields other than status and priority do not matter to placement. */
  lemma FieldsPlaced(s: State, t: nat, th: Thread)
    requires Placed(s) && t < |s.threads| && th.stat == s.threads[t].stat && th.priority == s.threads[t].priority
    ensures Placed(WithThread(s, t, th))
  {
    var u := WithThread(s, t, th);
    forall x | 0 <= x < |s.threads|
      ensures PlacedAt(u, x)
    {
      assert PlacedAt(s, x);
    }
  }

  /** A thread that is not ready may be on no list. */
  lemma FloatingPlaced(s: State, t: nat)
    requires PlacedExcept(s, t) && Unlinked(s, t) && t < |s.threads| && s.threads[t].stat != Ready
    ensures Placed(s)
  {
    forall x | 0 <= x < |s.threads|
      ensures PlacedAt(s, x)
    {
    }
  }

  lemma AppendQueue(q: Queue, t: nat, n: nat)
    requires QueueOk(q, n) && t !in q && t < n
    ensures QueueOk(q + [t], n) && forall x :: x in q + [t] <==> x in q || x == t
  {
    InsertMembers(q, |q|, t);
    assert InsertAt(q, |q|, t) == q + [t];
  }

  lemma InsertReadyPlaces(s: State, t: nat)
    requires Sized(s) && t < |s.threads| && PlacedExcept(s, t) && Unlinked(s, t)
    ensures Placed(InsertReady(s, t))
  {
    var r, p := InsertReady(s, t), s.threads[t].priority;
    AppendQueue(s.ready[p], t, |s.threads|);
    forall x | 0 <= x < |s.threads|
      ensures PlacedAt(r, x)
    {
      assert x != t ==> PlacedAt(s, x);
    }
  }

  lemma InsertWaitPlaces(s: State, t: nat, q: nat, i: nat)
    requires t < |s.threads| && PlacedExcept(s, t) && Unlinked(s, t) && s.threads[t].stat == Suspend
    requires q < |s.waits| && i <= |s.waits[q]|
    ensures Placed(s.(waits := s.waits[q := InsertAt(s.waits[q], i, t)]))
  {
    var r := s.(waits := s.waits[q := InsertAt(s.waits[q], i, t)]);
    InsertMembers(s.waits[q], i, t);
    forall x | 0 <= x < |s.threads|
      ensures PlacedAt(r, x)
    {
      assert x != t ==> PlacedAt(s, x);
    }
  }

  lemma InsertDefunctPlaces(s: State, t: nat)
    requires t < |s.threads| && PlacedExcept(s, t) && Unlinked(s, t) && s.threads[t].stat == Close
    ensures Placed(s.(defunct := [t] + s.defunct))
  {
    var r := s.(defunct := [t] + s.defunct);
    InsertMembers(s.defunct, 0, t);
    assert InsertAt(s.defunct, 0, t) == [t] + s.defunct;
    forall x | 0 <= x < |s.threads|
      ensures PlacedAt(r, x)
    {
      assert x != t ==> PlacedAt(s, x);
    }
  }

  // ----- the bitmap -----

  lemma InsertReadyBits(s: State, t: nat)
    requires Sized(s) && t < |s.threads| && BitsAgree(s) && s.threads[t].mask == MaskOf(s.threads[t].priority, s.wide)
    ensures BitsAgree(InsertReady(s, t))
  {
    hide IsSet, Consistent, PutBits, MaskOf;
    PutSets(s.bits, s.threads[t].priority, s.wide);
  }

  /** Unlinking a thread that is on no ready list, or only on the one of its priority. */
  lemma RemoveReadyBits(s: State, t: nat)
    requires Sized(s) && t < |s.threads| && BitsAgree(s) && s.threads[t].mask == MaskOf(s.threads[t].priority, s.wide)
    requires forall p :: 0 <= p < |s.ready| && p != s.threads[t].priority ==> t !in s.ready[p]
    ensures BitsAgree(RemoveReady(s, t))
  {
    hide IsSet, Consistent, DropBits, MaskOf;
    var p0, u := s.threads[t].priority, Unlink(s, t);
    DropClears(s.bits, p0, s.wide);
    forall p | 0 <= p < |s.ready| && p != p0
      ensures u.ready[p] == s.ready[p]
    {
      RemoveAbsent(s.ready[p], t);
    }
    assert s.ready[p0] == [] ==> u.ready[p0] == [];
  }

  lemma UnlinkReady(s: State, t: nat)
    requires forall p :: 0 <= p < |s.ready| ==> t !in s.ready[p]
    ensures Unlink(s, t).ready == s.ready
  {
    forall p | 0 <= p < |s.ready|
      ensures Remove(s.ready[p], t) == s.ready[p]
    {
      RemoveAbsent(s.ready[p], t);
    }
  }

  // ----- one lemma per critical section -----

  /** A suspended thread is taken off its list and made ready. */
  lemma WakeKeeps(s: State, t: nat, th: Thread)
    requires Inv(s) && t < |s.threads| && s.threads[t].stat == Suspend
    requires th.priority == s.threads[t].priority && th.mask == s.threads[t].mask
        && th.initPriority == s.threads[t].initPriority && !th.timerOn
    ensures Inv(InsertReady(WithThread(Unlink(s, t), t, th), t))
  {
    assert PlacedAt(s, t);
    var u := WithThread(Unlink(s, t), t, th);
    UnlinkFloats(s, t);
    FieldsFloat(Unlink(s, t), t, th);
    InsertReadyPlaces(u, t);
    UnlinkReady(s, t);
    assert BitsAgree(u);
    InsertReadyBits(u, t);
    hide Placed, PlacedExcept, Unlink, Unlinked, BitsAgree, MaskOf;
  }

  lemma ResumeKeeps(s: State, t: nat)
    requires Inv(s) && t < |s.threads|
    ensures Inv(ResumeThread(s, t))
  {
    if s.threads[t].stat == Suspend {
      WakeKeeps(s, t, s.threads[t].(timerOn := false));
    }
  }

  lemma TimeoutKeeps(s: State, t: nat)
    requires Inv(s) && t < |s.threads| && s.threads[t].stat == Suspend
    ensures Inv(TimeoutThread(s, t))
  {
    WakeKeeps(s, t, s.threads[t].(timerOn := false, error := TimedOut));
  }

  /** Removing a started thread from its list leaves it floating, with the bitmap in agreement. */
  lemma RemoveReadyKeeps(s: State, t: nat)
    requires Inv(s) && t < |s.threads| && s.threads[t].stat in {Ready, Suspend}
    ensures var u := RemoveReady(s, t);
            && PlacedExcept(u, t) && Unlinked(u, t) && BitsAgree(u) && ThreadsOk(u) && u.threads == s.threads
  {
    assert PlacedAt(s, t);
    UnlinkFloats(s, t);
    var u := Unlink(s, t);
    RemoveReadyBits(s, t);
    hide BitsAgree;
    forall x | 0 <= x < |s.threads| && x != t
      ensures PlacedAt(RemoveReady(s, t), x)
    {
      assert PlacedAt(u, x);
    }
  }

  lemma InitUnlinked(s: State, t: nat)
    requires Placed(s) && t < |s.threads| && s.threads[t].stat == Init
    ensures Unlinked(s, t)
  {
    assert PlacedAt(s, t);
  }

  /** New fields for a thread that is on no list. */
  lemma FloatingInv(s: State, t: nat, th: Thread)
    requires Sized(s) && ThreadsOk(s) && BitsAgree(s) && t < |s.threads| && PlacedExcept(s, t) && Unlinked(s, t)
    requires ThreadSized(th, s.wide) && Masked(th, s.wide) && TimerFits(th) && th.stat != Ready
    ensures Inv(WithThread(s, t, th))
  {
    FieldsFloat(s, t, th);
    FloatingPlaced(WithThread(s, t, th), t);
    hide Placed, PlacedExcept, Unlinked, IsSet, Consistent, Masked;
  }

  lemma StartupKeeps(s: State, t: nat)
    requires Inv(s) && t < |s.threads| && s.threads[t].stat == Init
    ensures Inv(StartupThread(s, t))
  {
    var th := s.threads[t].(priority := s.threads[t].initPriority, mask := MaskOf(s.threads[t].initPriority, s.wide),
        stat := Suspend);
    InitUnlinked(s, t);
    FloatingInv(s, t, th);
    ResumeKeeps(WithThread(s, t, th), t);
  }

  /** A ready thread leaves the ready lists with new fields that keep its priority and masks. */
  lemma ParkKeeps(s: State, t: nat, th: Thread)
    requires Inv(s) && t < |s.threads| && s.threads[t].stat in {Ready, Suspend}
    requires ThreadSized(th, s.wide) && Masked(th, s.wide) && TimerFits(th) && th.stat != Ready
    ensures Inv(WithThread(RemoveReady(s, t), t, th)) && Unlinked(WithThread(RemoveReady(s, t), t, th), t)
  {
    RemoveReadyKeeps(s, t);
    var u := RemoveReady(s, t);
    hide RemoveReady;
    FloatingInv(u, t, th);
    FieldsFloat(u, t, th);
  }

  lemma SuspendIsPark(s: State, t: nat)
    requires Sized(s) && t < |s.threads| && s.threads[t].stat == Ready
    ensures SuspendThread(s, t) == WithThread(RemoveReady(s, t), t, s.threads[t].(stat := Suspend, timerOn := false))
  {
    hide DropBits, RemoveAll, Remove;
    var ts, th := s.threads, s.threads[t].(stat := Suspend);
    assert ts[t := th][t := th.(timerOn := false)] == ts[t := th.(timerOn := false)];
  }

  lemma SuspendKeeps(s: State, t: nat)
    requires Inv(s) && t < |s.threads|
    ensures Inv(SuspendThread(s, t))
    ensures s.threads[t].stat == Ready ==> Unlinked(SuspendThread(s, t), t)
  {
    if s.threads[t].stat == Ready {
      SuspendIsPark(s, t);
      ParkKeeps(s, t, s.threads[t].(stat := Suspend, timerOn := false));
    }
  }

  /** A floating thread enters the ready list of its new priority. */
  lemma FloatingInsert(s: State, t: nat, th: Thread)
    requires Sized(s) && ThreadsOk(s) && BitsAgree(s) && t < |s.threads| && PlacedExcept(s, t) && Unlinked(s, t)
    requires ThreadSized(th, s.wide) && Masked(th, s.wide) && TimerFits(th) && th.stat == Ready
    ensures Inv(InsertReady(WithThread(s, t, th), t))
  {
    var v := WithThread(s, t, th);
    assert BitsAgree(v) && v.threads[t] == th && th.mask == MaskOf(th.priority, s.wide);
    assert ThreadsOk(InsertReady(v, t));
    hide ThreadsOk, Placed, PlacedExcept, Unlinked, BitsAgree, InsertReady, WithThread;
    FieldsFloat(s, t, th);
    InsertReadyPlaces(v, t);
    InsertReadyBits(v, t);
  }

  lemma RequeueKeeps(s: State, t: nat, th: Thread)
    requires Inv(s) && t < |s.threads| && s.threads[t].stat == Ready && th.stat == Ready
    requires ThreadSized(th, s.wide) && Masked(th, s.wide) && TimerFits(th)
    ensures Inv(InsertReady(WithThread(RemoveReady(s, t), t, th), t))
  {
    RemoveReadyKeeps(s, t);
    hide *;
    FloatingInsert(RemoveReady(s, t), t, th);
  }

  lemma ChangePriorityKeeps(s: State, t: nat, p: nat)
    requires Inv(s) && t < |s.threads| && p < Levels(s.wide)
    ensures Inv(ChangePriority(s, t, p))
  {
    var th := s.threads[t].(priority := p, mask := MaskOf(p, s.wide));
    if th.stat == Ready {
      RequeueKeeps(s, t, th);
    } else {
      var u := WithThread(s, t, th);
      forall x | 0 <= x < |s.threads|
        ensures PlacedAt(u, x)
      {
        assert PlacedAt(s, x);
      }
      hide IsSet, Consistent, MaskOf;
    }
  }

  lemma YieldKeeps(s: State)
    requires Inv(s) && s.current < |s.threads|
    ensures Inv(YieldThread(s))
  {
    var t, th, r := s.current, s.threads[s.current], YieldThread(s);
    assert PlacedAt(s, t);
    if th.stat == Ready && |s.ready[th.priority]| > 1 {
      UnlinkFloats(s, t);
      var u := Unlink(s, t);
      InsertReadyPlaces(u, t);
      SameReady(u, r, t);
      forall p | 0 <= p < |s.ready| && p != th.priority
        ensures r.ready[p] == s.ready[p]
      {
        RemoveAbsent(s.ready[p], t);
      }
      hide IsSet, Consistent, Placed, PlacedExcept, Unlinked;
      assert r.ready[th.priority] != [] && s.ready[th.priority] != [];
    }
  }

  /** Placement looks at threads and lists only, not at the bitmap. */
  lemma SameReady(u: State, r: State, t: nat)
    requires Sized(u) && t < |u.threads| && u.threads[t].stat == Ready && Placed(InsertReady(u, t))
    requires r == u.(ready := u.ready[u.threads[t].priority := u.ready[u.threads[t].priority] + [t]])
    ensures Placed(r)
  {
    var v := InsertReady(u, t);
    assert v.threads == u.threads;
    forall x | 0 <= x < |r.threads|
      ensures PlacedAt(r, x)
    {
      assert PlacedAt(v, x);
    }
  }

  lemma CloseKeeps(s: State, t: nat, toDefunct: bool)
    requires Inv(s) && t < |s.threads| && s.threads[t].stat != Close
    ensures Inv(CloseThread(s, t, toDefunct))
  {
    var th := s.threads[t].(stat := Close, timerOn := false);
    if s.threads[t].stat == Init {
      InitUnlinked(s, t);
      FloatingInv(s, t, th);
    } else {
      ParkKeeps(s, t, th);
    }
    var v := CloseThread(s, t, false);
    assert Inv(v) && Unlinked(v, t) && v.threads[t] == th;
    if toDefunct {
      InsertDefunctPlaces(v, t);
    }
    hide Placed, Unlinked, IsSet, Consistent, MaskOf;
  }

  /** A floating suspended thread goes on a wait list, with or without its timer. */
  lemma EnqueueKeeps(u: State, t: nat, q: nat, i: nat, timed: bool)
    requires Inv(u) && t < |u.threads| && Unlinked(u, t) && u.threads[t].stat == Suspend && q < |u.waits| && i <= |u.waits[q]|
    ensures var v := u.(waits := u.waits[q := InsertAt(u.waits[q], i, t)]);
            Inv(if timed then WithThread(v, t, v.threads[t].(timerOn := true)) else v)
  {
    InsertWaitPlaces(u, t, q, i);
    var v := u.(waits := u.waits[q := InsertAt(u.waits[q], i, t)]);
    FieldsPlaced(v, t, v.threads[t].(timerOn := true));
    hide Placed, Unlinked, IsSet, Consistent, MaskOf;
  }

  lemma ErrorKeeps(s: State, t: nat, e: Error)
    requires Inv(s) && t < |s.threads|
    ensures Inv(WithThread(s, t, s.threads[t].(error := e)))
  {
    FieldsPlaced(s, t, s.threads[t].(error := e));
    hide Placed, IsSet, Consistent, MaskOf;
  }

  lemma BlockKeeps(s: State, q: nat, prio: bool, timed: bool)
    requires Inv(s) && s.current < |s.threads| && q < |s.waits| && s.threads[s.current].stat == Ready
    ensures Inv(BlockThread(s, q, prio, timed))
  {
    var t := s.current;
    var s1 := WithThread(s, t, s.threads[t].(error := Ok));
    ErrorKeeps(s, t, Ok);
    SuspendKeeps(s1, t);
    SuspendIsPark(s1, t);
    var u := SuspendThread(s1, t);
    hide SuspendThread, Inv;
    EnqueueKeeps(u, t, q, if prio then PrioPosition(u.waits[q], u.threads, u.threads[t].priority) else |u.waits[q]|, timed);
  }

  lemma SleepKeeps(s: State)
    requires Inv(s) && s.current < |s.threads| && s.threads[s.current].stat == Ready
    ensures Inv(SleepThread(s))
  {
    var t := s.current;
    SuspendKeeps(s, t);
    SuspendIsPark(s, t);
    var u := SuspendThread(s, t);
    hide SuspendThread;
    FieldsPlaced(u, t, u.threads[t].(timerOn := true));
    hide Placed, Unlinked, IsSet, Consistent, MaskOf;
  }

  lemma WakeFirstKeeps(s: State, q: nat, failed: bool)
    requires Inv(s) && q < |s.waits| && s.waits[q] != []
    ensures Inv(WakeFirst(s, q, failed))
  {
    var t := s.waits[q][0];
    assert t in s.waits[q];
    assert PlacedAt(s, t);
    var u := WithThread(s, t, s.threads[t].(error := Failed));
    ErrorKeeps(s, t, Failed);
    ResumeKeeps(if failed then u else s, t);
  }
}
