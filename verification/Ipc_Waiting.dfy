/** Wait lists of objects that threads retry on after a wake-up. */
module IpcWaiting {
  import opened Queues

  /**
   * Nobody sleeps beside work: while threads wait, the mails (or the free slots) they could use are no more than
   * the threads that were woken for them and have not retried yet.
   */
  predicate NoLostWakeup(waiting: Queue, usable: nat, woken: set<nat>) {
    waiting != [] ==> usable <= |woken|
  }

  /** A thread is on one list at most once, and on no list while it is to retry. */
  ghost predicate Apart(a: Queue, b: Queue, wokenA: set<nat>, wokenB: set<nat>) {
    && NoDup(a) && NoDup(b)
    && (forall t :: t in a ==> t !in b && t !in wokenA && t !in wokenB)
    && (forall t :: t in b ==> t !in wokenA && t !in wokenB)
  }

  lemma ApartSwap(a: Queue, b: Queue, wokenA: set<nat>, wokenB: set<nat>)
    requires Apart(a, b, wokenA, wokenB)
    ensures Apart(b, a, wokenB, wokenA)
  {
  }

  /** The head is woken because one more mail (or slot) can be used. */
  lemma WakeHead(a: Queue, b: Queue, wokenA: set<nat>, wokenB: set<nat>, usable: nat)
    requires Apart(a, b, wokenA, wokenB) && a != [] && NoLostWakeup(a, usable, wokenA)
    ensures Apart(a[1..], b, wokenA + {a[0]}, wokenB) && NoLostWakeup(a[1..], usable + 1, wokenA + {a[0]})
  {
    DropHead(a);
    AddOne(wokenA, a[0]);
  }

  /** A thread that uses up one mail or slot was perhaps woken for it. */
  lemma UseOne(b: Queue, usable: nat, woken: set<nat>, t: nat)
    requires NoLostWakeup(b, usable, woken) && usable > 0
    ensures NoLostWakeup(b, usable - 1, woken - {t})
  {
    RemoveOne(woken, t);
  }

  lemma Forget(a: Queue, b: Queue, wokenA: set<nat>, wokenB: set<nat>, t: nat)
    requires Apart(a, b, wokenA, wokenB)
    ensures Apart(a, b, wokenA - {t}, wokenB)
  {
  }

  lemma WaitApart(a: Queue, b: Queue, wokenA: set<nat>, wokenB: set<nat>, at: nat, t: nat)
    requires Apart(a, b, wokenA, wokenB) && at <= |a| && t !in a && t !in b && t !in wokenA && t !in wokenB
    ensures Apart(InsertAt(a, at, t), b, wokenA, wokenB)
  {
    InsertMembers(a, at, t);
    hide InsertAt, NoDup;
  }

  /** A waiter that leaves its list, to retry or for good. */
  lemma LeaveApart(a: Queue, b: Queue, wokenA: set<nat>, wokenB: set<nat>, t: nat, usable: nat)
    requires Apart(a, b, wokenA, wokenB) && NoLostWakeup(a, usable, wokenA)
    ensures Apart(Queues.Remove(a, t), b, wokenA, wokenB) && NoLostWakeup(Queues.Remove(a, t), usable, wokenA)
    ensures t in a ==> Apart(Queues.Remove(a, t), b, wokenA + {t}, wokenB) && NoLostWakeup(Queues.Remove(a, t), usable, wokenA + {t})
  {
    RemoveMembers(a, t);
    AddOne(wokenA, t);
    hide NoDup;
  }

  lemma NothingUsable(waiting: Queue, woken: set<nat>)
    ensures NoLostWakeup(waiting, 0, woken)
  {
  }

  lemma RemoveOne(s: set<nat>, t: nat)
    ensures |s - {t}| >= |s| - 1 && (t !in s ==> s - {t} == s)
  {
    if t in s {
      assert s == (s - {t}) + {t};
    }
  }

  lemma AddOne(s: set<nat>, t: nat)
    ensures t !in s ==> |s + {t}| == |s| + 1
  {
  }

  lemma DropHead(q: Queue)
    requires q != [] && NoDup(q)
    ensures NoDup(q[1..]) && q[0] !in q[1..] && forall t :: t in q <==> t == q[0] || t in q[1..]
  {
    assert q == [q[0]] + q[1..];
  }

  /**
   * Deleting a woken thread that has not retried is harmless exactly when nobody waits, or more threads were woken
   * than can be served.
   */
  lemma DeleteKeepsIff(waiting: Queue, usable: nat, woken: set<nat>, t: nat)
    requires NoLostWakeup(waiting, usable, woken) && t in woken
    ensures NoLostWakeup(waiting, usable, woken - {t}) <==> waiting == [] || usable < |woken|
  {
    AddOne(woken - {t}, t);
    assert woken - {t} + {t} == woken;
  }
}
