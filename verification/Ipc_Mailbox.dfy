/** The ring of a mailbox as a queue. */
module MailboxRing {
  type mail = bv32

  /** The slot `i` places behind `from`, for `from` and `i` within the ring. */
  function Slot(from: nat, i: nat, size: nat): nat { if from + i >= size then from + i - size else from + i }

  /** The mails between the two offsets, oldest first. */
  function Contents(pool: seq<mail>, from: nat, entry: nat): (q: seq<mail>)
    requires from < |pool| && entry <= |pool|
    ensures |q| == entry
  {
    seq(entry, i requires 0 <= i < entry => pool[Slot(from, i, |pool|)])
  }

  lemma PutAppends(pool: seq<mail>, from: nat, entry: nat, v: mail)
    requires from < |pool| && entry < |pool|
    ensures Contents(pool[Slot(from, entry, |pool|) := v], from, entry + 1) == Contents(pool, from, entry) + [v]
  {
  }

  lemma GetDropsFirst(pool: seq<mail>, from: nat, entry: nat)
    requires from < |pool| && 0 < entry <= |pool|
    ensures Contents(pool, from, entry) == [pool[from]] + Contents(pool, Slot(from, 1, |pool|), entry - 1)
  {
    var q, r := Contents(pool, from, entry), Contents(pool, Slot(from, 1, |pool|), entry - 1);
    forall i | 0 <= i < entry
      ensures q[i] == ([pool[from]] + r)[i]
    {
      assert i > 0 ==> Slot(Slot(from, 1, |pool|), i - 1, |pool|) == Slot(from, i, |pool|);
    }
  }
}

/** A mailbox with blocked senders and receivers. */
module MailboxObject {
  import opened Wrappers
  import opened Queues
  import opened IpcWaiting
  import opened MailboxRing

  datatype Outcome = Done | Full | Empty | Waits

  lemma JoinLast(a: seq<mail>, b: seq<mail>, v: mail)
    ensures a + (b + [v]) == a + b + [v]
  {
  }

  lemma JoinFirst(a: seq<mail>, v: mail, b: seq<mail>)
    ensures a + ([v] + b) == a + [v] + b
  {
  }

  class Mailbox {
    const pool: array<mail>
    var entry: nat
    var inOffset: nat
    var outOffset: nat
    /** suspend_thread and suspend_sender_thread */
    var receivers: Queue
    var senders: Queue
    /** Threads that were resumed without error and have not entered the mailbox again. */
    ghost var wokenReceivers: set<nat>
    ghost var wokenSenders: set<nat>
    /** Every mail accepted and delivered since the last reset. */
    ghost var sent: seq<mail>
    ghost var received: seq<mail>

    ghost function Mails(): seq<mail>
      requires RingOk()
      reads this, pool
    {
      if pool.Length == 0 then [] else Contents(pool[..], outOffset, entry)
    }

    ghost predicate RingOk()
      reads this
    {
      && entry <= pool.Length
      && (pool.Length > 0 ==> outOffset < pool.Length && inOffset == Slot(outOffset, entry, pool.Length))
    }

    ghost predicate Valid()
      reads this, pool
    {
      && RingOk() && Apart(receivers, senders, wokenReceivers, wokenSenders)
      && sent == received + Mails()
      && NoLostWakeup(receivers, entry, wokenReceivers)
      && NoLostWakeup(senders, pool.Length - entry, wokenSenders)
    }

    /** rt_mb_init */
    constructor (size: nat)
      ensures Valid() && pool.Length == size && Mails() == [] && sent == received == []
      ensures fresh(pool) && receivers == senders == [] && wokenReceivers == wokenSenders == {}
    {
      pool := new mail[size];
      entry, inOffset, outOffset := 0, 0, 0;
      receivers, senders, wokenReceivers, wokenSenders, sent, received := [], [], {}, {}, [], [];
    }

    /**
     * One pass of rt_mb_send_wait by thread `t`, first or after a wake-up: put the mail and wake a receiver, or fail,
     * or wait at position `at` of the sender list.
     */
    method Send(t: nat, v: mail, wait: bool, at: nat) returns (r: Outcome)
      requires Valid() && t !in receivers && t !in senders && t !in wokenReceivers && at <= |senders|
      modifies this, pool
      ensures Valid()
      ensures old(entry) < pool.Length ==>
        && r == Done && Mails() == old(Mails()) + [v] && sent == old(sent) + [v] && received == old(received)
        && senders == old(senders) && receivers == (if old(receivers) == [] then [] else old(receivers)[1..])
        && wokenReceivers == old(wokenReceivers) + (if old(receivers) == [] then {} else {old(receivers)[0]})
      ensures old(entry) == pool.Length ==>
        && r == (if wait then Waits else Full) && Mails() == old(Mails()) && sent == old(sent) && received == old(received)
        && receivers == old(receivers) && wokenReceivers == old(wokenReceivers)
        && senders == (if wait then InsertAt(old(senders), at, t) else old(senders))
      ensures wokenSenders == old(wokenSenders) - {t}
    {
      hide Apart, NoLostWakeup, Contents, Slot, InsertAt;
      ApartSwap(receivers, senders, wokenReceivers, wokenSenders);
      Forget(senders, receivers, wokenSenders, wokenReceivers, t);
      ApartSwap(senders, receivers, wokenSenders - {t}, wokenReceivers);
      if entry == pool.Length {
        wokenSenders := wokenSenders - {t};
        NothingUsable(senders, wokenSenders);
        if !wait {
          return Full;
        }
        WaitSender(t, at);
        return Waits;
      }
      UseOne(senders, pool.Length - entry, wokenSenders, t);
      ghost var was := Mails();
      Put(v);
      JoinLast(received, was, v);
      sent := sent + [v];
      wokenSenders := wokenSenders - {t};
      WakeReceiver();
      r := Done;
    }

    /** rt_ipc_list_resume on the receivers, if there are any, after a mail was stored. */
    method WakeReceiver()
      requires entry > 0 && Apart(receivers, senders, wokenReceivers, wokenSenders)
      requires NoLostWakeup(receivers, entry - 1, wokenReceivers)
      modifies `receivers, `wokenReceivers
      ensures Apart(receivers, senders, wokenReceivers, wokenSenders) && NoLostWakeup(receivers, entry, wokenReceivers)
      ensures receivers == (if old(receivers) == [] then [] else old(receivers)[1..])
      ensures wokenReceivers == old(wokenReceivers) + (if old(receivers) == [] then {} else {old(receivers)[0]})
    {
      if receivers != [] {
        WakeHead(receivers, senders, wokenReceivers, wokenSenders, entry - 1);
        hide Apart, NoLostWakeup;
        wokenReceivers := wokenReceivers + {receivers[0]};
        receivers := receivers[1..];
      }
    }

    /** The same for the senders, after a mail was fetched. */
    method WakeSender()
      requires entry < pool.Length && Apart(receivers, senders, wokenReceivers, wokenSenders)
      requires NoLostWakeup(senders, pool.Length - entry - 1, wokenSenders)
      modifies `senders, `wokenSenders
      ensures Apart(receivers, senders, wokenReceivers, wokenSenders) && NoLostWakeup(senders, pool.Length - entry, wokenSenders)
      ensures senders == (if old(senders) == [] then [] else old(senders)[1..])
      ensures wokenSenders == old(wokenSenders) + (if old(senders) == [] then {} else {old(senders)[0]})
    {
      if senders != [] {
        ApartSwap(receivers, senders, wokenReceivers, wokenSenders);
        WakeHead(senders, receivers, wokenSenders, wokenReceivers, pool.Length - entry - 1);
        ApartSwap(senders[1..], receivers, wokenSenders + {senders[0]}, wokenReceivers);
        hide Apart, NoLostWakeup;
        wokenSenders := wokenSenders + {senders[0]};
        senders := senders[1..];
      }
    }

    method WaitSender(t: nat, at: nat)
      requires Apart(receivers, senders, wokenReceivers, wokenSenders) && at <= |senders|
      requires t !in receivers && t !in senders && t !in wokenReceivers && t !in wokenSenders
      modifies `senders
      ensures Apart(receivers, senders, wokenReceivers, wokenSenders) && senders == InsertAt(old(senders), at, t)
      ensures NoLostWakeup(senders, 0, wokenSenders)
    {
      ApartSwap(receivers, senders, wokenReceivers, wokenSenders);
      WaitApart(senders, receivers, wokenSenders, wokenReceivers, at, t);
      ApartSwap(InsertAt(senders, at, t), receivers, wokenSenders, wokenReceivers);
      hide Apart, InsertAt;
      senders := InsertAt(senders, at, t);
    }

    method WaitReceiver(t: nat, at: nat)
      requires Apart(receivers, senders, wokenReceivers, wokenSenders) && at <= |receivers|
      requires t !in receivers && t !in senders && t !in wokenReceivers && t !in wokenSenders
      modifies `receivers
      ensures Apart(receivers, senders, wokenReceivers, wokenSenders) && receivers == InsertAt(old(receivers), at, t)
      ensures NoLostWakeup(receivers, 0, wokenReceivers)
    {
      WaitApart(receivers, senders, wokenReceivers, wokenSenders, at, t);
      receivers := InsertAt(receivers, at, t);
      NothingUsable(receivers, wokenReceivers);
    }

    /** Store at the input offset and advance it. */
    method Put(v: mail)
      requires RingOk() && entry < pool.Length
      modifies pool, `entry, `inOffset
      ensures RingOk() && entry == old(entry) + 1 && Mails() == old(Mails()) + [v]
    {
      PutAppends(pool[..], outOffset, entry, v);
      pool[inOffset] := v;
      assert pool[..] == old(pool[..])[inOffset := v];
      inOffset := inOffset + 1;
      if inOffset >= pool.Length {
        inOffset := 0;
      }
      entry := entry + 1;
    }

    /** Fetch from the output offset and advance it. */
    method Get() returns (v: mail)
      requires RingOk() && entry > 0
      modifies `entry, `outOffset
      ensures RingOk() && entry == old(entry) - 1 && old(Mails()) == [v] + Mails()
    {
      GetDropsFirst(pool[..], outOffset, entry);
      v := pool[outOffset];
      outOffset := outOffset + 1;
      if outOffset >= pool.Length {
        outOffset := 0;
      }
      entry := entry - 1;
    }

    /** One pass of rt_mb_recv, the mirror image. */
    method Recv(t: nat, wait: bool, at: nat) returns (r: Outcome, v: mail)
      requires Valid() && t !in receivers && t !in senders && t !in wokenSenders && at <= |receivers|
      modifies this
      ensures Valid()
      ensures old(entry) > 0 ==>
        && r == Done && old(Mails()) == [v] + Mails() && sent == old(sent) && received == old(received) + [v]
        && receivers == old(receivers) && senders == (if old(senders) == [] then [] else old(senders)[1..])
        && wokenSenders == old(wokenSenders) + (if old(senders) == [] then {} else {old(senders)[0]})
      ensures old(entry) == 0 ==>
        && r == (if wait then Waits else Empty) && Mails() == [] && sent == old(sent) && received == old(received)
        && senders == old(senders) && wokenSenders == old(wokenSenders)
        && receivers == (if wait then InsertAt(old(receivers), at, t) else old(receivers))
      ensures wokenReceivers == old(wokenReceivers) - {t}
    {
      hide Apart, NoLostWakeup, Contents, Slot, InsertAt;
      v := 0;
      Forget(receivers, senders, wokenReceivers, wokenSenders, t);
      if entry == 0 {
        wokenReceivers := wokenReceivers - {t};
        NothingUsable(receivers, wokenReceivers);
        if !wait {
          return Empty, v;
        }
        WaitReceiver(t, at);
        return Waits, v;
      }
      UseOne(receivers, entry, wokenReceivers, t);
      v := Get();
      JoinFirst(received, v, Mails());
      received := received + [v];
      wokenReceivers := wokenReceivers - {t};
      WakeSender();
      r := Done;
    }

    /** A waiting thread gives up: its timer ran out or it was deleted. */
    method GiveUp(t: nat)
      requires Valid()
      modifies `receivers, `senders
      ensures Valid() && receivers == Queues.Remove(old(receivers), t) && senders == Queues.Remove(old(senders), t)
    {
      LeaveApart(receivers, senders, wokenReceivers, wokenSenders, t, entry);
      receivers := Queues.Remove(receivers, t);
      ApartSwap(receivers, senders, wokenReceivers, wokenSenders);
      LeaveApart(senders, receivers, wokenSenders, wokenReceivers, t, pool.Length - entry);
      senders := Queues.Remove(senders, t);
      ApartSwap(senders, receivers, wokenSenders, wokenReceivers);
      hide Apart, NoLostWakeup, Contents;
    }

    /** rt_thread_resume on a waiting receiver from outside: it will retry. */
    method ResumeReceiver(t: nat)
      requires Valid() && t in receivers
      modifies `receivers, `wokenReceivers
      ensures Valid() && receivers == Queues.Remove(old(receivers), t) && wokenReceivers == old(wokenReceivers) + {t}
    {
      LeaveApart(receivers, senders, wokenReceivers, wokenSenders, t, entry);
      receivers := Queues.Remove(receivers, t);
      wokenReceivers := wokenReceivers + {t};
    }

    /** The same for a waiting sender. */
    method ResumeSender(t: nat)
      requires Valid() && t in senders
      modifies `senders, `wokenSenders
      ensures Valid() && senders == Queues.Remove(old(senders), t) && wokenSenders == old(wokenSenders) + {t}
    {
      ApartSwap(receivers, senders, wokenReceivers, wokenSenders);
      LeaveApart(senders, receivers, wokenSenders, wokenReceivers, t, pool.Length - entry);
      senders := Queues.Remove(senders, t);
      wokenSenders := wokenSenders + {t};
      ApartSwap(senders, receivers, wokenSenders, wokenReceivers);
    }

    /**
     * rt_thread_delete or rt_thread_detach of a receiver that was woken and has not retried. The invariant survives
     * exactly when nobody waits or more receivers were woken than there are mails.
     */
    method DeleteReceiver(t: nat)
      requires Valid() && t in wokenReceivers
      modifies `wokenReceivers
      ensures wokenReceivers == old(wokenReceivers) - {t}
      ensures Valid() <==> receivers == [] || entry < |old(wokenReceivers)|
    {
      DeleteKeepsIff(receivers, entry, wokenReceivers, t);
      Forget(receivers, senders, wokenReceivers, wokenSenders, t);
      wokenReceivers := wokenReceivers - {t};
    }

    /** The same of a woken sender, with the free slots. */
    method DeleteSender(t: nat)
      requires Valid() && t in wokenSenders
      modifies `wokenSenders
      ensures wokenSenders == old(wokenSenders) - {t}
      ensures Valid() <==> senders == [] || pool.Length - entry < |old(wokenSenders)|
    {
      DeleteKeepsIff(senders, pool.Length - entry, wokenSenders, t);
      ApartSwap(receivers, senders, wokenReceivers, wokenSenders);
      Forget(senders, receivers, wokenSenders, wokenReceivers, t);
      ApartSwap(senders, receivers, wokenSenders - {t}, wokenReceivers);
      wokenSenders := wokenSenders - {t};
    }

    /** rt_mb_control, RT_IPC_CMD_RESET: all waiting threads return with an error and the ring is emptied. */
    method Reset()
      requires Valid()
      modifies this
      ensures Valid() && Mails() == [] && sent == received == [] && receivers == senders == []
      ensures wokenReceivers == old(wokenReceivers) && wokenSenders == old(wokenSenders)
    {
      NobodyWaits(wokenReceivers, wokenSenders, pool.Length);
      hide Contents, Apart, NoLostWakeup;
      receivers, senders := [], [];
      entry, inOffset, outOffset := 0, 0, 0;
      sent, received := [], [];
    }
  }

  lemma NobodyWaits(wokenReceivers: set<nat>, wokenSenders: set<nat>, size: nat)
    ensures Apart([], [], wokenReceivers, wokenSenders)
    ensures NoLostWakeup([], 0, wokenReceivers) && NoLostWakeup([], size, wokenSenders)
  {
  }

  /** Two receivers wait, a mail wakes the first, and the first is deleted: the second sleeps beside the mail. */
  method LosesMail(size: nat, v: mail) returns (mb: Mailbox)
    requires size > 0
    ensures mb.RingOk() && mb.pool.Length == size && mb.Mails() == [v] && mb.receivers == [2] && mb.wokenReceivers == {}
    ensures !mb.Valid()
  {
    hide Apart, NoLostWakeup, Contents, Slot;
    mb := new Mailbox(size);
    var r, w := mb.Recv(1, true, 0);
    r, w := mb.Recv(2, true, 1);
    assert mb.receivers == [1, 2];
    r := mb.Send(3, v, true, 0);
    mb.DeleteReceiver(1);
  }

  /** Two senders wait at a full box of one slot. */
  method FullBox(v: mail) returns (mb: Mailbox)
    ensures mb.Valid() && fresh(mb) && fresh(mb.pool) && mb.pool.Length == mb.entry == 1
    ensures mb.senders == [1, 2] && mb.receivers == [] && mb.wokenSenders == mb.wokenReceivers == {}
  {
    hide Apart, NoLostWakeup, Contents, Slot;
    mb := new Mailbox(1);
    var r := mb.Send(0, v, true, 0);
    assert |mb.Mails()| == mb.entry == 1;
    r := mb.Send(1, v, true, 0);
    assert mb.senders == [1] && |mb.Mails()| == mb.entry == 1;
    r := mb.Send(2, v, true, 1);
    assert mb.senders == [1, 2] && |mb.Mails()| == mb.entry == 1;
  }

  /** A receiver wakes the first of them, and the first is deleted: the second sleeps beside the free slot. */
  method LosesSlot(v: mail) returns (mb: Mailbox)
    ensures mb.RingOk() && mb.pool.Length == 1 && mb.entry == 0 && mb.senders == [2] && mb.wokenSenders == {}
    ensures !mb.Valid()
  {
    hide Apart, NoLostWakeup, Contents, Slot;
    mb := FullBox(v);
    var r, w := mb.Recv(3, true, 0);
    assert |mb.Mails()| == mb.entry == 0;
    mb.DeleteSender(1);
  }
}
