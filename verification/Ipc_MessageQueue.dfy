/** Message nodes linked through their `next` fields. */
module MessageChain {
  import opened Wrappers
  import opened Queues
  import opened IpcWaiting

  type Links = seq<Option<nat>>

  /** Following `next` from `start` visits exactly the nodes of `q`. */
  predicate Chain(next: Links, start: Option<nat>, q: Queue)
    decreases |q|
  {
    if q == [] then start == None
    else start == Some(q[0]) && q[0] < |next| && Chain(next, next[q[0]], q[1..])
  }

  function LastOf(q: Queue): Option<nat> { if q == [] then None else Some(q[|q| - 1]) }

  lemma {:induction false} ChainFrame(next: Links, start: Option<nat>, q: Queue, x: nat, v: Option<nat>)
    requires Chain(next, start, q) && x < |next| && x !in q
    ensures Chain(next[x := v], start, q)
    decreases |q|
  {
    if q != [] {
      ChainFrame(next, next[q[0]], q[1..], x, v);
    }
  }

  lemma {:induction false} ChainAppend(next: Links, start: Option<nat>, q: Queue, x: nat)
    requires Chain(next, start, q) && NoDup(q) && q != [] && x < |next| && x !in q && next[x] == None
    ensures q[|q| - 1] < |next| && Chain(next[q[|q| - 1] := Some(x)], start, q + [x])
    decreases |q|
  {
    var last := q[|q| - 1];
    if |q| == 1 {
      assert (q + [x])[1..] == [x];
      assert Chain(next[last := Some(x)], Some(x), [x]);
    } else {
      var tail := q[1..];
      assert tail[|tail| - 1] == last && q[0] != last;
      ChainAppend(next, next[q[0]], tail, x);
      assert (q + [x])[1..] == tail + [x];
    }
  }

  /** Every node is on the free list, in the queue, or in flight; on one of them, once. */
  ghost predicate Partition(n: nat, q: Queue, free: Queue, flight: set<nat>) {
    && NoDup(q) && NoDup(free)
    && (forall x :: x in q ==> x < n && x !in free && x !in flight)
    && (forall x :: x in free ==> x < n && x !in flight)
    && (forall x :: x in flight ==> x < n)
    && (forall x :: 0 <= x < n ==> x in q || x in free || x in flight)
  }

  lemma ReservePartition(n: nat, q: Queue, free: Queue, flight: set<nat>)
    requires Partition(n, q, free, flight) && free != []
    ensures Partition(n, q, free[1..], flight + {free[0]})
  {
    DropHead(free);
    forall x | x in q
      ensures x !in flight + {free[0]}
    {
      assert free[0] in free;
    }
  }

  lemma AppendPartition(n: nat, q: Queue, free: Queue, flight: set<nat>, x: nat)
    requires Partition(n, q, free, flight) && x in flight
    ensures Partition(n, q + [x], free, flight - {x})
  {
  }

  lemma PushPartition(n: nat, q: Queue, free: Queue, flight: set<nat>, x: nat)
    requires Partition(n, q, free, flight) && x in flight
    ensures Partition(n, [x] + q, free, flight - {x})
  {
  }

  lemma PopPartition(n: nat, q: Queue, free: Queue, flight: set<nat>)
    requires Partition(n, q, free, flight) && q != []
    ensures Partition(n, q[1..], free, flight + {q[0]})
  {
    DropHead(q);
  }

  lemma ReleasePartition(n: nat, q: Queue, free: Queue, flight: set<nat>, x: nat)
    requires Partition(n, q, free, flight) && x in flight
    ensures Partition(n, q, [x] + free, flight - {x})
  {
  }

  lemma DrainPartition(n: nat, q: Queue, free: Queue, flight: set<nat>)
    requires Partition(n, q, free, flight) && q != []
    ensures Partition(n, q[1..], [q[0]] + free, flight)
  {
    PopPartition(n, q, free, flight);
    ReleasePartition(n, q[1..], free, flight + {q[0]}, q[0]);
    assert flight + {q[0]} - {q[0]} == flight;
  }

  /** Nodes are conserved: however they are spread, their number is the pool's. */
  lemma NodesConserved(n: nat, q: Queue, free: Queue, flight: set<nat>)
    requires Partition(n, q, free, flight)
    ensures |q| + |free| + |flight| == n
  {
    var a, b := SetOf(q), SetOf(free);
    SetSize(q);
    SetSize(free);
    BelowSize(n);
    assert Below(n) == a + b + flight;
    assert a !! b && (a + b) !! flight;
  }

  function SetOf(q: Queue): set<nat> { set x | x in q }

  lemma {:induction false} SetSize(q: Queue)
    requires NoDup(q)
    ensures |SetOf(q)| == |q|
  {
    if q != [] {
      SetSize(q[1..]);
      assert SetOf(q) == SetOf(q[1..]) + {q[0]};
    }
  }

  function Below(n: nat): set<nat> { if n == 0 then {} else Below(n - 1) + {n - 1} }

  lemma {:induction false} BelowSize(n: nat)
    ensures |Below(n)| == n && forall x: nat :: x in Below(n) <==> x < n
  {
    if n > 0 {
      BelowSize(n - 1);
      assert Below(n) == Below(n - 1) + {n - 1};
    }
  }
}

/** A message queue: a pool of fixed-size nodes, linked into a queue and a free list. */
module MessageQueueObject {
  import opened Wrappers
  import opened Queues
  import opened IpcWaiting
  import opened MessageChain

  type message = seq<bv8>

  datatype Outcome = Done | Empty | Waits

  datatype Sent = Accepted | Full | TooLong

  function Messages(data: seq<message>, q: Queue): (m: seq<message>)
    ensures |m| == |q|
  {
    seq(|q|, i requires 0 <= i < |q| => if q[i] < |data| then data[q[i]] else [])
  }

  class MessageQueue {
    const msgSize: nat
    const next: array<Option<nat>>
    const data: array<message>
    var head: Option<nat>
    var tail: Option<nat>
    var free: Option<nat>
    var entry: nat
    var receivers: Queue
    ghost var woken: set<nat>
    ghost var queue: Queue
    ghost var spare: Queue
    /** Nodes between the two critical sections of a send or a receive. */
    ghost var flight: set<nat>

    /** Head, tail and free pointer lead through the queue and the free list; head is null exactly when tail is. */
    ghost predicate ListsOk()
      reads this, next
    {
      && data.Length == next.Length
      && Chain(next[..], head, queue) && tail == LastOf(queue) && Chain(next[..], free, spare)
      && Partition(next.Length, queue, spare, flight)
    }

    ghost predicate Linked()
      reads this, next
    {
      ListsOk() && entry == |queue|
    }

    ghost predicate Valid()
      reads this, next
    {
      && Linked()
      && Apart(receivers, [], woken, {}) && NoLostWakeup(receivers, entry, woken)
    }

    /** Every node has room for one message. */
    ghost predicate Sized()
      reads data
    {
      forall x :: 0 <= x < data.Length ==> |data[x]| == msgSize
    }

    ghost function Contents(): seq<message>
      reads this, data
    {
      Messages(data[..], queue)
    }

    /** rt_mq_init: all nodes on the free list, the last one first. */
    constructor (msgSize: nat, maxMsgs: nat)
      ensures Valid() && Sized() && fresh(next) && fresh(data) && next.Length == maxMsgs && this.msgSize == msgSize
      ensures Contents() == [] && flight == {} && receivers == [] && woken == {} && |spare| == maxMsgs
    {
      this.msgSize := msgSize;
      next := new Option<nat>[maxMsgs](_ => None);
      data := new message[maxMsgs](_ => seq(msgSize, _ => 0));
      head, tail, free, entry := None, None, None, 0;
      receivers, woken, queue, spare, flight := [], {}, [], [], {};
      new;
      var i := 0;
      while i < maxMsgs
        invariant 0 <= i <= maxMsgs == next.Length == data.Length
        invariant head == tail == None && entry == 0 && receivers == [] && woken == {} && queue == [] && flight == {}
        invariant Chain(next[..], free, spare) && |spare| == i && NoDup(spare)
        invariant forall x :: x in spare <==> 0 <= x < i
        modifies this`free, this`spare, next
      {
        ghost var was := next[..];
        ChainFrame(was, free, spare, i, free);
        next[i] := free;
        assert next[..] == was[i := free];
        free := Some(i);
        spare := [i] + spare;
        i := i + 1;
      }
    }

    /** The first critical section of rt_mq_send and rt_mq_urgent: take a node off the free list. */
    method Reserve() returns (x: Option<nat>)
      requires Valid()
      modifies `free, `spare, `flight
      ensures Valid() && Contents() == old(Contents())
      ensures x.None? <==> old(spare) == []
      ensures x.None? ==> flight == old(flight)
      ensures x.Some? ==> x.value !in old(flight) && flight == old(flight) + {x.value} && x.value == old(spare)[0] && spare == old(spare)[1..]
    {
      x := free;
      if x != None {
        ReservePartition(next.Length, queue, spare, flight);
        free := next[x.value];
        flight := flight + {x.value};
        spare := spare[1..];
      }
    }

    /** rt_memcpy into the node between the critical sections. */
    method Fill(x: nat, buffer: message)
      requires Valid() && Sized() && x in flight && x < data.Length && |buffer| <= msgSize
      modifies data
      ensures Valid() && Sized() && Contents() == old(Contents()) && data[x][..|buffer|] == buffer
    {
      data[x] := buffer + data[x][|buffer|..];
      assert forall i :: 0 <= i < |queue| ==> queue[i] in queue;
    }

    /** The second critical section of rt_mq_send: the node becomes the tail, and a receiver is woken. */
    method LinkTail(x: nat)
      requires Valid() && x in flight && x < data.Length
      modifies this, next
      ensures Valid() && Contents() == old(Contents()) + [data[x]] && flight == old(flight) - {x} && spare == old(spare)
      ensures receivers == (if old(receivers) == [] then [] else old(receivers)[1..])
      ensures woken == old(woken) + (if old(receivers) == [] then {} else {old(receivers)[0]})
    {
      hide Apart, NoLostWakeup, Chain, Partition;
      AppendNode(x);
      WakeOne();
    }

    method AppendNode(x: nat)
      requires Linked() && x in flight
      modifies `head, `tail, `queue, `flight, `entry, next
      ensures Linked() && queue == old(queue) + [x] && flight == old(flight) - {x} && entry == old(entry) + 1
    {
      ghost var was := next[..];
      FlightApart(next.Length, queue, spare, flight, x);
      next[x] := None;
      ghost var mid := next[..];
      assert mid == was[x := None];
      ChainFrame(was, head, queue, x, None);
      ChainFrame(was, free, spare, x, None);
      if tail != None {
        ChainAppend(mid, head, queue, x);
        QueueApart(next.Length, queue, spare, flight, |queue| - 1);
        ChainFrame(mid, free, spare, tail.value, Some(x));
        next[tail.value] := Some(x);
        assert next[..] == mid[tail.value := Some(x)];
      }
      tail := Some(x);
      if head == None {
        head := Some(x);
      }
      AppendPartition(next.Length, queue, spare, flight, x);
      hide Partition;
      queue, flight := queue + [x], flight - {x};
      entry := entry + 1;
    }

    /** The second critical section of rt_mq_urgent: the node becomes the head. */
    method LinkHead(x: nat)
      requires Valid() && x in flight && x < data.Length
      modifies this, next
      ensures Valid() && Contents() == [data[x]] + old(Contents()) && flight == old(flight) - {x} && spare == old(spare)
      ensures receivers == (if old(receivers) == [] then [] else old(receivers)[1..])
      ensures woken == old(woken) + (if old(receivers) == [] then {} else {old(receivers)[0]})
    {
      hide Apart, NoLostWakeup, Chain, Partition;
      PushNode(x);
      WakeOne();
    }

    method PushNode(x: nat)
      requires Linked() && x in flight
      modifies `head, `tail, `queue, `flight, `entry, next
      ensures Linked() && queue == [x] + old(queue) && flight == old(flight) - {x} && entry == old(entry) + 1
    {
      ghost var was := next[..];
      FlightApart(next.Length, queue, spare, flight, x);
      ChainFrame(was, head, queue, x, head);
      ChainFrame(was, free, spare, x, head);
      next[x] := head;
      assert next[..] == was[x := head];
      head := Some(x);
      if tail == None {
        tail := Some(x);
      }
      PushPartition(next.Length, queue, spare, flight, x);
      hide Partition;
      assert ([x] + queue)[1..] == queue;
      queue, flight := [x] + queue, flight - {x};
      entry := entry + 1;
    }

    /** rt_ipc_list_resume on the receivers, if there are any. */
    method WakeOne()
      requires Linked() && entry > 0 && Apart(receivers, [], woken, {}) && NoLostWakeup(receivers, entry - 1, woken)
      modifies `receivers, `woken
      ensures Valid() && receivers == (if old(receivers) == [] then [] else old(receivers)[1..])
      ensures woken == old(woken) + (if old(receivers) == [] then {} else {old(receivers)[0]})
    {
      if receivers != [] {
        WakeHead(receivers, [], woken, {}, entry - 1);
        woken := woken + {receivers[0]};
        receivers := receivers[1..];
      }
    }

    /** The first critical section of rt_mq_recv, entered first or after a wake-up. */
    method TakeFirst(t: nat, wait: bool, at: nat) returns (r: Outcome, x: nat)
      requires Valid() && t !in receivers && at <= |receivers|
      modifies this
      ensures Valid()
      ensures old(queue) == [] ==>
        && r == (if wait then Waits else Empty) && Contents() == old(Contents()) && flight == old(flight)
        && receivers == (if wait then InsertAt(old(receivers), at, t) else old(receivers))
      ensures old(queue) != [] ==>
        && r == Done && x < data.Length && old(Contents()) == [data[x]] + Contents()
        && x !in old(flight) && flight == old(flight) + {x} && receivers == old(receivers)
      ensures woken == old(woken) - {t} && spare == old(spare)
    {
      hide Apart, NoLostWakeup, Chain, Partition, InsertAt;
      x := 0;
      Forget(receivers, [], woken, {}, t);
      if entry == 0 {
        woken := woken - {t};
        NothingUsable(receivers, woken);
        if !wait {
          return Empty, x;
        }
        WaitApart(receivers, [], woken, {}, at, t);
        receivers := InsertAt(receivers, at, t);
        NothingUsable(receivers, woken);
        return Waits, x;
      }
      UseOne(receivers, entry, woken, t);
      woken := woken - {t};
      x := PopFirst();
      r := Done;
    }

    /** Unlink the head of the queue. */
    method PopFirst() returns (x: nat)
      requires Linked() && queue != []
      modifies `head, `tail, `entry, `queue, `flight
      ensures Linked() && x == old(queue)[0] && queue == old(queue)[1..] && x !in old(flight) && flight == old(flight) + {x}
      ensures entry == old(entry) - 1 && x < next.Length && old(Contents()) == [data[x]] + Contents()
    {
      QueueApart(next.Length, queue, spare, flight, 0);
      PopPartition(next.Length, queue, spare, flight);
      x := head.value;
      head := next[x];
      if tail == Some(x) {
        TailIsOnly(next.Length, queue, spare, flight);
        tail := None;
      }
      hide Partition;
      flight := flight + {x};
      queue := queue[1..];
      entry := entry - 1;
    }

    /** The copy out of the node; at most a message is copied. */
    method Read(x: nat, size: nat) returns (buffer: message)
      requires Sized() && x < data.Length
      ensures buffer <= data[x] && |buffer| == (if size > msgSize then msgSize else size)
    {
      buffer := data[x][..if size > msgSize then msgSize else size];
    }

    /** A waiting receiver gives up: its timer ran out or it was deleted. */
    method GiveUp(t: nat)
      requires Valid()
      modifies `receivers
      ensures Valid() && receivers == Queues.Remove(old(receivers), t)
    {
      LeaveApart(receivers, [], woken, {}, t, entry);
      receivers := Queues.Remove(receivers, t);
    }

    /** rt_thread_resume on a waiting receiver from outside: it will retry. */
    method ResumeReceiver(t: nat)
      requires Valid() && t in receivers
      modifies `receivers, `woken
      ensures Valid() && receivers == Queues.Remove(old(receivers), t) && woken == old(woken) + {t}
    {
      LeaveApart(receivers, [], woken, {}, t, entry);
      receivers := Queues.Remove(receivers, t);
      woken := woken + {t};
    }

    /**
     * rt_thread_delete or rt_thread_detach of a receiver that was woken and has not retried. The invariant survives
     * exactly when nobody waits or more receivers were woken than there are messages.
     */
    method DeleteReceiver(t: nat)
      requires Valid() && t in woken
      modifies `woken
      ensures woken == old(woken) - {t} && Linked()
      ensures Valid() <==> receivers == [] || entry < |old(woken)|
    {
      DeleteKeepsIff(receivers, entry, woken, t);
      Forget(receivers, [], woken, {}, t);
      woken := woken - {t};
    }

    /** The second critical section of rt_mq_recv: the node goes back to the free list. */
    method Release(x: nat)
      requires Valid() && x in flight
      modifies next, `free, `spare, `flight
      ensures Valid() && Contents() == old(Contents()) && flight == old(flight) - {x} && spare == [x] + old(spare)
    {
      ghost var was := next[..];
      FlightApart(next.Length, queue, spare, flight, x);
      ChainFrame(was, head, queue, x, free);
      ChainFrame(was, free, spare, x, free);
      next[x] := free;
      assert next[..] == was[x := free];
      free := Some(x);
      ReleasePartition(next.Length, queue, spare, flight, x);
      hide Partition;
      assert ([x] + spare)[1..] == spare;
      spare, flight := [x] + spare, flight - {x};
    }

    /** rt_mq_control, RT_IPC_CMD_RESET: waiting threads leave with an error and the queued nodes become free. */
    method Reset()
      requires Valid()
      modifies this, next
      ensures Valid() && Contents() == [] && receivers == [] && flight == old(flight)
      ensures |spare| == |old(spare)| + |old(queue)|
    {
      NobodyWaits(receivers, woken);
      receivers := [];
      while head != None
        invariant ListsOk() && receivers == [] && flight == old(flight) && woken == old(woken)
        invariant |spare| + |queue| == |old(spare)| + |old(queue)|
        decreases |queue|
      {
        DropFirst();
      }
      entry := 0;
    }

    /** One turn of the loop in the reset. */
    method DropFirst()
      requires ListsOk() && queue != []
      modifies next, `head, `tail, `free, `queue, `spare
      ensures ListsOk() && queue == old(queue)[1..] && spare == [old(queue)[0]] + old(spare)
    {
      var x := head.value;
      QueueApart(next.Length, queue, spare, flight, 0);
      ghost var was := next[..];
      head := next[x];
      if tail == Some(x) {
        TailIsOnly(next.Length, queue, spare, flight);
        tail := None;
      }
      ChainFrame(was, head, queue[1..], x, free);
      ChainFrame(was, free, spare, x, free);
      next[x] := free;
      assert next[..] == was[x := free];
      free := Some(x);
      DrainPartition(next.Length, queue, spare, flight);
      hide Partition;
      assert ([x] + spare)[1..] == spare;
      queue, spare := queue[1..], [x] + spare;
    }
  }

  /** Two receivers wait, a message wakes the first, and the first is deleted: the second sleeps beside the message. */
  method LosesMessage(size: nat, count: nat) returns (mq: MessageQueue)
    requires count > 0
    ensures mq.Linked() && |mq.Contents()| == 1 && mq.receivers == [2] && mq.woken == {}
    ensures !mq.Valid()
  {
    hide Apart, NoLostWakeup, Chain, Partition;
    mq := new MessageQueue(size, count);
    var x := mq.Reserve();
    var r, n := mq.TakeFirst(1, true, 0);
    r, n := mq.TakeFirst(2, true, 1);
    assert mq.receivers == [1, 2];
    FlightInRange(mq, x.value);
    mq.LinkTail(x.value);
    assert |mq.Contents()| == 1;
    mq.DeleteReceiver(1);
  }

  /** rt_mq_send, when nothing runs between its critical sections: the message is appended. */
  method SendMessage(mq: MessageQueue, buffer: message) returns (r: Sent)
    requires mq.Valid() && mq.Sized() && buffer != []
    modifies mq, mq.next, mq.data
    ensures mq.Valid() && mq.Sized() && mq.flight == old(mq.flight)
    ensures |buffer| > mq.msgSize ==> r == TooLong && mq.Contents() == old(mq.Contents())
    ensures |buffer| <= mq.msgSize ==> (r == Full <==> old(mq.spare) == []) && r != TooLong
    ensures r == Full ==> mq.Contents() == old(mq.Contents())
    ensures r == Accepted ==>
      exists m: message :: mq.Contents() == old(mq.Contents()) + [m] && |m| == mq.msgSize && m[..|buffer|] == buffer
  {
    hide Chain, Partition, Apart, NoLostWakeup, Messages;
    if |buffer| > mq.msgSize {
      return TooLong;
    }
    var x := mq.Reserve();
    if x == None {
      return Full;
    }
    FlightInRange(mq, x.value);
    mq.Fill(x.value, buffer);
    mq.LinkTail(x.value);
    assert old(mq.flight) + {x.value} - {x.value} == old(mq.flight);
    r := Accepted;
  }

  /** rt_mq_urgent: the message goes in front of all others. */
  method SendUrgent(mq: MessageQueue, buffer: message) returns (r: Sent)
    requires mq.Valid() && mq.Sized() && buffer != []
    modifies mq, mq.next, mq.data
    ensures mq.Valid() && mq.Sized() && mq.flight == old(mq.flight)
    ensures |buffer| > mq.msgSize ==> r == TooLong && mq.Contents() == old(mq.Contents())
    ensures |buffer| <= mq.msgSize ==> (r == Full <==> old(mq.spare) == []) && r != TooLong
    ensures r == Full ==> mq.Contents() == old(mq.Contents())
    ensures r == Accepted ==>
      exists m: message :: mq.Contents() == [m] + old(mq.Contents()) && |m| == mq.msgSize && m[..|buffer|] == buffer
  {
    hide Chain, Partition, Apart, NoLostWakeup, Messages;
    if |buffer| > mq.msgSize {
      return TooLong;
    }
    var x := mq.Reserve();
    if x == None {
      return Full;
    }
    FlightInRange(mq, x.value);
    mq.Fill(x.value, buffer);
    mq.LinkHead(x.value);
    assert old(mq.flight) + {x.value} - {x.value} == old(mq.flight);
    r := Accepted;
  }

  /** rt_mq_recv: the first message, cut to the caller's size, or a wait, or a timeout. */
  method ReceiveMessage(mq: MessageQueue, t: nat, size: nat, wait: bool, at: nat) returns (r: Outcome, buffer: message)
    requires mq.Valid() && mq.Sized() && t !in mq.receivers && at <= |mq.receivers|
    modifies mq, mq.next
    ensures mq.Valid() && mq.Sized() && mq.flight == old(mq.flight)
    ensures old(mq.Contents()) == [] ==> r == (if wait then Waits else Empty) && mq.Contents() == []
    ensures old(mq.Contents()) != [] ==>
      && r == Done && mq.Contents() == old(mq.Contents())[1..] && |old(mq.Contents())[0]| == mq.msgSize
      && buffer == old(mq.Contents())[0][..if size > mq.msgSize then mq.msgSize else size]
  {
    hide Chain, Partition, Apart, NoLostWakeup;
    buffer := [];
    var x;
    r, x := mq.TakeFirst(t, wait, at);
    if r == Done {
      buffer := mq.Read(x, size);
      mq.Release(x);
      assert old(mq.flight) + {x} - {x} == old(mq.flight);
    }
  }

  lemma FlightInRange(mq: MessageQueue, x: nat)
    requires mq.Valid() && x in mq.flight
    ensures x < mq.data.Length
  {
  }

  lemma FlightApart(n: nat, q: Queue, free: Queue, flight: set<nat>, x: nat)
    requires Partition(n, q, free, flight) && x in flight
    ensures x < n && x !in q && x !in free && NoDup(q)
  {
  }

  lemma QueueApart(n: nat, q: Queue, free: Queue, flight: set<nat>, i: nat)
    requires Partition(n, q, free, flight) && i < |q|
    ensures q[i] < n && q[i] !in free && q[i] !in flight
    ensures i == 0 ==> q[0] !in q[1..]
  {
    assert q[i] in q;
  }

  lemma NobodyWaits(receivers: Queue, woken: set<nat>)
    requires Apart(receivers, [], woken, {})
    ensures Apart([], [], woken, {}) && NoLostWakeup([], 0, woken)
  {
  }

  /** A head that is the tail is alone; a head that is not leaves the tail in place. */
  lemma TailIsOnly(n: nat, q: Queue, free: Queue, flight: set<nat>)
    requires Partition(n, q, free, flight) && q != [] && LastOf(q) == Some(q[0])
    ensures |q| == 1
  {
  }
}
