/** Event objects: 32 flags, and threads that wait for all or any of a set of them. */
module EventState {
  import opened WordBits
  import opened ReadyBits

  /** RT_EVENT_FLAG_AND before RT_EVENT_FLAG_OR, as the code tests them; `clear` is RT_EVENT_FLAG_CLEAR. */
  datatype Request = Request(flags: bv32, all: bool, clear: bool)

  /** A suspended thread with its event_set and event_info, and its priority when it started to wait. */
  datatype Waiter = Waiter(thread: nat, request: Request, priority: nat)

  /** What a resumed thread finds in its event_set. */
  datatype Delivery = Delivery(waiter: Waiter, flags: bv32)

  predicate Satisfied(r: Request, flags: bv32) {
    if r.all then Within(r.flags, flags) else Meets(r.flags, flags)
  }

  predicate NoneSatisfied(ws: seq<Waiter>, flags: bv32) {
    forall i :: 0 <= i < |ws| ==> !Satisfied(ws[i].request, flags)
  }

  /** Requests are never empty: rt_event_recv refuses an empty set. */
  predicate Requests(ws: seq<Waiter>) {
    forall i :: 0 <= i < |ws| ==> Nonempty(ws[i].request.flags)
  }

  // ----- flags only shrink while a send is under way -----

  lemma WithinShrinks(r: bv32, a: bv32, b: bv32)
    requires Within(r, a) && Within(a, b)
    ensures Within(r, b)
  {
  }

  lemma MeetsShrinks(r: bv32, a: bv32, b: bv32)
    requires Meets(r, a) && Within(a, b)
    ensures Meets(r, b)
  {
  }

  lemma AndNotWithin(g: bv32, mask: bv32)
    ensures Within(AndNot(g, mask), g)
  {
  }

  lemma WithinSelf(a: bv32)
    ensures Within(a, a)
  {
  }

  lemma WithinTrans(a: bv32, b: bv32, c: bv32)
    requires Within(a, b) && Within(b, c)
    ensures Within(a, c)
  {
  }

  lemma SatisfiedShrinks(r: Request, a: bv32, b: bv32)
    requires Satisfied(r, a) && Within(a, b)
    ensures Satisfied(r, b)
  {
    hide Within, Meets;
    if r.all {
      WithinShrinks(r.flags, a, b);
    } else {
      MeetsShrinks(r.flags, a, b);
    }
  }

  // ----- what one waiter receives -----

  /** The received flags: the whole request, or the part of it that is set. */
  function Received(r: Request, flags: bv32): bv32 { if r.all then r.flags else And(r.flags, flags) }

  lemma AndFacts(a: bv32, b: bv32)
    ensures Within(And(a, b), a) && Within(And(a, b), b)
    ensures Nonempty(And(a, b)) <==> Meets(a, b)
  {
  }

  /** A receiver gets flags that were set, all within its request; for an AND request the full request. */
  predicate Fair(d: Delivery, flags: bv32) {
    && Nonempty(d.flags) && Within(d.flags, d.waiter.request.flags) && Within(d.flags, flags)
    && (d.waiter.request.all ==> d.flags == d.waiter.request.flags)
  }

  // ----- the tests and the delivery, flag by flag -----

  lemma NoFlag(p: nat)
    requires p < 32
    ensures !Has(0, p)
  {
  }

  /** A set of flags is not empty exactly when some flag is in it. */
  lemma SomeFlag(a: bv32)
    ensures Nonempty(a) <==> exists p :: 0 <= p < 32 && Has(a, p)
  {
    FfsLeast(a);
    if Nonempty(a) {
      assert Has(a, Ffs(a) - 1);
    } else {
      forall p | 0 <= p < 32
        ensures !Has(a, p)
      {
        NoFlag(p);
      }
    }
    hide Has;
  }

  /** An AND request is met when all its flags are set, an OR request when one of them is. */
  lemma SatisfiedFlags(r: Request, flags: bv32)
    ensures Satisfied(r, flags) <==>
            if r.all then forall p :: 0 <= p < 32 && Has(r.flags, p) ==> Has(flags, p)
            else exists p :: 0 <= p < 32 && Has(r.flags, p) && Has(flags, p)
  {
    NotWithin(r.flags, flags);
    MeetsAnd(r.flags, flags);
    SomeFlag(AndNot(r.flags, flags));
    SomeFlag(And(r.flags, flags));
    hide Within, Meets, And, AndNot, Nonempty, Has;
    forall p | 0 <= p < 32
      ensures Has(AndNot(r.flags, flags), p) <==> Has(r.flags, p) && !Has(flags, p)
      ensures Has(And(r.flags, flags), p) <==> Has(r.flags, p) && Has(flags, p)
    {
      AndNotHas(r.flags, flags, p);
      AndHas(r.flags, flags, p);
    }
  }

  /** A request that is met receives exactly the flags of it that are set. */
  lemma ReceivedFlags(r: Request, flags: bv32, p: nat)
    requires p < 32 && Satisfied(r, flags)
    ensures Has(Received(r, flags), p) <==> Has(r.flags, p) && Has(flags, p)
  {
    SatisfiedFlags(r, flags);
    AndHas(r.flags, flags, p);
    hide Has, And, Satisfied;
  }

  lemma ReceivedFair(w: Waiter, flags: bv32)
    requires Satisfied(w.request, flags) && Nonempty(w.request.flags)
    ensures Fair(Delivery(w, Received(w.request, flags)), flags)
  {
    AndFacts(w.request.flags, flags);
    WithinSelf(w.request.flags);
    hide Within, Meets, And, Nonempty;
  }

  // ----- rt_event_send -----

  /** The walk along the wait list from `ws` on: the flags left, the threads still waiting, and the deliveries. */
  function Serve(flags: bv32, ws: seq<Waiter>): (bv32, seq<Waiter>, seq<Delivery>) {
    if ws == [] then (flags, [], [])
    else if Satisfied(ws[0].request, flags) then
      var got := Received(ws[0].request, flags);
      var (rest, waiting, served) := Serve(if ws[0].request.clear then AndNot(flags, got) else flags, ws[1..]);
      (rest, waiting, [Delivery(ws[0], got)] + served)
    else
      var (rest, waiting, served) := Serve(flags, ws[1..]);
      (rest, [ws[0]] + waiting, served)
  }

  /**
   * One turn of the walk, flag by flag. A waiter whose request is met gets exactly its flags that are set, and these are
   * gone for the waiters behind it if it clears them; any other waiter goes on waiting.
   */
  lemma ServeTurn(flags: bv32, ws: seq<Waiter>, p: nat)
    requires ws != [] && p < 32
    ensures var r := ws[0].request;
            if Satisfied(r, flags) then
              var got := Received(r, flags);
              var next := if r.clear then AndNot(flags, got) else flags;
              var (rest, waiting, served) := Serve(next, ws[1..]);
              && Serve(flags, ws) == (rest, waiting, [Delivery(ws[0], got)] + served)
              && (Has(got, p) <==> Has(r.flags, p) && Has(flags, p))
              && (Has(next, p) <==> Has(flags, p) && !(r.clear && Has(r.flags, p)))
            else
              var (rest, waiting, served) := Serve(flags, ws[1..]);
              Serve(flags, ws) == (rest, [ws[0]] + waiting, served)
  {
    var r := ws[0].request;
    if Satisfied(r, flags) {
      ReceivedFlags(r, flags, p);
      AndNotHas(flags, Received(r, flags), p);
    }
    hide Has, AndNot, Received, Satisfied;
  }

  lemma {:induction false} ServeShrinks(flags: bv32, ws: seq<Waiter>)
    ensures Within(Serve(flags, ws).0, flags)
    decreases |ws|
  {
    hide Within, Meets, AndNot, Received;
    WithinSelf(flags);
    if ws != [] {
      var got := Received(ws[0].request, flags);
      var next := if Satisfied(ws[0].request, flags) && ws[0].request.clear then AndNot(flags, got) else flags;
      AndNotWithin(flags, got);
      ServeShrinks(next, ws[1..]);
      WithinTrans(Serve(next, ws[1..]).0, next, flags);
    }
  }

  /** After the walk no waiting thread is satisfied, although earlier waiters cleared flags on the way. */
  lemma {:induction false} ServeLeavesUnsatisfied(flags: bv32, ws: seq<Waiter>)
    ensures NoneSatisfied(Serve(flags, ws).1, Serve(flags, ws).0)
    decreases |ws|
  {
    hide Within, Meets, AndNot, Received, Satisfied;
    if ws != [] {
      if Satisfied(ws[0].request, flags) {
        ServeLeavesUnsatisfied(if ws[0].request.clear then AndNot(flags, Received(ws[0].request, flags)) else flags, ws[1..]);
      } else {
        ServeLeavesUnsatisfied(flags, ws[1..]);
        ServeShrinks(flags, ws[1..]);
        if Satisfied(ws[0].request, Serve(flags, ws[1..]).0) {
          SatisfiedShrinks(ws[0].request, Serve(flags, ws[1..]).0, flags);
        }
      }
    }
  }

  /** Everybody served gets a fair share of the flags that were set. */
  lemma {:induction false} ServeFair(flags: bv32, ws: seq<Waiter>, all: bv32)
    requires Requests(ws) && Within(flags, all)
    ensures forall i :: 0 <= i < |Serve(flags, ws).2| ==> Fair(Serve(flags, ws).2[i], all)
    ensures Requests(Serve(flags, ws).1)
    decreases |ws|
  {
    hide Within, Meets, AndNot, Received, Satisfied, Fair, Nonempty;
    if ws != [] {
      if Satisfied(ws[0].request, flags) {
        var got := Received(ws[0].request, flags);
        ReceivedFair(ws[0], flags);
        FairWithin(Delivery(ws[0], got), flags, all);
        AndNotWithin(flags, got);
        WithinTrans(AndNot(flags, got), flags, all);
        ServeFair(if ws[0].request.clear then AndNot(flags, got) else flags, ws[1..], all);
      } else {
        ServeFair(flags, ws[1..], all);
      }
    }
  }

  lemma FairWithin(d: Delivery, flags: bv32, all: bv32)
    requires Fair(d, flags) && Within(flags, all)
    ensures Fair(d, all)
  {
    WithinTrans(d.flags, flags, all);
    hide Within, Nonempty;
  }

  /** Flags that one waiter cleared are gone for every later one: no flag is delivered twice for clearing. */
  lemma {:induction false} ClearedOnce(flags: bv32, ws: seq<Waiter>, i: nat, j: nat)
    requires i < j < |Serve(flags, ws).2| && Serve(flags, ws).2[i].waiter.request.clear
    ensures !Meets(Serve(flags, ws).2[i].flags, Serve(flags, ws).2[j].flags)
    decreases |ws|
  {
    hide Within, Meets, AndNot, Received, Satisfied;
    if Satisfied(ws[0].request, flags) {
      var got := Received(ws[0].request, flags);
      var next := if ws[0].request.clear then AndNot(flags, got) else flags;
      if i == 0 {
        ServedWithin(next, ws[1..], j - 1);
        ClearedApart(flags, got, Serve(next, ws[1..]).2[j - 1].flags);
      } else {
        ClearedOnce(next, ws[1..], i - 1, j - 1);
      }
    } else {
      ClearedOnce(flags, ws[1..], i, j);
    }
  }

  lemma ClearedApart(flags: bv32, got: bv32, later: bv32)
    requires Within(later, AndNot(flags, got))
    ensures !Meets(got, later)
  {
  }

  lemma ReceivedWithin(r: Request, flags: bv32)
    requires Satisfied(r, flags)
    ensures Within(Received(r, flags), flags)
  {
    AndFacts(r.flags, flags);
    hide Within, Meets, And, Nonempty;
  }

  lemma {:induction false} ServedWithin(flags: bv32, ws: seq<Waiter>, j: nat)
    requires j < |Serve(flags, ws).2|
    ensures Within(Serve(flags, ws).2[j].flags, flags)
    decreases |ws|
  {
    hide Within, Meets, AndNot, Received, Satisfied;
    if Satisfied(ws[0].request, flags) {
      var got := Received(ws[0].request, flags);
      var next := if ws[0].request.clear then AndNot(flags, got) else flags;
      if j == 0 {
        ReceivedWithin(ws[0].request, flags);
      } else {
        ServedWithin(next, ws[1..], j - 1);
        AndNotWithin(flags, got);
        WithinSelf(flags);
        WithinTrans(Serve(next, ws[1..]).2[j - 1].flags, next, flags);
      }
    } else {
      ServedWithin(flags, ws[1..], j);
    }
  }

  /** Waiters are neither lost nor invented: those still waiting and those served partition the list, both in its order. */
  function Merge(waiting: seq<Waiter>, served: seq<Delivery>, ws: seq<Waiter>): bool
    decreases ws
  {
    if ws == [] then waiting == [] && served == []
    else
      || (waiting != [] && waiting[0] == ws[0] && Merge(waiting[1..], served, ws[1..]))
      || (served != [] && served[0].waiter == ws[0] && Merge(waiting, served[1..], ws[1..]))
  }

  lemma {:induction false} ServePartitions(flags: bv32, ws: seq<Waiter>)
    ensures Merge(Serve(flags, ws).1, Serve(flags, ws).2, ws)
    decreases |ws|
  {
    hide Meets, AndNot, Received, Satisfied;
    if ws != [] {
      if Satisfied(ws[0].request, flags) {
        var next := if ws[0].request.clear then AndNot(flags, Received(ws[0].request, flags)) else flags;
        ServePartitions(next, ws[1..]);
        assert Serve(flags, ws).2[1..] == Serve(next, ws[1..]).2;
      } else {
        ServePartitions(flags, ws[1..]);
        assert Serve(flags, ws).1[1..] == Serve(flags, ws[1..]).1;
      }
    }
  }

  // ----- order on the wait list -----

  /** Stronger threads, with smaller numbers, come first. */
  predicate Ranked(ws: seq<Waiter>) {
    forall i, j :: 0 <= i < j < |ws| ==> ws[i].priority <= ws[j].priority
  }

  /** The place behind every waiter that is not weaker. */
  function Place(ws: seq<Waiter>, p: nat): (i: nat)
    ensures i <= |ws|
  {
    if ws == [] || p < ws[0].priority then 0 else 1 + Place(ws[1..], p)
  }

  lemma {:induction false} PlaceSplits(ws: seq<Waiter>, p: nat)
    requires Ranked(ws)
    ensures forall i :: 0 <= i < Place(ws, p) ==> ws[i].priority <= p
    ensures forall i :: Place(ws, p) <= i < |ws| ==> p < ws[i].priority
  {
    if ws != [] && p >= ws[0].priority {
      var t := ws[1..];
      PlaceSplits(t, p);
      forall i | 0 <= i < |ws|
        ensures if i < Place(ws, p) then ws[i].priority <= p else p < ws[i].priority
      {
        assert i > 0 ==> ws[i] == t[i - 1];
      }
    }
  }

  /** A thread put at its place keeps the order and stands behind its equals. */
  lemma PlaceRanked(ws: seq<Waiter>, w: Waiter)
    requires Ranked(ws)
    ensures Ranked(ws[..Place(ws, w.priority)] + [w] + ws[Place(ws, w.priority)..])
  {
    PlaceSplits(ws, w.priority);
  }

  /** The threads still waiting after the walk are in their old order. */
  lemma {:induction false} ServeRanked(flags: bv32, ws: seq<Waiter>)
    requires Ranked(ws)
    ensures Ranked(Serve(flags, ws).1) && forall w :: w in Serve(flags, ws).1 ==> w in ws
    decreases |ws|
  {
    hide Satisfied, Received, AndNot;
    if ws != [] {
      var got := Received(ws[0].request, flags);
      var next := if Satisfied(ws[0].request, flags) && ws[0].request.clear then AndNot(flags, got) else flags;
      ServeRanked(next, ws[1..]);
      var left := Serve(next, ws[1..]).1;
      assert forall w :: w in left ==> exists i :: 0 < i < |ws| && ws[i] == w;
      assert forall i :: 0 <= i < |left| ==> left[i] in left;
    }
  }
}


/** The event object and its critical sections. */
module EventObject {
  import opened WordBits
  import opened EventState

  datatype Outcome = Refused | Got(flags: bv32) | NoTime | Waits

  class Event {
    /** RT_IPC_FLAG_PRIO */
    const prio: bool
    var flags: bv32
    var waiters: seq<Waiter>

    /** No waiting thread's condition holds, and a list by priority is in order. */
    ghost predicate Valid()
      reads this
    {
      NoneSatisfied(waiters, flags) && Requests(waiters) && (prio ==> Ranked(waiters))
    }

    constructor (prio: bool)
      ensures Valid() && this.prio == prio && waiters == [] && flags == 0
    {
      this.prio := prio;
      flags, waiters := 0, [];
    }

    /** rt_event_send: set the flags, then walk the wait list once. */
    method Send(more: bv32) returns (ok: bool, served: seq<Delivery>)
      requires Valid()
      modifies this
      ensures Valid() && ok == Nonempty(more)
      ensures !ok ==> flags == old(flags) && waiters == old(waiters) && served == []
      ensures ok ==> (flags, waiters, served) == Serve(Or(old(flags), more), old(waiters))
      ensures forall i :: 0 <= i < |served| ==> Fair(served[i], Or(old(flags), more))
    {
      hide Within, Meets, And, AndNot, Or, Satisfied, Fair, Nonempty;
      served := [];
      ok := Nonempty(more);
      if !ok {
        return;
      }
      flags := Or(flags, more);
      ghost var start, all := waiters, flags;
      WithinSelf(all);
      ServeFair(all, start, all);
      ServeLeavesUnsatisfied(all, start);
      if prio {
        ServeRanked(all, start);
      }
      hide Requests, NoneSatisfied, Ranked;
      var n := 0;
      ResumedStart(all, start);
      assert waiters[..0] == [] && waiters[0..] == start;
      while n < |waiters|
        invariant n <= |waiters|
        invariant Resumed(all, start, flags, waiters[..n], waiters[n..], served)
        decreases |waiters| - n
      {
        var w := waiters[n];
        ghost var done, left := waiters[..n], waiters[n..];
        assert left != [] && left[0] == w;
        ResumeStep(all, start, flags, done, left, served);
        if Satisfied(w.request, flags) {
          var got := Received(w.request, flags);
          if w.request.clear {
            flags := AndNot(flags, got);
          }
          waiters := waiters[..n] + waiters[n + 1..];
          served := served + [Delivery(w, got)];
          assert waiters[..n] == done && waiters[n..] == left[1..];
        } else {
          n := n + 1;
          assert waiters[..n] == done + [w] && waiters[n..] == left[1..];
        }
      }
      assert waiters[..n] == waiters && waiters[n..] == [];
      ResumedAll(all, start, flags, waiters, served);
    }

    /** rt_event_recv of thread `t`, which has priority `p`, up to the scheduling. */
    method Recv(t: nat, p: nat, request: Request, wait: bool) returns (r: Outcome)
      requires Valid()
      modifies this
      ensures Valid()
      ensures !Nonempty(request.flags) ==> r == Refused && flags == old(flags) && waiters == old(waiters)
      ensures Nonempty(request.flags) && Satisfied(request, old(flags)) ==>
        && r == Got(And(old(flags), request.flags)) && waiters == old(waiters)
        && flags == (if request.clear then AndNot(old(flags), request.flags) else old(flags))
        && Fair(Delivery(Waiter(t, request, p), r.flags), old(flags))
      ensures Nonempty(request.flags) && !Satisfied(request, old(flags)) ==>
        && flags == old(flags)
        && var at := if prio then Place(old(waiters), p) else |old(waiters)|;
           if wait then r == Waits && waiters == old(waiters)[..at] + [Waiter(t, request, p)] + old(waiters)[at..]
           else r == NoTime && waiters == old(waiters)
    {
      if !Nonempty(request.flags) {
        return Refused;
      }
      if Satisfied(request, flags) {
        GotFair(Waiter(t, request, p), flags);
        ClearKeeps(waiters, flags, request.flags);
        hide Within, Meets, And, AndNot, Satisfied, Fair, Nonempty, NoneSatisfied, Ranked;
        r := Got(And(flags, request.flags));
        if request.clear {
          flags := AndNot(flags, request.flags);
        }
      } else if !wait {
        r := NoTime;
      } else {
        Suspend(Waiter(t, request, p));
        r := Waits;
      }
    }

    /** rt_ipc_list_suspend: at the end of a FIFO list, else in front of the first weaker waiter. */
    method Suspend(w: Waiter)
      requires Valid() && Nonempty(w.request.flags) && !Satisfied(w.request, flags)
      modifies `waiters
      ensures Valid()
      ensures var at := if prio then Place(old(waiters), w.priority) else |old(waiters)|;
              waiters == old(waiters)[..at] + [w] + old(waiters)[at..]
    {
      hide Within, Meets, And, AndNot, Satisfied, Fair, Nonempty;
      var at := |waiters|;
      if prio {
        PlaceRanked(waiters, w);
        at := FindPlace(w.priority);
      }
      hide Ranked;
      waiters := waiters[..at] + [w] + waiters[at..];
    }

    method FindPlace(p: nat) returns (at: nat)
      ensures at == Place(waiters, p)
    {
      at := 0;
      assert waiters[0..] == waiters;
      while at < |waiters|
        invariant at <= |waiters| && Place(waiters, p) == at + Place(waiters[at..], p)
      {
        if p < waiters[at].priority {
          break;
        }
        assert waiters[at..][1..] == waiters[at + 1..];
        at := at + 1;
      }
    }

    /** A waiter leaves without its event: its timer ran out, or it was resumed or deleted. */
    method Leave(i: nat)
      requires Valid() && i < |waiters|
      modifies `waiters
      ensures Valid() && waiters == old(waiters)[..i] + old(waiters)[i + 1..]
    {
      hide Satisfied, Nonempty;
      waiters := waiters[..i] + waiters[i + 1..];
    }

    /** rt_event_control, RT_IPC_CMD_RESET: everybody is woken with an error and no flag is left. */
    method Reset() returns (woken: seq<Waiter>)
      requires Valid()
      modifies this
      ensures Valid() && flags == 0 && waiters == [] && woken == old(waiters)
    {
      woken := waiters;
      waiters := [];
      flags := 0;
    }
  }

  /** The walk so far and the rest of it make up the whole walk. */
  ghost predicate Resumed(all: bv32, start: seq<Waiter>, flags: bv32, done: seq<Waiter>, left: seq<Waiter>,
      served: seq<Delivery>) {
    var (rest, waiting, more) := Serve(flags, left);
    Serve(all, start) == (rest, done + waiting, served + more)
  }

  lemma ResumedStart(all: bv32, start: seq<Waiter>)
    ensures Resumed(all, start, all, [], start, [])
  {
    var (rest, waiting, more) := Serve(all, start);
    assert [] + waiting == waiting && [] + more == more;
  }

  lemma ResumeStep(all: bv32, start: seq<Waiter>, flags: bv32, done: seq<Waiter>, left: seq<Waiter>, served: seq<Delivery>)
    requires left != [] && Resumed(all, start, flags, done, left, served)
    ensures var w, got := left[0], Received(left[0].request, flags);
            if Satisfied(w.request, flags) then
              Resumed(all, start, if w.request.clear then AndNot(flags, got) else flags, done, left[1..],
                  served + [Delivery(w, got)])
            else Resumed(all, start, flags, done + [w], left[1..], served)
  {
    hide Meets, Within, AndNot, Received, Satisfied;
    var w, got := left[0], Received(left[0].request, flags);
    if Satisfied(w.request, flags) {
      var (rest, waiting, more) := Serve(if w.request.clear then AndNot(flags, got) else flags, left[1..]);
      assert served + ([Delivery(w, got)] + more) == (served + [Delivery(w, got)]) + more;
    } else {
      var (rest, waiting, more) := Serve(flags, left[1..]);
      assert done + ([w] + waiting) == (done + [w]) + waiting;
    }
  }

  lemma ResumedAll(all: bv32, start: seq<Waiter>, flags: bv32, done: seq<Waiter>, served: seq<Delivery>)
    requires Resumed(all, start, flags, done, [], served)
    ensures Serve(all, start) == (flags, done, served)
  {
    assert done + [] == done && served + [] == served;
  }

  lemma GotFair(w: Waiter, flags: bv32)
    requires Satisfied(w.request, flags) && Nonempty(w.request.flags)
    ensures Fair(Delivery(w, And(flags, w.request.flags)), flags)
  {
    var request := w.request;
    AndCommutes(flags, request.flags);
    ReceivedFair(w, flags);
    AndFacts(request.flags, flags);
    if request.all {
      AndWithin(request.flags, flags);
    }
    hide Within, Meets, And, Nonempty;
  }

  lemma AndCommutes(a: bv32, b: bv32)
    ensures And(a, b) == And(b, a)
  {
  }

  lemma AndWithin(a: bv32, b: bv32)
    requires Within(a, b)
    ensures And(a, b) == a
  {
  }

  lemma ClearKeeps(ws: seq<Waiter>, flags: bv32, mask: bv32)
    requires NoneSatisfied(ws, flags)
    ensures NoneSatisfied(ws, AndNot(flags, mask))
  {
    AndNotWithin(flags, mask);
    hide Within, Meets, AndNot, Satisfied;
    forall i | 0 <= i < |ws|
      ensures !Satisfied(ws[i].request, AndNot(flags, mask))
    {
      if Satisfied(ws[i].request, AndNot(flags, mask)) {
        SatisfiedShrinks(ws[i].request, AndNot(flags, mask), flags);
      }
    }
  }
}
