/** A run from boot in which a FIFO mutex is handed to a thread weaker than one that waits. */
module MutexFifo {
  import opened Wrappers
  import opened Queues
  import opened ReadyBits
  import opened KernelState
  import opened KernelPlacement
  import opened KernelRuns
  import opened KernelSteps
  import KernelEffects
  import opened MutexState
  import opened MutexSteps

  /** The mutex of wait list 0, without the PRIO flag. */
  const FIFO: Config := Config(0, false)

  /** What is known of a state: status and priority of each thread, the running thread, the wait list and the owner. */
  datatype Scene = Scene(stats: seq<Stat>, prios: seq<nat>, current: nat, waiting: Queue, owner: Option<nat>)

  predicate ThreadShows(th: Thread, stat: Stat, prio: nat) {
    th.stat == stat && th.priority == prio && (stat == Init ==> th.initPriority == prio)
  }

  predicate Shows(m: Mutex, v: Scene) {
    && MutexInv(m, FIFO) && !m.k.wide && m.k.lockNest == 0 && |m.k.threads| == |v.stats| == |v.prios|
    && (forall t :: 0 <= t < |v.stats| ==> ThreadShows(m.k.threads[t], v.stats[t], v.prios[t]))
    && m.k.current == v.current < |v.stats| && m.k.waits[0] == v.waiting
    && m.owner == v.owner && (m.owner.Some? ==> m.hold == 1)
  }

  // ----- what each step shows -----

  lemma ShowStartup(m: Mutex, v: Scene, t: nat)
    requires Shows(m, v) && t < |v.stats| && v.stats[t] == Init
    ensures MutexEnabled(m, FIFO, Other(Startup(t)))
    ensures Shows(MutexApply(m, FIFO, Other(Startup(t))), v.(stats := v.stats[t := Ready]))
  {
    assert ThreadShows(m.k.threads[t], Init, v.prios[t]);
    MutexStepKeeps(m, FIFO, Other(Startup(t)));
    StartupEffect(m.k, t);
    hide Inv, MutexInv, StartupThread, MaskOf;
    var k := StartupThread(m.k, t);
    forall x | 0 <= x < |v.stats|
      ensures ThreadShows(k.threads[x], v.stats[t := Ready][x], v.prios[x])
    {
      assert ThreadShows(m.k.threads[x], v.stats[x], v.prios[x]);
    }
  }

  /** The strongest ready thread is `t`, and alone. */
  predicate Strongest(v: Scene, t: nat) {
    && t < |v.stats| == |v.prios| && v.stats[t] == Ready
    && forall x :: 0 <= x < |v.stats| && x != t && v.stats[x] == Ready ==> v.prios[t] < v.prios[x]
  }

  lemma ShowSchedule(m: Mutex, v: Scene, t: nat)
    requires Shows(m, v) && Strongest(v, t)
    ensures MutexEnabled(m, FIFO, Other(Schedule)) && Shows(MutexApply(m, FIFO, Other(Schedule)), v.(current := t))
  {
    assert ThreadShows(m.k.threads[t], Ready, v.prios[t]);
    assert Inv(m.k);
    KernelEffects.ReadyQueued(m.k, t);
    MutexStepKeeps(m, FIFO, Other(Schedule));
    SchedulePicksHighest(m.k);
    var c := ScheduleNext(m.k).current;
    assert ThreadShows(m.k.threads[c], v.stats[c], v.prios[c]);
    hide Inv, MutexInv;
  }

  lemma ShowTake(m: Mutex, v: Scene)
    requires Shows(m, v) && v.stats[v.current] == Ready && v.owner == None
    ensures MutexEnabled(m, FIFO, Take(true, false)) && Shows(MutexApply(m, FIFO, Take(true, false)), v.(owner := Some(v.current)))
  {
    var t := v.current;
    assert ThreadShows(m.k.threads[t], Ready, v.prios[t]);
    assert m.value == 1 && m.hold == 0;
    MutexStepKeeps(m, FIFO, Take(true, false));
    hide Inv, MutexInv;
    var r := MutexApply(m, FIFO, Take(true, false));
    assert r.k == WithThread(m.k, t, m.k.threads[t].(error := Ok));
    forall x | 0 <= x < |v.stats|
      ensures ThreadShows(r.k.threads[x], v.stats[x], v.prios[x])
    {
      assert ThreadShows(m.k.threads[x], v.stats[x], v.prios[x]);
    }
  }

  /** The scene after the running thread had to wait: the owner is as strong, and the list one longer. */
  function Waited(v: Scene, o: nat): Scene
    requires v.current < |v.stats| == |v.prios| && o < |v.prios|
  {
    v.(stats := v.stats[v.current := KernelState.Suspend],
       prios := if v.prios[v.current] < v.prios[o] then v.prios[o := v.prios[v.current]] else v.prios,
       waiting := v.waiting + [v.current])
  }

  /** Waiting in FIFO order: the owner is boosted, the caller is suspended and stands at the end of the list. */
  lemma WaitEffect(m: Mutex, o: nat)
    requires MutexInv(m, FIFO) && m.k.current < |m.k.threads| && m.k.threads[m.k.current].stat == Ready
    requires m.owner == Some(o) && o != m.k.current && o < |m.k.threads|
    ensures var t, r := m.k.current, TakeMutex(m, FIFO, true, false).0;
            var p, q := m.k.threads[t].priority, m.k.threads[o].priority;
            && r.owner == m.owner && r.hold == m.hold && r.k.current == t && SameForm(m.k, r.k) && r.k.waits[0] == m.k.waits[0] + [t]
            && r.k.threads[t].stat == KernelState.Suspend && r.k.threads[t].priority == p
            && r.k.threads[o].stat == m.k.threads[o].stat && r.k.threads[o].priority == (if p < q then p else q)
            && r.k.threads[o].initPriority == m.k.threads[o].initPriority
            && forall x :: 0 <= x < |m.k.threads| && x != t && x != o ==> r.k.threads[x] == m.k.threads[x]
  {
    var t := m.k.current;
    TakeWaits(m, FIFO, false);
    hide Inv, MutexInv, TakeMutex, MaskOf, Dequeued, RaisedLists;
    assert InsertAt(m.k.waits[0], |m.k.waits[0]|, t) == m.k.waits[0] + [t];
  }

  lemma ShowWait(m: Mutex, v: Scene, o: nat)
    requires Shows(m, v) && v.stats[v.current] == Ready && v.owner == Some(o) && o != v.current && o < |v.stats|
    ensures MutexEnabled(m, FIFO, Take(true, false)) && Shows(MutexApply(m, FIFO, Take(true, false)), Waited(v, o))
  {
    var t, w := v.current, Waited(v, o);
    assert ThreadShows(m.k.threads[t], v.stats[t], v.prios[t]) && ThreadShows(m.k.threads[o], v.stats[o], v.prios[o]);
    MutexStepKeeps(m, FIFO, Take(true, false));
    hide Inv, MutexInv;
    WaitEffect(m, o);
    var r := MutexApply(m, FIFO, Take(true, false));
    hide TakeMutex;
    forall x | 0 <= x < |v.stats|
      ensures ThreadShows(r.k.threads[x], w.stats[x], w.prios[x])
    {
      assert ThreadShows(m.k.threads[x], v.stats[x], v.prios[x]);
    }
  }

  lemma {:induction false} LeadsOn(m: Mutex, c: Config, steps: seq<MutexStep>, r: Mutex, step: MutexStep)
    requires MutexInv(m, c) && MutexLeads(m, c, steps, r)
    ensures MutexInv(r, c)
    ensures MutexEnabled(r, c, step) ==> MutexLeads(m, c, steps + [step], MutexApply(r, c, step))
    decreases |steps|
  {
    RunsKeepMutex(m, c, steps, r);
    var all := steps + [step];
    if MutexEnabled(r, c, step) {
      if steps == [] {
        assert all[0] == step && all[1..] == [];
        MutexStepKeeps(m, c, step);
      } else {
        MutexStepKeeps(m, c, steps[0]);
        LeadsOn(MutexApply(m, c, steps[0]), c, steps[1..], r, step);
        assert all[0] == steps[0] && all[1..] == steps[1..] + [step];
      }
    }
  }

  // ----- the run -----

  /** Three threads with the priorities 5, 4 and 3, initialised and not started; the mutex is free. */
  function BootThreads(): seq<Thread> {
    [Thread(Init, 5, 5, Mask(0, 0, 0), false, Ok), Thread(Init, 4, 4, Mask(0, 0, 0), false, Ok),
     Thread(Init, 3, 3, Mask(0, 0, 0), false, Ok)]
  }

  function BootMutex(): Mutex {
    Mutex(State(false, BootThreads(), seq(32, _ => []), [[]], [], Bits(0, seq(32, _ => 0)), 0, 0), 1, None, 0, 255)
  }

  lemma BootShows()
    ensures Boot(BootMutex().k) && Shows(BootMutex(), Scene([Init, Init, Init], [5, 4, 3], 0, [], None))
  {
    BootInv(BootMutex().k);
    EmptyByPriority(BootThreads());
    hide Inv;
  }

  /** A run from boot whose last state shows `v`. */
  predicate Reaches(steps: seq<MutexStep>, m: Mutex, v: Scene) {
    MutexInv(BootMutex(), FIFO) && MutexLeads(BootMutex(), FIFO, steps, m) && Shows(m, v)
  }

  lemma Then(steps: seq<MutexStep>, m: Mutex, v: Scene, step: MutexStep, w: Scene)
    requires Reaches(steps, m, v) && MutexInv(m, FIFO) && MutexEnabled(m, FIFO, step) && Shows(MutexApply(m, FIFO, step), w)
    ensures Reaches(steps + [step], MutexApply(m, FIFO, step), w)
  {
    hide *;
    LeadsUnfold(steps, m, v);
    LeadsOn(BootMutex(), FIFO, steps, m, step);
    LeadsFold(steps + [step], MutexApply(m, FIFO, step), w);
  }

  lemma LeadsUnfold(steps: seq<MutexStep>, m: Mutex, v: Scene)
    requires Reaches(steps, m, v)
    ensures MutexInv(BootMutex(), FIFO) && MutexLeads(BootMutex(), FIFO, steps, m)
  {
  }

  lemma LeadsFold(steps: seq<MutexStep>, m: Mutex, v: Scene)
    requires MutexInv(BootMutex(), FIFO) && MutexLeads(BootMutex(), FIFO, steps, m) && Shows(m, v)
    ensures Reaches(steps, m, v)
  {
  }

  lemma InvOf(steps: seq<MutexStep>, m: Mutex, v: Scene)
    requires Reaches(steps, m, v)
    ensures MutexInv(m, FIFO) && Shows(m, v)
  {
  }

  lemma Start(steps: seq<MutexStep>, m: Mutex, v: Scene, t: nat) returns (steps': seq<MutexStep>, m': Mutex)
    requires Reaches(steps, m, v) && t < |v.stats| && v.stats[t] == Init
    ensures Reaches(steps', m', v.(stats := v.stats[t := Ready]))
  {
    hide *;
    InvOf(steps, m, v);
    ShowStartup(m, v, t);
    steps', m' := steps + [Other(Startup(t))], MutexApply(m, FIFO, Other(Startup(t)));
    Then(steps, m, v, Other(Startup(t)), v.(stats := v.stats[t := Ready]));
  }

  lemma Switch(steps: seq<MutexStep>, m: Mutex, v: Scene, t: nat) returns (steps': seq<MutexStep>, m': Mutex)
    requires Reaches(steps, m, v) && Strongest(v, t)
    ensures Reaches(steps', m', v.(current := t))
  {
    hide *;
    InvOf(steps, m, v);
    ShowSchedule(m, v, t);
    steps', m' := steps + [Other(Schedule)], MutexApply(m, FIFO, Other(Schedule));
    Then(steps, m, v, Other(Schedule), v.(current := t));
  }

  lemma Wait(steps: seq<MutexStep>, m: Mutex, v: Scene, o: nat) returns (steps': seq<MutexStep>, m': Mutex)
    requires Reaches(steps, m, v) && v.current < |v.stats| == |v.prios| && v.stats[v.current] == Ready
    requires v.owner == Some(o) && o != v.current && o < |v.stats|
    ensures Reaches(steps', m', Waited(v, o))
  {
    hide *;
    InvOf(steps, m, v);
    ShowWait(m, v, o);
    steps', m' := steps + [Take(true, false)], MutexApply(m, FIFO, Take(true, false));
    Then(steps, m, v, Take(true, false), Waited(v, o));
  }

  /** The owner is the only ready thread, and thread `t`, not yet started, is stronger. */
  predicate Joins(v: Scene, t: nat, o: nat) {
    && |v.stats| == |v.prios| && t < |v.stats| && o < |v.stats| && v.stats[t] == Init && v.prios[t] < v.prios[o]
    && v.owner == Some(o) && forall x :: 0 <= x < |v.stats| ==> (v.stats[x] == Ready <==> x == o)
  }

  function Joined(v: Scene, t: nat, o: nat): Scene
    requires Joins(v, t, o)
  {
    v.(stats := v.stats[t := KernelState.Suspend], prios := v.prios[o := v.prios[t]], current := o, waiting := v.waiting + [t])
  }

  /** Thread `t` is started, takes over, has to wait, and the owner goes on. */
  lemma Join(steps: seq<MutexStep>, m: Mutex, v: Scene, t: nat, o: nat) returns (steps': seq<MutexStep>, m': Mutex)
    requires Reaches(steps, m, v) && Joins(v, t, o)
    ensures Reaches(steps', m', Joined(v, t, o))
  {
    hide Reaches;
    var v1 := v.(stats := v.stats[t := Ready]);
    var v2 := v1.(current := t);
    var v3 := Waited(v2, o);
    steps', m' := Start(steps, m, v, t);
    steps', m' := Switch(steps', m', v1, t);
    steps', m' := Wait(steps', m', v2, o);
    assert v3.stats == v.stats[t := KernelState.Suspend];
    steps', m' := Switch(steps', m', v3, o);
    assert v3.(current := o) == Joined(v, t, o);
  }

  /** Thread 0 is started and takes the mutex. */
  lemma FirstTakes() returns (steps: seq<MutexStep>, m: Mutex)
    ensures Reaches(steps, m, Scene([Ready, Init, Init], [5, 4, 3], 0, [], Some(0)))
  {
    BootShows();
    var v := Scene([Init, Init, Init], [5, 4, 3], 0, [], None);
    LeadsFold([], BootMutex(), v);
    hide Reaches, Shows, MutexInv, MutexLeads, MutexApply, BootMutex;
    steps, m := Start([], BootMutex(), v, 0);
    v := v.(stats := [Ready, Init, Init]);
    InvOf(steps, m, v);
    ShowTake(m, v);
    Then(steps, m, v, Take(true, false), v.(owner := Some(0)));
    steps, m := steps + [Take(true, false)], MutexApply(m, FIFO, Take(true, false));
  }

  /** Thread 1 comes to wait, and then thread 2, which is stronger. */
  lemma TwoWait() returns (steps: seq<MutexStep>, m: Mutex)
    ensures Reaches(steps, m, Scene([Ready, KernelState.Suspend, KernelState.Suspend], [3, 4, 3], 0, [1, 2], Some(0)))
  {
    hide Reaches;
    var v := Scene([Ready, Init, Init], [5, 4, 3], 0, [], Some(0));
    var w := Scene([Ready, KernelState.Suspend, Init], [4, 4, 3], 0, [1], Some(0));
    steps, m := FirstTakes();
    steps, m := Join(steps, m, v, 1, 0);
    assert Joined(v, 1, 0) == w;
    steps, m := Join(steps, m, w, 2, 0);
    assert Joined(w, 2, 0) == Scene([Ready, KernelState.Suspend, KernelState.Suspend], [3, 4, 3], 0, [1, 2], Some(0));
  }

  /**
   * A FIFO mutex is handed to a thread weaker than one that goes on waiting: a state reached from boot, in which the
   * running owner's last release does so.
   */
  lemma FifoHeirWeaker() returns (steps: seq<MutexStep>, m: Mutex)
    ensures Boot(BootMutex().k) && MutexInv(BootMutex(), FIFO) && MutexLeads(BootMutex(), FIFO, steps, m)
    ensures MutexInv(m, FIFO) && m.owner == Some(m.k.current) && m.hold == 1 && m.k.current < |m.k.threads|
    ensures var r := ReleaseMutex(m, FIFO).0;
            && r.owner == Some(1) && |r.k.threads| == 3 && |r.k.waits| > 0 && r.k.waits[0] == [2]
            && r.k.threads[2].priority < r.k.threads[1].priority
  {
    steps, m := TwoWait();
    BootShows();
    assert ThreadShows(m.k.threads[1], KernelState.Suspend, 4) && ThreadShows(m.k.threads[2], KernelState.Suspend, 3);
    assert m.k.waits[0][1] == 2 && SomeStronger(m.k.threads, m.k.waits[0], m.k.threads[1].priority);
    hide Inv, ReleaseMutex, MutexLeads, BootMutex;
    InversionIff(m, FIFO);
  }
}
