/** A run in which a thread blocks although it already waits. */
module KernelEffects {
  import opened Queues
  import opened ReadyBits
  import opened KernelState
  import opened KernelPlacement
  import opened KernelRuns
  import opened KernelSteps

  lemma ReadyQueued(s: State, t: nat)
    requires Inv(s) && t < |s.threads| && s.threads[t].stat == Ready
    ensures SomeReady(s)
  {
    assert PlacedAt(s, t) && ThreadSized(s.threads[t], s.wide);
    assert t in s.ready[s.threads[t].priority];
  }

  /** A run goes on with any step that its last state allows. */
  lemma {:induction false} LeadsOn(s: State, steps: seq<Step>, r: State, step: Step)
    requires Inv(s) && Leads(s, steps, r)
    ensures Inv(r) && (Enabled(r, step) ==> Leads(s, steps + [step], Apply(r, step)))
    decreases |steps|
  {
    RunsKeepInvariant(s, steps, r);
    var all := steps + [step];
    if Enabled(r, step) {
      if steps == [] {
        assert all[0] == step && all[1..] == [];
        StepKeeps(s, step);
      } else {
        StepKeeps(s, steps[0]);
        LeadsOn(Apply(s, steps[0]), steps[1..], r, step);
        assert all[0] == steps[0] && all[1..] == steps[1..] + [step];
      }
    }
  }

  // ----- a thread that blocks twice -----

  /** A thread that is on a wait list must not block. */
  lemma WaiterCannotBlock(s: State, q: nat, prio: bool, timed: bool)
    requires Inv(s) && s.current < |s.threads| && q < |s.waits| && s.current in s.waits[q]
    ensures !Inv(BlockThread(s, q, prio, timed))
  {
    assert PlacedAt(s, s.current);
    hide Inv;
    BlockKeepsIff(s, q, prio, timed);
  }

  /** Thread 0 with priority 3 and thread 1 with priority 5, initialised and not started; one wait list. */
  function TwoThreads(): State {
    State(false, [Thread(Init, 3, 3, Mask(0, 0, 0), false, Ok), Thread(Init, 5, 5, Mask(0, 0, 0), false, Ok)],
          seq(32, _ => []), [[]], [], Bits(0, seq(32, _ => 0)), 0, 0)
  }

  /** Two threads with their priorities, of which thread 0 runs. */
  predicate Stage(s: State, first: Stat, second: Stat, nest: nat) {
    && Inv(s) && !s.wide && |s.threads| == 2 && |s.waits| == 1 && s.current == 0 && s.lockNest == nest
    && s.threads[0].stat == first && s.threads[0].priority == s.threads[0].initPriority == 3
    && s.threads[1].stat == second && s.threads[1].priority == s.threads[1].initPriority == 5
  }

  predicate Reached(steps: seq<Step>, r: State) { Inv(TwoThreads()) && Leads(TwoThreads(), steps, r) }

  lemma Next(steps: seq<Step>, r: State, step: Step)
    requires Reached(steps, r) && Inv(r) && Enabled(r, step)
    ensures Reached(steps + [step], Apply(r, step)) && Inv(Apply(r, step))
  {
    LeadsOn(TwoThreads(), steps, r, step);
    StepKeeps(r, step);
    hide Inv, Leads, TwoThreads, Apply;
  }

  /** Both threads are started and the stronger one runs. */
  lemma Started() returns (steps: seq<Step>, r: State)
    ensures Reached(steps, r) && Stage(r, Ready, Ready, 0)
  {
    var s := TwoThreads();
    BootInv(s);
    assert Stage(s, Init, Init, 0) && Reached([], s);
    hide Inv, Reached, TwoThreads, StartupThread, MaskOf;
    Next([], s, Startup(0));
    StartupEffect(s, 0);
    var s1 := Apply(s, Startup(0));
    Next([Startup(0)], s1, Startup(1));
    StartupEffect(s1, 1);
    steps, r := [Startup(0)] + [Startup(1)], Apply(s1, Startup(1));
  }

  /** Thread 0, the stronger one, goes on. */
  lemma ScheduleReady(s: State)
    requires Stage(s, Ready, Ready, 0)
    ensures Inv(s) && Enabled(s, Schedule) && Stage(Apply(s, Schedule), Ready, Ready, 0)
  {
    ReadyQueued(s, 0);
    SchedulePicksHighest(s);
    ScheduleKeeps(s);
    hide Inv;
  }

  /** A locked scheduler changes nothing. */
  lemma ScheduleLocked(s: State)
    requires Stage(s, KernelState.Suspend, Ready, 1)
    ensures Inv(s) && Enabled(s, Schedule) && Apply(s, Schedule) == s
  {
    ReadyQueued(s, 1);
    SchedulePicksHighest(s);
    hide Inv;
  }

  lemma EnterStage(s: State)
    requires Stage(s, Ready, Ready, 0)
    ensures Inv(s) && Enabled(s, EnterCritical) && Stage(Apply(s, EnterCritical), Ready, Ready, 1)
  {
    BookkeepingKeeps(s, s.current, s.lockNest + 1);
    assert s.(lockNest := s.lockNest + 1) == s.(current := s.current, lockNest := s.lockNest + 1);
    hide Inv;
  }

  /** With the scheduler locked thread 0 blocks. */
  lemma BlockStage(s: State)
    requires Stage(s, Ready, Ready, 1)
    ensures Inv(s) && Enabled(s, Block(0, false, false))
    ensures var r := Apply(s, Block(0, false, false)); Stage(r, KernelState.Suspend, Ready, 1) && 0 in r.waits[0]
  {
    BlockEffect(s, 0, false, false);
    BlockKeeps(s, 0, false, false);
    assert 0 in InsertAt(s.waits[0], |s.waits[0]|, 0) by { assert InsertAt(s.waits[0], |s.waits[0]|, 0)[|s.waits[0]|] == 0; }
    hide Inv, BlockThread;
  }

  /** Thread 0 locks the scheduler and blocks. */
  lemma LocksAndBlocks() returns (steps: seq<Step>, r: State)
    ensures Reached(steps, r) && Stage(r, KernelState.Suspend, Ready, 1) && 0 in r.waits[0]
  {
    var block := Block(0, false, false);
    var steps1, s1 := Started();
    hide *;
    ScheduleReady(s1);
    Next(steps1, s1, Schedule);
    var s2 := Apply(s1, Schedule);
    EnterStage(s2);
    Next(steps1 + [Schedule], s2, EnterCritical);
    var s3 := Apply(s2, EnterCritical);
    BlockStage(s3);
    Next(steps1 + [Schedule] + [EnterCritical], s3, block);
    steps, r := steps1 + [Schedule] + [EnterCritical] + [block], Apply(s3, block);
  }

  /**
   * Blocking twice can be reached: with the scheduler locked a thread that blocks goes on running, because the scheduling
   * in the call does nothing. It is suspended and on the wait list, and a second blocking call breaks the invariant.
   */
  lemma BlocksTwice() returns (steps: seq<Step>, r: State)
    ensures Boot(TwoThreads()) && Inv(TwoThreads()) && Leads(TwoThreads(), steps, r)
    ensures |steps| > 0 && steps[|steps| - 1] == Schedule && Inv(r)
    ensures r.lockNest > 0 && r.current < |r.threads| && |r.waits| > 0
    ensures r.threads[r.current].stat == KernelState.Suspend && r.current in r.waits[0]
    ensures forall prio, timed :: !Inv(BlockThread(r, 0, prio, timed))
  {
    BootIs();
    steps, r := LocksAndBlocks();
    ScheduleLocked(r);
    hide Inv, TwoThreads, BlockThread, Apply, Boot, Leads;
    Next(steps, r, Schedule);
    steps := steps + [Schedule];
    forall prio, timed
      ensures !Inv(BlockThread(r, 0, prio, timed))
    {
      WaiterCannotBlock(r, 0, prio, timed);
    }
  }

  lemma BootIs()
    ensures Boot(TwoThreads())
  {
  }
}
