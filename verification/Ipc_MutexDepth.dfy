/** A run from boot in which nested takes make the hold counter wrap. */
module MutexDepth {
  import opened Wrappers
  import opened Queues
  import opened ReadyBits
  import opened KernelState
  import opened KernelPlacement
  import opened KernelRuns
  import opened MutexState
  import opened MutexFifo

  /** The running thread is ready and owns the mutex. */
  predicate Holding(m: Mutex, c: Config, depth: nat) {
    && MutexInv(m, c) && m.k.current < |m.k.threads| && m.k.threads[m.k.current].stat == Ready
    && m.owner == Some(m.k.current) && m.hold == depth
  }

  /** One more take by the owner. */
  lemma DeepTake(m: Mutex, c: Config, depth: nat, wait: bool, timed: bool)
    requires Holding(m, c, depth) && depth < 255
    ensures MutexEnabled(m, c, Take(wait, timed)) && Holding(MutexApply(m, c, Take(wait, timed)), c, depth + 1)
  {
    MutexStepKeeps(m, c, Take(wait, timed));
    hide Inv, MutexInv;
  }

  /** Any depth up to 255 is reached by nested takes. */
  lemma {:induction false} Deepen(m0: Mutex, c: Config, steps: seq<MutexStep>, m: Mutex, depth: nat, n: nat)
    returns (steps': seq<MutexStep>, r: Mutex)
    requires MutexInv(m0, c) && MutexLeads(m0, c, steps, m) && Holding(m, c, depth) && depth + n <= 255
    ensures MutexLeads(m0, c, steps', r) && Holding(r, c, depth + n)
    decreases n
  {
    steps', r := steps, m;
    if n > 0 {
      DeepTake(m, c, depth, true, false);
      LeadsOn(m0, c, steps, m, Take(true, false));
      hide Holding, MutexLeads, MutexEnabled, MutexApply, MutexInv;
      steps', r := Deepen(m0, c, steps + [Take(true, false)], MutexApply(m, c, Take(true, false)), depth + 1, n - 1);
    }
  }

  /** The take at depth 255 leaves an owner with a hold count of 0. */
  lemma WrappedTake(m: Mutex, c: Config, wait: bool, timed: bool)
    requires Holding(m, c, 255)
    ensures var r := TakeMutex(m, c, wait, timed).0; r.owner == m.owner && r.hold == 0 && !MutexInv(r, c)
  {
    NestedTakeKeepsIff(m, c, wait, timed);
    hide Inv, MutexInv;
  }

  /** From boot one thread reaches depth 255, and its next take breaks the invariant: 256 takes in all. */
  lemma DepthOverflows() returns (steps: seq<MutexStep>, r: Mutex)
    ensures Boot(BootMutex().k) && MutexInv(BootMutex(), FIFO) && MutexLeads(BootMutex(), FIFO, steps, r)
    ensures MutexInv(r, FIFO) && r.hold == 255 && r.owner == Some(r.k.current) && r.k.current < |r.k.threads|
    ensures forall wait, timed ::
              var m := TakeMutex(r, FIFO, wait, timed).0; m.owner == r.owner && m.hold == 0 && !MutexInv(m, FIFO)
  {
    var steps1, m1 := FirstTakes();
    BootShows();
    assert ThreadShows(m1.k.threads[0], Ready, 5);
    assert Holding(m1, FIFO, 1);
    hide Inv, Boot, BootMutex, MutexInv, MutexLeads, TakeMutex;
    steps, r := Deepen(BootMutex(), FIFO, steps1, m1, 1, 254);
    forall wait, timed
      ensures var m := TakeMutex(r, FIFO, wait, timed).0; m.owner == r.owner && m.hold == 0 && !MutexInv(m, FIFO)
    {
      WrappedTake(r, FIFO, wait, timed);
    }
  }
}
