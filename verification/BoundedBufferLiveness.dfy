/** The main results about whole runs of the bounded buffer: order, no lost wakeups, exactly when
    it is free of deadlock, and termination. */
module BoundedBufferLiveness {
  import opened Options
  import opened Sums
  import opened BoundedBuffer
  import opened BoundedBufferSafety

  // ---- Safety of every run ------------------------------------------------------------------

  /** The queue and the quotas never change size. */
  lemma {:induction false} StepConstants(s: State, a: Action)
    requires Enabled(s, a)
    ensures ToProduce(Step(s, a)) == ToProduce(s) && ToConsume(Step(s, a)) == ToConsume(s)
    ensures |Step(s, a).buffer.queue| == |s.buffer.queue|
  {
    StepThreads(s, a);
    StepSum(ProducerQuota, s, a);
    StepSum(ConsumerQuota, s, a);
  }

  lemma {:induction false} RunConstants(s: State, acts: seq<Action>)
    requires ValidRun(s, acts)
    ensures ToProduce(RunEnd(s, acts)) == ToProduce(s) && ToConsume(RunEnd(s, acts)) == ToConsume(s)
    ensures |RunEnd(s, acts).buffer.queue| == |s.buffer.queue|
    decreases |acts|
  {
    if acts != [] {
      StepConstants(s, acts[0]);
      RunConstants(Step(s, acts[0]), acts[1..]);
    }
  }

  /** In every reachable state with the mutex free, what was produced is what was consumed followed
      by the `numOccupied` cells from the read index on, and the write index is just behind them.
      At every moment, inside a critical section too, the consumed items are the first produced
      ones in order, and at most a queue length behind. */
  lemma {:induction false} FirstInFirstOut(s: State, acts: seq<Action>)
    requires Initial(s) && ValidRun(s, acts)
    ensures var e := RunEnd(s, acts);
      && e.consumed <= e.produced && |e.produced| - |e.consumed| <= |s.buffer.queue|
      && e.buffer.WellFormed()
      && (e.owner.None? ==>
          && 0 <= e.buffer.numOccupied <= |s.buffer.queue| == |e.buffer.queue|
          && e.buffer.writeIndex == (e.buffer.readIndex + e.buffer.numOccupied) % |s.buffer.queue|
          && e.produced == e.consumed + Cells(e.buffer.queue, e.buffer.readIndex, e.buffer.numOccupied))
  {
    InitialInv(s);
    RunInv(s, acts);
    RunConstants(s, acts);
  }

  /** At most one thread is inside the critical section, and it is the owner of the mutex. */
  lemma {:induction false} MutualExclusion(s: State, acts: seq<Action>, t: nat, u: nat)
    requires Initial(s) && ValidRun(s, acts)
    requires t < |RunEnd(s, acts).threads| && u < |RunEnd(s, acts).threads|
    requires InSection(RunEnd(s, acts).threads[t].pc) && InSection(RunEnd(s, acts).threads[u].pc)
    ensures t == u && RunEnd(s, acts).owner == Some(t)
  {
    InitialInv(s);
    RunInv(s, acts);
  }

  function WokenOf(r: Role): Thread -> int {
    (th: Thread) => if th.role == r && th.pc == Woken then 1 else 0
  }

  /** With the mutex free, a thread that waits without having been signalled could take no more
      than the signalled threads of its role that are still to re-acquire the mutex. */
  lemma {:induction false} NoWakeupIsLost(s: State, acts: seq<Action>, r: Role)
    requires Initial(s) && ValidRun(s, acts)
    requires RunEnd(s, acts).owner.None? && HasWaiter(RunEnd(s, acts), r)
    ensures Available(r, RunEnd(s, acts).buffer) <= Sum(WokenOf(r), RunEnd(s, acts).threads)
  {
    InitialInv(s);
    RunInv(s, acts);
    var e := RunEnd(s, acts);
    SumSame(Credit(r), WokenOf(r), e.threads, e.threads);
  }

  // ---- Deadlock -----------------------------------------------------------------------------

  /** A state in which no thread can run has a free mutex and only waiting and finished threads. */
  lemma {:induction false} StuckShape(s: State)
    requires Inv(s) && !CanRun(s)
    ensures s.owner.None?
    ensures forall t :: 0 <= t < |s.threads| ==> s.threads[t].pc in {Waiting, Done}
  {
    assert s.owner.Some? ==> InSection(s.threads[s.owner.value].pc);
    forall t | 0 <= t < |s.threads|
      ensures s.threads[t].pc in {Waiting, Done} || (s.owner.Some? && s.threads[t].pc in {Lock, Woken})
    {
      var wake: nat :| HasWaiter(s, Other(s.threads[t].role)) ==>
                         wake < |s.threads| && WaitsFor(s.threads[wake], Other(s.threads[t].role));
      var a := Run(t, Expr(0, 0), wake);
      assert !Enabled(s, a);
    }
  }

  /** What the threads of a role have moved is at most their quotas, and exactly that only when
      all of them are done. */
  lemma {:induction false} StuckTotals(s: State)
    requires Inv(s) && !CanRun(s)
    ensures |s.produced| <= ToProduce(s) && (|s.produced| == ToProduce(s) <==> !HasWaiter(s, Producer))
    ensures |s.consumed| <= ToConsume(s) && (|s.consumed| == ToConsume(s) <==> !HasWaiter(s, Consumer))
    ensures s.buffer.numOccupied == |s.produced| - |s.consumed|
    ensures HasWaiter(s, Consumer) ==> s.buffer.numOccupied <= 0
    ensures HasWaiter(s, Producer) ==> s.buffer.numOccupied >= |s.buffer.queue|
  {
    StuckShape(s);
    forall t | 0 <= t < |s.threads|
      ensures ProducedBy(s.threads[t]) <= ProducerQuota(s.threads[t])
      ensures ConsumedBy(s.threads[t]) <= ConsumerQuota(s.threads[t])
      ensures ProducedBy(s.threads[t]) == ProducerQuota(s.threads[t]) <==> !WaitsFor(s.threads[t], Producer)
      ensures ConsumedBy(s.threads[t]) == ConsumerQuota(s.threads[t]) <==> !WaitsFor(s.threads[t], Consumer)
    {
      assert ThreadOk(s.threads[t], s.buffer);
    }
    SumLessOrEqual(ProducedBy, ProducerQuota, s.threads);
    SumLessOrEqual(ConsumedBy, ConsumerQuota, s.threads);
    if !HasWaiter(s, Producer) {
      SumSame(ProducedBy, ProducerQuota, s.threads, s.threads);
    }
    if !HasWaiter(s, Consumer) {
      SumSame(ConsumedBy, ConsumerQuota, s.threads, s.threads);
    }
    SumZero(Credit(Producer), s.threads);
    SumZero(Credit(Consumer), s.threads);
  }

  /** The demand that the totals make on the queue: the consumers can be served, and what they
      leave behind fits. */
  predicate Balanced(s: State) {
    ToConsume(s) <= ToProduce(s) <= ToConsume(s) + |s.buffer.queue|
  }

  lemma {:induction false} StuckIsDone(s: State)
    requires Inv(s) && !CanRun(s) && Balanced(s)
    ensures AllDone(s)
  {
    StuckShape(s);
    StuckTotals(s);
    forall t | 0 <= t < |s.threads| ensures s.threads[t].pc == Done {
      assert !WaitsFor(s.threads[t], Producer) && !WaitsFor(s.threads[t], Consumer);
    }
  }

  /** When all threads are done the items left in the queue are the difference of the totals. */
  lemma {:induction false} DoneTotals(s: State)
    requires Inv(s) && AllDone(s)
    ensures !CanRun(s) && Balanced(s)
    ensures |s.produced| == ToProduce(s) && |s.consumed| == ToConsume(s)
    ensures s.owner.None? && s.buffer.numOccupied == ToProduce(s) - ToConsume(s)
  {
    StuckTotals(s);
  }

  // ---- Termination --------------------------------------------------------------------------

  /** An upper bound on the statements the thread still executes without a further signal. */
  function Weight(th: Thread): int {
    match th.pc
    case Done => 0
    case Test => 20 * (th.quota - th.count) + 1
    case Unlock => 20 * (th.quota - th.count) + 2
    case Signal => 20 * (th.quota - th.count) + 13
    case Count => 20 * (th.quota - th.count) + 14
    case Advance => 20 * (th.quota - th.count) + 15
    case Transfer => 20 * (th.quota - th.count) + 16
    case Waiting => 20 * (th.quota - th.count) + 16
    case Check => 20 * (th.quota - th.count) + 17
    case Woken => 20 * (th.quota - th.count) + 18
    case Lock => 20 * (th.quota - th.count) + 19
  }

  function Measure(s: State): int {
    Sum(Weight, s.threads)
  }

  lemma {:induction false} MeasureNonNegative(s: State)
    requires Inv(s)
    ensures 0 <= Measure(s)
  {
    forall t | 0 <= t < |s.threads| ensures 0 <= Weight(s.threads[t]) {
      assert ThreadOk(s.threads[t], s.buffer);
    }
    SumNonNegative(Weight, s.threads);
  }

  /** The statement a thread executes lowers its weight, a signal by more than the woken thread
      gains. */
  lemma {:induction false} StepWeight(s: State, a: Action)
    requires Inv(s) && Enabled(s, a) && a.Run?
    ensures |Step(s, a).threads| == |s.threads|
    ensures Weight(Step(s, a).threads[a.t]) < Weight(s.threads[a.t]) - (if Wakes(s, a) then 2 else 0)
  {
    assert ThreadOk(s.threads[a.t], s.buffer);
  }

  /** Every statement lowers the measure; only a spurious wakeup raises it, by two. */
  lemma {:induction false} StepMeasure(s: State, a: Action)
    requires Inv(s) && Enabled(s, a)
    ensures if a.Run? then Measure(Step(s, a)) < Measure(s) else Measure(Step(s, a)) == Measure(s) + 2
  {
    StepSum(Weight, s, a);
    if a.Run? {
      StepWeight(s, a);
    }
    if Wakes(s, a) {
      assert WaitsFor(s.threads[a.wake], Other(s.threads[a.t].role));
    }
  }

  function SpuriousCount(acts: seq<Action>): nat {
    if acts == [] then 0 else (if acts[0].Spurious? then 1 else 0) + SpuriousCount(acts[1..])
  }

  /** The length of any run is bounded by the measure of its start plus three steps for each
      spurious wakeup in it; so a run without spurious wakeups is finite. */
  lemma {:induction false} RunLength(s: State, acts: seq<Action>)
    requires Inv(s) && ValidRun(s, acts)
    ensures |acts| + Measure(RunEnd(s, acts)) <= Measure(s) + 3 * SpuriousCount(acts)
    decreases |acts|
  {
    if acts != [] {
      StepInv(s, acts[0]);
      StepMeasure(s, acts[0]);
      RunLength(Step(s, acts[0]), acts[1..]);
    }
  }

  /** The bound for a run of the program: twenty steps for each item and one for each thread
      at most, plus three for each spurious wakeup. */
  lemma {:induction false} RunsTerminate(s: State, acts: seq<Action>)
    requires Initial(s) && ValidRun(s, acts)
    ensures |acts| <= 20 * (ToProduce(s) + ToConsume(s)) + |s.threads| + 3 * SpuriousCount(acts)
  {
    InitialInv(s);
    RunLength(s, acts);
    RunInv(s, acts);
    MeasureNonNegative(RunEnd(s, acts));
    InitialMeasure(s.threads);
  }

  lemma {:induction false} InitialMeasure(ts: seq<Thread>)
    requires forall t :: 0 <= t < |ts| ==> ts[t].pc == Test && ts[t].count == 0
    ensures Sum(Weight, ts) == 20 * (Sum(ProducerQuota, ts) + Sum(ConsumerQuota, ts)) + |ts|
  {
    if ts != [] {
      InitialMeasure(ts[1..]);
    }
  }

  /** Running any enabled statement as long as there is one reaches a state where none is. */
  lemma {:induction false} RunToTheEnd(s: State) returns (acts: seq<Action>)
    requires Inv(s)
    ensures ValidRun(s, acts) && !CanRun(RunEnd(s, acts))
    decreases Measure(s)
  {
    MeasureNonNegative(s);
    if CanRun(s) {
      var a: Action :| a.Run? && Enabled(s, a);
      StepInv(s, a);
      StepMeasure(s, a);
      MeasureNonNegative(Step(s, a));
      var rest := RunToTheEnd(Step(s, a));
      acts := [a] + rest;
      assert acts[1..] == rest;
    } else {
      acts := [];
    }
  }

  // ---- The two main theorems ----------------------------------------------------------------

  ghost predicate DeadlockFree(s: State) {
    forall acts :: ValidRun(s, acts) ==> AllDone(RunEnd(s, acts)) || CanRun(RunEnd(s, acts))
  }

  /** The program never deadlocks, under any scheduling and any spurious wakeups, exactly when the
      producers' total is at least the consumers' and exceeds it by no more than the queue holds. */
  lemma {:induction false} DeadlockFreeExactly(s: State)
    requires Initial(s)
    ensures DeadlockFree(s) <==> Balanced(s)
  {
    InitialInv(s);
    if Balanced(s) {
      forall acts | ValidRun(s, acts) ensures AllDone(RunEnd(s, acts)) || CanRun(RunEnd(s, acts)) {
        RunInv(s, acts);
        RunConstants(s, acts);
        if !CanRun(RunEnd(s, acts)) {
          StuckIsDone(RunEnd(s, acts));
        }
      }
    }
    if DeadlockFree(s) {
      var acts := RunToTheEnd(s);
      RunInv(s, acts);
      RunConstants(s, acts);
      DoneTotals(RunEnd(s, acts));
    }
  }

  /** A run that has come to its end with equal totals has finished every thread, emptied the
      queue and consumed every produced item exactly once, in the order of production. */
  lemma {:induction false} CompleteRunDeliversAll(s: State, acts: seq<Action>)
    requires Initial(s) && ValidRun(s, acts) && ToProduce(s) == ToConsume(s)
    requires !CanRun(RunEnd(s, acts))
    ensures var e := RunEnd(s, acts);
      AllDone(e) && e.buffer.numOccupied == 0 && e.consumed == e.produced && |e.produced| == ToProduce(s)
  {
    InitialInv(s);
    RunInv(s, acts);
    RunConstants(s, acts);
    StuckIsDone(RunEnd(s, acts));
    DoneTotals(RunEnd(s, acts));
  }
}
