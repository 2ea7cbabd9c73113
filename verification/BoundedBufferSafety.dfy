/** What every step of the bounded buffer keeps: mutual exclusion, first-in first-out order, and
    the bound on the queue that shows that no wakeup is lost. */
module BoundedBufferSafety {
  import opened Options
  import opened Sums
  import opened BoundedBuffer

  // ---- The ring -----------------------------------------------------------------------------

  lemma {:induction false} ModWrap(x: nat, n: nat)
    requires n > 0 && x <= 2 * n
    ensures x % n == if x < n then x else if x < 2 * n then x - n else 0
  {
    if n <= x < 2 * n {
      assert x == n * 1 + (x - n);
    } else if x == 2 * n {
      assert x == n * 2 + 0;
    }
  }

  /** The i-th cell of the ring counted from `start`. */
  function Slot(queue: seq<Item>, start: nat, i: nat): (k: nat)
    requires |queue| > 0
    ensures k < |queue|
  {
    (start + i) % |queue|
  }

  /** The contents of `n` consecutive cells of the ring. */
  function Cells(queue: seq<Item>, start: nat, n: nat): (cs: seq<Item>)
    requires |queue| > 0
  {
    seq(n, i requires 0 <= i < n => queue[Slot(queue, start, i)])
  }

  lemma {:induction false} CellsAppend(queue: seq<Item>, start: nat, n: nat, item: Item)
    requires start < |queue| && n < |queue|
    ensures Cells(queue[Slot(queue, start, n) := item], start, n + 1) == Cells(queue, start, n) + [item]
  {
    var w := Slot(queue, start, n);
    var queue' := queue[w := item];
    forall i | 0 <= i < n + 1
      ensures Cells(queue', start, n + 1)[i] == (Cells(queue, start, n) + [item])[i]
    {
      ModWrap(start + i, |queue|);
      ModWrap(start + n, |queue|);
      assert Slot(queue', start, i) == Slot(queue, start, i);
    }
  }

  lemma {:induction false} CellsDrop(queue: seq<Item>, start: nat, n: nat)
    requires start < |queue| && 0 < n <= |queue|
    ensures Cells(queue, start, n) == [queue[start]] + Cells(queue, (start + 1) % |queue|, n - 1)
  {
    var next := (start + 1) % |queue|;
    ModWrap(start + 1, |queue|);
    forall i | 0 <= i < n
      ensures Cells(queue, start, n)[i] == ([queue[start]] + Cells(queue, next, n - 1))[i]
    {
      ModWrap(start + i, |queue|);
      if i > 0 {
        ModWrap(next + (i - 1), |queue|);
      }
    }
  }

  lemma {:induction false} SlotNext(queue: seq<Item>, start: nat, n: nat)
    requires start < |queue| && n <= |queue|
    ensures Slot(queue, start, n + 1) == (Slot(queue, start, n) + 1) % |queue|
  {
    ModWrap(start + n, |queue|);
    ModWrap(start + n + 1, |queue|);
    ModWrap(Slot(queue, start, n) + 1, |queue|);
  }

  lemma {:induction false} SlotDrop(queue: seq<Item>, start: nat, n: nat)
    requires start < |queue| && 0 < n <= |queue|
    ensures Slot(queue, (start + 1) % |queue|, n - 1) == Slot(queue, start, n)
  {
    ModWrap(start + n, |queue|);
    ModWrap(start + 1, |queue|);
    ModWrap((start + 1) % |queue| + (n - 1), |queue|);
  }

  // ---- The invariant ------------------------------------------------------------------------

  /** How many items the thread has moved so far. */
  function Moved(th: Thread): int {
    if th.pc in {Lock, Check, Waiting, Woken, Transfer, Done} then th.count - 1 else th.count
  }

  function ProducedBy(th: Thread): int {
    if th.role == Producer then Moved(th) else 0
  }

  function ConsumedBy(th: Thread): int {
    if th.role == Consumer then Moved(th) else 0
  }

  /** Promises that the wait of a thread of role `r` will be looked at again: one for each woken
      thread of that role, one for the thread of that role that holds the mutex and has not yet
      changed the count, and one for the thread of the other role that is about to signal. */
  function Credit(r: Role): Thread -> int {
    (th: Thread) =>
      if th.role == r then (if th.pc in {Woken, Check, Transfer, Advance, Count} then 1 else 0)
      else (if th.pc == Signal then 1 else 0)
  }

  /** The items a consumer, or the free cells a producer, could take. */
  function Available(r: Role, b: Buffer): int {
    if r == Consumer then b.numOccupied else |b.queue| - b.numOccupied
  }

  /** If a thread of role `r` waits without having been signalled, then all that it could take
      is promised to threads that will run. */
  ghost predicate NoLostWakeup(s: State, r: Role) {
    HasWaiter(s, r) ==> Available(r, s.buffer) <= Sum(Credit(r), s.threads)
  }

  predicate ThreadOk(th: Thread, b: Buffer) {
    && (th.pc == Test ==> th.count <= th.quota)
    && (th.pc == Done ==> th.count == th.quota + 1)
    && (th.pc !in {Test, Done} ==> 1 <= th.count <= th.quota)
    && (th.pc == Transfer ==> Available(th.role, b) > 0)
  }

  predicate Mutex(s: State) {
    && (s.owner.Some? ==> s.owner.value < |s.threads| && InSection(s.threads[s.owner.value].pc))
    && (forall t :: 0 <= t < |s.threads| && InSection(s.threads[t].pc) ==> s.owner == Some(t))
  }

  predicate HolderAt(s: State, r: Role, pc: Pc) {
    && s.owner.Some? && s.owner.value < |s.threads|
    && s.threads[s.owner.value].role == r && s.threads[s.owner.value].pc == pc
  }

  /** The indices and the count as they will be once the thread inside the critical section has
      caught up with the access it has already made. */
  function LogicalRead(s: State): nat
    requires s.buffer.WellFormed()
  {
    if HolderAt(s, Consumer, Advance) then (s.buffer.readIndex + 1) % |s.buffer.queue| else s.buffer.readIndex
  }

  function LogicalWrite(s: State): nat
    requires s.buffer.WellFormed()
  {
    if HolderAt(s, Producer, Advance) then (s.buffer.writeIndex + 1) % |s.buffer.queue| else s.buffer.writeIndex
  }

  function LogicalCount(s: State): int {
    if HolderAt(s, Producer, Advance) || HolderAt(s, Producer, Count) then s.buffer.numOccupied + 1
    else if HolderAt(s, Consumer, Advance) || HolderAt(s, Consumer, Count) then s.buffer.numOccupied - 1
    else s.buffer.numOccupied
  }

  /** What was produced is what was consumed followed by the occupied cells. */
  predicate Fifo(s: State) {
    && s.buffer.WellFormed()
    && 0 <= LogicalCount(s) <= |s.buffer.queue|
    && LogicalWrite(s) == Slot(s.buffer.queue, LogicalRead(s), LogicalCount(s))
    && s.produced == s.consumed + Cells(s.buffer.queue, LogicalRead(s), LogicalCount(s))
  }

  ghost predicate Inv(s: State) {
    && Fifo(s) && Mutex(s)
    && (forall t :: 0 <= t < |s.threads| ==> ThreadOk(s.threads[t], s.buffer))
    && |s.produced| == Sum(ProducedBy, s.threads)
    && |s.consumed| == Sum(ConsumedBy, s.threads)
    && NoLostWakeup(s, Producer) && NoLostWakeup(s, Consumer)
  }

  lemma {:induction false} InitialInv(s: State)
    requires Initial(s)
    ensures Inv(s)
  {
    SumZero(ProducedBy, s.threads);
    SumZero(ConsumedBy, s.threads);
  }

  // ---- Every step keeps the invariant -------------------------------------------------------

  /** The action is a signal that finds a waiter. */
  predicate Wakes(s: State, a: Action) {
    && a.Run? && a.t < |s.threads| && s.threads[a.t].pc == Signal
    && HasWaiter(s, Other(s.threads[a.t].role))
  }

  /** A step changes the thread that runs and, if it signals, the thread it wakes; no other. */
  lemma {:induction false} StepThreads(s: State, a: Action)
    requires Enabled(s, a)
    ensures var ts, ts' := s.threads, Step(s, a).threads;
      && |ts'| == |ts|
      && ts'[a.t].role == ts[a.t].role && ts'[a.t].quota == ts[a.t].quota
      && (if Wakes(s, a) then
            && a.wake != a.t && WaitsFor(ts[a.wake], Other(ts[a.t].role))
            && ts' == ts[a.t := ts'[a.t]][a.wake := ts[a.wake].(pc := Woken)]
          else ts' == ts[a.t := ts'[a.t]])
  {
  }

  lemma {:induction false} StepSum(f: Thread -> int, s: State, a: Action)
    requires Enabled(s, a)
    ensures |Step(s, a).threads| == |s.threads|
    ensures var ts, ts' := s.threads, Step(s, a).threads;
      Sum(f, ts') == Sum(f, ts) - f(ts[a.t]) + f(ts'[a.t])
                     + (if Wakes(s, a) then f(ts[a.wake].(pc := Woken)) - f(ts[a.wake]) else 0)
  {
    StepThreads(s, a);
    var ts, ts' := s.threads, Step(s, a).threads;
    SumUpdate(f, ts, a.t, ts'[a.t]);
    if Wakes(s, a) {
      SumUpdate(f, ts[a.t := ts'[a.t]], a.wake, ts[a.wake].(pc := Woken));
    }
  }

  lemma {:induction false} StepMutex(s: State, a: Action)
    requires Inv(s) && Enabled(s, a)
    ensures Mutex(Step(s, a))
  {
    StepThreads(s, a);
  }

  lemma {:induction false} StepThreadOk(s: State, a: Action)
    requires Inv(s) && Enabled(s, a)
    ensures var s' := Step(s, a); forall t :: 0 <= t < |s'.threads| ==> ThreadOk(s'.threads[t], s'.buffer)
  {
    StepThreads(s, a);
    var s' := Step(s, a);
    forall t | 0 <= t < |s'.threads| ensures ThreadOk(s'.threads[t], s'.buffer) {
      assert ThreadOk(s.threads[t], s.buffer);
    }
  }

  lemma {:induction false} StepProduced(s: State, a: Action)
    requires Inv(s) && Enabled(s, a)
    ensures |Step(s, a).produced| == Sum(ProducedBy, Step(s, a).threads)
  {
    StepSum(ProducedBy, s, a);
    assert ThreadOk(s.threads[a.t], s.buffer);
  }

  lemma {:induction false} StepConsumed(s: State, a: Action)
    requires Inv(s) && Enabled(s, a)
    ensures |Step(s, a).consumed| == Sum(ConsumedBy, Step(s, a).threads)
  {
    StepSum(ConsumedBy, s, a);
    assert ThreadOk(s.threads[a.t], s.buffer);
  }

  lemma {:induction false} CreditNonNegative(s: State, r: Role)
    ensures 0 <= Sum(Credit(r), s.threads)
  {
    SumNonNegative(Credit(r), s.threads);
  }

  /** Only the count statement changes what is available. */
  lemma {:induction false} StepAvailable(s: State, a: Action, r: Role)
    requires Enabled(s, a)
    ensures var b, b' := s.buffer, Step(s, a).buffer;
      Available(r, b') == Available(r, b)
        + (if a.Run? && s.threads[a.t].pc == Count then (if s.threads[a.t].role == r then -1 else 1) else 0)
  {
  }

  /** What becomes available is matched by a new credit, and a credit is given up only for a
      signal to the waiter it was kept for. */
  lemma {:induction false} StepCredit(s: State, a: Action, r: Role)
    requires Inv(s) && Enabled(s, a) && HasWaiter(s, r)
    requires !(a.Run? && s.threads[a.t].pc == Check && MustWait(s.threads[a.t].role, s.buffer))
    ensures Available(r, Step(s, a).buffer) - Available(r, s.buffer)
         <= Sum(Credit(r), Step(s, a).threads) - Sum(Credit(r), s.threads)
  {
    StepThreads(s, a);
    StepAvailable(s, a, r);
    StepSum(Credit(r), s, a);
  }

  lemma {:induction false} StepNoLostWakeup(s: State, a: Action, r: Role)
    requires Inv(s) && Enabled(s, a)
    ensures NoLostWakeup(Step(s, a), r)
  {
    var s' := Step(s, a);
    var th := s.threads[a.t];
    CreditNonNegative(s', r);
    if a.Run? && th.pc == Check && MustWait(th.role, s.buffer) {
      if th.role == r {
        assert Available(r, s'.buffer) <= 0;
      } else {
        StepSum(Credit(r), s, a);
        if HasWaiter(s', r) {
          NoNewWaiter(s, a, r);
        }
      }
    } else if HasWaiter(s', r) {
      NoNewWaiter(s, a, r);
      StepCredit(s, a, r);
    }
  }

  /** Only a thread whose check fails starts to wait. */
  lemma {:induction false} NoNewWaiter(s: State, a: Action, r: Role)
    requires Inv(s) && Enabled(s, a) && HasWaiter(Step(s, a), r)
    requires !(a.Run? && s.threads[a.t].pc == Check && MustWait(s.threads[a.t].role, s.buffer)
               && s.threads[a.t].role == r)
    ensures HasWaiter(s, r)
  {
    StepThreads(s, a);
    var s' := Step(s, a);
    var w :| 0 <= w < |s'.threads| && WaitsFor(s'.threads[w], r);
    assert WaitsFor(s.threads[w], r);
  }

  /** The ring and the histories are seen through the thread that holds the mutex. */
  lemma {:induction false} SameHolderFifo(s: State, s': State)
    requires Fifo(s) && s'.buffer == s.buffer && s'.produced == s.produced && s'.consumed == s.consumed
    requires forall r, pc :: pc in {Advance, Count} ==> (HolderAt(s', r, pc) <==> HolderAt(s, r, pc))
    ensures Fifo(s')
  {
  }

  /** A step of a thread outside the critical section does not touch the queue. */
  lemma {:induction false} StepFifoOutside(s: State, a: Action)
    requires Inv(s) && Enabled(s, a) && !(a.Run? && InSection(s.threads[a.t].pc))
    ensures Fifo(Step(s, a))
  {
    StepThreads(s, a);
    var s' := Step(s, a);
    if s.owner.Some? {
      assert s.owner.value != a.t;
      assert s'.threads[s.owner.value] == s.threads[s.owner.value];
    }
    SameHolderFifo(s, s');
  }

  lemma {:induction false} ProducerTransferFifo(s: State, a: Action)
    requires Inv(s) && Enabled(s, a) && a.Run? && s.threads[a.t].pc == Transfer && s.threads[a.t].role == Producer
    ensures Fifo(Step(s, a))
  {
    var q, read, n := s.buffer.queue, LogicalRead(s), LogicalCount(s);
    var th := s.threads[a.t];
    assert s.owner == Some(a.t) && ThreadOk(th, s.buffer);
    SlotNext(q, read, n);
    CellsAppend(q, read, n, th.item);
  }

  lemma {:induction false} ConsumerTransferFifo(s: State, a: Action)
    requires Inv(s) && Enabled(s, a) && a.Run? && s.threads[a.t].pc == Transfer && s.threads[a.t].role == Consumer
    ensures Fifo(Step(s, a))
  {
    var q, read, n := s.buffer.queue, LogicalRead(s), LogicalCount(s);
    assert s.owner == Some(a.t) && ThreadOk(s.threads[a.t], s.buffer);
    SlotDrop(q, read, n);
    CellsDrop(q, read, n);
  }

  /** The index and count updates catch up with the access: the logical ring stays the same. */
  lemma {:induction false} CatchUpFifo(s: State, a: Action)
    requires Inv(s) && Enabled(s, a) && a.Run? && s.threads[a.t].pc in {Advance, Count}
    ensures Fifo(Step(s, a))
  {
    var s' := Step(s, a);
    assert s.owner == Some(a.t);
    assert LogicalRead(s') == LogicalRead(s) && LogicalWrite(s') == LogicalWrite(s);
    assert LogicalCount(s') == LogicalCount(s);
  }

  lemma {:induction false} NoAccessFifo(s: State, a: Action)
    requires Inv(s) && Enabled(s, a) && a.Run? && s.threads[a.t].pc in {Check, Signal, Unlock}
    ensures Fifo(Step(s, a))
  {
    StepThreads(s, a);
    assert s.owner == Some(a.t);
    SameHolderFifo(s, Step(s, a));
  }

  lemma {:induction false} StepFifo(s: State, a: Action)
    requires Inv(s) && Enabled(s, a)
    ensures Fifo(Step(s, a))
  {
    if !(a.Run? && InSection(s.threads[a.t].pc)) {
      StepFifoOutside(s, a);
    } else if s.threads[a.t].pc == Transfer {
      if s.threads[a.t].role == Producer {
        ProducerTransferFifo(s, a);
      } else {
        ConsumerTransferFifo(s, a);
      }
    } else if s.threads[a.t].pc in {Advance, Count} {
      CatchUpFifo(s, a);
    } else {
      NoAccessFifo(s, a);
    }
  }

  lemma {:induction false} StepInv(s: State, a: Action)
    requires Inv(s) && Enabled(s, a)
    ensures Inv(Step(s, a))
  {
    StepMutex(s, a);
    StepThreadOk(s, a);
    StepProduced(s, a);
    StepConsumed(s, a);
    StepNoLostWakeup(s, a, Producer);
    StepNoLostWakeup(s, a, Consumer);
    StepFifo(s, a);
  }

  /** The invariant holds at the end of every run from a state in which it holds. */
  lemma {:induction false} RunInv(s: State, acts: seq<Action>)
    requires Inv(s) && ValidRun(s, acts)
    ensures Inv(RunEnd(s, acts))
    decreases |acts|
  {
    if acts != [] {
      StepInv(s, acts[0]);
      RunInv(Step(s, acts[0]), acts[1..]);
    }
  }
}
