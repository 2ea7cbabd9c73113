/** The shared counter of sharedmem/sleepingprocesses.c: a parent forks children and counts them,
    each child counts itself out, and a semaphore (sharedmem/semaphore.c) guards every load and
    store of the counter. */
module ForkCounter {
  import opened Sums

  /** What a process does next to the counter: down on the semaphore, load, store of the loaded
      value changed by one, up on the semaphore. */
  datatype Access = Down | Load | Store(register: int) | Up

  datatype Child = Asleep | Counting(access: Access) | Exited | Reaped

  /** The parent in its fork loop, counting a child it has started, in its wait loop, or done. */
  datatype Parent = Forking | CountingIn(access: Access) | Waiting | Done

  /** `tried` is the number of completed rounds of the fork loop, `waited` of the wait loop;
      `failedWaits` of the latter had no child to show. */
  datatype State = State(numProcesses: nat, parent: Parent, tried: nat, waited: nat, failedWaits: nat,
                         children: seq<Child>, semaphore: nat, numRunning: int)

  datatype Action = Fork | ForkFails | ParentStep | ChildStep(k: nat) | WaitReaps(k: nat) | WaitFails

  // ---- The semaphore ------------------------------------------------------------------------

  /** `P` with a positive value takes one; with value 0 the caller is blocked. */
  predicate Blocked(a: Access, semaphore: nat) {
    a.Down? && semaphore == 0
  }

  function AfterAccess(a: Access, semaphore: nat): nat
    requires !Blocked(a, semaphore)
  {
    match a
    case Down => semaphore - 1
    case Up => semaphore + 1
    case _ => semaphore
  }

  // ---- The steps ----------------------------------------------------------------------------

  predicate Enabled(s: State, a: Action) {
    match a
    case Fork => s.parent.Forking? && s.tried < s.numProcesses
    case ForkFails => s.parent.Forking? && s.tried < s.numProcesses
    case ParentStep =>
      (match s.parent
       case Forking => s.tried == s.numProcesses
       case CountingIn(access) => !Blocked(access, s.semaphore)
       case Waiting => s.waited == |s.children|
       case Done => false)
    case ChildStep(k) =>
      k < |s.children| &&
      (match s.children[k]
       case Asleep => true
       case Counting(access) => !Blocked(access, s.semaphore)
       case _ => false)
    case WaitReaps(k) => s.parent.Waiting? && s.waited < |s.children| && k < |s.children| && s.children[k].Exited?
    case WaitFails => s.parent.Waiting? && s.waited < |s.children|
  }

  function Step(s: State, a: Action): State
    requires Enabled(s, a)
  {
    match a
    case Fork => s.(parent := CountingIn(Down), children := s.children + [Asleep])
    case ForkFails => s.(tried := s.tried + 1)
    case ParentStep =>
      (match s.parent
       case Forking => s.(parent := Waiting)
       case CountingIn(access) =>
         var t := s.(semaphore := AfterAccess(access, s.semaphore));
         (match access
          case Down => t.(parent := CountingIn(Load))
          case Load => t.(parent := CountingIn(Store(s.numRunning)))
          case Store(r) => t.(parent := CountingIn(Up), numRunning := r + 1)
          case Up => t.(parent := Forking, tried := s.tried + 1))
       case Waiting => s.(parent := Done)
       case Done => s)
    case ChildStep(k) =>
      (match s.children[k]
       case Asleep => s.(children := s.children[k := Counting(Down)])
       case Counting(access) =>
         var t := s.(semaphore := AfterAccess(access, s.semaphore));
         (match access
          case Down => t.(children := s.children[k := Counting(Load)])
          case Load => t.(children := s.children[k := Counting(Store(s.numRunning))])
          case Store(r) => t.(children := s.children[k := Counting(Up)], numRunning := r - 1)
          case Up => t.(children := s.children[k := Exited]))
       case _ => s)
    case WaitReaps(k) => s.(children := s.children[k := Reaped], waited := s.waited + 1)
    case WaitFails => s.(waited := s.waited + 1, failedWaits := s.failedWaits + 1)
  }

  predicate Initial(s: State) {
    && s.parent.Forking? && s.tried == s.waited == s.failedWaits == 0
    && s.children == [] && s.semaphore == 1 && s.numRunning == 0
  }

  predicate ValidRun(s: State, acts: seq<Action>)
    decreases |acts|
  {
    acts != [] ==> Enabled(s, acts[0]) && ValidRun(Step(s, acts[0]), acts[1..])
  }

  function RunEnd(s: State, acts: seq<Action>): State
    requires ValidRun(s, acts)
    decreases |acts|
  {
    if acts == [] then s else RunEnd(Step(s, acts[0]), acts[1..])
  }

  // ---- The invariant ------------------------------------------------------------------------

  function InSection(a: Access): int {
    if a.Down? then 0 else 1
  }

  function ChildInSection(c: Child): int {
    if c.Counting? then InSection(c.access) else 0
  }

  function ParentInSection(p: Parent): int {
    if p.CountingIn? then InSection(p.access) else 0
  }

  /** Whether the child has counted itself out. */
  function CountedOut(c: Child): int {
    if c.Exited? || c.Reaped? || c == Counting(Up) then 1 else 0
  }

  function IsReaped(c: Child): int {
    if c.Reaped? then 1 else 0
  }

  /** The children that the parent has started but not counted yet: none or one. */
  function Uncounted(p: Parent): int {
    if p.CountingIn? && !p.access.Up? then 1 else 0
  }

  predicate RegistersCurrent(s: State) {
    && (s.parent.CountingIn? && s.parent.access.Store? ==> s.parent.access.register == s.numRunning)
    && (forall k :: 0 <= k < |s.children| && s.children[k].Counting? && s.children[k].access.Store? ==>
          s.children[k].access.register == s.numRunning)
  }

  /** What the semaphore, the counter and the waits amount to. */
  predicate Totals(s: State) {
    && s.semaphore + ParentInSection(s.parent) + Sum(ChildInSection, s.children) == 1
    && s.numRunning == |s.children| - Uncounted(s.parent) - Sum(CountedOut, s.children)
    && Sum(IsReaped, s.children) == s.waited - s.failedWaits
  }

  /** Where the parent is in its two loops. */
  predicate Rounds(s: State) {
    && s.tried + (if s.parent.CountingIn? then 1 else 0) <= s.numProcesses
    && |s.children| <= s.tried + (if s.parent.CountingIn? then 1 else 0)
    && s.waited <= |s.children| && (s.parent.Forking? || s.parent.CountingIn? ==> s.waited == 0)
    && (s.parent.Done? ==> s.waited == |s.children|)
  }

  predicate Inv(s: State) {
    Totals(s) && RegistersCurrent(s) && Rounds(s)
  }

  lemma {:induction false} InitialInv(s: State)
    requires Initial(s)
    ensures Inv(s)
  {
  }

  /** While one child is in the critical section, no other process is, and the value is 0. */
  lemma {:induction false} OnlyOneInSection(s: State, k: nat)
    requires Inv(s) && k < |s.children| && ChildInSection(s.children[k]) == 1
    ensures s.semaphore == 0 && ParentInSection(s.parent) == 0
    ensures forall j :: 0 <= j < |s.children| && j != k ==> ChildInSection(s.children[j]) == 0
  {
    var without := s.children[k := Asleep];
    SumUpdate(ChildInSection, s.children, k, Asleep);
    SumNonNegative(ChildInSection, without);
    forall j | 0 <= j < |s.children| && j != k ensures ChildInSection(s.children[j]) == 0 {
      SumUpdate(ChildInSection, without, j, Asleep);
      SumNonNegative(ChildInSection, without[j := Asleep]);
    }
  }

  /** While the parent is in the critical section no child is. */
  lemma {:induction false} OnlyParentInSection(s: State)
    requires Inv(s) && ParentInSection(s.parent) == 1
    ensures s.semaphore == 0 && forall j :: 0 <= j < |s.children| ==> ChildInSection(s.children[j]) == 0
  {
    forall j | 0 <= j < |s.children| ensures ChildInSection(s.children[j]) == 0 {
      SumUpdate(ChildInSection, s.children, j, Asleep);
      SumNonNegative(ChildInSection, s.children[j := Asleep]);
    }
    SumNonNegative(ChildInSection, s.children);
  }

  lemma {:induction false} ChildStepInv(s: State, k: nat, c: Child)
    requires Inv(s) && (Enabled(s, ChildStep(k)) || Enabled(s, WaitReaps(k)))
    ensures Sum(ChildInSection, s.children[k := c])
         == Sum(ChildInSection, s.children) - ChildInSection(s.children[k]) + ChildInSection(c)
    ensures Sum(CountedOut, s.children[k := c])
         == Sum(CountedOut, s.children) - CountedOut(s.children[k]) + CountedOut(c)
    ensures Sum(IsReaped, s.children[k := c])
         == Sum(IsReaped, s.children) - IsReaped(s.children[k]) + IsReaped(c)
  {
    SumUpdate(ChildInSection, s.children, k, c);
    SumUpdate(CountedOut, s.children, k, c);
    SumUpdate(IsReaped, s.children, k, c);
  }

  lemma {:induction false} ParentStepInv(s: State)
    requires Inv(s) && Enabled(s, ParentStep)
    ensures Inv(Step(s, ParentStep))
  {
    if ParentInSection(s.parent) == 1 {
      OnlyParentInSection(s);
    }
  }

  lemma {:induction false} ChildKeepsRegisters(s: State, k: nat)
    requires Inv(s) && Enabled(s, ChildStep(k))
    ensures RegistersCurrent(Step(s, ChildStep(k)))
  {
    if ChildInSection(s.children[k]) == 1 {
      OnlyOneInSection(s, k);
    }
  }

  lemma {:induction false} ForkInv(s: State)
    requires Inv(s) && Enabled(s, Fork)
    ensures Inv(Step(s, Fork))
  {
    SumAppend(ChildInSection, s.children, [Asleep]);
    SumAppend(CountedOut, s.children, [Asleep]);
    SumAppend(IsReaped, s.children, [Asleep]);
  }

  /** A child that is asleep or takes or gives up the semaphore leaves the counter alone. */
  lemma {:induction false} ChildKeepsCounter(s: State, k: nat)
    requires Inv(s) && Enabled(s, ChildStep(k)) && !(s.children[k].Counting? && s.children[k].access.Store?)
    ensures Totals(Step(s, ChildStep(k)))
  {
    ChildStepInv(s, k, Step(s, ChildStep(k)).children[k]);
  }

  /** A child that stores has counted itself out. */
  lemma {:induction false} ChildCountsOut(s: State, k: nat)
    requires Inv(s) && Enabled(s, ChildStep(k)) && s.children[k].Counting? && s.children[k].access.Store?
    ensures Totals(Step(s, ChildStep(k)))
  {
    ChildStepInv(s, k, Counting(Up));
  }

  lemma {:induction false} ChildKeepsTotals(s: State, k: nat)
    requires Inv(s) && Enabled(s, ChildStep(k))
    ensures Totals(Step(s, ChildStep(k)))
  {
    if s.children[k].Counting? && s.children[k].access.Store? {
      ChildCountsOut(s, k);
    } else {
      ChildKeepsCounter(s, k);
    }
  }

  lemma {:induction false} ChildInv(s: State, k: nat)
    requires Inv(s) && Enabled(s, ChildStep(k))
    ensures Inv(Step(s, ChildStep(k)))
  {
    ChildKeepsTotals(s, k);
    ChildKeepsRegisters(s, k);
    assert Rounds(Step(s, ChildStep(k)));
  }

  lemma {:induction false} WaitInv(s: State, k: nat)
    requires Inv(s) && Enabled(s, WaitReaps(k))
    ensures Inv(Step(s, WaitReaps(k)))
  {
    ChildStepInv(s, k, Reaped);
  }

  lemma {:induction false} StepInv(s: State, a: Action)
    requires Inv(s) && Enabled(s, a)
    ensures Inv(Step(s, a))
  {
    match a
    case Fork => ForkInv(s);
    case ParentStep => ParentStepInv(s);
    case ChildStep(k) => ChildInv(s, k);
    case WaitReaps(k) => WaitInv(s, k);
    case _ =>
  }

  lemma {:induction false} RunInv(s: State, acts: seq<Action>)
    requires Inv(s) && ValidRun(s, acts)
    ensures Inv(RunEnd(s, acts)) && RunEnd(s, acts).numProcesses == s.numProcesses
    decreases |acts|
  {
    if acts != [] {
      StepInv(s, acts[0]);
      RunInv(Step(s, acts[0]), acts[1..]);
    }
  }

  // ---- The results --------------------------------------------------------------------------

  lemma {:induction false} CountedOutBounds(cs: seq<Child>)
    ensures 0 <= Sum(IsReaped, cs) <= Sum(CountedOut, cs) <= |cs|
    ensures Sum(CountedOut, cs) == |cs| <==> forall k :: 0 <= k < |cs| ==> CountedOut(cs[k]) == 1
  {
    if cs != [] {
      CountedOutBounds(cs[1..]);
      if Sum(CountedOut, cs) == |cs| {
        forall k | 0 <= k < |cs| ensures CountedOut(cs[k]) == 1 {
          assert k > 0 ==> cs[k] == cs[1..][k - 1];
        }
      }
    }
  }

  /** At every moment of every run: the semaphore is 0 or 1, and is 0 exactly when some process is
      between its down and its up; and the counter lies between -1 and the number of processes. */
  lemma {:induction false} CounterStaysInRange(s: State, acts: seq<Action>)
    requires Initial(s) && ValidRun(s, acts)
    ensures var e := RunEnd(s, acts);
      && 0 <= e.semaphore <= 1
      && e.semaphore == 1 - ParentInSection(e.parent) - Sum(ChildInSection, e.children)
      && -1 <= e.numRunning <= s.numProcesses
  {
    InitialInv(s);
    RunInv(s, acts);
    var e := RunEnd(s, acts);
    SumNonNegative(ChildInSection, e.children);
    CountedOutBounds(e.children);
  }

  /** The lower bound is reached: a child may count itself out before the parent has counted it in. */
  lemma {:induction false} CounterCanBeNegative(s: State) returns (acts: seq<Action>)
    requires Initial(s) && s.numProcesses > 0
    ensures ValidRun(s, acts) && RunEnd(s, acts).numRunning == -1
  {
    var s1 := Step(s, Fork);
    var s2 := Step(s1, ChildStep(0));
    var s3 := Step(s2, ChildStep(0));
    var s4 := Step(s3, ChildStep(0));
    var s5 := Step(s4, ChildStep(0));
    acts := [Fork, ChildStep(0), ChildStep(0), ChildStep(0), ChildStep(0)];
    assert ValidRun(s5, []) && RunEnd(s5, []) == s5;
    assert acts[4..][1..] == [] && ValidRun(s4, acts[4..]) && RunEnd(s4, acts[4..]) == s5;
    assert acts[3..][1..] == acts[4..] && ValidRun(s3, acts[3..]) && RunEnd(s3, acts[3..]) == s5;
    assert acts[2..][1..] == acts[3..] && ValidRun(s2, acts[2..]) && RunEnd(s2, acts[2..]) == s5;
    assert acts[1..][1..] == acts[2..] && ValidRun(s1, acts[1..]) && RunEnd(s1, acts[1..]) == s5;
  }

  /** The counter is negative exactly while the parent has started a child that it has not counted yet
      and all children, that one too, have counted themselves out. */
  lemma {:induction false} CounterNegativeExactly(s: State, acts: seq<Action>)
    requires Initial(s) && ValidRun(s, acts)
    ensures var e := RunEnd(s, acts);
      e.numRunning < 0
      <==> Uncounted(e.parent) == 1 && forall k :: 0 <= k < |e.children| ==> CountedOut(e.children[k]) == 1
  {
    InitialInv(s);
    RunInv(s, acts);
    CountedOutBounds(RunEnd(s, acts).children);
  }

  /** When the parent is done the counter is the number of started children that have not counted
      themselves out, so it is 0 exactly when all of them have; and if no wait has failed it is 0. */
  lemma {:induction false} CounterAtTheEnd(s: State, acts: seq<Action>)
    requires Initial(s) && ValidRun(s, acts) && RunEnd(s, acts).parent.Done?
    ensures var e := RunEnd(s, acts);
      && 0 <= e.numRunning == |e.children| - Sum(CountedOut, e.children)
      && (e.numRunning == 0 <==> forall k :: 0 <= k < |e.children| ==> CountedOut(e.children[k]) == 1)
      && (e.failedWaits == 0 ==> e.numRunning == 0)
  {
    InitialInv(s);
    RunInv(s, acts);
    CountedOutBounds(RunEnd(s, acts).children);
  }

  // ---- How many children there are ----------------------------------------------------------

  function FailedForks(acts: seq<Action>): nat {
    if acts == [] then 0 else (if acts[0].ForkFails? then 1 else 0) + FailedForks(acts[1..])
  }

  /** The children counted so far and the forks that have failed are the rounds completed. */
  predicate AllTried(s: State, failed: nat) {
    && |s.children| + failed == s.tried + (if s.parent.CountingIn? then 1 else 0)
    && (s.parent.Waiting? || s.parent.Done? ==> s.tried == s.numProcesses)
  }

  lemma {:induction false} StepTried(s: State, a: Action, failed: nat)
    requires AllTried(s, failed) && Enabled(s, a)
    ensures AllTried(Step(s, a), failed + (if a.ForkFails? then 1 else 0))
    ensures Step(s, a).numProcesses == s.numProcesses
  {
  }

  lemma {:induction false} RunTried(s: State, acts: seq<Action>, failed: nat)
    requires AllTried(s, failed) && ValidRun(s, acts)
    ensures AllTried(RunEnd(s, acts), failed + FailedForks(acts))
    ensures RunEnd(s, acts).numProcesses == s.numProcesses
    decreases |acts|
  {
    if acts != [] {
      StepTried(s, acts[0], failed);
      RunTried(Step(s, acts[0]), acts[1..], failed + (if acts[0].ForkFails? then 1 else 0));
    }
  }

  /** When the parent has left its fork loop, every fork that did not fail has started a child; and
      when it is done it has waited once for each of them. */
  lemma {:induction false} ForkLoopStartsAll(s: State, acts: seq<Action>)
    requires Initial(s) && ValidRun(s, acts)
    requires RunEnd(s, acts).parent.Waiting? || RunEnd(s, acts).parent.Done?
    ensures var e := RunEnd(s, acts);
      && |e.children| + FailedForks(acts) == s.numProcesses
      && (e.parent.Done? ==> e.waited == |e.children|)
      && Sum(IsReaped, e.children) == e.waited - e.failedWaits
  {
    InitialInv(s);
    RunInv(s, acts);
    RunTried(s, acts, 0);
  }

  // ---- Progress -----------------------------------------------------------------------------

  function Rest(a: Access): int {
    match a case Down => 4 case Load => 3 case Store(_) => 2 case Up => 1
  }

  function ChildRest(c: Child): int {
    match c case Asleep => 7 case Counting(a) => 1 + Rest(a) + 1 case Exited => 1 case Reaped => 0
  }

  function ParentRest(s: State): int {
    (match s.parent case Forking => 2 case CountingIn(a) => 2 + Rest(a) case Waiting => 1 case Done => 0)
  }

  function Measure(s: State): int {
    21 * (s.numProcesses - s.tried - if s.parent.CountingIn? then 1 else 0)
    + ParentRest(s) + 2 * Sum(ChildRest, s.children) + |s.children| - s.waited
  }

  lemma {:induction false} SomeInSection(cs: seq<Child>)
    requires Sum(ChildInSection, cs) > 0
    ensures exists k :: 0 <= k < |cs| && ChildInSection(cs[k]) == 1
  {
    if ChildInSection(cs[0]) != 1 {
      SomeInSection(cs[1..]);
      var k :| 0 <= k < |cs| - 1 && ChildInSection(cs[1..][k]) == 1;
      assert ChildInSection(cs[k + 1]) == 1;
    }
  }

  lemma {:induction false} SomeNotReaped(cs: seq<Child>)
    requires Sum(IsReaped, cs) < |cs|
    ensures exists k :: 0 <= k < |cs| && IsReaped(cs[k]) == 0
  {
    if IsReaped(cs[0]) != 0 {
      SomeNotReaped(cs[1..]);
      var k :| 0 <= k < |cs| - 1 && IsReaped(cs[1..][k]) == 0;
      assert IsReaped(cs[k + 1]) == 0;
    }
  }

  lemma {:induction false} ChildStepLocal(s: State, k: nat)
    requires Enabled(s, ChildStep(k))
    ensures var s' := Step(s, ChildStep(k));
      && s'.numProcesses == s.numProcesses && s'.tried == s.tried && s'.waited == s.waited && s'.parent == s.parent
      && s'.children == s.children[k := s'.children[k]] && ChildRest(s'.children[k]) < ChildRest(s.children[k])
  {
  }

  lemma {:induction false} ChildMeasure(s: State, k: nat)
    requires Enabled(s, ChildStep(k))
    ensures Measure(Step(s, ChildStep(k))) < Measure(s)
  {
    ChildStepLocal(s, k);
    SumUpdate(ChildRest, s.children, k, Step(s, ChildStep(k)).children[k]);
  }

  lemma {:induction false} StepMeasure(s: State, a: Action)
    requires Inv(s) && Enabled(s, a)
    ensures Measure(Step(s, a)) < Measure(s)
  {
    match a
    case Fork => SumAppend(ChildRest, s.children, [Asleep]);
    case ChildStep(k) => ChildMeasure(s, k);
    case WaitReaps(k) => SumUpdate(ChildRest, s.children, k, Reaped);
    case _ =>
  }

  /** A process that is blocked waits for a child that can run, or for the parent. */
  lemma {:induction false} NotAllBlocked(s: State)
    requires Inv(s) && s.semaphore == 0 && ParentInSection(s.parent) == 0
    ensures exists k: nat :: Enabled(s, ChildStep(k))
  {
    SomeInSection(s.children);
    var k: nat :| k < |s.children| && ChildInSection(s.children[k]) == 1;
    assert Enabled(s, ChildStep(k));
  }

  predicate FailingCall(a: Action) {
    a.ForkFails? || a.WaitFails?
  }

  /** Every step lowers the measure; and until the parent is done some step other than a failing
      call is possible: no process can be blocked for ever. */
  lemma {:induction false} Progress(s: State)
    requires Inv(s)
    ensures Measure(s) >= 0
    ensures forall a :: Enabled(s, a) ==> Measure(Step(s, a)) < Measure(s)
    ensures !s.parent.Done? ==> exists a :: Enabled(s, a) && !FailingCall(a)
  {
    SumNonNegative(ChildRest, s.children);
    forall a | Enabled(s, a) ensures Measure(Step(s, a)) < Measure(s) {
      StepMeasure(s, a);
    }
    if s.parent.Forking? && s.tried < s.numProcesses {
      assert Enabled(s, Fork);
    } else if Enabled(s, ParentStep) {
    } else if s.parent.CountingIn? {
      NotAllBlocked(s);
    } else if s.parent.Waiting? {
      SomeNotReaped(s.children);
      var k: nat :| k < |s.children| && IsReaped(s.children[k]) == 0;
      if s.children[k].Exited? {
        assert Enabled(s, WaitReaps(k));
      } else if s.children[k].Counting? && Blocked(s.children[k].access, s.semaphore) {
        NotAllBlocked(s);
      } else {
        assert Enabled(s, ChildStep(k));
      }
    }
  }

  lemma {:induction false} RunLength(s: State, acts: seq<Action>)
    requires Inv(s) && ValidRun(s, acts)
    ensures |acts| + Measure(RunEnd(s, acts)) <= Measure(s)
    decreases |acts|
  {
    if acts != [] {
      StepMeasure(s, acts[0]);
      StepInv(s, acts[0]);
      RunLength(Step(s, acts[0]), acts[1..]);
    }
  }

  /** Every run has at most 21 steps for each process and two more. */
  lemma {:induction false} RunsTerminate(s: State, acts: seq<Action>)
    requires Initial(s) && ValidRun(s, acts)
    ensures |acts| <= 21 * s.numProcesses + 2
  {
    InitialInv(s);
    RunInv(s, acts);
    RunLength(s, acts);
    Progress(RunEnd(s, acts));
  }

  lemma {:induction false} StepFirst(s: State, a: Action, rest: seq<Action>)
    requires Enabled(s, a) && ValidRun(Step(s, a), rest)
    ensures ValidRun(s, [a] + rest) && RunEnd(s, [a] + rest) == RunEnd(Step(s, a), rest)
  {
    assert ([a] + rest)[1..] == rest;
  }

  lemma {:induction false} NoWaitFailed(s: State, a: Action)
    requires Enabled(s, a) && !FailingCall(a)
    ensures Step(s, a).failedWaits == s.failedWaits
  {
  }

  /** Any run can be continued, without failing calls, until the parent is done. */
  lemma {:induction false} RunToTheEnd(s: State) returns (acts: seq<Action>)
    requires Inv(s)
    ensures ValidRun(s, acts) && RunEnd(s, acts).parent.Done? && RunEnd(s, acts).failedWaits == s.failedWaits
    ensures forall i :: 0 <= i < |acts| ==> !FailingCall(acts[i])
    decreases Measure(s)
  {
    Progress(s);
    if s.parent.Done? {
      acts := [];
    } else {
      var a :| Enabled(s, a) && !FailingCall(a);
      StepInv(s, a);
      Progress(Step(s, a));
      NoWaitFailed(s, a);
      var rest := RunToTheEnd(Step(s, a));
      StepFirst(s, a, rest);
      acts := [a] + rest;
    }
  }

  lemma {:induction false} NoForkFailed(acts: seq<Action>)
    requires forall i :: 0 <= i < |acts| ==> !FailingCall(acts[i])
    ensures FailedForks(acts) == 0
  {
    if acts != [] {
      NoForkFailed(acts[1..]);
    }
  }

  /** From every reachable state the program can come to its end, with a child for every fork that has
      not failed so far; if no wait has failed the counter is then 0. */
  lemma {:induction false} EndIsReachable(s: State, acts: seq<Action>) returns (more: seq<Action>)
    requires Initial(s) && ValidRun(s, acts)
    ensures ValidRun(RunEnd(s, acts), more) && RunEnd(RunEnd(s, acts), more).parent.Done?
    ensures |RunEnd(RunEnd(s, acts), more).children| == s.numProcesses - FailedForks(acts)
    ensures RunEnd(s, acts).failedWaits == 0 ==> RunEnd(RunEnd(s, acts), more).numRunning == 0
  {
    InitialInv(s);
    RunInv(s, acts);
    more := RunToTheEnd(RunEnd(s, acts));
    RunInv(RunEnd(s, acts), more);
    CountedOutBounds(RunEnd(RunEnd(s, acts), more).children);
    NoForkFailed(more);
    RunTried(s, acts, 0);
    RunTried(RunEnd(s, acts), more, FailedForks(acts));
  }
}
