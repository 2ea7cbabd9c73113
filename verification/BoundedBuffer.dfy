/** The bounded buffer of 392/producerconsumer/produceconsume.c as a transition system.

    Any number of producer and consumer threads, each with its own number of items to move, share
    a ring of any positive size under one mutex and two condition variables.  One step is one
    statement of `produce` or `consume` run by one thread; `pthread_cond_wait` is a release
    followed, after a signal or a spurious wakeup, by a fresh acquisition of the mutex. */
module BoundedBuffer {
  import opened Options
  import opened Sums

  /** The expression "a + b" that travels through a queue cell. */
  datatype Item = Expr(a: int, b: int)

  datatype Role = Producer | Consumer

  function Other(r: Role): Role {
    if r == Producer then Consumer else Producer
  }

  /** The statement a thread executes next.  Test is the loop guard, Transfer the access to the
      queue cell, Advance the index update, Count the update of the number of occupied cells. */
  datatype Pc = Test | Lock | Check | Waiting | Woken | Transfer | Advance | Count | Signal | Unlock | Done

  datatype Thread = Thread(role: Role, quota: nat, count: nat, pc: Pc, item: Item)

  /** The globals of the program. */
  datatype Buffer = Buffer(queue: seq<Item>, readIndex: nat, writeIndex: nat, numOccupied: int) {
    predicate WellFormed() {
      readIndex < |queue| && writeIndex < |queue|
    }
  }

  /** `produced` and `consumed` record what was written to and read from the queue, in order. */
  datatype State = State(threads: seq<Thread>, owner: Option<nat>, buffer: Buffer,
                         produced: seq<Item>, consumed: seq<Item>)

  /** Run(t, item, wake): thread t executes its next statement.  `item` is the random expression
      of a new round, `wake` the waiter the scheduler picks when the statement is a signal.
      Spurious(t): thread t returns from its wait without a signal. */
  datatype Action = Run(t: nat, item: Item, wake: nat) | Spurious(t: nat)

  predicate InSection(pc: Pc) {
    pc in {Check, Transfer, Advance, Count, Signal, Unlock}
  }

  predicate MustWait(r: Role, b: Buffer) {
    match r
    case Producer => b.numOccupied >= |b.queue|
    case Consumer => b.numOccupied <= 0
  }

  predicate WaitsFor(th: Thread, r: Role) {
    th.role == r && th.pc == Waiting
  }

  predicate HasWaiter(s: State, r: Role) {
    exists t :: 0 <= t < |s.threads| && WaitsFor(s.threads[t], r)
  }

  predicate Enabled(s: State, a: Action) {
    a.t < |s.threads| && s.buffer.WellFormed() &&
    var th := s.threads[a.t];
    match a
    case Spurious(_) => th.pc == Waiting
    case Run(_, _, wake) =>
      match th.pc
      case Lock => s.owner.None?
      case Woken => s.owner.None?
      case Waiting => false
      case Done => false
      case Signal =>
        HasWaiter(s, Other(th.role)) ==> wake < |s.threads| && WaitsFor(s.threads[wake], Other(th.role))
      case _ => true
  }

  function StoreItem(b: Buffer, item: Item): Buffer
    requires b.WellFormed()
  {
    b.(queue := b.queue[b.writeIndex := item])
  }

  function AdvanceIndex(r: Role, b: Buffer): Buffer
    requires b.WellFormed()
  {
    match r
    case Producer => b.(writeIndex := (b.writeIndex + 1) % |b.queue|)
    case Consumer => b.(readIndex := (b.readIndex + 1) % |b.queue|)
  }

  function UpdateCount(r: Role, b: Buffer): Buffer {
    match r
    case Producer => b.(numOccupied := b.numOccupied + 1)
    case Consumer => b.(numOccupied := b.numOccupied - 1)
  }

  function Goto(s: State, t: nat, pc: Pc): State
    requires t < |s.threads|
  {
    s.(threads := s.threads[t := s.threads[t].(pc := pc)])
  }

  /** The state after an enabled action. */
  function Step(s: State, a: Action): State
    requires Enabled(s, a)
  {
    var th := s.threads[a.t];
    match a
    case Spurious(t) => Goto(s, t, Woken)
    case Run(t, item, wake) =>
      match th.pc
      case Test =>
        var item' := if th.role == Producer then item else th.item;
        var pc' := if th.count < th.quota then Lock else Done;
        s.(threads := s.threads[t := th.(count := th.count + 1, item := item', pc := pc')])
      case Lock => Goto(s, t, Check).(owner := Some(t))
      case Woken => Goto(s, t, Check).(owner := Some(t))
      case Check =>
        if MustWait(th.role, s.buffer) then Goto(s, t, Waiting).(owner := None) else Goto(s, t, Transfer)
      case Transfer =>
        (match th.role
         case Producer =>
           Goto(s, t, Advance).(buffer := StoreItem(s.buffer, th.item), produced := s.produced + [th.item])
         case Consumer =>
           var got := s.buffer.queue[s.buffer.readIndex];
           s.(threads := s.threads[t := th.(pc := Advance, item := got)], consumed := s.consumed + [got]))
      case Advance => Goto(s, t, Count).(buffer := AdvanceIndex(th.role, s.buffer))
      case Count => Goto(s, t, Signal).(buffer := UpdateCount(th.role, s.buffer))
      case Signal =>
        var s' := Goto(s, t, Unlock);
        if HasWaiter(s, Other(th.role)) then Goto(s', wake, Woken) else s'
      case Unlock => Goto(s, t, Test).(owner := None)
      case Waiting => s
      case Done => s
  }

  // ---- Runs -------------------------------------------------------------------------------

  /** All threads are about to start, the queue is empty and the mutex free. */
  predicate Initial(s: State) {
    && s.buffer.WellFormed()
    && s.buffer.readIndex == s.buffer.writeIndex == s.buffer.numOccupied == 0
    && s.owner == None && s.produced == [] && s.consumed == []
    && forall t :: 0 <= t < |s.threads| ==> s.threads[t].pc == Test && s.threads[t].count == 0
  }

  predicate ValidRun(s: State, acts: seq<Action>)
    decreases |acts|
  {
    acts != [] ==> Enabled(s, acts[0]) && ValidRun(Step(s, acts[0]), acts[1..])
  }

  function RunEnd(s: State, acts: seq<Action>): State
    requires ValidRun(s, acts)
    decreases |acts|
  {
    if acts == [] then s else RunEnd(Step(s, acts[0]), acts[1..])
  }

  predicate AllDone(s: State) {
    forall t :: 0 <= t < |s.threads| ==> s.threads[t].pc == Done
  }

  /** Some thread can execute its next statement; spurious wakeups do not count. */
  ghost predicate CanRun(s: State) {
    exists a: Action :: a.Run? && Enabled(s, a)
  }

  function ProducerQuota(th: Thread): int {
    if th.role == Producer then th.quota else 0
  }

  function ConsumerQuota(th: Thread): int {
    if th.role == Consumer then th.quota else 0
  }

  const QUEUELEN: nat := 5
  const MAX_EXPRS: nat := 10

  /** The set-up of `main`: two producers and two consumers with ten items each. */
  predicate InitialProgram(s: State) {
    && Initial(s) && |s.buffer.queue| == QUEUELEN && |s.threads| == 4
    && (forall t :: 0 <= t < 4 ==> s.threads[t].quota == MAX_EXPRS)
    && s.threads[0].role == s.threads[1].role == Producer && s.threads[2].role == s.threads[3].role == Consumer
  }

  /** The number of items all producers together are to write. */
  function ToProduce(s: State): int {
    Sum(ProducerQuota, s.threads)
  }

  function ToConsume(s: State): int {
    Sum(ConsumerQuota, s.threads)
  }
}
