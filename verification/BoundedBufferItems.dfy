/** Which items travel through the bounded buffer: each producer writes what it has drawn, in the
    order of drawing, and what the consumers get out of the cells is what they read. */
module BoundedBufferItems {
  import opened Options
  import opened Sums
  import opened Mapping
  import opened BoundedBuffer
  import opened BoundedBufferSafety
  import opened BoundedBufferLiveness

  /** Thread `thread` has drawn, written or read `item`. */
  datatype Access = Access(thread: nat, item: Item)

  // ---- The logs of a run --------------------------------------------------------------------

  /** Lines 63 to 65: a producer with a round to go draws the expression of the action. */
  function DrawStep(s: State, a: Action): seq<Access>
    requires Enabled(s, a)
  {
    var th := s.threads[a.t];
    if a.Run? && th.role == Producer && th.pc == Test && th.count < th.quota then [Access(a.t, a.item)] else []
  }

  /** Line 76: the item that a producer's access to the cell adds to what has been produced. */
  function WriteStep(s: State, a: Action): seq<Access>
    requires Enabled(s, a)
  {
    var s' := Step(s, a);
    if |s.produced| < |s'.produced| then [Access(a.t, s'.produced[|s.produced|])] else []
  }

  /** Lines 43 and 44: what a consumer has in its variables after its access to the cell. */
  function ReadStep(s: State, a: Action): seq<Access>
    requires Enabled(s, a)
  {
    var th := s.threads[a.t];
    if a.Run? && th.role == Consumer && th.pc == Transfer && a.t < |Step(s, a).threads| then
      [Access(a.t, Step(s, a).threads[a.t].item)]
    else
      []
  }

  function Draws(s: State, acts: seq<Action>): seq<Access>
    requires ValidRun(s, acts)
    decreases |acts|
  {
    if acts == [] then [] else DrawStep(s, acts[0]) + Draws(Step(s, acts[0]), acts[1..])
  }

  function Writes(s: State, acts: seq<Action>): seq<Access>
    requires ValidRun(s, acts)
    decreases |acts|
  {
    if acts == [] then [] else WriteStep(s, acts[0]) + Writes(Step(s, acts[0]), acts[1..])
  }

  function Reads(s: State, acts: seq<Action>): seq<Access>
    requires ValidRun(s, acts)
    decreases |acts|
  {
    if acts == [] then [] else ReadStep(s, acts[0]) + Reads(Step(s, acts[0]), acts[1..])
  }

  function MoveStep(s: State, a: Action, r: Role): seq<Access>
    requires Enabled(s, a)
  {
    if r == Producer then WriteStep(s, a) else ReadStep(s, a)
  }

  /** What the threads of a role do to the cells. */
  function Moves(s: State, acts: seq<Action>, r: Role): seq<Access>
    requires ValidRun(s, acts)
  {
    if r == Producer then Writes(s, acts) else Reads(s, acts)
  }

  function Items(xs: seq<Access>): (items: seq<Item>)
    ensures |items| == |xs| && forall k :: 0 <= k < |xs| ==> items[k] == xs[k].item
  {
    seq(|xs|, k requires 0 <= k < |xs| => xs[k].item)
  }

  function ItemIfOf(x: Access, t: nat): seq<Item> {
    if x.thread == t then [x.item] else []
  }

  /** The items of thread `t`, in order. */
  function ItemsOf(xs: seq<Access>, t: nat): seq<Item> {
    if xs == [] then [] else ItemIfOf(xs[0], t) + ItemsOf(xs[1..], t)
  }

  lemma {:induction false} ItemsOfConcat(xs: seq<Access>, ys: seq<Access>, t: nat)
    ensures ItemsOf(xs + ys, t) == ItemsOf(xs, t) + ItemsOf(ys, t)
  {
    if xs == [] {
      assert xs + ys == ys;
    } else {
      assert (xs + ys)[0] == xs[0] && (xs + ys)[1..] == xs[1..] + ys;
      ItemsOfConcat(xs[1..], ys, t);
      ConcatAssociative(ItemIfOf(xs[0], t), ItemsOf(xs[1..], t), ItemsOf(ys, t));
    }
  }

  lemma {:induction false} ItemsConcat(xs: seq<Access>, ys: seq<Access>)
    ensures Items(xs + ys) == Items(xs) + Items(ys)
  {
  }

  // ---- What a producer holds ----------------------------------------------------------------

  predicate Holds(th: Thread) {
    th.role == Producer && th.pc in {Lock, Check, Waiting, Woken, Transfer}
  }

  /** The item a producer has drawn and not yet written. */
  function Held(th: Thread): seq<Item> {
    if Holds(th) then [th.item] else []
  }

  /** The accesses of one step are those of the thread that runs. */
  lemma {:induction false} OfThread(xs: seq<Access>, u: nat, t: nat)
    requires |xs| <= 1 && (xs != [] ==> xs[0].thread == u)
    ensures ItemsOf(xs, t) == if t == u then Items(xs) else []
  {
    if xs != [] {
      assert ItemsOf(xs[1..], t) == [];
    }
  }

  /** What the thread that runs holds and draws is what it writes and then holds. */
  lemma {:induction false} StepHolder(s: State, a: Action)
    requires Enabled(s, a)
    ensures |Step(s, a).threads| == |s.threads|
    ensures Held(s.threads[a.t]) + Items(DrawStep(s, a)) == Items(WriteStep(s, a)) + Held(Step(s, a).threads[a.t])
  {
    StepThreads(s, a);
  }

  lemma {:induction false} OthersHold(s: State, a: Action, t: nat)
    requires Enabled(s, a) && t < |s.threads| && t != a.t
    ensures |Step(s, a).threads| == |s.threads|
    ensures Held(Step(s, a).threads[t]) == Held(s.threads[t]) && Moved(Step(s, a).threads[t]) == Moved(s.threads[t])
    ensures Step(s, a).threads[t].role == s.threads[t].role
  {
    StepThreads(s, a);
  }

  /** In one step each thread draws, holds and writes in order. */
  lemma {:induction false} StepItems(s: State, a: Action, t: nat)
    requires Enabled(s, a) && t < |s.threads|
    ensures |Step(s, a).threads| == |s.threads|
    ensures Held(s.threads[t]) + ItemsOf(DrawStep(s, a), t)
         == ItemsOf(WriteStep(s, a), t) + Held(Step(s, a).threads[t])
  {
    OfThread(DrawStep(s, a), a.t, t);
    OfThread(WriteStep(s, a), a.t, t);
    if t == a.t {
      StepHolder(s, a);
    } else {
      OthersHold(s, a, t);
    }
  }

  lemma {:induction false} ProducedGrows(s: State, a: Action)
    requires Enabled(s, a)
    ensures Step(s, a).produced == s.produced + Items(WriteStep(s, a))
    ensures Step(s, a).consumed == s.consumed + Items(ReadStep(s, a))
  {
    StepThreads(s, a);
  }

  lemma {:induction false} Regroup<X>(h: seq<X>, d: seq<X>, d': seq<X>, w: seq<X>, h': seq<X>, w': seq<X>, h'': seq<X>)
    requires h + d == w + h' && h' + d' == w' + h''
    ensures h + (d + d') == (w + w') + h''
  {
    assert h + (d + d') == (h + d) + d' == w + (h' + d') == w + (w' + h'');
  }

  lemma {:induction false} RunItems(s: State, acts: seq<Action>, t: nat)
    requires ValidRun(s, acts) && t < |s.threads|
    ensures |RunEnd(s, acts).threads| == |s.threads|
    ensures Held(s.threads[t]) + ItemsOf(Draws(s, acts), t)
         == ItemsOf(Writes(s, acts), t) + Held(RunEnd(s, acts).threads[t])
    decreases |acts|
  {
    if acts != [] {
      var s' := Step(s, acts[0]);
      StepItems(s, acts[0], t);
      RunItems(s', acts[1..], t);
      ItemsOfConcat(DrawStep(s, acts[0]), Draws(s', acts[1..]), t);
      ItemsOfConcat(WriteStep(s, acts[0]), Writes(s', acts[1..]), t);
      Regroup(Held(s.threads[t]), ItemsOf(DrawStep(s, acts[0]), t), ItemsOf(Draws(s', acts[1..]), t),
              ItemsOf(WriteStep(s, acts[0]), t), Held(s'.threads[t]), ItemsOf(Writes(s', acts[1..]), t),
              Held(RunEnd(s, acts).threads[t]));
    }
  }

  lemma {:induction false} RunProduced(s: State, acts: seq<Action>)
    requires ValidRun(s, acts)
    ensures RunEnd(s, acts).produced == s.produced + Items(Writes(s, acts))
    decreases |acts|
  {
    if acts != [] {
      var s' := Step(s, acts[0]);
      ProducedGrows(s, acts[0]);
      RunProduced(s', acts[1..]);
      ItemsConcat(WriteStep(s, acts[0]), Writes(s', acts[1..]));
      ConcatAssociative(s.produced, Items(WriteStep(s, acts[0])), Items(Writes(s', acts[1..])));
    }
  }

  lemma {:induction false} RunConsumed(s: State, acts: seq<Action>)
    requires ValidRun(s, acts)
    ensures RunEnd(s, acts).consumed == s.consumed + Items(Reads(s, acts))
    decreases |acts|
  {
    if acts != [] {
      var s' := Step(s, acts[0]);
      ProducedGrows(s, acts[0]);
      RunConsumed(s', acts[1..]);
      ItemsConcat(ReadStep(s, acts[0]), Reads(s', acts[1..]));
      ConcatAssociative(s.consumed, Items(ReadStep(s, acts[0])), Items(Reads(s', acts[1..])));
    }
  }

  /** In every reachable state each producer has written what it has drawn, in the order of drawing,
      but for the one expression it may be holding; what has been produced is what has been written,
      and what has been consumed is what the consumers have read. */
  lemma {:induction false} DrawnIsWritten(s: State, acts: seq<Action>, t: nat)
    requires Initial(s) && ValidRun(s, acts) && t < |s.threads|
    ensures var e := RunEnd(s, acts);
      && e.produced == Items(Writes(s, acts)) && e.consumed == Items(Reads(s, acts))
      && |e.threads| == |s.threads|
      && ItemsOf(Draws(s, acts), t) == ItemsOf(Writes(s, acts), t) + Held(e.threads[t])
  {
    RunItems(s, acts, t);
    FromNothing(s, acts);
  }

  // ---- How often each item occurs -----------------------------------------------------------

  function HoldsItem(x: Item): Thread -> int {
    (th: Thread) => if Holds(th) && th.item == x then 1 else 0
  }

  function Occurs(x: Item, items: seq<Item>): int {
    multiset(items)[x]
  }

  lemma {:induction false} OccursConcat(x: Item, xs: seq<Item>, ys: seq<Item>)
    ensures Occurs(x, xs + ys) == Occurs(x, xs) + Occurs(x, ys)
  {
    assert multiset(xs + ys) == multiset(xs) + multiset(ys);
  }

  lemma {:induction false} OccursHeld(x: Item, th: Thread)
    ensures Occurs(x, Held(th)) == HoldsItem(x)(th)
  {
  }

  lemma {:induction false} StepOccurs(s: State, a: Action, x: Item)
    requires Enabled(s, a)
    ensures Sum(HoldsItem(x), s.threads) + Occurs(x, Items(DrawStep(s, a)))
         == Occurs(x, Items(WriteStep(s, a))) + Sum(HoldsItem(x), Step(s, a).threads)
  {
    StepSum(HoldsItem(x), s, a);
    StepHolder(s, a);
    StepThreads(s, a);
    var th, th' := s.threads[a.t], Step(s, a).threads[a.t];
    OccursConcat(x, Held(th), Items(DrawStep(s, a)));
    OccursConcat(x, Items(WriteStep(s, a)), Held(th'));
    OccursHeld(x, th);
    OccursHeld(x, th');
    if Wakes(s, a) {
      OccursHeld(x, s.threads[a.wake]);
      OccursHeld(x, s.threads[a.wake].(pc := Woken));
    }
  }

  lemma {:induction false} RunOccurs(s: State, acts: seq<Action>, x: Item)
    requires ValidRun(s, acts)
    ensures Sum(HoldsItem(x), s.threads) + Occurs(x, Items(Draws(s, acts)))
         == Occurs(x, Items(Writes(s, acts))) + Sum(HoldsItem(x), RunEnd(s, acts).threads)
    decreases |acts|
  {
    if acts != [] {
      var s' := Step(s, acts[0]);
      StepOccurs(s, acts[0], x);
      RunOccurs(s', acts[1..], x);
      ItemsConcat(DrawStep(s, acts[0]), Draws(s', acts[1..]));
      ItemsConcat(WriteStep(s, acts[0]), Writes(s', acts[1..]));
      OccursConcat(x, Items(DrawStep(s, acts[0])), Items(Draws(s', acts[1..])));
      OccursConcat(x, Items(WriteStep(s, acts[0])), Items(Writes(s', acts[1..])));
    }
  }

  /** In every reachable state an item has been drawn as often as it has been produced and is held. */
  lemma {:induction false} DrawnIsProducedOrHeld(s: State, acts: seq<Action>, x: Item)
    requires Initial(s) && ValidRun(s, acts)
    ensures Occurs(x, Items(Draws(s, acts)))
         == Occurs(x, RunEnd(s, acts).produced) + Sum(HoldsItem(x), RunEnd(s, acts).threads)
  {
    RunOccurs(s, acts, x);
    FromNothing(s, acts);
    NothingHeld(s.threads, x);
  }

  lemma {:induction false} NothingHeld(ts: seq<Thread>, x: Item)
    requires forall t :: 0 <= t < |ts| ==> !Holds(ts[t])
    ensures Sum(HoldsItem(x), ts) == 0
  {
    SumZero(HoldsItem(x), ts);
  }

  lemma {:induction false} FromNothing(s: State, acts: seq<Action>)
    requires Initial(s) && ValidRun(s, acts)
    ensures RunEnd(s, acts).produced == Items(Writes(s, acts))
    ensures RunEnd(s, acts).consumed == Items(Reads(s, acts))
  {
    RunProduced(s, acts);
    RunConsumed(s, acts);
  }

  // ---- How many items each thread moves -----------------------------------------------------

  lemma {:induction false} StepMover(s: State, a: Action)
    requires Inv(s) && Enabled(s, a)
    ensures |Step(s, a).threads| == |s.threads| && Step(s, a).threads[a.t].role == s.threads[a.t].role
    ensures Moved(Step(s, a).threads[a.t]) == Moved(s.threads[a.t]) + |MoveStep(s, a, s.threads[a.t].role)|
  {
    StepThreads(s, a);
    assert ThreadOk(s.threads[a.t], s.buffer);
  }

  lemma {:induction false} StepMoved(s: State, a: Action, t: nat)
    requires Inv(s) && Enabled(s, a) && t < |s.threads|
    ensures |Step(s, a).threads| == |s.threads| && Step(s, a).threads[t].role == s.threads[t].role
    ensures Moved(Step(s, a).threads[t])
         == Moved(s.threads[t]) + |ItemsOf(MoveStep(s, a, s.threads[t].role), t)|
  {
    OfThread(MoveStep(s, a, s.threads[t].role), a.t, t);
    if t == a.t {
      StepMover(s, a);
    } else {
      OthersHold(s, a, t);
    }
  }

  lemma {:induction false} RunMoved(s: State, acts: seq<Action>, t: nat)
    requires Inv(s) && ValidRun(s, acts) && t < |s.threads|
    ensures |RunEnd(s, acts).threads| == |s.threads| && RunEnd(s, acts).threads[t].role == s.threads[t].role
    ensures Moved(RunEnd(s, acts).threads[t])
         == Moved(s.threads[t]) + |ItemsOf(Moves(s, acts, s.threads[t].role), t)|
    decreases |acts|
  {
    if acts != [] {
      var s' := Step(s, acts[0]);
      StepInv(s, acts[0]);
      StepMoved(s, acts[0], t);
      RunMoved(s', acts[1..], t);
      ItemsOfConcat(WriteStep(s, acts[0]), Writes(s', acts[1..]), t);
      ItemsOfConcat(ReadStep(s, acts[0]), Reads(s', acts[1..]), t);
    }
  }

  lemma {:induction false} RunQuota(s: State, acts: seq<Action>, t: nat)
    requires ValidRun(s, acts) && t < |s.threads|
    ensures |RunEnd(s, acts).threads| == |s.threads| && RunEnd(s, acts).threads[t].quota == s.threads[t].quota
    decreases |acts|
  {
    if acts != [] {
      StepThreads(s, acts[0]);
      RunQuota(Step(s, acts[0]), acts[1..], t);
    }
  }

  /** A thread that is done has moved its quota, and has written what it has drawn. */
  lemma {:induction false} DoneThread(s: State, acts: seq<Action>, t: nat)
    requires Initial(s) && ValidRun(s, acts) && t < |s.threads|
    requires |RunEnd(s, acts).threads| == |s.threads| && RunEnd(s, acts).threads[t].pc == Done
    ensures ItemsOf(Draws(s, acts), t) == ItemsOf(Writes(s, acts), t)
    ensures |ItemsOf(Moves(s, acts, s.threads[t].role), t)| == s.threads[t].quota
  {
    var e := RunEnd(s, acts);
    InitialInv(s);
    RunInv(s, acts);
    DrawnIsWritten(s, acts, t);
    assert Held(e.threads[t]) == [];
    RunMoved(s, acts, t);
    RunQuota(s, acts, t);
    assert ThreadOk(e.threads[t], e.buffer);
  }

  lemma {:induction false} DoneItems(s: State, acts: seq<Action>)
    requires Initial(s) && ValidRun(s, acts) && AllDone(RunEnd(s, acts))
    ensures multiset(RunEnd(s, acts).produced) == multiset(Items(Draws(s, acts)))
  {
    var e := RunEnd(s, acts);
    forall x: Item ensures multiset(e.produced)[x] == multiset(Items(Draws(s, acts)))[x] {
      DrawnIsProducedOrHeld(s, acts, x);
      NothingHeld(e.threads, x);
    }
  }

  /** A run with equal totals that has come to its end has consumed exactly the expressions drawn;
      each producer has written what it drew, in order, and each thread has moved its quota. */
  lemma {:induction false} CompleteRunConsumesDrawn(s: State, acts: seq<Action>)
    requires Initial(s) && ValidRun(s, acts) && ToProduce(s) == ToConsume(s) && !CanRun(RunEnd(s, acts))
    ensures var e := RunEnd(s, acts);
      && e.consumed == Items(Reads(s, acts)) == Items(Writes(s, acts))
      && multiset(e.consumed) == multiset(Items(Draws(s, acts)))
    ensures forall t: nat :: t < |s.threads| ==> ItemsOf(Draws(s, acts), t) == ItemsOf(Writes(s, acts), t)
    ensures forall t: nat :: t < |s.threads| ==>
              |ItemsOf(Moves(s, acts, s.threads[t].role), t)| == s.threads[t].quota
  {
    var e := RunEnd(s, acts);
    CompleteRunDeliversAll(s, acts);
    FromNothing(s, acts);
    DoneItems(s, acts);
    forall t: nat | t < |s.threads|
      ensures ItemsOf(Draws(s, acts), t) == ItemsOf(Writes(s, acts), t)
      ensures |ItemsOf(Moves(s, acts, s.threads[t].role), t)| == s.threads[t].quota
    {
      RunQuota(s, acts, t);
      DoneThread(s, acts, t);
    }
  }

  lemma {:induction false} SumOfFour(f: Thread -> int, ts: seq<Thread>)
    requires |ts| == 4
    ensures Sum(f, ts) == f(ts[0]) + f(ts[1]) + f(ts[2]) + f(ts[3])
  {
    assert ts[1..][1..] == ts[2..] && ts[2..][1..] == ts[3..] && ts[3..][1..] == [];
    assert Sum(f, ts[3..]) == f(ts[3]) && Sum(f, ts[2..]) == f(ts[2]) + Sum(f, ts[3..]);
    assert Sum(f, ts[1..]) == f(ts[1]) + Sum(f, ts[2..]);
  }

  /** The program as it is set up never deadlocks, the producers are never more than five items ahead,
      and without spurious wakeups it executes at most 804 statements, after which the twenty
      expressions drawn have been consumed in the order of production. */
  lemma {:induction false} TheProgramDelivers(s: State, acts: seq<Action>)
    requires InitialProgram(s) && ValidRun(s, acts)
    ensures DeadlockFree(s) && |acts| <= 804 + 3 * SpuriousCount(acts)
    ensures var e := RunEnd(s, acts);
      e.consumed <= e.produced && |e.produced| - |e.consumed| <= 5
    ensures var e := RunEnd(s, acts);
      !CanRun(e) ==>
        && AllDone(e) && e.buffer.numOccupied == 0 && e.consumed == e.produced && |e.consumed| == 20
        && multiset(e.consumed) == multiset(Items(Draws(s, acts)))
  {
    SumOfFour(ProducerQuota, s.threads);
    SumOfFour(ConsumerQuota, s.threads);
    DeadlockFreeExactly(s);
    RunsTerminate(s, acts);
    FirstInFirstOut(s, acts);
    if !CanRun(RunEnd(s, acts)) {
      CompleteRunDeliversAll(s, acts);
      CompleteRunConsumesDrawn(s, acts);
    }
  }
}
