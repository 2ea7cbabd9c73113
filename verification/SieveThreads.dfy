/** The partition of the range into segments and the threads that add their counts to the shared
    total under a lock, from mtsieve/mtsieve.c. */
module SieveThreads {
  import opened Options
  import opened Sums
  import opened Primes
  import opened Sieve

  // ---- The partition ------------------------------------------------------------------------

  datatype Segment = Segment(start: int, end: int)

  /** Non-empty segments, each starting right after the one before, from `a` to `b`. */
  predicate IsPartition(segs: seq<Segment>, a: int, b: int) {
    && segs != [] && segs[0].start == a && segs[|segs| - 1].end == b
    && (forall i :: 0 <= i < |segs| ==> segs[i].start <= segs[i].end)
    && (forall i :: 0 < i < |segs| ==> segs[i].start == segs[i - 1].end + 1)
  }

  function Length(s: Segment): int {
    s.end - s.start + 1
  }

  /** Where segment `k` starts when each has `threadLength` numbers and the first `extra` have one
      more. */
  function StartOf(a: int, threadLength: int, extra: int, k: nat): int {
    if k == 0 then a
    else StartOf(a, threadLength, extra, k - 1) + threadLength + (if k - 1 < extra then 1 else 0)
  }

  function SegmentAt(a: int, threadLength: int, extra: int, k: nat): Segment {
    Segment(StartOf(a, threadLength, extra, k), StartOf(a, threadLength, extra, k + 1) - 1)
  }

  lemma {:induction false} StartOfIs(a: int, threadLength: int, extra: nat, k: nat)
    ensures StartOf(a, threadLength, extra, k) == a + k * threadLength + (if k < extra then k else extra)
  {
    if k > 0 {
      StartOfIs(a, threadLength, extra, k - 1);
      OneMore(k - 1, threadLength);
    }
  }

  lemma {:induction false} OneMore(k: int, x: int)
    ensures k * x + x == (k + 1) * x
  {
  }

  lemma {:induction false} StartOfMonotone(a: int, threadLength: nat, extra: int, j: nat, k: nat)
    requires j <= k
    ensures StartOf(a, threadLength, extra, j) <= StartOf(a, threadLength, extra, k)
  {
    if j < k {
      StartOfMonotone(a, threadLength, extra, j, k - 1);
    }
  }

  /** Lines 232 to 248 without the spawning. */
  method FillSegments(a: int, threadLength: int, extra: int, targs: array<Segment>)
    requires 0 <= extra < targs.Length
    modifies targs
    ensures forall k :: 0 <= k < targs.Length ==> targs[k] == SegmentAt(a, threadLength, extra, k)
  {
    var t, remainder := targs.Length, extra;
    var tempStart, tempEnd := a, a + threadLength - 1;
    var i := 0;
    while i < t
      invariant 0 <= i <= t && remainder == if i < extra then extra - i else 0
      invariant tempStart == StartOf(a, threadLength, extra, i) && tempEnd == tempStart + threadLength - 1
      invariant forall k :: 0 <= k < i ==> targs[k] == SegmentAt(a, threadLength, extra, k)
    {
      if remainder > 0 {
        targs[i] := Segment(tempStart, tempEnd + 1);
        remainder := remainder - 1;
      } else {
        targs[i] := Segment(tempStart, tempEnd);
      }
      tempStart := targs[i].end + 1;
      tempEnd := tempStart + threadLength - 1;
      i := i + 1;
    }
  }

  /** As many segments as threads, or as numbers if there are fewer. */
  function NumberOfSegments(a: int, b: int, threads: int): (t: int)
    requires a <= b && threads >= 1
    ensures 1 <= t <= threads && t <= b - a + 1
  {
    if b - a + 1 < threads then b - a + 1 else threads
  }

  function SegmentsOf(a: int, threadLength: int, extra: int, t: nat): (segs: seq<Segment>)
    ensures |segs| == t && forall k :: 0 <= k < t ==> segs[k] == SegmentAt(a, threadLength, extra, k)
  {
    seq(t, k requires 0 <= k < t => SegmentAt(a, threadLength, extra, k))
  }

  /** The segments that a range and a number of threads determine. */
  function Segments(a: int, b: int, threads: int): (segs: seq<Segment>)
    requires a <= b && threads >= 1
  {
    var t := NumberOfSegments(a, b, threads);
    SegmentsOf(a, (b - a + 1) / t, (b - a + 1) % t, t)
  }

  lemma {:induction false} DivAtLeastOne(x: int, t: int)
    requires 1 <= t <= x
    ensures x / t >= 1 && x == t * (x / t) + x % t && 0 <= x % t < t
  {
  }

  lemma {:induction false} SegmentsOfPartition(a: int, threadLength: int, extra: int, t: nat)
    requires t > 0 && threadLength >= 1
    ensures IsPartition(SegmentsOf(a, threadLength, extra, t), a, StartOf(a, threadLength, extra, t) - 1)
    ensures forall i :: 0 <= i < t ==>
              threadLength <= Length(SegmentsOf(a, threadLength, extra, t)[i]) <= threadLength + 1
    ensures forall i, j :: 0 <= i < j < t ==>
              Length(SegmentsOf(a, threadLength, extra, t)[i]) >= Length(SegmentsOf(a, threadLength, extra, t)[j])
  {
  }

  /** Behind the last segment comes what follows `b`. */
  lemma {:induction false} EndOfSegments(a: int, b: int, t: int)
    requires 1 <= t <= b - a + 1
    ensures (b - a + 1) / t >= 1 && 0 <= (b - a + 1) % t < t
    ensures StartOf(a, (b - a + 1) / t, (b - a + 1) % t, t) == b + 1
  {
    DivAtLeastOne(b - a + 1, t);
    StartOfIs(a, (b - a + 1) / t, (b - a + 1) % t, t);
  }

  /** The segments are non-empty and consecutive from `a` to `b`, their lengths differ by at most
      one, and the longer ones come first. */
  lemma {:induction false} SegmentsPartition(a: int, b: int, threads: int)
    requires a <= b && threads >= 1
    ensures var segs, t := Segments(a, b, threads), NumberOfSegments(a, b, threads);
      && |segs| == t && IsPartition(segs, a, b)
      && (forall i, j :: 0 <= i < t && 0 <= j < t ==> -1 <= Length(segs[i]) - Length(segs[j]) <= 1)
      && (forall i, j :: 0 <= i < j < t ==> Length(segs[i]) >= Length(segs[j]))
      && (forall i :: 0 <= i < t ==> segs[i].end == EndOf(a, b, t, i))
  {
    var t := NumberOfSegments(a, b, threads);
    EndOfSegments(a, b, t);
    SegmentsOfPartition(a, (b - a + 1) / t, (b - a + 1) % t, t);
    forall i: nat | i < t ensures Segments(a, b, threads)[i].end == EndOf(a, b, t, i) {
      StartOfIs(a, (b - a + 1) / t, (b - a + 1) % t, i + 1);
    }
  }

  /** The end of segment `i` of `t`, written out. */
  function EndOf(a: int, b: int, t: int, i: nat): int
    requires t > 0
  {
    var extra := (b - a + 1) % t;
    a + (i + 1) * ((b - a + 1) / t) + (if i < extra then i + 1 else extra) - 1
  }

  /** Lines 219 to 248. */
  method Cut(a: int, b: int, t: int) returns (targs: array<Segment>)
    requires 1 <= t <= b - a + 1
    ensures targs[..] == SegmentsOf(a, (b - a + 1) / t, (b - a + 1) % t, t)
  {
    var threadLength := (b - a + 1) / t;
    var remainder := (b - a + 1) % t;
    targs := new Segment[t](_ => Segment(0, 0));
    FillSegments(a, threadLength, remainder, targs);
  }

  /** Lines 208 to 248. */
  method Partition(a: int, b: int, threads: int) returns (targs: array<Segment>)
    requires a <= b && threads >= 1
    ensures targs[..] == Segments(a, b, threads)
    ensures targs.Length == NumberOfSegments(a, b, threads) && IsPartition(targs[..], a, b)
    ensures forall i, j :: 0 <= i < targs.Length && 0 <= j < targs.Length ==>
              -1 <= Length(targs[i]) - Length(targs[j]) <= 1
    ensures forall i :: 0 <= i < targs.Length ==> targs[i].end == EndOf(a, b, targs.Length, i)
  {
    var t := threads;
    if (b - a) + 1 < t {
      t := (b - a) + 1;
    }
    targs := Cut(a, b, t);
    SegmentsPartition(a, b, threads);
    assert forall i :: 0 <= i < targs.Length ==> targs[i] == Segments(a, b, threads)[i];
  }

  /** The sums of lines 222, 235, 242 and 243, in the rounds that evaluate them. */
  predicate SumsFit(a: int, threadLength: int, extra: int, t: int) {
    && a + threadLength <= INT_MAX
    && (forall i :: 0 <= i < extra && i < t ==> StartOf(a, threadLength, extra, i) + threadLength <= INT_MAX)
    && (forall i :: 1 <= i <= t ==> StartOf(a, threadLength, extra, i) + threadLength <= INT_MAX)
  }

  /** All of them fit a machine integer exactly when the last of them does, which goes beyond the
      last segment. */
  lemma {:induction false} PartitionFits(a: int, b: int, threads: int)
    requires a <= b && threads >= 1
    ensures var t := NumberOfSegments(a, b, threads);
      SumsFit(a, (b - a + 1) / t, (b - a + 1) % t, t) <==> b + 1 + (b - a + 1) / t <= INT_MAX
  {
    var t := NumberOfSegments(a, b, threads);
    EndOfSegments(a, b, t);
    LastSumFits(a, (b - a + 1) / t, (b - a + 1) % t, t);
  }

  lemma {:induction false} LastSumFits(a: int, threadLength: nat, extra: int, t: int)
    requires t >= 1
    ensures SumsFit(a, threadLength, extra, t) <==> StartOf(a, threadLength, extra, t) + threadLength <= INT_MAX
  {
    forall i: nat | i <= t ensures StartOf(a, threadLength, extra, i) <= StartOf(a, threadLength, extra, t) {
      StartOfMonotone(a, threadLength, extra, i, t);
    }
    assert StartOf(a, threadLength, extra, 0) == a;
  }

  /** The sums of line 58 for a segment: for every small prime, at every number it strikes. */
  ghost predicate StrikesFit(seg: Segment) {
    forall p: nat, n: nat ::
      seg.end >= 0 && SmallPrime(p, seg.end) && seg.start <= n <= seg.end && ProperMultiple(n, p) ==>
        (n - seg.start) + p <= INT_MAX
  }

  /** A sum of line 58 is at most the length of the segment and its end together. */
  lemma {:induction false} StrikesBelow(seg: Segment)
    requires Length(seg) + seg.end - 1 <= INT_MAX
    ensures StrikesFit(seg)
  {
    forall p: nat, n: nat |
      seg.end >= 0 && SmallPrime(p, seg.end) && seg.start <= n <= seg.end && ProperMultiple(n, p)
      ensures (n - seg.start) + p <= INT_MAX
    {
      MulMonotone(p, 1, p, p);
    }
  }

  /** The sums of the partition and those of striking in every thread all fit a machine integer
      exactly when b + 1 and the quotient of the partition together do. */
  lemma {:induction false} NoOverflowExactly(a: int, b: int, threads: int)
    requires 2 <= a <= b && threads >= 1
    ensures var t := NumberOfSegments(a, b, threads);
      && SumsFit(a, (b - a + 1) / t, (b - a + 1) % t, t)
      && (forall seg :: seg in Segments(a, b, threads) ==> StrikesFit(seg))
      <==> b + 1 + (b - a + 1) / t <= INT_MAX
  {
    var segs, t := Segments(a, b, threads), NumberOfSegments(a, b, threads);
    PartitionFits(a, b, threads);
    SegmentsPartition(a, b, threads);
    EndOfSegments(a, b, t);
    SegmentsOfPartition(a, (b - a + 1) / t, (b - a + 1) % t, t);
    if b + 1 + (b - a + 1) / t <= INT_MAX {
      forall seg | seg in segs ensures StrikesFit(seg) {
        var i :| 0 <= i < |segs| && segs[i] == seg;
        EndsInRange(segs, a, b, i);
        StrikesBelow(seg);
      }
    }
  }

  lemma {:induction false} EndsInRange(segs: seq<Segment>, a: int, b: int, i: nat)
    requires IsPartition(segs, a, b) && i < |segs|
    ensures segs[i].end <= b
    decreases |segs| - i
  {
    if i + 1 < |segs| {
      EndsInRange(segs, a, b, i + 1);
      assert segs[i + 1].start == segs[i + 1 - 1].end + 1;
    }
  }

  /** So they do not on one thread from 2 to 1500000000; on four threads they do. */
  lemma {:induction false} OneThreadOverflows()
    ensures NumberOfSegments(2, 1_500_000_000, 1) == 1 && !SumsFit(2, 1_499_999_999, 0, 1)
    ensures NumberOfSegments(2, 1_500_000_000, 4) == 4 && SumsFit(2, 374_999_999, 3, 4)
  {
    PartitionFits(2, 1_500_000_000, 1);
    PartitionFits(2, 1_500_000_000, 4);
  }

  ghost function CountOn(p: int -> bool): Segment -> int {
    (s: Segment) => CountIf(p, s.start, s.end + 1)
  }

  lemma {:induction false} CountSplit(p: int -> bool, lo: int, mid: int, hi: int)
    requires lo <= mid <= hi
    ensures CountIf(p, lo, hi) == CountIf(p, lo, mid) + CountIf(p, mid, hi)
    decreases hi - mid
  {
    if mid < hi {
      CountSplit(p, lo, mid, hi - 1);
    }
  }

  /** Counting over the segments counts every number of the range exactly once. */
  lemma {:induction false} CountPartition(p: int -> bool, segs: seq<Segment>, a: int, b: int)
    requires IsPartition(segs, a, b)
    ensures a <= b && Sum(CountOn(p), segs) == CountIf(p, a, b + 1)
    decreases |segs|
  {
    var rest := segs[1..];
    if rest == [] {
      assert Sum(CountOn(p), rest) == 0;
    } else {
      forall i | 0 < i < |rest| ensures rest[i].start == rest[i - 1].end + 1 {
        assert segs[i + 1].start == segs[i + 1 - 1].end + 1;
      }
      CountPartition(p, rest, segs[0].end + 1, b);
      CountSplit(p, a, segs[0].end + 1, b + 1);
    }
  }

  // ---- The threads --------------------------------------------------------------------------

  /** What a thread does next.  Storing carries the value of the total that it has loaded. */
  datatype Pc = NotSpawned | Sieving | Locking | Loading | Storing(register: int) | Unlocking | Exited

  datatype Worker = Worker(segment: Segment, pc: Pc, counterof3: int)

  /** The main thread spawns the workers in order and then joins them in order. */
  datatype State = State(workers: seq<Worker>, owner: Option<nat>, totalCount: int, spawned: nat, joined: nat)

  datatype Action = Spawn | Join | Run(i: nat)

  predicate Enabled(s: State, a: Action) {
    match a
    case Spawn => s.spawned < |s.workers|
    case Join => s.spawned == |s.workers| && s.joined < |s.workers| && s.workers[s.joined].pc == Exited
    case Run(i) =>
      i < |s.workers| &&
      match s.workers[i].pc
      case NotSpawned => false
      case Locking => s.owner.None?
      case Exited => false
      case _ => true
  }

  ghost function SegmentCount(seg: Segment): int {
    CountIf(PrimeHit, seg.start, seg.end + 1) + SquareEndOf(seg)
  }

  ghost function SquareEndOf(seg: Segment): int {
    if seg.end >= 0 then SquareEnd(seg.end) else 0
  }

  function Goto(s: State, i: nat, pc: Pc): State
    requires i < |s.workers|
  {
    s.(workers := s.workers[i := s.workers[i].(pc := pc)])
  }

  ghost function Step(s: State, a: Action): State
    requires Enabled(s, a)
  {
    match a
    case Spawn => Goto(s, s.spawned, Sieving).(spawned := s.spawned + 1)
    case Join => s.(joined := s.joined + 1)
    case Run(i) =>
      var w := s.workers[i];
      match w.pc
      case Sieving => s.(workers := s.workers[i := w.(pc := Locking, counterof3 := SegmentCount(w.segment))])
      case Locking => Goto(s, i, Loading).(owner := Some(i))
      case Loading => Goto(s, i, Storing(s.totalCount))
      case Storing(r) => Goto(s, i, Unlocking).(totalCount := r + w.counterof3)
      case Unlocking => Goto(s, i, Exited).(owner := None)
      case _ => s
  }

  ghost predicate Initial(s: State, segs: seq<Segment>) {
    && |s.workers| == |segs| && s.owner == None && s.totalCount == 0 && s.spawned == s.joined == 0
    && forall i :: 0 <= i < |segs| ==> s.workers[i].segment == segs[i] && s.workers[i].pc == NotSpawned
  }

  ghost predicate ValidRun(s: State, acts: seq<Action>)
    decreases |acts|
  {
    acts != [] ==> Enabled(s, acts[0]) && ValidRun(Step(s, acts[0]), acts[1..])
  }

  ghost function RunEnd(s: State, acts: seq<Action>): State
    requires ValidRun(s, acts)
    decreases |acts|
  {
    if acts == [] then s else RunEnd(Step(s, acts[0]), acts[1..])
  }

  /** What the worker has added to the total. */
  function Added(w: Worker): int {
    if w.pc in {Unlocking, Exited} then w.counterof3 else 0
  }

  predicate InSection(pc: Pc) {
    pc.Loading? || pc.Storing? || pc.Unlocking?
  }

  ghost predicate WorkerOk(w: Worker, total: int) {
    && (w.pc !in {NotSpawned, Sieving} ==> w.counterof3 == SegmentCount(w.segment))
    && (w.pc.Storing? ==> w.pc.register == total)
  }

  predicate Mutex(s: State) {
    && (s.owner.Some? ==> s.owner.value < |s.workers| && InSection(s.workers[s.owner.value].pc))
    && (forall i :: 0 <= i < |s.workers| && InSection(s.workers[i].pc) ==> s.owner == Some(i))
  }

  ghost predicate WorkersOk(s: State, segs: seq<Segment>) {
    && |s.workers| == |segs|
    && forall i :: 0 <= i < |segs| ==> s.workers[i].segment == segs[i] && WorkerOk(s.workers[i], s.totalCount)
  }

  /** The workers before `spawned` have been started, those before `joined` have finished. */
  predicate MainOk(s: State) {
    && s.joined <= |s.workers| && s.spawned <= |s.workers|
    && (forall i :: 0 <= i < |s.workers| ==> (s.workers[i].pc == NotSpawned <==> s.spawned <= i))
    && (forall i :: 0 <= i < s.joined ==> s.workers[i].pc == Exited)
  }

  ghost predicate Inv(s: State, segs: seq<Segment>) {
    && WorkersOk(s, segs) && Mutex(s) && MainOk(s)
    && s.totalCount == Sum(Added, s.workers)
  }

  /** Every step keeps the total equal to what has been added, with no addition lost. */
  lemma {:induction false} StepTotal(s: State, segs: seq<Segment>, a: Action)
    requires Inv(s, segs) && Enabled(s, a)
    ensures Step(s, a).totalCount == Sum(Added, Step(s, a).workers)
  {
    match a
    case Spawn => SumUpdate(Added, s.workers, s.spawned, Step(s, a).workers[s.spawned]);
    case Join =>
    case Run(i) =>
      assert WorkerOk(s.workers[i], s.totalCount);
      SumUpdate(Added, s.workers, i, Step(s, a).workers[i]);
  }

  lemma {:induction false} StepWorkersOk(s: State, segs: seq<Segment>, a: Action)
    requires Inv(s, segs) && Enabled(s, a)
    ensures WorkersOk(Step(s, a), segs)
  {
    var s' := Step(s, a);
    forall i | 0 <= i < |segs|
      ensures s'.workers[i].segment == segs[i] && WorkerOk(s'.workers[i], s'.totalCount)
    {
      assert WorkerOk(s.workers[i], s.totalCount);
      if a.Run? && s.workers[a.i].pc.Storing? && i != a.i {
        assert !s.workers[i].pc.Storing?;
      }
    }
  }

  lemma {:induction false} StepMutex(s: State, segs: seq<Segment>, a: Action)
    requires Inv(s, segs) && Enabled(s, a)
    ensures Mutex(Step(s, a))
  {
  }

  lemma {:induction false} StepMain(s: State, segs: seq<Segment>, a: Action)
    requires Inv(s, segs) && Enabled(s, a)
    ensures MainOk(Step(s, a))
  {
  }

  lemma {:induction false} StepInv(s: State, segs: seq<Segment>, a: Action)
    requires Inv(s, segs) && Enabled(s, a)
    ensures Inv(Step(s, a), segs)
  {
    StepTotal(s, segs, a);
    StepWorkersOk(s, segs, a);
    StepMutex(s, segs, a);
    StepMain(s, segs, a);
  }

  lemma {:induction false} RunInv(s: State, segs: seq<Segment>, acts: seq<Action>)
    requires Inv(s, segs) && ValidRun(s, acts)
    ensures Inv(RunEnd(s, acts), segs)
    decreases |acts|
  {
    if acts != [] {
      StepInv(s, segs, acts[0]);
      RunInv(Step(s, acts[0]), segs, acts[1..]);
    }
  }

  lemma {:induction false} InitialInv(s: State, segs: seq<Segment>)
    requires Initial(s, segs)
    ensures Inv(s, segs)
  {
    SumZero(Added, s.workers);
  }

  // ---- Every run comes to its end -----------------------------------------------------------

  function Remaining(w: Worker): int {
    match w.pc
    case NotSpawned => 6 case Sieving => 5 case Locking => 4 case Loading => 3
    case Storing(_) => 2 case Unlocking => 1 case Exited => 0
  }

  function Measure(s: State): int {
    Sum(Remaining, s.workers) + |s.workers| - s.joined
  }

  /** Every step lowers the measure by one. */
  lemma {:induction false} StepMeasure(s: State, segs: seq<Segment>, a: Action)
    requires Inv(s, segs) && Enabled(s, a)
    ensures Measure(Step(s, a)) == Measure(s) - 1
  {
    var k := match a case Spawn => s.spawned case Join => 0 case Run(i) => i;
    SumUpdate(Remaining, s.workers, k, Step(s, a).workers[k]);
    if a.Join? {
      assert Step(s, a).workers == s.workers;
    }
  }

  /** Some step is possible as long as not all workers are joined, and none after that. */
  lemma {:induction false} Progress(s: State, segs: seq<Segment>)
    requires Inv(s, segs)
    ensures s.joined < |segs| <==> exists a :: Enabled(s, a)
  {
    if s.joined < |segs| {
      if s.spawned < |segs| {
        assert Enabled(s, Spawn);
      } else if s.workers[s.joined].pc == Exited {
        assert Enabled(s, Join);
      } else if s.owner.Some? {
        assert Enabled(s, Run(s.owner.value));
      } else {
        assert Enabled(s, Run(s.joined));
      }
    } else if segs != [] {
      assert s.workers[|segs| - 1].pc == Exited;
    }
  }

  lemma {:induction false} RunLength(s: State, segs: seq<Segment>, acts: seq<Action>)
    requires Inv(s, segs) && ValidRun(s, acts)
    ensures |acts| + Measure(RunEnd(s, acts)) == Measure(s)
    decreases |acts|
  {
    if acts != [] {
      StepMeasure(s, segs, acts[0]);
      StepInv(s, segs, acts[0]);
      RunLength(Step(s, acts[0]), segs, acts[1..]);
    }
  }

  lemma {:induction false} InitialMeasure(ws: seq<Worker>)
    requires forall i :: 0 <= i < |ws| ==> ws[i].pc == NotSpawned
    ensures Sum(Remaining, ws) == 6 * |ws|
  {
    if ws != [] {
      InitialMeasure(ws[1..]);
    }
  }

  /** Every run has at most seven steps for each thread; it cannot be continued exactly when it has
      all of them, and exactly when all threads are joined. */
  lemma {:induction false} RunsEnd(s: State, segs: seq<Segment>, acts: seq<Action>)
    requires Initial(s, segs) && ValidRun(s, acts)
    ensures |acts| <= 7 * |segs|
    ensures RunEnd(s, acts).joined == |segs| <==> |acts| == 7 * |segs|
    ensures RunEnd(s, acts).joined == |segs| <==> forall a :: !Enabled(RunEnd(s, acts), a)
  {
    InitialInv(s, segs);
    InitialMeasure(s.workers);
    RunInv(s, segs, acts);
    RunLength(s, segs, acts);
    var e := RunEnd(s, acts);
    Progress(e, segs);
    SumNonNegative(Remaining, e.workers);
    if e.joined == |segs| {
      SumZero(Remaining, e.workers);
    }
  }

  /** Any run can be continued until all threads are joined. */
  lemma {:induction false} RunToTheEnd(s: State, segs: seq<Segment>) returns (acts: seq<Action>)
    requires Inv(s, segs)
    ensures ValidRun(s, acts) && RunEnd(s, acts).joined == |segs|
    decreases Sum(Remaining, s.workers) + |s.workers| - s.joined
  {
    Progress(s, segs);
    SumNonNegative(Remaining, s.workers);
    if s.joined < |segs| {
      var a :| Enabled(s, a);
      StepMeasure(s, segs, a);
      StepInv(s, segs, a);
      SumNonNegative(Remaining, Step(s, a).workers);
      var rest := RunToTheEnd(Step(s, a), segs);
      acts := [a] + rest;
      assert acts[1..] == rest;
    } else {
      acts := [];
    }
  }

  // ---- The total ----------------------------------------------------------------------------

  ghost function PrimeHits(a: int, b: int): int {
    CountIf(PrimeHit, a, b + 1)
  }

  /** For every schedule: once all threads are joined the total is the number of primes of the
      range with two digits 3, plus the segment ends that are squares of primes with two digits 3. */
  lemma {:induction false} TotalAfterJoins(a: int, b: int, segs: seq<Segment>, s: State, acts: seq<Action>)
    requires IsPartition(segs, a, b) && Initial(s, segs) && ValidRun(s, acts)
    requires RunEnd(s, acts).joined == |segs|
    ensures RunEnd(s, acts).totalCount == PrimeHits(a, b) + Sum(SquareEndOf, segs)
  {
    InitialInv(s, segs);
    RunInv(s, segs, acts);
    var e := RunEnd(s, acts);
    forall i | 0 <= i < |segs| ensures Added(e.workers[i]) == SegmentCount(segs[i]) {
      assert WorkerOk(e.workers[i], e.totalCount);
    }
    SumSame(Added, SegmentCount, e.workers, segs);
    SumOfBoth(segs);
    CountPartition(PrimeHit, segs, a, b);
  }

  lemma {:induction false} SumOfBoth(segs: seq<Segment>)
    ensures Sum(SegmentCount, segs) == Sum(CountOn(PrimeHit), segs) + Sum(SquareEndOf, segs)
  {
    if segs != [] {
      SumOfBoth(segs[1..]);
    }
  }

  /** The printed total is the number of primes with two digits 3 exactly when no segment ends in
      the square of a prime that has two digits 3; then it depends neither on the number of
      threads nor on the schedule. */
  lemma {:induction false} TotalIsRightExactly(a: int, b: int, segs: seq<Segment>, s: State, acts: seq<Action>)
    requires a >= 2 && IsPartition(segs, a, b) && Initial(s, segs) && ValidRun(s, acts)
    requires RunEnd(s, acts).joined == |segs|
    ensures RunEnd(s, acts).totalCount == PrimeHits(a, b)
       <==> forall i :: 0 <= i < |segs| ==> SquareEndOf(segs[i]) == 0
  {
    TotalAfterJoins(a, b, segs, s, acts);
    var zero := (seg: Segment) => 0;
    SumZero(zero, segs);
    SumLessOrEqual(zero, SquareEndOf, segs);
    if forall i :: 0 <= i < |segs| ==> SquareEndOf(segs[i]) == 0 {
      SumZero(SquareEndOf, segs);
    }
  }

  /** A segment end that is counted although it is not prime. */
  ghost predicate CountedSquare(n: int) {
    n >= 0 && PrimeSquare(n) && TwoThrees(n)
  }

  /** A run from the start until all threads are joined. */
  ghost predicate CompleteRun(s: State, acts: seq<Action>, segs: seq<Segment>) {
    Initial(s, segs) && ValidRun(s, acts) && RunEnd(s, acts).joined == |segs|
  }

  /** For a range and a number of threads: the total is right exactly when none of the segment ends
      that they determine is the square of a prime with two digits 3. */
  lemma {:induction false} TotalIsRightForRange(a: int, b: int, threads: int, s: State, acts: seq<Action>)
    requires 2 <= a <= b && threads >= 1
    ensures CompleteRun(s, acts, Segments(a, b, threads)) ==>
              (RunEnd(s, acts).totalCount == PrimeHits(a, b)
               <==> forall i: nat :: i < NumberOfSegments(a, b, threads) ==>
                      !CountedSquare(EndOf(a, b, NumberOfSegments(a, b, threads), i)))
  {
    var segs, t := Segments(a, b, threads), NumberOfSegments(a, b, threads);
    SegmentsPartition(a, b, threads);
    if CompleteRun(s, acts, segs) {
      TotalIsRightExactly(a, b, segs, s, acts);
    }
    forall i: nat | i < t ensures SquareEndOf(segs[i]) == 0 <==> !CountedSquare(EndOf(a, b, t, i)) {
      assert segs[i].end == EndOf(a, b, t, i);
    }
  }

  /** Two executions on the same range, with any numbers of threads and any schedules, print the same
      total when no segment ends in the square of a prime with two digits 3. */
  lemma {:induction false} SameTotalForAllSchedules(a: int, b: int, segs: seq<Segment>, s: State, acts: seq<Action>,
                                                    segs': seq<Segment>, s': State, acts': seq<Action>)
    requires a >= 2 && IsPartition(segs, a, b) && IsPartition(segs', a, b)
    requires Initial(s, segs) && ValidRun(s, acts) && RunEnd(s, acts).joined == |segs|
    requires Initial(s', segs') && ValidRun(s', acts') && RunEnd(s', acts').joined == |segs'|
    requires forall i :: 0 <= i < |segs| ==> SquareEndOf(segs[i]) == 0
    requires forall i :: 0 <= i < |segs'| ==> SquareEndOf(segs'[i]) == 0
    ensures RunEnd(s, acts).totalCount == RunEnd(s', acts').totalCount
  {
    TotalIsRightExactly(a, b, segs, s, acts);
    TotalIsRightExactly(a, b, segs', s', acts');
  }

  /** A number below 24 * 24 without a divisor below 24 is prime. */
  lemma {:induction false} PrimeBelow576(n: nat)
    requires 2 <= n < 576 && forall d :: 2 <= d <= 23 ==> n % d != 0
    ensures Prime(n)
  {
    var r := FloorSqrt(n);
    MulMonotone(24, 24, r, r);
    TrialDivisionExact(n);
  }

  /** 323761 is the square of 569 and has two digits 3. */
  lemma {:induction false} SquareWithTwoThrees()
    ensures PrimeSquare(323761) && TwoThrees(323761)
  {
    var q: nat := 569;
    PrimeBelow576(q);
    assert q * q == 323761;
    assert Digits(323761) == [1, 6, 7, 3, 2, 3];
    SumAppend(IsThree, [1, 6, 7], [3, 2, 3]);
  }

  lemma {:induction false} SingleNumber(n: nat)
    requires PrimeSquare(n)
    ensures PrimeHits(n, n) == 0 && IsPartition([Segment(n, n)], n, n)
    ensures TwoThrees(n) ==> Sum(SquareEndOf, [Segment(n, n)]) == 1
  {
    PrimeSquareNotPrime(n);
    assert CountIf(PrimeHit, n, n) == 0;
    assert Sum(SquareEndOf, [Segment(n, n)]) == SquareEndOf(Segment(n, n)) + Sum(SquareEndOf, []);
  }

  /** A range on which the printed total is wrong: a single number that is the square of a prime and
      has two digits 3 is counted, although it is not prime. */
  lemma {:induction false} CountsASquare(n: nat, s: State, acts: seq<Action>)
    requires PrimeSquare(n) && TwoThrees(n)
    requires Initial(s, [Segment(n, n)]) && ValidRun(s, acts) && RunEnd(s, acts).joined == 1
    ensures RunEnd(s, acts).totalCount == 1 && PrimeHits(n, n) == 0
  {
    SingleNumber(n);
    TotalAfterJoins(n, n, [Segment(n, n)], s, acts);
  }

  lemma {:induction false} OneSegment(n: int)
    ensures Segments(n, n, 1) == [Segment(n, n)]
  {
    EndOfSegments(n, n, 1);
  }

  /** Such an execution exists: with 323761 as the only number of its range the program prints 1. */
  lemma {:induction false} PrintsAWrongTotal() returns (s: State, acts: seq<Action>)
    ensures Initial(s, Segments(323761, 323761, 1)) && ValidRun(s, acts) && RunEnd(s, acts).joined == 1
    ensures RunEnd(s, acts).totalCount == 1 && PrimeHits(323761, 323761) == 0
  {
    var segs := [Segment(323761, 323761)];
    SquareWithTwoThrees();
    OneSegment(323761);
    s := State([Worker(segs[0], NotSpawned, 0)], None, 0, 0, 0);
    InitialInv(s, segs);
    acts := RunToTheEnd(s, segs);
    CountsASquare(323761, s, acts);
  }
}
