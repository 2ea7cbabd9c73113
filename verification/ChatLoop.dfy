/** The main loop of hw7/chatserver.c on the arrays: every execution of it is a run, so what holds
    of every run holds of the program. */
module ChatLoop {
  import opened Mapping
  import opened ChatServer
  import opened ChatRuns

  /** What happens on the listening socket in one round of the loop. */
  datatype Listening = Quiet | AcceptFails | Accepted(conn: int, answer: Received)

  /** What `select` reports in one round: the listening socket, and for each ready connection what
      is read from it.  The signal arrives when `passed` of the tests of `running` in this round have
      been made: the first before the listening socket, then one before each slot. */
  datatype Round = Round(listening: Listening, ready: map<int, Received>, passed: nat)

  /** Accepted connections are numbers that have not been used before. */
  predicate NewConnections(rounds: seq<Round>) {
    && (forall k :: 0 <= k < |rounds| && rounds[k].listening.Accepted? ==> rounds[k].listening.conn >= 0)
    && (forall j, k :: 0 <= j < k < |rounds| && rounds[j].listening.Accepted? && rounds[k].listening.Accepted? ==>
          rounds[j].listening.conn != rounds[k].listening.conn)
  }

  function NewIn(round: Round): set<int> {
    if round.listening.Accepted? then {round.listening.conn} else {}
  }

  /** What was accepted in the first `k` rounds. */
  function AcceptedBefore(rounds: seq<Round>, k: nat): set<int>
    requires k <= |rounds|
  {
    set j | 0 <= j < k && rounds[j].listening.Accepted? :: rounds[j].listening.conn
  }

  // ---- The events that the loop handles ------------------------------------------------------

  function SlotEvent(i: nat, c: int, ready: map<int, Received>): seq<Event> {
    if c > -1 && c in ready then [Activity(i, ready[c])] else []
  }

  /** Of the first `k` slots, those with a connection that is ready. */
  function SlotEvents(sockets: seq<int>, ready: map<int, Received>, k: nat): seq<Event>
    requires k <= |sockets|
  {
    if k == 0 then []
    else SlotEvents(sockets, ready, k - 1) + SlotEvent(k - 1, sockets[k - 1], ready)
  }

  function FirstEvents(round: Round): seq<Event> {
    if round.passed > 0 && round.listening.Accepted? then
      [Arrival(round.listening.conn, round.listening.answer)]
    else
      []
  }

  function ClientEvents(sockets: seq<int>, round: Round): seq<Event>
    requires |sockets| == MAX_CONNECTIONS && round.passed > 0
  {
    SlotEvents(sockets, round.ready, if round.passed <= MAX_CONNECTIONS then round.passed - 1 else MAX_CONNECTIONS)
  }

  predicate GoesOn(round: Round) {
    MAX_CONNECTIONS < round.passed && !round.listening.AcceptFails?
  }

  /** One round handles the connection accepted, then the clients that were connected when the round
      began and are ready, in slot order; but nothing once the loop has been told to end. */
  function RoundEvents(sockets: seq<int>, round: Round): seq<Event>
    requires |sockets| == MAX_CONNECTIONS
  {
    if round.passed == 0 || round.listening.AcceptFails? then []
    else
      FirstEvents(round) + ClientEvents(sockets, round)
  }

  /** The events handled in all rounds, up to the one that ends the loop. */
  ghost function Handled(s: Server, rounds: seq<Round>): seq<Event>
    decreases |rounds|
  {
    if rounds == [] || |s.sockets| != MAX_CONNECTIONS then []
    else
      var es := RoundEvents(s.sockets, rounds[0]);
      if GoesOn(rounds[0]) && ValidRun(s, es) then es + Handled(RunEnd(s, es), rounds[1..]) else es
  }

  // ---- Which events these are ----------------------------------------------------------------

  /** The signal comes before the last slot has been looked at, or the listening socket fails. */
  predicate EndsLoop(round: Round) {
    round.passed <= MAX_CONNECTIONS || round.listening.AcceptFails?
  }

  /** Whether the client in slot `i` is served in a round: the signal has not come before, and the
      connection that was there when the round began is ready. */
  predicate Served(sockets: seq<int>, round: Round, i: nat) {
    i + 1 < round.passed && i < |sockets| && sockets[i] > -1 && sockets[i] in round.ready
  }

  /** The place of an event in its round: the arrival first, then the slots in ascending order. */
  function Place(e: Event): nat {
    match e
    case Arrival(_, _) => 0
    case Activity(i, _) => i + 1
  }

  predicate InOrder(es: seq<Event>) {
    forall j, k :: 0 <= j < k < |es| ==> Place(es[j]) < Place(es[k])
  }

  lemma {:induction false} SlotEventsAre(sockets: seq<int>, ready: map<int, Received>, k: nat)
    requires k <= |sockets|
    ensures forall i: nat, r ::
              (Activity(i, r) in SlotEvents(sockets, ready, k)
               <==> i < k && sockets[i] > -1 && sockets[i] in ready && r == ready[sockets[i]])
    ensures forall e :: e in SlotEvents(sockets, ready, k) ==> e.Activity? && e.slot < k
    ensures InOrder(SlotEvents(sockets, ready, k))
  {
    if k > 0 {
      SlotEventsAre(sockets, ready, k - 1);
      var es, last := SlotEvents(sockets, ready, k - 1), SlotEvent(k - 1, sockets[k - 1], ready);
      forall e ensures e in es + last <==> e in es || e in last {
      }
    }
  }

  /** A round handles the arrival, if there is one, and reads from exactly the clients that are served,
      from each once, the arrival first and the clients in slot order.  With a signal that has come
      before the first test, or a listening socket that fails, it handles nothing. */
  lemma {:induction false} RoundServes(sockets: seq<int>, round: Round)
    requires |sockets| == MAX_CONNECTIONS
    ensures var es, starts := RoundEvents(sockets, round), round.passed > 0 && !round.listening.AcceptFails?;
      && (forall c, answer :: Arrival(c, answer) in es <==> starts && round.listening == Accepted(c, answer))
      && (forall i: nat, r ::
            (Activity(i, r) in es <==> starts && Served(sockets, round, i) && r == round.ready[sockets[i]]))
      && InOrder(es)
  {
    if round.passed > 0 && !round.listening.AcceptFails? {
      var k := if round.passed <= MAX_CONNECTIONS then round.passed - 1 else MAX_CONNECTIONS;
      SlotEventsAre(sockets, round.ready, k);
      FirstInOrder(FirstEvents(round), SlotEvents(sockets, round.ready, k));
    }
  }

  lemma {:induction false} FirstInOrder(first: seq<Event>, es: seq<Event>)
    requires |first| <= 1 && (first != [] ==> first[0].Arrival?)
    requires InOrder(es) && forall e :: e in es ==> e.Activity?
    ensures InOrder(first + es) && forall e :: e in first + es <==> e in first || e in es
  {
    if first != [] {
      forall k | 1 <= k < |first + es| ensures Place((first + es)[k]) > 0 {
        assert (first + es)[k] == es[k - 1] && es[k - 1] in es;
      }
    }
  }

  /** In a round without signal and failure every client that is ready is read from. */
  lemma {:induction false} EveryReadyClientIsServed(sockets: seq<int>, round: Round, i: nat)
    requires |sockets| == MAX_CONNECTIONS && !EndsLoop(round) && i < |sockets| && sockets[i] > -1
    ensures sockets[i] in round.ready <==> exists r :: Activity(i, r) in RoundEvents(sockets, round)
    ensures sockets[i] in round.ready ==> Activity(i, round.ready[sockets[i]]) in RoundEvents(sockets, round)
  {
    RoundServes(sockets, round);
    if sockets[i] in round.ready {
      assert Activity(i, round.ready[sockets[i]]) in RoundEvents(sockets, round);
    }
  }

  lemma {:induction false} RunConsistent(s: Server, es: seq<Event>)
    requires Consistent(s) && ValidRun(s, es)
    ensures Consistent(RunEnd(s, es))
    decreases |es|
  {
    if es != [] {
      match es[0] {
        case Arrival(conn, answer) => AcceptConsistent(s, conn, answer);
        case Activity(i, r) => ReceiveConsistent(s, i, r);
      }
      RunConsistent(Step(s, es[0]), es[1..]);
    }
  }

  lemma {:induction false} RunParts(s: Server, es: seq<Event>, more: seq<Event>)
    requires ValidRun(s, es + more)
    ensures ValidRun(s, es) && ValidRun(RunEnd(s, es), more)
    ensures RunEnd(s, es + more) == RunEnd(RunEnd(s, es), more)
    decreases |es|
  {
    if es == [] {
      assert es + more == more;
    } else {
      assert (es + more)[0] == es[0] && (es + more)[1..] == es[1..] + more;
      RunParts(Step(s, es[0]), es[1..], more);
    }
  }

  /** Round `k` is handled from the state that the rounds before have left, as the next part of the
      run; and it is the last part if it ends the loop. */
  ghost predicate HandledAt(s: Server, rounds: seq<Round>, k: nat)
    requires k < |rounds|
  {
    var before := Handled(s, rounds[..k]);
    ValidRun(s, before) &&
    var now := RunEnd(s, before);
    && |now.sockets| == MAX_CONNECTIONS
    && before + RoundEvents(now.sockets, rounds[k]) <= Handled(s, rounds)
    && (k + 1 == |rounds| || EndsLoop(rounds[k]) ==> before + RoundEvents(now.sockets, rounds[k]) == Handled(s, rounds))
  }

  lemma {:induction false} FirstIsHandled(s: Server, rounds: seq<Round>)
    requires Consistent(s) && rounds != []
    ensures HandledAt(s, rounds, 0)
  {
    var es := RoundEvents(s.sockets, rounds[0]);
    assert rounds[..0] == [] && [] + es == es;
    assert es <= Handled(s, rounds);
  }

  lemma {:induction false} LaterIsHandled(s: Server, rounds: seq<Round>, s1: Server, k: nat)
    requires 0 < k < |rounds| && |s.sockets| == MAX_CONNECTIONS && GoesOn(rounds[0])
    requires IsRun(s, RoundEvents(s.sockets, rounds[0]), s1) && HandledAt(s1, rounds[1..], k - 1)
    ensures HandledAt(s, rounds, k)
  {
    var es, rest := RoundEvents(s.sockets, rounds[0]), rounds[1..];
    var before' := Handled(s1, rest[..k - 1]);
    var part := RoundEvents(RunEnd(s1, before').sockets, rest[k - 1]);
    HandledFirst(s, rounds, s1);
    assert rounds[..k][0] == rounds[0] && rounds[..k][1..] == rest[..k - 1];
    HandledFirst(s, rounds[..k], s1);
    RunJoined(s, es, s1, before', RunEnd(s1, before'));
    ConcatAssociative(es, before', part);
    PrefixInFront(es, before' + part, Handled(s1, rest));
  }

  /** As long as none of the rounds before it ends the loop, each round is handled. */
  lemma {:induction false} EveryRoundIsHandled(s: Server, rounds: seq<Round>, k: nat)
    requires Consistent(s) && ValidRun(s, Handled(s, rounds)) && k < |rounds|
    requires forall j :: 0 <= j < k ==> !EndsLoop(rounds[j])
    ensures HandledAt(s, rounds, k)
    decreases k
  {
    if k == 0 {
      FirstIsHandled(s, rounds);
    } else {
      var es, rest := RoundEvents(s.sockets, rounds[0]), rounds[1..];
      FirstRoundValid(s, rounds);
      var s1 := RunEnd(s, es);
      RunParts(s, es, Handled(s1, rest));
      RunConsistent(s, es);
      EveryRoundIsHandled(s1, rest, k - 1);
      LaterIsHandled(s, rounds, s1, k);
    }
  }

  /** A run that begins with a round has that round as a run. */
  lemma {:induction false} FirstRoundValid(s: Server, rounds: seq<Round>)
    requires Consistent(s) && rounds != [] && GoesOn(rounds[0]) && ValidRun(s, Handled(s, rounds))
    ensures var es := RoundEvents(s.sockets, rounds[0]);
      ValidRun(s, es) && Handled(s, rounds) == es + Handled(RunEnd(s, es), rounds[1..])
  {
  }

  ghost predicate IsStep(s: Server, e: Event, s1: Server) {
    Enabled(s, e) && Step(s, e) == s1
  }

  lemma {:induction false} RunRest(s: Server, es: seq<Event>, e: Server) returns (s1: Server)
    requires es != [] && IsRun(s, es, e)
    ensures IsStep(s, es[0], s1) && IsRun(s1, es[1..], e)
  {
    s1 := Step(s, es[0]);
  }

  lemma {:induction false} RunFrom(s: Server, s1: Server, first: Event, rest: seq<Event>, e: Server)
    requires IsStep(s, first, s1) && IsRun(s1, rest, e)
    ensures IsRun(s, [first] + rest, e)
  {
    assert ([first] + rest)[0] == first && ([first] + rest)[1..] == rest;
  }

  lemma {:induction false} RunJoined(s: Server, es: seq<Event>, middle: Server, more: seq<Event>, e: Server)
    requires IsRun(s, es, middle) && IsRun(middle, more, e)
    ensures IsRun(s, es + more, e)
    decreases |es|
  {
    if es == [] {
      assert es + more == more;
    } else {
      var s1 := RunRest(s, es, middle);
      RunJoined(s1, es[1..], middle, more, e);
      RunFrom(s, s1, es[0], es[1..] + more, e);
      FirstInFront(es, more);
    }
  }

  lemma {:induction false} FirstInFront<X>(es: seq<X>, more: seq<X>)
    requires es != []
    ensures [es[0]] + (es[1..] + more) == es + more
  {
  }

  lemma {:induction false} PrefixInFront<X>(front: seq<X>, a: seq<X>, b: seq<X>)
    requires a <= b
    ensures front + a <= front + b
    ensures a == b ==> front + a == front + b
  {
  }

  // ---- The loop ------------------------------------------------------------------------------

  ghost predicate IsRun(s0: Server, es: seq<Event>, s: Server) {
    ValidRun(s0, es) && RunEnd(s0, es) == s
  }

  lemma {:induction false} OneEvent(s: Server, e: Event)
    requires Enabled(s, e)
    ensures IsRun(s, [e], Step(s, e))
  {
    assert [e][1..] == [] && IsRun(Step(s, e), [], Step(s, e));
  }

  lemma {:induction false} OneMoreEvent(s0: Server, es: seq<Event>, s: Server, e: Event)
    requires IsRun(s0, es, s) && Enabled(s, e)
    ensures IsRun(s0, es + [e], Step(s, e))
  {
    OneEvent(s, e);
    RunJoined(s0, es, s, [e], Step(s, e));
  }

  /** The descriptor set: the connections in the slots when the round begins. */
  method Watch(server: ChatServer) returns (watched: set<int>)
    ensures forall c :: c in watched <==> c > -1 && c in server.clientSockets[..]
  {
    watched := {};
    var i := 0;
    while i < server.clientSockets.Length
      invariant 0 <= i <= server.clientSockets.Length
      invariant forall c :: c in watched <==> c > -1 && c in server.clientSockets[..i]
    {
      assert server.clientSockets[..i + 1] == server.clientSockets[..i] + [server.clientSockets[i]];
      if server.clientSockets[i] > -1 {
        watched := watched + {server.clientSockets[i]};
      }
      i := i + 1;
    }
    assert server.clientSockets[..i] == server.clientSockets[..];
  }

  /** A slot holds what it held when the round began, or a connection accepted in this round. */
  predicate SlotKept(was: int, now: int, watched: set<int>) {
    now == was || (was == -1 && now !in watched)
  }

  predicate SlotsKept(was: seq<int>, now: seq<int>, watched: set<int>, from: nat) {
    |was| == |now| && forall j :: from <= j < |was| ==> SlotKept(was[j], now[j], watched)
  }

  lemma {:induction false} StillKept(was: seq<int>, now: seq<int>, later: seq<int>, watched: set<int>, i: nat)
    requires SlotsKept(was, now, watched, i) && i < |now| == |later| && now[i + 1..] == later[i + 1..]
    ensures SlotsKept(was, later, watched, i + 1)
  {
    forall j | i + 1 <= j < |was| ensures SlotKept(was[j], later[j], watched) {
      assert now[j] == now[i + 1..][j - (i + 1)] && later[j] == later[i + 1..][j - (i + 1)];
      assert SlotKept(was[j], now[j], watched);
    }
  }

  lemma {:induction false} ReceiveKeepsSlots(s: Server, i: nat, r: Received)
    requires Consistent(s) && i < |s.sockets| && s.sockets[i] != -1
    ensures |Receive(s, i, r).sockets| == |s.sockets| && Receive(s, i, r).sockets[i + 1..] == s.sockets[i + 1..]
  {
  }

  lemma {:induction false} AcceptKeepsSlots(s: Server, conn: int, answer: Received, watched: set<int>)
    requires Consistent(s) && conn !in s.sent && conn >= 0 && conn !in watched
    ensures SlotsKept(s.sockets, Accept(s, conn, answer).sockets, watched, 0)
  {
  }

  function WatchedEvent(i: nat, c: int, watched: set<int>, ready: map<int, Received>): seq<Event> {
    if c in watched then SlotEvent(i, c, ready) else []
  }

  lemma {:induction false} SameEvent(i: nat, was: int, now: int, watched: set<int>, ready: map<int, Received>)
    requires SlotKept(was, now, watched) && (was > -1 ==> was in watched)
    ensures WatchedEvent(i, now, watched, ready) == SlotEvent(i, was, ready)
  {
  }

  method HandleSlot(server: ChatServer, i: nat, watched: set<int>, ready: map<int, Received>,
                    ghost s0: Server, ghost es0: seq<Event>)
    returns (ghost es: seq<Event>)
    requires server.Valid() && IsRun(s0, es0, server.View()) && i < server.clientSockets.Length
    modifies server, server.clientSockets, server.usernames
    ensures server.clientSockets == old(server.clientSockets) && server.usernames == old(server.usernames)
    ensures server.Valid() && IsRun(s0, es, server.View()) && server.sent.Keys == old(server.sent.Keys)
    ensures server.clientSockets[i + 1..] == old(server.clientSockets[i + 1..])
    ensures es == es0 + WatchedEvent(i, old(server.clientSockets[i]), watched, ready)
  {
    var c := server.clientSockets[i];
    es := es0;
    if c > -1 && c in watched && c in ready {
      ghost var s, e := server.View(), Activity(i, ready[c]);
      OneMoreEvent(s0, es, s, e);
      ReceiveConsistent(s, i, ready[c]);
      ReceiveKeepsSlots(s, i, ready[c]);
      server.HandleClientSocket(i, ready[c]);
      es := es + [e];
      assert server.View().sockets == server.clientSockets[..];
    }
  }

  /** The second half of a round: the clients, in slot order, as long as the signal has not come. */
  method HandleClients(server: ChatServer, watched: set<int>, round: Round, ghost sockets: seq<int>,
                       ghost s0: Server, ghost es0: seq<Event>)
    returns (ghost es: seq<Event>)
    requires server.Valid() && IsRun(s0, es0, server.View()) && |sockets| == server.clientSockets.Length
    requires round.passed > 0 && forall c :: c in watched <==> c > -1 && c in sockets
    requires SlotsKept(sockets, server.clientSockets[..], watched, 0)
    modifies server, server.clientSockets, server.usernames
    ensures server.clientSockets == old(server.clientSockets) && server.usernames == old(server.usernames)
    ensures server.Valid() && IsRun(s0, es, server.View()) && server.sent.Keys == old(server.sent.Keys)
    ensures es == es0 + ClientEvents(sockets, round)
  {
    es := es0;
    var i := 0;
    while i + 1 < round.passed && i < MAX_CONNECTIONS
      invariant 0 <= i <= MAX_CONNECTIONS && i < round.passed && server.clientSockets.Length == |sockets|
      invariant es == es0 + SlotEvents(sockets, round.ready, i)
      invariant server.clientSockets == old(server.clientSockets) && server.usernames == old(server.usernames)
      invariant SlotsKept(sockets, server.clientSockets[..], watched, i)
      invariant server.Valid() && IsRun(s0, es, server.View()) && server.sent.Keys == old(server.sent.Keys)
    {
      ghost var now := server.clientSockets[..];
      SameEvent(i, sockets[i], server.clientSockets[i], watched, round.ready);
      ConcatAssociative(es0, SlotEvents(sockets, round.ready, i), SlotEvent(i, sockets[i], round.ready));
      es := HandleSlot(server, i, watched, round.ready, s0, es);
      StillKept(sockets, now, server.clientSockets[..], watched, i);
      i := i + 1;
    }
  }

  /** The first half of a round, with a connection to accept. */
  method HandleListening(server: ChatServer, round: Round, ghost watched: set<int>,
                         ghost s0: Server, ghost es0: seq<Event>)
    returns (ghost es: seq<Event>)
    requires server.Valid() && IsRun(s0, es0, server.View()) && round.passed > 0 && round.listening.Accepted?
    requires round.listening.conn >= 0 && round.listening.conn !in server.sent && round.listening.conn !in watched
    modifies server, server.clientSockets, server.usernames
    ensures server.clientSockets == old(server.clientSockets) && server.usernames == old(server.usernames)
    ensures server.Valid() && IsRun(s0, es, server.View()) && es == es0 + FirstEvents(round)
    ensures SlotsKept(old(server.clientSockets[..]), server.clientSockets[..], watched, 0)
    ensures server.sent.Keys <= old(server.sent.Keys) + NewIn(round)
  {
    ghost var s, e := server.View(), Arrival(round.listening.conn, round.listening.answer);
    OneMoreEvent(s0, es0, s, e);
    AcceptConsistent(s, round.listening.conn, round.listening.answer);
    AcceptKeepsSlots(s, round.listening.conn, round.listening.answer, watched);
    server.HandleServerSocket(round.listening.conn, round.listening.answer);
    es := es0 + [e];
    assert server.View().sockets == server.clientSockets[..];
  }

  /** Both halves of a round that is not told to end before the first. */
  method HandleReady(server: ChatServer, round: Round, ghost s0: Server, ghost es0: seq<Event>)
    returns (ghost es: seq<Event>)
    requires server.Valid() && IsRun(s0, es0, server.View()) && round.passed > 0 && !round.listening.AcceptFails?
    requires round.listening.Accepted? ==> round.listening.conn >= 0 && round.listening.conn !in server.sent
    modifies server, server.clientSockets, server.usernames
    ensures server.clientSockets == old(server.clientSockets) && server.usernames == old(server.usernames)
    ensures server.Valid() && IsRun(s0, es, server.View())
    ensures es == (es0 + FirstEvents(round)) + ClientEvents(old(server.clientSockets[..]), round)
    ensures server.sent.Keys <= old(server.sent.Keys) + NewIn(round)
  {
    ghost var sockets := server.clientSockets[..];
    var watched := Watch(server);
    es := es0;
    if round.listening.Accepted? {
      es := HandleListening(server, round, watched, s0, es);
    }
    es := HandleClients(server, watched, round, sockets, s0, es);
  }

  /** One round.  A listening socket that fails ends the loop at once. */
  method HandleRound(server: ChatServer, round: Round, ghost s0: Server, ghost es0: seq<Event>)
    returns (running: bool, ghost es: seq<Event>)
    requires server.Valid() && IsRun(s0, es0, server.View())
    requires round.listening.Accepted? ==> round.listening.conn >= 0 && round.listening.conn !in server.sent
    modifies server, server.clientSockets, server.usernames
    ensures server.clientSockets == old(server.clientSockets) && server.usernames == old(server.usernames)
    ensures server.Valid() && IsRun(s0, es, server.View())
    ensures es == es0 + RoundEvents(old(server.clientSockets[..]), round)
    ensures running <==> GoesOn(round)
    ensures server.sent.Keys <= old(server.sent.Keys) + NewIn(round)
  {
    es := es0;
    running := false;
    if round.passed > 0 && !round.listening.AcceptFails? {
      ConcatAssociative(es0, FirstEvents(round), ClientEvents(server.clientSockets[..], round));
      es := HandleReady(server, round, s0, es0);
      running := MAX_CONNECTIONS < round.passed;
    }
  }

  lemma {:induction false} StillNew(rounds: seq<Round>, k: nat)
    requires NewConnections(rounds) && k < |rounds|
    ensures rounds[k].listening.Accepted? ==>
              rounds[k].listening.conn >= 0 && rounds[k].listening.conn !in AcceptedBefore(rounds, k)
    ensures AcceptedBefore(rounds, k + 1) == AcceptedBefore(rounds, k) + NewIn(rounds[k])
  {
  }

  /** What is handled from `s` on begins with what one round handles. */
  lemma {:induction false} HandledFirst(s: Server, rounds: seq<Round>, s': Server)
    requires rounds != [] && |s.sockets| == MAX_CONNECTIONS && IsRun(s, RoundEvents(s.sockets, rounds[0]), s')
    ensures Handled(s, rounds)
         == RoundEvents(s.sockets, rounds[0]) + (if GoesOn(rounds[0]) then Handled(s', rounds[1..]) else [])
  {
  }

  lemma {:induction false} RoundHandled(s0: Server, es: seq<Event>, s: Server, rounds: seq<Round>, s': Server)
    requires rounds != [] && |s.sockets| == MAX_CONNECTIONS
    requires IsRun(s0, es, s) && IsRun(s0, es + RoundEvents(s.sockets, rounds[0]), s')
    ensures es + Handled(s, rounds)
         == es + RoundEvents(s.sockets, rounds[0]) + (if GoesOn(rounds[0]) then Handled(s', rounds[1..]) else [])
  {
    var first := RoundEvents(s.sockets, rounds[0]);
    RunParts(s0, es, first);
    HandledFirst(s, rounds, s');
    ConcatAssociative(es, first, if GoesOn(rounds[0]) then Handled(s', rounds[1..]) else []);
  }

  /** The loop from the start: it handles the events that the rounds bring, and they are a run. */
  method Loop(rounds: seq<Round>) returns (server: ChatServer, ghost s0: Server, ghost es: seq<Event>)
    requires NewConnections(rounds)
    ensures fresh(server) && fresh(server.clientSockets) && fresh(server.usernames)
    ensures server.Valid() && Initial(s0) && IsRun(s0, es, server.View())
    ensures es == Handled(s0, rounds)
  {
    server := new ChatServer();
    s0, es := server.View(), [];
    assert IsRun(s0, es, s0);
    var running, k := true, 0;
    while running && k < |rounds|
      invariant 0 <= k <= |rounds| && fresh(server) && fresh(server.clientSockets) && fresh(server.usernames)
      invariant server.Valid() && IsRun(s0, es, server.View())
      invariant server.sent.Keys <= AcceptedBefore(rounds, k)
      invariant Handled(s0, rounds) == es + (if running then Handled(server.View(), rounds[k..]) else [])
    {
      StillNew(rounds, k);
      ghost var s, before := server.View(), es;
      running, es := HandleRound(server, rounds[k], s0, es);
      RoundHandled(s0, before, s, rounds[k..], server.View());
      assert rounds[k..][1..] == rounds[k + 1..];
      k := k + 1;
    }
  }

  /** The program from start to shutdown: each connection has been sent its welcome, then what the
      others announced while it belonged to the room, and "bye" if it was still connected; and
      nothing but connections that hung up before giving a name is left open. */
  method Serve(rounds: seq<Round>) returns (server: ChatServer, ghost s0: Server, ghost es: seq<Event>)
    requires NewConnections(rounds)
    ensures Initial(s0) && es == Handled(s0, rounds) && ValidRun(s0, es)
    ensures Consistent(RunEnd(s0, es)) && server.View() == Shutdown(RunEnd(s0, es))
    ensures Delivered(server.View(), RoomEnd(s0, EMPTY_ROOM, es))
  {
    server, s0, es := Loop(rounds);
    RunDelivers(s0, es);
    server.Cleanup();
  }

  /** What is due after shutdown, given all that has happened in the room. */
  ghost predicate Delivered(s: Server, r: Room) {
    && RoomOk(r) && s.sent.Keys == r.welcome.Keys && !s.listening && multiset(s.freed) == multiset(s.copied)
    && (forall c :: c in s.sent ==> s.sent[c] == Log(r, c) + (if Belongs(r, c) then ["bye"] else []))
    && (forall c :: c in s.open <==> Unnamed(r, c))
  }

  lemma {:induction false} RunDelivers(s: Server, es: seq<Event>)
    requires Initial(s) && ValidRun(s, es)
    ensures Consistent(RunEnd(s, es)) && Delivered(Shutdown(RunEnd(s, es)), RoomEnd(s, EMPTY_ROOM, es))
  {
    var r := RoomEnd(s, EMPTY_ROOM, es);
    EveryRunDelivers(s, es);
    ShutdownReleases(s, es);
    BroadcastConsistent(RunEnd(s, es), -1, "bye");
    var e := Shutdown(RunEnd(s, es));
    forall c | c in e.sent ensures e.sent[c] == Log(r, c) + (if Belongs(r, c) then ["bye"] else []) {
      ShutdownDelivers(s, es, c);
    }
  }
}
