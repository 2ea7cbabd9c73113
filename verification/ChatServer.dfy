/** The slot table of hw7/chatserver.c: accepting, relaying and dropping clients, as the program
    does it on its global arrays.

    A connection is a number that is never used again, where the program has a descriptor that
    the system may reuse once it is closed.  What is sent on a connection is kept in `sent`,
    whether the listening socket is open in `listening`, the connections that are not closed in
    `open`, and the names that have been copied and the copies that have been freed in `copied` and
    `freed`. */
module ChatServer {
  import opened Options
  import opened Sums
  import opened Mapping
  import opened Names

  const MAX_CONNECTIONS: nat := 3

  /** The globals: slot i is free when its socket is -1, and `inbuf` is the C string last read. */
  datatype Server = Server(sockets: seq<int>, usernames: seq<Option<string>>, numConnections: int,
                           inbuf: string, sent: map<int, seq<string>>,
                           listening: bool, open: set<int>, copied: seq<string>, freed: seq<string>)

  /** What a read from a connection brings. */
  datatype Received = HungUp | Failed | Data(bytes: string)

  function IsLive(socket: int): int {
    if socket == -1 then 0 else 1
  }

  /** A slot has a name exactly when it has a socket, no connection has two slots, and the
      counter is the number of slots in use. */
  ghost predicate Consistent(s: Server) {
    && |s.sockets| == |s.usernames| == MAX_CONNECTIONS
    && (forall i :: 0 <= i < |s.sockets| ==> (s.sockets[i] == -1 <==> s.usernames[i].None?))
    && (forall i :: 0 <= i < |s.sockets| && s.sockets[i] != -1 ==> s.sockets[i] >= 0 && s.sockets[i] in s.sent)
    && (forall i, j :: 0 <= i < j < |s.sockets| && s.sockets[i] != -1 ==> s.sockets[i] != s.sockets[j])
    && s.numConnections == Sum(IsLive, s.sockets)
    && s.open <= s.sent.Keys && (forall c :: c in s.sent ==> c >= 0)
  }

  // ---- The texts ----------------------------------------------------------------------------

  function JoinText(name: string): string { "User [" + name + "] joined the chat room." }

  function LeaveText(name: string): string { "User [" + name + "] left the chat room." }

  function ChatText(name: string, text: string): string { "[" + name + "]: " + text }

  const GREETING := "*** Welcome to CS 392 Chat Server v1.0 ***"

  function WelcomeText(names: seq<string>): string {
    if names == [] then GREETING + "\n\nNo other users are in the chat room."
    else GREETING + "\n\nConnected users: [" + Separated(SortNames(names)) + "]"
  }

  function SlotName(username: Option<string>): seq<string> {
    if username.Some? then [username.value] else []
  }

  /** The names in slot order. */
  function SlotNames(usernames: seq<Option<string>>): seq<string> {
    if usernames == [] then [] else SlotName(usernames[0]) + SlotNames(usernames[1..])
  }

  // ---- What each handler does to the globals ------------------------------------------------

  function SendTo(sent: map<int, seq<string>>, conn: int, text: string): (r: map<int, seq<string>>)
    requires conn in sent
    ensures r.Keys == sent.Keys
  {
    sent[conn := sent[conn] + [text]]
  }

  /** Lines 59 to 71, for the first `k` slots. */
  function Broadcast(sockets: seq<int>, sent: map<int, seq<string>>, skip: int, text: string,
                     k: nat): (r: map<int, seq<string>>)
    requires k <= |sockets|
    requires forall i :: 0 <= i < |sockets| && sockets[i] != -1 ==> sockets[i] in sent
    ensures r.Keys == sent.Keys
  {
    if k == 0 then sent
    else
      var r := Broadcast(sockets, sent, skip, text, k - 1);
      if k - 1 != skip && sockets[k - 1] != -1 then SendTo(r, sockets[k - 1], text) else r
  }

  function BroadcastAll(s: Server, skip: int, text: string): Server
    requires forall i :: 0 <= i < |s.sockets| && s.sockets[i] != -1 ==> s.sockets[i] in s.sent
  {
    s.(sent := Broadcast(s.sockets, s.sent, skip, text, |s.sockets|))
  }

  /** Lines 144 to 151: closes the connection, frees the name and the slot. */
  function Vacate(s: Server, i: nat): Server
    requires |s.usernames| == |s.sockets| && i < |s.sockets| && s.usernames[i].Some?
  {
    s.(sockets := s.sockets[i := -1], usernames := s.usernames[i := None], numConnections := s.numConnections - 1,
       open := s.open - {s.sockets[i]}, freed := s.freed + [s.usernames[i].value])
  }

  /** Lines 137 to 152. */
  function Disconnect(s: Server, i: nat): Server
    requires |s.usernames| == |s.sockets| && i < |s.sockets| && s.usernames[i].Some?
    requires forall i :: 0 <= i < |s.sockets| && s.sockets[i] != -1 ==> s.sockets[i] in s.sent
  {
    Vacate(BroadcastAll(s, i, LeaveText(s.usernames[i].value)), i)
  }

  /** The first free slot, or the number of slots. */
  function FreeSlot(sockets: seq<int>): (i: nat)
    ensures i <= |sockets| && (forall j :: 0 <= j < i ==> sockets[j] != -1)
    ensures i < |sockets| ==> sockets[i] == -1
  {
    if sockets == [] || sockets[0] == -1 then 0 else 1 + FreeSlot(sockets[1..])
  }

  /** Lines 217 to 219. */
  function Occupy(s: Server, i: nat, conn: int, name: string): Server
    requires |s.sockets| == |s.usernames| && i < |s.sockets|
  {
    s.(sockets := s.sockets[i := conn], usernames := s.usernames[i := Some(name)],
       numConnections := s.numConnections + 1, copied := s.copied + [name])
  }

  /** Lines 214 to 224. */
  function AddToFreeSlot(s: Server, conn: int, name: string): Server
    requires |s.sockets| == |s.usernames| && conn in s.sent
    requires forall i :: 0 <= i < |s.sockets| && s.sockets[i] != -1 ==> s.sockets[i] in s.sent
  {
    var i := FreeSlot(s.sockets);
    if i < |s.sockets| then BroadcastAll(Occupy(s, i, conn, name), i, JoinText(name)) else s
  }

  function Greet(s: Server, conn: int, text: string): Server {
    s.(sent := s.sent[conn := [text]], open := s.open + {conn})
  }

  /** What the input buffer holds after a read: a failed read leaves the last string in it. */
  function Inbuf(s: Server, r: Received): string {
    if r.Data? then CString(r.bytes) else s.inbuf
  }

  /** Lines 200 to 224: `answer` is what the client sends as its name. */
  function Admit(s: Server, conn: int, answer: Received): (s': Server)
    requires |s.sockets| == |s.usernames| && conn in s.sent
    requires forall i :: 0 <= i < |s.sockets| && s.sockets[i] != -1 ==> s.sockets[i] in s.sent
  {
    if answer.HungUp? then s
    else
      var name := Inbuf(s, answer);
      AddToFreeSlot(s.(inbuf := name), conn, name)
  }

  /** Lines 159 to 227, once `accept` has returned `conn`; `answer` is what the client sends as its
      name.  A connection that is refused is closed at once, one that hangs up before giving its name
      is not.  When the read fails the program goes on with the string last read from anybody. */
  function Accept(s: Server, conn: int, answer: Received): (s': Server)
    requires Consistent(s) && conn !in s.sent && conn >= 0
  {
    if s.numConnections >= MAX_CONNECTIONS then s
    else
      Admit(Greet(s, conn, WelcomeText(SlotNames(s.usernames))), conn, answer)
  }

  /** Lines 234 to 274, for a slot in use. */
  function Receive(s: Server, i: nat, r: Received): (s': Server)
    requires Consistent(s) && i < |s.sockets| && s.sockets[i] != -1
  {
    match r
    case HungUp => Disconnect(s, i)
    case Failed => s
    case Data(bytes) =>
      var text := Inbuf(s, r);
      var s' := s.(inbuf := text);
      if text == "bye" then Disconnect(s', i) else BroadcastAll(s', i, ChatText(s.usernames[i].value, text))
  }

  /** Lines 112 to 129.  The slots still hold what has been closed and freed. */
  function Shutdown(s: Server): Server
    requires Consistent(s)
  {
    BroadcastAll(s, -1, "bye").(listening := false, open := s.open - Elements(s.sockets),
                                freed := s.freed + SlotNames(s.usernames))
  }

  // ---- Every handler keeps the globals consistent -------------------------------------------

  /** As long as the counter is below the capacity there is a free slot. */
  lemma {:induction false} FreeSlotExists(sockets: seq<int>)
    ensures FreeSlot(sockets) == |sockets| ==> Sum(IsLive, sockets) == |sockets|
  {
    if sockets != [] {
      FreeSlotExists(sockets[1..]);
    }
  }

  lemma {:induction false} OccupyConsistent(s: Server, c: int, i: nat, name: string)
    requires Consistent(s) && c in s.sent && c >= 0 && c !in s.sockets && i < |s.sockets| && s.sockets[i] == -1
    ensures Consistent(Occupy(s, i, c, name))
  {
    SumUpdate(IsLive, s.sockets, i, c);
  }

  lemma {:induction false} VacateConsistent(s: Server, i: nat)
    requires Consistent(s) && i < |s.sockets| && s.sockets[i] != -1
    ensures Consistent(Vacate(s, i))
  {
    SumUpdate(IsLive, s.sockets, i, -1);
  }

  lemma {:induction false} BroadcastConsistent(s: Server, skip: int, text: string)
    requires Consistent(s)
    ensures Consistent(BroadcastAll(s, skip, text)) && BroadcastAll(s, skip, text).sent.Keys == s.sent.Keys
  {
  }

  lemma {:induction false} LeaveConsistent(s: Server, i: nat)
    requires Consistent(s) && i < |s.sockets| && s.sockets[i] != -1
    ensures Consistent(Disconnect(s, i)) && Disconnect(s, i).sent.Keys == s.sent.Keys
  {
    var text := LeaveText(s.usernames[i].value);
    BroadcastConsistent(s, i, text);
    VacateConsistent(BroadcastAll(s, i, text), i);
  }

  lemma {:induction false} GreetConsistent(s: Server, c: int, text: string)
    requires Consistent(s) && c !in s.sent && c >= 0
    ensures Consistent(Greet(s, c, text)) && c !in s.sockets
  {
  }

  lemma {:induction false} AcceptConsistent(s: Server, conn: int, answer: Received)
    requires Consistent(s) && conn !in s.sent && conn >= 0
    ensures Consistent(Accept(s, conn, answer))
    ensures Accept(s, conn, answer).sent.Keys <= s.sent.Keys + {conn}
  {
    if s.numConnections < MAX_CONNECTIONS && !answer.HungUp? {
      var name, text := Inbuf(s, answer), WelcomeText(SlotNames(s.usernames));
      GreetConsistent(s, conn, text);
      var s' := Greet(s, conn, text).(inbuf := name);
      FreeSlotExists(s.sockets);
      var i := FreeSlot(s.sockets);
      OccupyConsistent(s', conn, i, name);
      BroadcastConsistent(Occupy(s', i, conn, name), i, JoinText(name));
    }
  }

  lemma {:induction false} ReceiveConsistent(s: Server, i: nat, r: Received)
    requires Consistent(s) && i < |s.sockets| && s.sockets[i] != -1
    ensures Consistent(Receive(s, i, r)) && Receive(s, i, r).sent.Keys == s.sent.Keys
  {
    match r
    case HungUp => LeaveConsistent(s, i);
    case Failed =>
    case Data(bytes) =>
      var s' := s.(inbuf := CString(bytes));
      LeaveConsistent(s', i);
      BroadcastConsistent(s', i, ChatText(s.usernames[i].value, s'.inbuf));
  }

  lemma {:induction false} ShutdownConsistent(s: Server)
    requires Consistent(s)
    ensures Consistent(Shutdown(s))
  {
    BroadcastConsistent(s, -1, "bye");
  }

  // ---- The handlers on the arrays -----------------------------------------------------------

  class ChatServer {
    var clientSockets: array<int>
    var usernames: array<Option<string>>
    var numConnections: int
    var inbuf: string
    var sent: map<int, seq<string>>
    ghost var listening: bool
    ghost var open: set<int>
    ghost var copied: seq<string>
    ghost var freed: seq<string>

    ghost function View(): Server
      reads this, clientSockets, usernames
    {
      Server(clientSockets[..], usernames[..], numConnections, inbuf, sent, listening, open, copied, freed)
    }

    ghost predicate Valid()
      reads this, clientSockets, usernames
    {
      Consistent(View())
    }

    constructor ()
      ensures Valid() && fresh(clientSockets) && fresh(usernames)
      ensures clientSockets[..] == [-1, -1, -1] && usernames[..] == [None, None, None]
      ensures numConnections == 0 && inbuf == "" && sent == map[]
      ensures listening && open == {} && copied == freed == []
    {
      clientSockets := new int[MAX_CONNECTIONS](_ => -1);
      usernames := new Option<string>[MAX_CONNECTIONS](_ => None);
      numConnections, inbuf, sent := 0, "", map[];
      listening, open, copied, freed := true, {}, [], [];
      new;
      SumZero(IsLive, clientSockets[..]);
    }

    method BroadcastBuffer(skipIndex: int, buf: string)
      requires forall i :: 0 <= i < clientSockets.Length && clientSockets[i] != -1 ==> clientSockets[i] in sent
      modifies this`sent
      ensures View() == BroadcastAll(old(View()), skipIndex, buf)
    {
      var i := 0;
      while i < clientSockets.Length
        invariant 0 <= i <= clientSockets.Length
        invariant sent == Broadcast(clientSockets[..], old(sent), skipIndex, buf, i)
      {
        if i != skipIndex && clientSockets[i] != -1 {
          sent := SendTo(sent, clientSockets[i], buf);
        }
        i := i + 1;
      }
    }

    /** Lines 91 to 97. */
    method CollectNames() returns (names: seq<string>)
      ensures names == SlotNames(usernames[..])
    {
      names := [];
      var i := 0;
      ghost var us := usernames[..];
      assert us[0..] == us;
      while i < usernames.Length
        invariant 0 <= i <= usernames.Length && SlotNames(us) == names + SlotNames(us[i..])
      {
        assert SlotNames(us[i..]) == SlotName(us[i]) + SlotNames(us[i + 1..]) by {
          assert us[i..][1..] == us[i + 1..];
        }
        ConcatAssociative(names, SlotName(us[i]), SlotNames(us[i + 1..]));
        if usernames[i].Some? {
          names := names + [usernames[i].value];
        }
        i := i + 1;
      }
    }

    method CreateWelcomeMsg() returns (outbuf: string)
      requires Valid()
      ensures outbuf == WelcomeText(SlotNames(usernames[..]))
    {
      NameCount(View());
      outbuf := GREETING;
      if numConnections == 0 {
        outbuf := outbuf + "\n\nNo other users are in the chat room.";
        return;
      }
      var names := CollectNames();
      outbuf := outbuf + "\n\nConnected users: [" + Separated(SortNames(names)) + "]";
    }

    method DisconnectClient(index: nat)
      requires Valid() && index < clientSockets.Length && clientSockets[index] != -1
      modifies this, clientSockets, usernames
      ensures Valid() && clientSockets == old(clientSockets) && usernames == old(usernames)
      ensures View() == Disconnect(old(View()), index)
    {
      LeaveConsistent(View(), index);
      BroadcastBuffer(index, LeaveText(usernames[index].value));
      VacateSlot(index);
    }

    /** Lines 144 to 151. */
    method VacateSlot(index: nat)
      requires index < clientSockets.Length == usernames.Length && usernames[index].Some?
      modifies this, clientSockets, usernames
      ensures clientSockets == old(clientSockets) && usernames == old(usernames)
      ensures View() == Vacate(old(View()), index)
    {
      ghost var s := View();
      assert s.sockets[index] == clientSockets[index] && s.usernames[index] == usernames[index];
      open, freed := open - {clientSockets[index]}, freed + [usernames[index].value];
      clientSockets[index] := -1;
      usernames[index] := None;
      numConnections := numConnections - 1;
      assert clientSockets[..] == s.sockets[index := -1];
      assert usernames[..] == s.usernames[index := None];
    }

    /** Lines 217 to 219. */
    method OccupySlot(i: nat, newSocket: int)
      requires i < clientSockets.Length == usernames.Length
      modifies this, clientSockets, usernames
      ensures clientSockets == old(clientSockets) && usernames == old(usernames)
      ensures View() == Occupy(old(View()), i, newSocket, old(inbuf))
    {
      ghost var s := View();
      clientSockets[i] := newSocket;
      usernames[i] := Some(inbuf);
      copied := copied + [inbuf];
      numConnections := numConnections + 1;
      assert clientSockets[..] == s.sockets[i := newSocket];
      assert usernames[..] == s.usernames[i := Some(inbuf)];
    }

    /** Lines 214 to 224. */
    method AddClient(newSocket: int)
      requires clientSockets.Length == usernames.Length && newSocket in sent
      requires forall i :: 0 <= i < clientSockets.Length && clientSockets[i] != -1 ==> clientSockets[i] in sent
      modifies this, clientSockets, usernames
      ensures clientSockets == old(clientSockets) && usernames == old(usernames)
      ensures View() == AddToFreeSlot(old(View()), newSocket, old(inbuf))
    {
      ghost var s := View();
      var i := 0;
      assert s.sockets[0..] == s.sockets;
      while i < clientSockets.Length
        invariant 0 <= i <= clientSockets.Length && View() == s
        invariant FreeSlot(s.sockets) == i + FreeSlot(s.sockets[i..])
        invariant clientSockets == old(clientSockets) && usernames == old(usernames)
      {
        assert s.sockets[i..][1..] == s.sockets[i + 1..];
        if clientSockets[i] == -1 {
          OccupySlot(i, newSocket);
          BroadcastBuffer(i, JoinText(inbuf));
          return;
        }
        i := i + 1;
      }
    }

    /** Lines 188 to 197. */
    method SendWelcome(newSocket: int)
      requires Valid() && newSocket !in sent && newSocket >= 0
      modifies this`sent, this`open
      ensures Valid() && View() == Greet(old(View()), newSocket, WelcomeText(SlotNames(usernames[..])))
    {
      GreetConsistent(View(), newSocket, WelcomeText(SlotNames(usernames[..])));
      var outbuf := CreateWelcomeMsg();
      sent, open := sent[newSocket := [outbuf]], open + {newSocket};
    }

    method HandleServerSocket(newSocket: int, answer: Received)
      requires Valid() && newSocket !in sent && newSocket >= 0
      modifies this, clientSockets, usernames
      ensures Valid() && clientSockets == old(clientSockets) && usernames == old(usernames)
      ensures View() == Accept(old(View()), newSocket, answer)
    {
      ghost var s := View();
      AcceptConsistent(s, newSocket, answer);
      if numConnections >= MAX_CONNECTIONS {
        return;
      }
      SendWelcome(newSocket);
      ReceiveName(newSocket, answer);
    }

    /** Lines 200 to 224. */
    method ReceiveName(newSocket: int, answer: Received)
      requires Valid() && newSocket in sent
      modifies this, clientSockets, usernames
      ensures clientSockets == old(clientSockets) && usernames == old(usernames)
      ensures View() == Admit(old(View()), newSocket, answer)
    {
      if answer.HungUp? {
        return;
      }
      if answer.Data? {
        inbuf := CString(answer.bytes);
      }
      AddClient(newSocket);
    }

    method HandleClientSocket(index: nat, r: Received)
      requires Valid() && index < clientSockets.Length && clientSockets[index] != -1
      modifies this, clientSockets, usernames
      ensures Valid() && clientSockets == old(clientSockets) && usernames == old(usernames)
      ensures View() == Receive(old(View()), index, r)
    {
      ReceiveConsistent(View(), index, r);
      match r
      case HungUp => DisconnectClient(index);
      case Failed =>
      case Data(bytes) =>
        inbuf := CString(bytes);
        if inbuf == "bye" {
          DisconnectClient(index);
        } else {
          BroadcastBuffer(index, ChatText(usernames[index].value, inbuf));
        }
    }

    /** Lines 121 to 128. */
    method CloseAndFree()
      requires clientSockets.Length == usernames.Length
      modifies this`open, this`freed
      ensures open == old(open) - Elements(clientSockets[..]) && freed == old(freed) + SlotNames(usernames[..])
    {
      ghost var sockets, names := clientSockets[..], usernames[..];
      var i := 0;
      while i < clientSockets.Length
        invariant 0 <= i <= |sockets|
        invariant open == old(open) - Elements(sockets[..i]) && freed == old(freed) + SlotNames(names[..i])
      {
        ElementsNext(sockets, i);
        SlotNamesNext(names, i);
        ConcatAssociative(old(freed), SlotNames(names[..i]), SlotName(names[i]));
        open := open - {clientSockets[i]};
        if usernames[i].Some? {
          freed := freed + [usernames[i].value];
        }
        i := i + 1;
      }
      assert sockets[..i] == sockets && names[..i] == names;
    }

    /** Lines 112 to 129. */
    method Cleanup()
      requires Valid()
      modifies this`sent, this`listening, this`open, this`freed
      ensures Valid() && View() == Shutdown(old(View()))
    {
      ghost var s := View();
      ShutdownConsistent(s);
      BroadcastBuffer(-1, "bye");
      listening := false;
      CloseAndFree();
    }
  }

  lemma {:induction false} SlotNamesConcat(us: seq<Option<string>>, vs: seq<Option<string>>)
    ensures SlotNames(us + vs) == SlotNames(us) + SlotNames(vs)
  {
    if us == [] {
      assert us + vs == vs;
    } else {
      assert (us + vs)[0] == us[0] && (us + vs)[1..] == us[1..] + vs;
      SlotNamesConcat(us[1..], vs);
      ConcatAssociative(SlotName(us[0]), SlotNames(us[1..]), SlotNames(vs));
    }
  }

  lemma {:induction false} SlotNamesNext(us: seq<Option<string>>, i: nat)
    requires i < |us|
    ensures SlotNames(us[..i + 1]) == SlotNames(us[..i]) + SlotName(us[i])
  {
    assert us[..i + 1] == us[..i] + [us[i]];
    SlotNamesConcat(us[..i], [us[i]]);
    assert SlotNames([us[i]]) == SlotName(us[i]) + SlotNames([]);
  }

  /** There is a name for each connection that the counter counts. */
  lemma {:induction false} NameCount(s: Server)
    requires Consistent(s)
    ensures |SlotNames(s.usernames)| == s.numConnections
  {
    NamesMatchSockets(s.sockets, s.usernames);
  }

  lemma {:induction false} NamesMatchSockets(sockets: seq<int>, usernames: seq<Option<string>>)
    requires |sockets| == |usernames|
    requires forall i :: 0 <= i < |sockets| ==> (sockets[i] == -1 <==> usernames[i].None?)
    ensures |SlotNames(usernames)| == Sum(IsLive, sockets)
  {
    if sockets != [] {
      NamesMatchSockets(sockets[1..], usernames[1..]);
    }
  }
}
