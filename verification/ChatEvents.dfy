/** What one event does to the slots and sends to each connection of hw7/chatserver.c, written out. */
module ChatEvents {
  import opened Options
  import opened Sums
  import opened Names
  import opened ChatServer
  import opened ChatRuns

  // ---- The messages -------------------------------------------------------------------------

  /** "[name]: text" (line 270). */
  predicate IsChat(t: string, name: string, text: string) {
    && |t| == |name| + |text| + 4
    && t[0] == '[' && t[1..|name| + 1] == name
    && t[|name| + 1..|name| + 4] == "]: " && t[|name| + 4..] == text
  }

  /** `t` is `name` with `before` in front and `behind` at the end. */
  predicate IsAround(t: string, before: string, name: string, behind: string) {
    && |t| == |before| + |name| + |behind|
    && t[..|before|] == before && t[|before|..|before| + |name|] == name && t[|before| + |name|..] == behind
  }

  /** "User [name] joined the chat room." (line 220). */
  predicate IsJoin(t: string, name: string) {
    IsAround(t, "User [", name, "] joined the chat room.")
  }

  /** "User [name] left the chat room." (line 141). */
  predicate IsLeave(t: string, name: string) {
    IsAround(t, "User [", name, "] left the chat room.")
  }

  lemma {:induction false} ChatTextIs(name: string, text: string)
    ensures IsChat(ChatText(name, text), name, text)
  {
    var t := ChatText(name, text);
    assert t == "[" + name + ("]: " + text);
    PieceAt("[", name, "]: " + text);
    PieceAt("[" + name, "]: ", text);
    assert t == ("[" + name) + "]: " + text;
  }

  lemma {:induction false} Around(before: string, name: string, behind: string)
    ensures IsAround(before + name + behind, before, name, behind)
  {
  }

  lemma {:induction false} JoinTextIs(name: string)
    ensures IsJoin(JoinText(name), name)
  {
    Around("User [", name, "] joined the chat room.");
  }

  lemma {:induction false} LeaveTextIs(name: string)
    ensures IsLeave(LeaveText(name), name)
  {
    Around("User [", name, "] left the chat room.");
  }

  /** What is heard tells who has spoken and what. */
  lemma {:induction false} ChatIsRecovered(t: string, name: string, text: string, text': string)
    requires IsChat(t, name, text) && IsChat(t, name, text')
    ensures text == text'
  {
  }

  /** The welcome to an empty room. */
  const ALONE := "*** Welcome to CS 392 Chat Server v1.0 ***" + "\n\nNo other users are in the chat room."

  /** What stands before the names in the welcome to others (lines 86 and 99). */
  const FRONT := "*** Welcome to CS 392 Chat Server v1.0 ***" + "\n\nConnected users: ["

  /** The welcome lists `names` in order: each is where it is due, with ", " before the next, and the
      text ends with "]" behind the last. */
  predicate IsWelcome(t: string, names: seq<string>) {
    && |FRONT| <= |t| && t[..|FRONT|] == FRONT
    && forall k :: 0 <= k < |names| ==> IsListed(t, names, k)
  }

  predicate IsListed(t: string, names: seq<string>, k: nat)
    requires k < |names|
  {
    var at := |FRONT| + NameAt(names, k);
    && at + |names[k]| <= |t| && t[at..at + |names[k]|] == names[k]
    && t[at + |names[k]|..] != [] && (if k + 1 == |names| then t[at + |names[k]|..] == "]"
                                      else ", " <= t[at + |names[k]|..])
  }

  predicate InDictionaryOrder(names: seq<string>) {
    forall i, j :: 0 <= i < j < |names| ==> names[i] == names[j] || Before(names[i], names[j])
  }

  lemma {:induction false} PartInside(front: string, text: string, back: string, at: nat, to: nat)
    requires at <= to <= |text|
    ensures var t := front + text + back;
      t[|front| + at..|front| + to] == text[at..to] && t[|front| + to..] == text[to..] + back
  {
  }

  lemma {:induction false} ListedAt(names: seq<string>, k: nat)
    requires k < |names|
    ensures IsListed(FRONT + Separated(names) + "]", names, k)
  {
    var text, at := Separated(names), NameAt(names, k);
    var e := at + |names[k]|;
    SeparatedAt(names, k);
    PartInside(FRONT, text, "]", at, e);
    if k + 1 < |names| {
      assert text[e..] == text[e..NameAt(names, k + 1)] + text[NameAt(names, k + 1)..];
    }
  }

  /** The welcome lists exactly the names present, in the order of the dictionary. */
  lemma {:induction false} WelcomeLists(names: seq<string>) returns (sorted: seq<string>)
    ensures multiset(sorted) == multiset(names) && InDictionaryOrder(sorted)
    ensures if names == [] then WelcomeText(names) == ALONE else IsWelcome(WelcomeText(names), sorted)
  {
    sorted := SortNames(names);
    SortNamesSorts(names);
    WelcomeTextIs(names);
    if names != [] {
      ListedAll(sorted);
    }
  }

  lemma {:induction false} WelcomeTextIs(names: seq<string>)
    ensures WelcomeText(names) == if names == [] then ALONE else FRONT + Separated(SortNames(names)) + "]"
  {
  }

  lemma {:induction false} ListedAll(names: seq<string>)
    ensures IsWelcome(FRONT + Separated(names) + "]", names)
  {
    forall k | 0 <= k < |names| ensures IsListed(FRONT + Separated(names) + "]", names, k) {
      ListedAt(names, k);
    }
  }

  // ---- The events ---------------------------------------------------------------------------

  /** `now` is `was` with one more text at the end. */
  predicate OneMore(was: seq<string>, now: seq<string>) {
    |now| == |was| + 1 && now[..|was|] == was
  }

  /** Connection `c` has a slot other than `i`. */
  predicate Other(s: Server, i: nat, c: int)
    requires i < |s.sockets|
  {
    c in s.sockets && c != s.sockets[i]
  }

  lemma {:induction false} ListensIs(s: Server, i: nat, c: int)
    requires Consistent(s) && i < |s.sockets| && s.sockets[i] != -1 && c in s.sent
    ensures Listens(s.sockets, i, c, |s.sockets|) <==> Other(s, i, c)
  {
    if Other(s, i, c) {
      var k :| 0 <= k < |s.sockets| && s.sockets[k] == c;
      assert Listens(s.sockets, i, c, |s.sockets|);
    }
  }

  /** A message is relayed, with the name of its author, to everybody in a slot but the author, and
      to nobody else; nothing else changes. */
  lemma {:induction false} SayIsHeard(s: Server, i: nat, bytes: string, c: int)
    requires Consistent(s) && i < |s.sockets| && s.sockets[i] != -1 && CString(bytes) != "bye" && c in s.sent
    ensures var s' := Receive(s, i, Data(bytes));
      && s' == s.(inbuf := CString(bytes), sent := s'.sent) && s'.sent.Keys == s.sent.Keys
      && (if Other(s, i, c) then
            OneMore(s.sent[c], s'.sent[c]) && IsChat(s'.sent[c][|s.sent[c]|], s.usernames[i].value, CString(bytes))
          else s'.sent[c] == s.sent[c])
  {
    var text := ChatText(s.usernames[i].value, CString(bytes));
    BroadcastReaches(s.sockets, s.sent, i, text, |s.sockets|, c);
    ListensIs(s, i, c);
    ChatTextIs(s.usernames[i].value, CString(bytes));
  }

  /** A client that hangs up or says "bye" loses its slot, its connection is closed and its name
      freed; everybody in another slot is told, and nobody else. */
  lemma {:induction false} LeaveIsHeard(s: Server, i: nat, r: Received, c: int)
    requires Consistent(s) && i < |s.sockets| && s.sockets[i] != -1 && c in s.sent
    requires r.HungUp? || (r.Data? && CString(r.bytes) == "bye")
    ensures var s', name := Receive(s, i, r), s.usernames[i].value;
      && s'.sockets == s.sockets[i := -1] && s'.usernames == s.usernames[i := None]
      && s'.numConnections == s.numConnections - 1 && s'.inbuf == (if r.HungUp? then s.inbuf else "bye")
      && s'.open == s.open - {s.sockets[i]} && s'.freed == s.freed + [name] && s'.copied == s.copied
      && s'.sent.Keys == s.sent.Keys
      && (if Other(s, i, c) then OneMore(s.sent[c], s'.sent[c]) && IsLeave(s'.sent[c][|s.sent[c]|], name)
          else s'.sent[c] == s.sent[c])
  {
    BroadcastReaches(s.sockets, s.sent, i, LeaveText(s.usernames[i].value), |s.sockets|, c);
    ListensIs(s, i, c);
    LeaveTextIs(s.usernames[i].value);
  }

  /** A read that fails changes nothing. */
  lemma {:induction false} FailureIsSilent(s: Server, i: nat)
    requires Consistent(s) && i < |s.sockets| && s.sockets[i] != -1
    ensures Receive(s, i, Failed) == s
  {
  }

  /** When all slots are in use an arrival is turned away, and nothing changes. */
  lemma {:induction false} FullIsRefused(s: Server, conn: int, answer: Received)
    requires Consistent(s) && conn !in s.sent && conn >= 0
    ensures Accept(s, conn, answer) == s <==> forall i :: 0 <= i < |s.sockets| ==> s.sockets[i] != -1
  {
    assert Accept(s, conn, answer) == s <==> s.numConnections >= MAX_CONNECTIONS by {
      AcceptConsistent(s, conn, answer);
      if s.numConnections < MAX_CONNECTIONS {
        GreetedIsKnown(s, conn, answer);
      }
    }
    FullExactly(s.sockets);
  }

  lemma {:induction false} GreetedIsKnown(s: Server, conn: int, answer: Received)
    requires Consistent(s) && conn !in s.sent && conn >= 0 && s.numConnections < MAX_CONNECTIONS
    ensures conn in Accept(s, conn, answer).sent
  {
  }

  lemma {:induction false} FullExactly(sockets: seq<int>)
    ensures Sum(IsLive, sockets) <= |sockets|
    ensures Sum(IsLive, sockets) == |sockets| <==> forall i :: 0 <= i < |sockets| ==> sockets[i] != -1
  {
    if sockets != [] {
      FullExactly(sockets[1..]);
      if Sum(IsLive, sockets) == |sockets| {
        forall i | 0 <= i < |sockets| ensures sockets[i] != -1 {
          assert i > 0 ==> sockets[i] == sockets[1..][i - 1];
        }
      }
    }
  }

  /** An arrival that hangs up has been greeted, and nothing else changes. */
  lemma {:induction false} HangUpIsSilent(s: Server, conn: int)
    requires Consistent(s) && conn !in s.sent && conn >= 0 && -1 in s.sockets
    ensures Accept(s, conn, HungUp)
         == s.(sent := s.sent[conn := [WelcomeText(SlotNames(s.usernames))]], open := s.open + {conn})
  {
    FullExactly(s.sockets);
  }

  /** The name an arrival goes by: what it sends, or what was read last if that read fails. */
  function GivenName(s: Server, answer: Received): string {
    if answer.Data? then CString(answer.bytes) else s.inbuf
  }

  predicate IsFirstFree(sockets: seq<int>, i: nat) {
    i < |sockets| && sockets[i] == -1 && forall j :: 0 <= j < i ==> sockets[j] != -1
  }

  lemma {:induction false} JoinIs(s: Server, conn: int, answer: Received, i: nat)
    requires Consistent(s) && conn !in s.sent && conn >= 0 && !answer.HungUp? && IsFirstFree(s.sockets, i)
    ensures var name, text := GivenName(s, answer), WelcomeText(SlotNames(s.usernames));
      var t := Occupy(Greet(s, conn, text).(inbuf := name), i, conn, name);
      Consistent(t) && Accept(s, conn, answer) == BroadcastAll(t, i, JoinText(name))
  {
    var name, text := GivenName(s, answer), WelcomeText(SlotNames(s.usernames));
    FullExactly(s.sockets);
    assert FreeSlot(s.sockets) == i;
    GreetConsistent(s, conn, text);
    OccupyConsistent(Greet(s, conn, text).(inbuf := name), conn, i, name);
  }

  /** An arrival that gives its name takes the first free slot, and its name is copied. */
  lemma {:induction false} JoinTakesSlot(s: Server, conn: int, answer: Received, i: nat)
    requires Consistent(s) && conn !in s.sent && conn >= 0 && !answer.HungUp? && IsFirstFree(s.sockets, i)
    ensures var s', name := Accept(s, conn, answer), GivenName(s, answer);
      && s'.sockets == s.sockets[i := conn] && s'.usernames == s.usernames[i := Some(name)]
      && s'.numConnections == s.numConnections + 1 && s'.inbuf == name
      && s'.open == s.open + {conn} && s'.copied == s.copied + [name] && s'.freed == s.freed
      && s'.sent.Keys == s.sent.Keys + {conn}
  {
    JoinIs(s, conn, answer, i);
  }

  /** It has then been sent the welcome only; everybody in a slot is told, and nobody else. */
  lemma {:induction false} JoinIsHeard(s: Server, conn: int, answer: Received, i: nat, c: int)
    requires Consistent(s) && conn !in s.sent && conn >= 0 && !answer.HungUp? && c in s.sent
    requires IsFirstFree(s.sockets, i)
    ensures var s', name := Accept(s, conn, answer), GivenName(s, answer);
      && conn in s'.sent && s'.sent[conn] == [WelcomeText(SlotNames(s.usernames))] && c in s'.sent
      && (if c in s.sockets then OneMore(s.sent[c], s'.sent[c]) && IsJoin(s'.sent[c][|s.sent[c]|], name)
          else s'.sent[c] == s.sent[c])
  {
    var name, text := GivenName(s, answer), WelcomeText(SlotNames(s.usernames));
    JoinIs(s, conn, answer, i);
    var t := Occupy(Greet(s, conn, text).(inbuf := name), i, conn, name);
    JoinReachesSlot(t, i, JoinText(name), conn);
    JoinReachesSlot(t, i, JoinText(name), c);
    SlotsAfter(s.sockets, i, conn, c);
    JoinTextIs(name);
  }

  lemma {:induction false} JoinReachesSlot(t: Server, i: nat, text: string, c: int)
    requires Consistent(t) && i < |t.sockets| && t.sockets[i] != -1 && c in t.sent
    ensures BroadcastAll(t, i, text).sent[c] == t.sent[c] + (if Other(t, i, c) then [text] else [])
  {
    BroadcastReaches(t.sockets, t.sent, i, text, |t.sockets|, c);
    ListensIs(t, i, c);
  }

  lemma {:induction false} SlotsAfter(sockets: seq<int>, i: nat, conn: int, c: int)
    requires i < |sockets| && sockets[i] == -1 && c != conn && c != -1
    ensures c in sockets[i := conn] <==> c in sockets
  {
    if c in sockets {
      var k :| 0 <= k < |sockets| && sockets[k] == c;
      assert sockets[i := conn][k] == c;
    }
  }
}
