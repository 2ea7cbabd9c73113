/** Whole runs of the chat server, measured against a chat room that knows no slots: who is
    present, what has been announced, and between which announcements each connection belongs. */
module ChatRuns {
  import opened Options
  import opened Sums
  import opened Mapping
  import opened Names
  import opened ChatServer

  // ---- The room -----------------------------------------------------------------------------

  datatype Member = Member(conn: int, name: string)

  datatype Announcement = Announcement(author: int, text: string)

  /** `present` are the members in order of arrival; `welcome` is what each connection was greeted
      with; a connection belongs to the room from announcement `from`, its own joining, up to
      before announcement `upTo`, just behind its own leaving. */
  datatype Room = Room(present: seq<Member>, announced: seq<Announcement>, welcome: map<int, string>,
                       from: map<int, nat>, upTo: map<int, nat>)

  datatype RoomEvent =
    | Enter(conn: int, name: Option<string>)
    | Leave(member: Member)
    | Say(member: Member, text: string)
    | Nothing

  function NameOfMember(m: Member): string {
    m.name
  }

  function RemoveOne(ms: seq<Member>, m: Member): seq<Member> {
    if ms == [] then [] else if ms[0] == m then ms[1..] else [ms[0]] + RemoveOne(ms[1..], m)
  }

  function Announce(r: Room, author: int, text: string): Room {
    r.(announced := r.announced + [Announcement(author, text)])
  }

  /** The newcomer is announced and belongs to the room from that announcement on. */
  function Joined(r: Room, c: int, name: string): Room {
    Announce(r, c, JoinText(name)).(present := r.present + [Member(c, name)], from := r.from[c := |r.announced|])
  }

  /** Enter without a name is a connection that hangs up before it has given one. */
  function RoomStep(r: Room, e: RoomEvent): Room {
    match e
    case Enter(c, name) =>
      if |r.present| >= MAX_CONNECTIONS then r
      else
        var greeted := r.(welcome := r.welcome[c := WelcomeText(Map(NameOfMember, r.present))]);
        if name.None? then greeted
        else
          Joined(greeted, c, name.value)
    case Leave(m) =>
      Announce(r, m.conn, LeaveText(m.name)).(present := RemoveOne(r.present, m),
                                              upTo := r.upTo[m.conn := |r.announced| + 1])
    case Say(m, text) => Announce(r, m.conn, ChatText(m.name, text))
    case Nothing => r
  }

  /** The texts of others than `c`, in order. */
  function Heard(announced: seq<Announcement>, c: int): seq<string> {
    if announced == [] then []
    else
      var last := announced[|announced| - 1];
      Heard(announced[..|announced| - 1], c) + (if last.author != c then [last.text] else [])
  }

  predicate RoomOk(r: Room) {
    && r.upTo.Keys <= r.from.Keys <= r.welcome.Keys
    && (forall c :: c in r.from ==>
          r.from[c] < |r.announced| && r.announced[r.from[c]].author == c)
    && (forall c :: c in r.upTo ==>
          r.from[c] < r.upTo[c] <= |r.announced| && r.announced[r.upTo[c] - 1].author == c)
  }

  predicate Belongs(r: Room, c: int) {
    c in r.from && c !in r.upTo
  }

  /** What a connection is to be sent: its welcome, then what the others announced while it
      belonged to the room. */
  function Log(r: Room, c: int): seq<string>
    requires RoomOk(r) && c in r.welcome
  {
    [r.welcome[c]] +
    (if c !in r.from then []
     else Heard(r.announced[r.from[c]..if c in r.upTo then r.upTo[c] else |r.announced|], c))
  }

  // ---- The runs of the server ---------------------------------------------------------------

  /** `select` reports the listening socket, with the connection accepted and the answer to the
      welcome, or a client slot, with what is read from it. */
  datatype Event = Arrival(conn: int, answer: Received) | Activity(slot: nat, received: Received)

  ghost predicate Enabled(s: Server, e: Event) {
    Consistent(s) &&
    match e
    case Arrival(conn, answer) => conn >= 0 && conn !in s.sent
    case Activity(i, _) => i < |s.sockets| && s.sockets[i] != -1
  }

  ghost function Step(s: Server, e: Event): Server
    requires Enabled(s, e)
  {
    match e
    case Arrival(conn, answer) => Accept(s, conn, answer)
    case Activity(i, received) => Receive(s, i, received)
  }

  /** The event as the room sees it: by member, not by slot. */
  ghost function AsRoomEvent(s: Server, e: Event): RoomEvent
    requires Enabled(s, e)
  {
    match e
    case Arrival(conn, answer) => Enter(conn, if answer.HungUp? then None else Some(Inbuf(s, answer)))
    case Activity(i, received) =>
      var m := Member(s.sockets[i], s.usernames[i].value);
      match received
      case HungUp => Leave(m)
      case Failed => Nothing
      case Data(bytes) => if CString(bytes) == "bye" then Leave(m) else Say(m, CString(bytes))
  }

  ghost predicate ValidRun(s: Server, es: seq<Event>)
    decreases |es|
  {
    es != [] ==> Enabled(s, es[0]) && ValidRun(Step(s, es[0]), es[1..])
  }

  ghost function RunEnd(s: Server, es: seq<Event>): Server
    requires ValidRun(s, es)
    decreases |es|
  {
    if es == [] then s else RunEnd(Step(s, es[0]), es[1..])
  }

  ghost function RoomEnd(s: Server, r: Room, es: seq<Event>): Room
    requires ValidRun(s, es)
    decreases |es|
  {
    if es == [] then r else RoomEnd(Step(s, es[0]), RoomStep(r, AsRoomEvent(s, es[0])), es[1..])
  }

  const EMPTY_ROOM := Room([], [], map[], map[], map[])

  ghost predicate Initial(s: Server) {
    && |s.sockets| == |s.usernames| == MAX_CONNECTIONS && s.numConnections == 0 && s.inbuf == "" && s.sent == map[]
    && s.listening && s.open == {} && s.copied == s.freed == []
    && forall i :: 0 <= i < MAX_CONNECTIONS ==> s.sockets[i] == -1 && s.usernames[i].None?
  }

  // ---- Slots and members --------------------------------------------------------------------

  predicate InSlot(sockets: seq<int>, c: int) {
    c != -1 && c in sockets
  }

  function SlotMember(socket: int, username: Option<string>): seq<Member> {
    if username.Some? then [Member(socket, username.value)] else []
  }

  /** The members in slot order. */
  function SlotMembers(sockets: seq<int>, usernames: seq<Option<string>>): seq<Member>
    requires |sockets| == |usernames|
  {
    if sockets == [] then [] else SlotMember(sockets[0], usernames[0]) + SlotMembers(sockets[1..], usernames[1..])
  }

  lemma {:induction false} SlotMembersNames(sockets: seq<int>, usernames: seq<Option<string>>)
    requires |sockets| == |usernames|
    ensures Map(NameOfMember, SlotMembers(sockets, usernames)) == SlotNames(usernames)
  {
    if sockets != [] {
      SlotMembersNames(sockets[1..], usernames[1..]);
      MapConcat(NameOfMember, SlotMember(sockets[0], usernames[0]), SlotMembers(sockets[1..], usernames[1..]));
    }
  }

  ghost function MemberBag(sockets: seq<int>, usernames: seq<Option<string>>): multiset<Member>
    requires |sockets| == |usernames|
  {
    multiset(SlotMembers(sockets, usernames))
  }

  lemma {:induction false} BagInFront<X>(front: seq<X>, xs: seq<X>, ys: seq<X>, x: X)
    requires multiset(ys) == multiset(xs) + multiset{x}
    ensures multiset(front + ys) == multiset(front + xs) + multiset{x}
  {
    assert multiset(front + ys) == multiset(front) + multiset(ys);
    assert multiset(front + xs) == multiset(front) + multiset(xs);
  }

  /** Taking a free slot adds one member. */
  lemma {:induction false} MemberBagPut(sockets: seq<int>, usernames: seq<Option<string>>, i: nat, m: Member)
    requires |sockets| == |usernames| && i < |sockets| && usernames[i].None?
    ensures MemberBag(sockets[i := m.conn], usernames[i := Some(m.name)]) == MemberBag(sockets, usernames) + multiset{m}
    decreases |sockets|
  {
    var sockets', usernames' := sockets[i := m.conn], usernames[i := Some(m.name)];
    var rest := SlotMembers(sockets[1..], usernames[1..]);
    if i == 0 {
      assert sockets'[1..] == sockets[1..] && usernames'[1..] == usernames[1..];
      assert SlotMembers(sockets', usernames') == [m] + rest;
      assert SlotMembers(sockets, usernames) == [] + rest == rest;
    } else {
      assert sockets'[1..] == sockets[1..][i - 1 := m.conn] && usernames'[1..] == usernames[1..][i - 1 := Some(m.name)];
      MemberBagPut(sockets[1..], usernames[1..], i - 1, m);
      BagInFront(SlotMember(sockets[0], usernames[0]), rest, SlotMembers(sockets'[1..], usernames'[1..]), m);
    }
  }

  /** Giving up a slot takes one away. */
  lemma {:induction false} MemberBagTake(sockets: seq<int>, usernames: seq<Option<string>>, i: nat, m: Member)
    requires |sockets| == |usernames| && i < |sockets| && sockets[i] == m.conn && usernames[i] == Some(m.name)
    ensures MemberBag(sockets, usernames) == MemberBag(sockets[i := -1], usernames[i := None]) + multiset{m}
  {
    var sockets', usernames' := sockets[i := -1], usernames[i := None];
    MemberBagPut(sockets', usernames', i, m);
    assert sockets'[i := m.conn] == sockets && usernames'[i := Some(m.name)] == usernames;
  }

  lemma {:induction false} RemoveOneMultiset(ms: seq<Member>, m: Member)
    requires m in multiset(ms)
    ensures multiset(RemoveOne(ms, m)) + multiset{m} == multiset(ms)
  {
    assert ms == [ms[0]] + ms[1..];
    if ms[0] != m {
      RemoveOneMultiset(ms[1..], m);
    }
  }

  // ---- Broadcasting -------------------------------------------------------------------------

  predicate Listens(sockets: seq<int>, skip: int, c: int, k: nat)
    requires k <= |sockets|
  {
    exists i :: 0 <= i < k && i != skip && sockets[i] == c && c != -1
  }

  /** A broadcast reaches every connection in a slot other than the one left out, once, and no
      other connection. */
  lemma {:induction false} BroadcastReaches(sockets: seq<int>, sent: map<int, seq<string>>, skip: int, text: string,
                                            k: nat, c: int)
    requires k <= |sockets| && c in sent
    requires forall i :: 0 <= i < |sockets| && sockets[i] != -1 ==> sockets[i] in sent
    requires forall i, j :: 0 <= i < j < |sockets| && sockets[i] != -1 ==> sockets[i] != sockets[j]
    ensures Broadcast(sockets, sent, skip, text, k)[c]
         == sent[c] + (if Listens(sockets, skip, c, k) then [text] else [])
  {
    if k > 0 {
      BroadcastReaches(sockets, sent, skip, text, k - 1, c);
      if k - 1 != skip && sockets[k - 1] == c && c != -1 {
        assert Listens(sockets, skip, c, k);
        assert !Listens(sockets, skip, c, k - 1);
      } else {
        assert Listens(sockets, skip, c, k) <==> Listens(sockets, skip, c, k - 1);
      }
    }
  }

  // ---- The server and the room --------------------------------------------------------------

  /** The slots hold the members of the room, and everybody has been sent what is due. */
  ghost predicate Matches(s: Server, r: Room) {
    && Consistent(s) && RoomOk(r)
    && MemberBag(s.sockets, s.usernames) == multiset(r.present)
    && s.sent.Keys == r.welcome.Keys
    && (forall c :: InSlot(s.sockets, c) <==> Belongs(r, c))
    && (forall c :: c in s.sent ==> s.sent[c] == Log(r, c))
  }

  lemma {:induction false} NoMembers(sockets: seq<int>, usernames: seq<Option<string>>)
    requires |sockets| == |usernames| && forall i :: 0 <= i < |usernames| ==> usernames[i].None?
    ensures SlotMembers(sockets, usernames) == []
  {
    if sockets != [] {
      NoMembers(sockets[1..], usernames[1..]);
    }
  }

  lemma {:induction false} InitialMatches(s: Server)
    requires Initial(s)
    ensures Matches(s, EMPTY_ROOM)
  {
    SumZero(IsLive, s.sockets);
    NoMembers(s.sockets, s.usernames);
  }

  /** The welcome lists the names of those present, whatever their slots. */
  lemma {:induction false} SameWelcome(s: Server, r: Room)
    requires Matches(s, r)
    ensures WelcomeText(SlotNames(s.usernames)) == WelcomeText(Map(NameOfMember, r.present))
    ensures |r.present| == s.numConnections
  {
    var ms := SlotMembers(s.sockets, s.usernames);
    SlotMembersNames(s.sockets, s.usernames);
    MapMultiset(NameOfMember, ms, r.present);
    SortNamesSame(Map(NameOfMember, ms), Map(NameOfMember, r.present));
    NameCount(s);
    assert |ms| == |multiset(ms)| && |r.present| == |multiset(r.present)|;
  }

  lemma {:induction false} HeardOneMore(announced: seq<Announcement>, lo: nat, a: Announcement, c: int)
    requires lo <= |announced|
    ensures Heard((announced + [a])[lo..], c) == Heard(announced[lo..], c) + (if a.author != c then [a.text] else [])
  {
    var part := (announced + [a])[lo..];
    assert part[..|part| - 1] == announced[lo..];
  }

  /** An announcement is due to those who belong to the room, except to its author. */
  lemma {:induction false} LogAnnounce(r: Room, author: int, text: string, c: int)
    requires RoomOk(r) && c in r.welcome
    ensures RoomOk(Announce(r, author, text))
    ensures Log(Announce(r, author, text), c)
         == Log(r, c) + (if Belongs(r, c) && c != author then [text] else [])
  {
    var r' := Announce(r, author, text);
    if Belongs(r, c) {
      HeardOneMore(r.announced, r.from[c], Announcement(author, text), c);
      assert r'.announced[r.from[c]..|r'.announced|] == r'.announced[r.from[c]..];
      assert r.announced[r.from[c]..|r.announced|] == r.announced[r.from[c]..];
    } else if c in r.from {
      assert r'.announced[r.from[c]..r.upTo[c]] == r.announced[r.from[c]..r.upTo[c]];
    }
  }

  /** A broadcast from slot `skip`, or from none, is the announcement of its connection. */
  lemma {:induction false} BroadcastMatches(s: Server, r: Room, skip: int, author: int, text: string, c: int)
    requires Matches(s, r) && c in s.sent
    requires if 0 <= skip < |s.sockets| then s.sockets[skip] == author && author != -1 else skip == author == -1
    ensures RoomOk(Announce(r, author, text))
    ensures BroadcastAll(s, skip, text).sent[c] == Log(Announce(r, author, text), c)
  {
    BroadcastReaches(s.sockets, s.sent, skip, text, |s.sockets|, c);
    LogAnnounce(r, author, text, c);
    if Belongs(r, c) && c != author {
      assert InSlot(s.sockets, c);
      var i :| 0 <= i < |s.sockets| && s.sockets[i] == c;
      assert Listens(s.sockets, skip, c, |s.sockets|);
    } else if Listens(s.sockets, skip, c, |s.sockets|) {
      assert InSlot(s.sockets, c);
    }
  }

  /** Saying something. */
  lemma {:induction false} SayMatches(s: Server, r: Room, i: nat, text: string)
    requires Matches(s, r) && i < |s.sockets| && s.sockets[i] != -1
    ensures Matches(BroadcastAll(s, i, text), Announce(r, s.sockets[i], text))
  {
    var s', r' := BroadcastAll(s, i, text), Announce(r, s.sockets[i], text);
    forall c | c in s'.sent ensures s'.sent[c] == Log(r', c) {
      BroadcastMatches(s, r, i, s.sockets[i], text, c);
    }
    forall c ensures InSlot(s'.sockets, c) <==> Belongs(r', c) {
      assert InSlot(s.sockets, c) <==> Belongs(r, c);
    }
    LogAnnounceOk(r, s.sockets[i], text);
  }

  lemma {:induction false} LogAnnounceOk(r: Room, author: int, text: string)
    requires RoomOk(r)
    ensures RoomOk(Announce(r, author, text))
  {
  }

  lemma {:induction false} LeaveRoomOk(r: Room, m: Member)
    requires RoomOk(r) && Belongs(r, m.conn)
    ensures RoomOk(RoomStep(r, Leave(m)))
  {
    LogAnnounceOk(r, m.conn, LeaveText(m.name));
  }

  /** Leaving ends what a connection is due where its own announcement ends. */
  lemma {:induction false} LeaveLog(r: Room, m: Member, c: int)
    requires RoomOk(r) && Belongs(r, m.conn) && c in r.welcome
    requires RoomOk(RoomStep(r, Leave(m))) && RoomOk(Announce(r, m.conn, LeaveText(m.name)))
    ensures Log(RoomStep(r, Leave(m)), c) == Log(Announce(r, m.conn, LeaveText(m.name)), c)
  {
  }

  /** Leaving, by hanging up or by saying "bye". */
  lemma {:induction false} LeaveMatches(s: Server, r: Room, i: nat)
    requires Matches(s, r) && i < |s.sockets| && s.sockets[i] != -1
    ensures Matches(Disconnect(s, i), RoomStep(r, Leave(Member(s.sockets[i], s.usernames[i].value))))
  {
    var m := Member(s.sockets[i], s.usernames[i].value);
    var s', r' := Disconnect(s, i), RoomStep(r, Leave(m));
    assert InSlot(s.sockets, m.conn);
    LeaveConsistent(s, i);
    LeaveBag(s, r, i);
    LeaveRoomOk(r, m);
    LogAnnounceOk(r, m.conn, LeaveText(m.name));
    forall c | c in s.sent ensures s'.sent[c] == Log(r', c) {
      LeaveLog(r, m, c);
      BroadcastMatches(s, r, i, m.conn, LeaveText(m.name), c);
    }
    forall c ensures InSlot(s'.sockets, c) <==> Belongs(r', c) {
      LeaveInSlot(s, i, c);
    }
  }

  lemma {:induction false} LeaveInSlot(s: Server, i: nat, c: int)
    requires Consistent(s) && i < |s.sockets| && s.sockets[i] != -1
    ensures InSlot(Disconnect(s, i).sockets, c) <==> InSlot(s.sockets, c) && c != s.sockets[i]
  {
    var sockets' := s.sockets[i := -1];
    if InSlot(s.sockets, c) && c != s.sockets[i] {
      var k :| 0 <= k < |s.sockets| && s.sockets[k] == c;
      assert sockets'[k] == c;
    }
    if InSlot(sockets', c) {
      var k :| 0 <= k < |sockets'| && sockets'[k] == c;
      assert s.sockets[k] == c;
    }
  }

  lemma {:induction false} CancelOne<X>(a: multiset<X>, b: multiset<X>, o: multiset<X>)
    requires a + o == b + o
    ensures a == b
  {
    forall x ensures a[x] == b[x] {
      assert (a + o)[x] == (b + o)[x];
    }
  }

  lemma {:induction false} LeaveBag(s: Server, r: Room, i: nat)
    requires Matches(s, r) && i < |s.sockets| && s.sockets[i] != -1
    ensures MemberBag(s.sockets[i := -1], s.usernames[i := None])
         == multiset(RemoveOne(r.present, Member(s.sockets[i], s.usernames[i].value)))
  {
    var m := Member(s.sockets[i], s.usernames[i].value);
    MemberBagTake(s.sockets, s.usernames, i, m);
    assert MemberBag(s.sockets[i := -1], s.usernames[i := None]) + multiset{m} == multiset(r.present);
    assert m in multiset(r.present);
    RemoveOneMultiset(r.present, m);
    CancelOne(MemberBag(s.sockets[i := -1], s.usernames[i := None]), multiset(RemoveOne(r.present, m)), multiset{m});
  }

  // ---- Entering -----------------------------------------------------------------------------

  /** The welcome alone: the connection has not joined and hears nothing. */
  lemma {:induction false} GreetMatches(s: Server, r: Room, c: int, text: string)
    requires Matches(s, r) && c !in s.sent && c >= 0
    ensures Matches(Greet(s, c, text), r.(welcome := r.welcome[c := text]))
  {
    var s', r' := Greet(s, c, text), r.(welcome := r.welcome[c := text]);
    forall x ensures InSlot(s'.sockets, x) <==> Belongs(r', x) {
      assert InSlot(s.sockets, x) <==> Belongs(r, x);
    }
    GreetLog(r, c, text, c);
    forall x | x in s'.sent ensures s'.sent[x] == Log(r', x) {
      GreetLog(r, c, text, x);
    }
  }

  lemma {:induction false} GreetLog(r: Room, c: int, text: string, x: int)
    requires RoomOk(r) && c !in r.welcome
    ensures RoomOk(r.(welcome := r.welcome[c := text]))
    ensures x in r.welcome ==> Log(r.(welcome := r.welcome[c := text]), x) == Log(r, x)
    ensures Log(r.(welcome := r.welcome[c := text]), c) == [text]
  {
  }

  /** Joining: the others hear of it, the newcomer does not. */
  lemma {:induction false} JoinMatches(s: Server, r: Room, c: int, name: string)
    requires Matches(s, r) && c in s.sent && c >= 0 && c !in r.from && s.numConnections < MAX_CONNECTIONS
    ensures Matches(AddToFreeSlot(s, c, name), Joined(r, c, name))
  {
    var i := FreeSlot(s.sockets);
    FreeSlotExists(s.sockets);
    var t := Occupy(s, i, c, name);
    var r' := Joined(r, c, name);
    assert !InSlot(s.sockets, c);
    OccupyConsistent(s, c, i, name);
    MemberBagPut(s.sockets, s.usernames, i, Member(c, name));
    forall x ensures InSlot(t.sockets, x) <==> Belongs(r', x) {
      JoinInSlot(s, c, i, x);
    }
    JoinLog(r, c, name, c);
    var t' := BroadcastAll(t, i, JoinText(name));
    forall x | x in s.sent ensures t'.sent[x] == Log(r', x) {
      JoinLog(r, c, name, x);
      JoinReaches(s, r, t, c, i, JoinText(name), x);
    }
  }

  /** What is due after a joining. */
  lemma {:induction false} JoinLog(r: Room, c: int, name: string, x: int)
    requires RoomOk(r) && c in r.welcome && c !in r.from && x in r.welcome
    ensures var r' := Joined(r, c, name);
      RoomOk(r') && Log(r', x) == Log(r, x) + (if Belongs(r, x) then [JoinText(name)] else [])
  {
    var r' := Joined(r, c, name);
    LogAnnounce(r, c, JoinText(name), x);
    if x == c {
      HeardOneMore(r.announced, |r.announced|, Announcement(c, JoinText(name)), c);
      assert r'.announced[|r.announced|..|r'.announced|] == r'.announced[|r.announced|..];
    } else {
      assert Log(r', x) == Log(Announce(r, c, JoinText(name)), x);
    }
  }

  lemma {:induction false} JoinReaches(s: Server, r: Room, t: Server, c: int, i: nat, text: string, x: int)
    requires Matches(s, r) && Consistent(t) && c in s.sent && c !in r.from && x in s.sent && c >= 0
    requires i < |s.sockets| && s.sockets[i] == -1
    requires t.sockets == s.sockets[i := c] && t.sent == s.sent
    ensures BroadcastAll(t, i, text).sent[x] == s.sent[x] + (if Belongs(r, x) then [text] else [])
  {
    BroadcastReaches(t.sockets, t.sent, i, text, |t.sockets|, x);
    assert InSlot(s.sockets, x) <==> Belongs(r, x);
    if InSlot(s.sockets, x) {
      var k :| 0 <= k < |s.sockets| && s.sockets[k] == x;
      assert t.sockets[k] == x;
      assert Listens(t.sockets, i, x, |t.sockets|);
    } else {
      assert !Listens(t.sockets, i, x, |t.sockets|);
    }
  }

  lemma {:induction false} JoinInSlot(s: Server, c: int, i: nat, x: int)
    requires c >= 0 && i < |s.sockets| && s.sockets[i] == -1
    ensures InSlot(s.sockets[i := c], x) <==> InSlot(s.sockets, x) || x == c
  {
    var sockets' := s.sockets[i := c];
    assert sockets'[i] == c;
    if InSlot(s.sockets, x) {
      var k :| 0 <= k < |s.sockets| && s.sockets[k] == x;
      assert sockets'[k] == x;
    }
  }

  lemma {:induction false} AdmitMatches(s: Server, r: Room, c: int, answer: Received)
    requires Matches(s, r) && c in s.sent && c >= 0 && c !in r.from && s.numConnections < MAX_CONNECTIONS
    ensures Matches(Admit(s, c, answer), if answer.HungUp? then r else Joined(r, c, Inbuf(s, answer)))
  {
    if !answer.HungUp? {
      var name := Inbuf(s, answer);
      InbufMatches(s, r, name);
      JoinMatches(s.(inbuf := name), r, c, name);
    }
  }

  lemma {:induction false} EnterMatches(s: Server, r: Room, c: int, answer: Received)
    requires Matches(s, r) && c !in s.sent && c >= 0
    ensures Matches(Accept(s, c, answer), RoomStep(r, AsRoomEvent(s, Arrival(c, answer))))
  {
    SameWelcome(s, r);
    if s.numConnections < MAX_CONNECTIONS {
      var text := WelcomeText(SlotNames(s.usernames));
      GreetMatches(s, r, c, text);
      AdmitMatches(Greet(s, c, text), r.(welcome := r.welcome[c := text]), c, answer);
    }
  }

  // ---- Every run ----------------------------------------------------------------------------

  lemma {:induction false} InbufMatches(s: Server, r: Room, text: string)
    requires Matches(s, r)
    ensures Matches(s.(inbuf := text), r)
  {
  }

  lemma {:induction false} DataMatches(s: Server, r: Room, i: nat, bytes: string)
    requires Matches(s, r) && i < |s.sockets| && s.sockets[i] != -1
    ensures var e := Activity(i, Data(bytes)); Matches(Step(s, e), RoomStep(r, AsRoomEvent(s, e)))
  {
    var text := CString(bytes);
    InbufMatches(s, r, text);
    if text == "bye" {
      LeaveMatches(s.(inbuf := text), r, i);
    } else {
      SayMatches(s.(inbuf := text), r, i, ChatText(s.usernames[i].value, text));
    }
  }

  lemma {:induction false} ReceiveMatches(s: Server, r: Room, i: nat, received: Received)
    requires Matches(s, r) && i < |s.sockets| && s.sockets[i] != -1
    ensures Matches(Receive(s, i, received), RoomStep(r, AsRoomEvent(s, Activity(i, received))))
  {
    match received
    case HungUp => LeaveMatches(s, r, i);
    case Failed =>
    case Data(bytes) => DataMatches(s, r, i, bytes);
  }

  lemma {:induction false} StepMatches(s: Server, r: Room, e: Event)
    requires Matches(s, r) && Enabled(s, e)
    ensures Matches(Step(s, e), RoomStep(r, AsRoomEvent(s, e)))
  {
    match e
    case Arrival(conn, answer) => EnterMatches(s, r, conn, answer);
    case Activity(i, received) => ReceiveMatches(s, r, i, received);
  }

  lemma {:induction false} RunMatches(s: Server, r: Room, es: seq<Event>)
    requires Matches(s, r) && ValidRun(s, es)
    ensures Matches(RunEnd(s, es), RoomEnd(s, r, es))
    decreases |es|
  {
    if es != [] {
      StepMatches(s, r, es[0]);
      RunMatches(Step(s, es[0]), RoomStep(r, AsRoomEvent(s, es[0])), es[1..]);
    }
  }

  /** In every run the slots hold exactly the members of the room, and what has been sent on each
      connection is its welcome and then exactly what the others announced while it belonged to
      the room, in order and never its own. */
  lemma {:induction false} EveryRunDelivers(s: Server, es: seq<Event>)
    requires Initial(s) && ValidRun(s, es)
    ensures var e, r := RunEnd(s, es), RoomEnd(s, EMPTY_ROOM, es);
      && Consistent(e) && RoomOk(r) && e.numConnections == |r.present| <= MAX_CONNECTIONS
      && multiset(SlotMembers(e.sockets, e.usernames)) == multiset(r.present)
      && e.sent.Keys == r.welcome.Keys
      && forall c :: c in e.sent ==> e.sent[c] == Log(r, c)
  {
    InitialMatches(s);
    RunMatches(s, EMPTY_ROOM, es);
    var e, r := RunEnd(s, es), RoomEnd(s, EMPTY_ROOM, es);
    SameWelcome(e, r);
    LiveAtMostSlots(e.sockets);
  }

  lemma {:induction false} LiveAtMostSlots(sockets: seq<int>)
    ensures Sum(IsLive, sockets) <= |sockets|
  {
    if sockets != [] {
      LiveAtMostSlots(sockets[1..]);
    }
  }

  /** On shutdown "bye" goes, after everything else, to exactly those still connected. */
  lemma {:induction false} ShutdownDelivers(s: Server, es: seq<Event>, c: int)
    requires Initial(s) && ValidRun(s, es) && c in RunEnd(s, es).sent
    ensures var e, r := RunEnd(s, es), RoomEnd(s, EMPTY_ROOM, es);
      && Consistent(e) && RoomOk(r) && c in r.welcome && c in Shutdown(e).sent
      && Shutdown(e).sent[c] == Log(r, c) + (if Belongs(r, c) then ["bye"] else [])
  {
    InitialMatches(s);
    RunMatches(s, EMPTY_ROOM, es);
    var e, r := RunEnd(s, es), RoomEnd(s, EMPTY_ROOM, es);
    BroadcastReaches(e.sockets, e.sent, -1, "bye", |e.sockets|, c);
    assert InSlot(e.sockets, c) <==> Belongs(r, c);
    if InSlot(e.sockets, c) {
      var k :| 0 <= k < |e.sockets| && e.sockets[k] == c;
      assert Listens(e.sockets, -1, c, |e.sockets|);
    } else {
      assert !Listens(e.sockets, -1, c, |e.sockets|);
    }
  }

  // ---- What is held and given back ----------------------------------------------------------

  /** Open are the connections that have been greeted and have not left; the copies not yet freed
      are those of the names in the slots. */
  ghost predicate Accounts(s: Server, r: Room) {
    && (forall c :: c in s.open <==> c in r.welcome && c !in r.upTo)
    && multiset(s.copied) == multiset(s.freed) + multiset(SlotNames(s.usernames))
  }

  lemma {:induction false} NamesPut(us: seq<Option<string>>, i: nat, name: string)
    requires i < |us| && us[i].None?
    ensures multiset(SlotNames(us[i := Some(name)])) == multiset(SlotNames(us)) + multiset{name}
  {
    var us' := us[i := Some(name)];
    if i == 0 {
      assert us'[1..] == us[1..];
      assert SlotNames(us') == [name] + SlotNames(us[1..]);
      assert SlotNames(us) == [] + SlotNames(us[1..]) == SlotNames(us[1..]);
    } else {
      assert us'[1..] == us[1..][i - 1 := Some(name)];
      NamesPut(us[1..], i - 1, name);
      BagInFront(SlotName(us[0]), SlotNames(us[1..]), SlotNames(us'[1..]), name);
    }
  }

  lemma {:induction false} NamesTake(us: seq<Option<string>>, i: nat)
    requires i < |us| && us[i].Some?
    ensures multiset(SlotNames(us)) == multiset(SlotNames(us[i := None])) + multiset{us[i].value}
  {
    NamesPut(us[i := None], i, us[i].value);
    assert us[i := None][i := us[i]] == us;
  }

  lemma {:induction false} LeaveAccounts(s: Server, r: Room, i: nat)
    requires Matches(s, r) && Accounts(s, r) && i < |s.sockets| && s.sockets[i] != -1
    ensures Accounts(Disconnect(s, i), RoomStep(r, Leave(Member(s.sockets[i], s.usernames[i].value))))
  {
    NamesTake(s.usernames, i);
  }

  lemma {:induction false} GreetAccounts(s: Server, r: Room, c: int, text: string)
    requires Matches(s, r) && Accounts(s, r) && c !in s.sent
    ensures Accounts(Greet(s, c, text), r.(welcome := r.welcome[c := text]))
  {
  }

  lemma {:induction false} JoinAccounts(s: Server, r: Room, c: int, name: string)
    requires Consistent(s) && Accounts(s, r) && c in s.sent && s.numConnections < MAX_CONNECTIONS
    ensures Accounts(AddToFreeSlot(s, c, name), Joined(r, c, name))
  {
    FreeSlotExists(s.sockets);
    NamesPut(s.usernames, FreeSlot(s.sockets), name);
  }

  lemma {:induction false} AdmitAccounts(s: Server, r: Room, c: int, answer: Received)
    requires Matches(s, r) && Accounts(s, r) && c in s.sent && s.numConnections < MAX_CONNECTIONS
    ensures Accounts(Admit(s, c, answer), if answer.HungUp? then r else Joined(r, c, Inbuf(s, answer)))
  {
    if !answer.HungUp? {
      var name := Inbuf(s, answer);
      InbufMatches(s, r, name);
      InbufAccounts(s, r, name);
      JoinAccounts(s.(inbuf := name), r, c, name);
    }
  }

  lemma {:induction false} EnterAccounts(s: Server, r: Room, c: int, answer: Received)
    requires Matches(s, r) && Accounts(s, r) && c !in s.sent && c >= 0
    ensures Accounts(Accept(s, c, answer), RoomStep(r, AsRoomEvent(s, Arrival(c, answer))))
  {
    SameWelcome(s, r);
    if s.numConnections < MAX_CONNECTIONS {
      var text := WelcomeText(SlotNames(s.usernames));
      GreetMatches(s, r, c, text);
      GreetAccounts(s, r, c, text);
      AdmitAccounts(Greet(s, c, text), r.(welcome := r.welcome[c := text]), c, answer);
    }
  }

  lemma {:induction false} InbufAccounts(s: Server, r: Room, text: string)
    requires Accounts(s, r)
    ensures Accounts(s.(inbuf := text), r)
  {
  }

  lemma {:induction false} SayAccounts(s: Server, r: Room, i: nat, text: string)
    requires Matches(s, r) && Accounts(s, r) && i < |s.sockets|
    ensures Accounts(BroadcastAll(s, i, text), Announce(r, s.sockets[i], text))
  {
  }

  lemma {:induction false} DataAccounts(s: Server, r: Room, i: nat, bytes: string)
    requires Matches(s, r) && Accounts(s, r) && i < |s.sockets| && s.sockets[i] != -1
    ensures Accounts(Receive(s, i, Data(bytes)), RoomStep(r, AsRoomEvent(s, Activity(i, Data(bytes)))))
  {
    var text := CString(bytes);
    InbufMatches(s, r, text);
    InbufAccounts(s, r, text);
    if text == "bye" {
      LeaveAccounts(s.(inbuf := text), r, i);
    } else {
      SayAccounts(s.(inbuf := text), r, i, ChatText(s.usernames[i].value, text));
    }
  }

  lemma {:induction false} StepAccounts(s: Server, r: Room, e: Event)
    requires Matches(s, r) && Accounts(s, r) && Enabled(s, e)
    ensures Accounts(Step(s, e), RoomStep(r, AsRoomEvent(s, e)))
  {
    match e
    case Arrival(conn, answer) => EnterAccounts(s, r, conn, answer);
    case Activity(i, HungUp) => LeaveAccounts(s, r, i);
    case Activity(i, Failed) =>
    case Activity(i, Data(bytes)) => DataAccounts(s, r, i, bytes);
  }

  lemma {:induction false} RunAccounts(s: Server, r: Room, es: seq<Event>)
    requires Matches(s, r) && Accounts(s, r) && ValidRun(s, es)
    ensures Accounts(RunEnd(s, es), RoomEnd(s, r, es))
    decreases |es|
  {
    if es != [] {
      StepMatches(s, r, es[0]);
      StepAccounts(s, r, es[0]);
      RunAccounts(Step(s, es[0]), RoomStep(r, AsRoomEvent(s, es[0])), es[1..]);
    }
  }

  /** On shutdown every copy of a name has been freed, each once; and the connections still open
      are exactly those that were greeted and hung up before they had given a name. */
  lemma {:induction false} ShutdownReleases(s: Server, es: seq<Event>)
    requires Initial(s) && ValidRun(s, es)
    ensures var e, r := RunEnd(s, es), RoomEnd(s, EMPTY_ROOM, es);
      && Consistent(e) && multiset(e.copied) == multiset(e.freed) + multiset(SlotNames(e.usernames))
      && multiset(Shutdown(e).freed) == multiset(Shutdown(e).copied) && !Shutdown(e).listening
      && (forall c :: InSlot(e.sockets, c) ==> c in e.open)
      && forall c :: c in Shutdown(e).open <==> Unnamed(r, c)
  {
    InitialMatches(s);
    NoNames(s.usernames);
    RunMatches(s, EMPTY_ROOM, es);
    RunAccounts(s, EMPTY_ROOM, es);
    var e, r := RunEnd(s, es), RoomEnd(s, EMPTY_ROOM, es);
    forall c ensures c in Shutdown(e).open <==> Unnamed(r, c) {
      assert InSlot(e.sockets, c) <==> Belongs(r, c);
    }
  }

  lemma {:induction false} NoNames(usernames: seq<Option<string>>)
    requires forall i :: 0 <= i < |usernames| ==> usernames[i].None?
    ensures SlotNames(usernames) == []
  {
    if usernames != [] {
      NoNames(usernames[1..]);
    }
  }

  /** In the run `c` arrives while there is room and hangs up before it has given a name. */
  ghost predicate HungUpUnnamed(s: Server, es: seq<Event>, c: int)
    requires ValidRun(s, es)
    decreases |es|
  {
    es != [] &&
    ((es[0] == Arrival(c, HungUp) && s.numConnections < MAX_CONNECTIONS) || HungUpUnnamed(Step(s, es[0]), es[1..], c))
  }

  /** `c` has been greeted but has never joined. */
  predicate Unnamed(r: Room, c: int) {
    c in r.welcome && c !in r.from
  }

  lemma {:induction false} EnterUnnamed(r: Room, conn: int, name: Option<string>, c: int)
    requires RoomOk(r) && conn !in r.welcome
    ensures Unnamed(RoomStep(r, Enter(conn, name)), c)
       <==> Unnamed(r, c) || (c == conn && name.None? && |r.present| < MAX_CONNECTIONS)
  {
    assert conn !in r.from;
  }

  lemma {:induction false} StaysUnnamed(r: Room, e: RoomEvent, c: int)
    requires !e.Enter?
    ensures Unnamed(RoomStep(r, e), c) <==> Unnamed(r, c)
  {
  }

  /** Only by hanging up when it should give its name does a connection become one that never joins,
      and then it stays one. */
  lemma {:induction false} StepUnnamed(s: Server, r: Room, e: Event, c: int)
    requires Matches(s, r) && Enabled(s, e)
    ensures Unnamed(RoomStep(r, AsRoomEvent(s, e)), c)
       <==> Unnamed(r, c) || (e == Arrival(c, HungUp) && s.numConnections < MAX_CONNECTIONS)
  {
    match e
    case Arrival(conn, answer) =>
      SameWelcome(s, r);
      assert conn !in r.welcome.Keys;
      EnterUnnamed(r, conn, if answer.HungUp? then None else Some(Inbuf(s, answer)), c);
    case Activity(_, _) =>
      StaysUnnamed(r, AsRoomEvent(s, e), c);
  }

  lemma {:induction false} RunUnnamed(s: Server, r: Room, es: seq<Event>, c: int)
    requires Matches(s, r) && ValidRun(s, es)
    ensures Unnamed(RoomEnd(s, r, es), c) <==> Unnamed(r, c) || HungUpUnnamed(s, es, c)
    decreases |es|
  {
    if es != [] {
      StepMatches(s, r, es[0]);
      StepUnnamed(s, r, es[0], c);
      RunUnnamed(Step(s, es[0]), RoomStep(r, AsRoomEvent(s, es[0])), es[1..], c);
    }
  }

  /** A connection is still open after shutdown exactly when it has come while there was room and has
      hung up before it gave a name. */
  lemma {:induction false} LeftOpenExactly(s: Server, es: seq<Event>, c: int)
    requires Initial(s) && ValidRun(s, es)
    ensures Consistent(RunEnd(s, es))
    ensures c in Shutdown(RunEnd(s, es)).open <==> HungUpUnnamed(s, es, c)
  {
    InitialMatches(s);
    RunUnnamed(s, EMPTY_ROOM, es, c);
    ShutdownReleases(s, es);
  }

  /** One such connection is enough. */
  lemma {:induction false} OneLeftOpen(s: Server, c: int)
    requires Initial(s) && c >= 0
    ensures ValidRun(s, [Arrival(c, HungUp)]) && Consistent(RunEnd(s, [Arrival(c, HungUp)]))
    ensures c in Shutdown(RunEnd(s, [Arrival(c, HungUp)])).open
  {
    InitialMatches(s);
    AcceptConsistent(s, c, HungUp);
    var es := [Arrival(c, HungUp)];
    assert es[1..] == [] && ValidRun(Step(s, es[0]), es[1..]);
    LeftOpenExactly(s, es, c);
  }
}
