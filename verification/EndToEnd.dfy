/**
 From the server's state to the client's: rosters, relayed values and requests across the encoding, the
 framing, the send queue, the network's chunks and the client's reassembly, as intended and as written.
 */
module EndToEnd {
  import opened Bytes
  import opened Roster
  import opened Framing
  import opened LobbyProtocol
  import opened LobbyInvariants
  import opened LobbyViews
  import opened LobbyRelays
  import opened LobbyRuns
  import opened LobbySessions
  import opened LobbyOutboxes
  import opened LobbyWire
  import opened NetClient
  import opened ClientLaws
  import Connections
  import Floats
  import MsgPack
  import MsgPackFormats
  import MsgPackRoundTrip

  // ---- one message ----

  /** A message that fits its encoding. */
  predicate Encodable(m: Message) {
    match m
    case LobbyJoined(lobby, id) => |lobby| <= 0xFF && id < 0x100
    case UpdateLobby(es) => GoodRoster(es)
    case RelayMessage(id, payload) => id < 0x100 && |payload| <= 0xFFFF
  }

  /** A message the client can read: a relayed payload must be a packed value. */
  predicate Readable(m: Message) {
    m.RelayMessage? ==> MsgPack.Unpack(m.payload).Ok?
  }

  /** The event a message makes of itself. */
  function EventOf(m: Message): (e: NetEvent)
    requires Readable(m)
  {
    match m
    case LobbyJoined(lobby, id) => JoinedEvent(lobby, id)
    case UpdateLobby(es) => UpdatedEvent(es)
    case RelayMessage(id, payload) => MessageEvent(id, MsgPack.Unpack(payload).value)
  }

  /** What a message means to the client: one event, and for rosters and welcomes a change. */
  function Tell(c: Client, m: Message): (r: Client)
    requires Readable(m)
  {
    var told := c.(events := c.events + [EventOf(m)]);
    match m
    case LobbyJoined(lobby, id) => told.(playerId := Some(id), lobbyId := Some(lobby))
    case UpdateLobby(es) => told.(players := es)
    case RelayMessage(_, _) => told
  }

  /** The handler of a message's bytes does what the message means, and fails exactly if it cannot be read. */
  lemma HandlesWire(c: Client, m: Message)
    requires Encodable(m)
    ensures Handle(c, Wire(m)).1 <==> Readable(m)
    ensures Handle(c, Wire(m)).0 == if Readable(m) then Tell(c, m) else c
  {
    match m
    case LobbyJoined(lobby, id) => JoinedReadsBack(lobby, id);
    case UpdateLobby(es) => UpdateReadsBack(es);
    case RelayMessage(id, payload) => RelayReadsBack(id, payload);
  }

  /** Spelled out. */
  lemma HandledSpelledOut(c: Client, lobby: bytes, id: nat, es: seq<Entry>, payload: bytes)
    requires |lobby| <= 0xFF && id <= 0xFF && GoodRoster(es) && |payload| <= 0xFFFF
    ensures Handle(c, Wire(LobbyJoined(lobby, id))) ==
      (Client(c.players, Some(id), Some(lobby), c.events + [JoinedEvent(lobby, id)]), true)
    ensures Handle(c, Wire(UpdateLobby(es))) == (Client(es, c.playerId, c.lobbyId, c.events + [UpdatedEvent(es)]), true)
    ensures MsgPack.Unpack(payload).Ok? ==>
      var told := c.events + [MessageEvent(id, MsgPack.Unpack(payload).value)];
      Handle(c, Wire(RelayMessage(id, payload))) == (Client(c.players, c.playerId, c.lobbyId, told), true)
  {
    HandlesWire(c, LobbyJoined(lobby, id));
    HandlesWire(c, UpdateLobby(es));
    HandlesWire(c, RelayMessage(id, payload));
  }

  /** A message that breaks off behind its type is an error; only of a roster the complete entries are kept. */
  lemma CutMessageFails(c: Client, m: Message, k: nat)
    requires Encodable(m) && 1 <= k < |Wire(m)|
    ensures var (r, ok) := Handle(c, Wire(m)[..k]);
      && !ok
      && if m.UpdateLobby? && k > 1 then
           r == c.(players := m.roster[..Complete(m.roster, k - 2)])
         else r == c
  {
    assert Wire(m)[..k][0] == Wire(m)[0];
    match m
    case LobbyJoined(lobby, id) => CutJoined(lobby, id, k);
    case RelayMessage(id, payload) => CutRelay(id, payload, k);
    case UpdateLobby(es) =>
      if k > 1 {
        var j := CutUpdate(es, k);
      }
  }

  /** An empty message and one of another type change nothing. */
  lemma OtherMessagesDropped(c: Client, msg: bytes)
    ensures msg == [] || (msg[0] != 3 && msg[0] != 8 && msg[0] != 10) ==> Handle(c, msg) == (c, true)
  {
  }

  lemma {:induction false} EntriesShort(es: seq<Entry>)
    ensures |EntriesBytes(es)| <= 0x101 * |es|
  {
    if es != [] {
      EntriesShort(es[..|es| - 1]);
    }
  }

  lemma WireShort(m: Message)
    requires Encodable(m)
    ensures |Wire(m)| < TWO32
  {
    if m.UpdateLobby? {
      EntriesShort(m.roster);
    }
  }

  // ---- many messages ----

  function Wires(ms: seq<Message>): (ws: seq<bytes>)
    ensures |ws| == |ms| && forall i :: 0 <= i < |ws| ==> ws[i] == Wire(ms[i])
  {
    seq(|ms|, i requires 0 <= i < |ms| => Wire(ms[i]))
  }

  predicate AllEncodable(ms: seq<Message>) {
    forall i :: 0 <= i < |ms| ==> Encodable(ms[i])
  }

  predicate AllReadable(ms: seq<Message>) {
    forall i :: 0 <= i < |ms| ==> Readable(ms[i])
  }

  function TellAll(c: Client, ms: seq<Message>): (r: Client)
    requires AllReadable(ms)
  {
    if ms == [] then c else Tell(TellAll(c, ms[..|ms| - 1]), ms[|ms| - 1])
  }

  /** The index of the first message that cannot be read, or else their number. */
  function FirstUnreadable(ms: seq<Message>): (n: nat)
    ensures n <= |ms| && AllReadable(ms[..n]) && (n < |ms| ==> !Readable(ms[n]))
  {
    if ms == [] then 0 else
    var n := FirstUnreadable(ms[..|ms| - 1]);
    if n == |ms| - 1 && Readable(ms[n]) then |ms| else n
  }

  /**
   The client `r` is `c` after the first `j` messages: told those before the first that cannot be read, with an
   error exactly if that one is among the `j`.
   */
  predicate Told(c: Client, ms: seq<Message>, j: nat, r: Client, ok: bool) {
    && j <= |ms| && (ok <==> j <= FirstUnreadable(ms))
    && r == TellAll(c, ms[..if ok then j else FirstUnreadable(ms)])
  }

  lemma ToldAll(c: Client, ms: seq<Message>, r: Client, ok: bool)
    requires Told(c, ms, |ms|, r, ok)
    ensures ok <==> AllReadable(ms)
    ensures ok ==> r == TellAll(c, ms)
  {
    assert ms[..|ms|] == ms;
  }

  lemma ToldFirst(c: Client, ms: seq<Message>, j: nat, r: Client, ok: bool) returns (n: nat)
    requires Told(c, ms, j, r, ok)
    ensures n <= |ms| && AllReadable(ms[..n]) && r == TellAll(c, ms[..n])
  {
    n := if ok then j else FirstUnreadable(ms);
  }

  /** A handler that does what messages mean. */
  ghost predicate Understands(h: Handler<Client>) {
    forall c: Client, m: Message :: Encodable(m) ==>
      h(c, Wire(m)) == if Readable(m) then (Tell(c, m), true) else (c, false)
  }

  lemma HandleUnderstands()
    ensures Understands(Handle)
  {
    forall c: Client, m: Message | Encodable(m)
      ensures Handle(c, Wire(m)) == if Readable(m) then (Tell(c, m), true) else (c, false)
    {
      HandlesWire(c, m);
    }
  }

  lemma {:induction false} DispatchesWires(h: Handler<Client>, c: Client, ms: seq<Message>)
    requires Understands(h) && AllEncodable(ms)
    ensures Told(c, ms, |ms|, Dispatched(h, c, Wires(ms)).0, Dispatched(h, c, Wires(ms)).1)
  {
    if ms != [] {
      var init, last := ms[..|ms| - 1], ms[|ms| - 1];
      DispatchesWires(h, c, init);
      Hears(h, Dispatched(h, c, Wires(init)).0, last);
      DispatchesOneMore(h, c, ms, Wires(init), Wire(last));
      WiresPush(ms);
    }
  }

  lemma Hears(h: Handler<Client>, c: Client, m: Message)
    requires Understands(h) && Encodable(m)
    ensures h(c, Wire(m)) == if Readable(m) then (Tell(c, m), true) else (c, false)
  {
  }

  lemma WiresPush(ms: seq<Message>)
    requires ms != []
    ensures Wires(ms) == Wires(ms[..|ms| - 1]) + [Wire(ms[|ms| - 1])]
  {
  }

  lemma DispatchesOneMore(h: Handler<Client>, c: Client, ms: seq<Message>, ws: seq<bytes>, w: bytes)
    requires ms != []
    requires var init, last, d := ms[..|ms| - 1], ms[|ms| - 1], Dispatched(h, c, ws);
      && Told(c, init, |init|, d.0, d.1)
      && h(d.0, w) == if Readable(last) then (Tell(d.0, last), true) else (d.0, false)
    ensures Told(c, ms, |ms|, Dispatched(h, c, ws + [w]).0, Dispatched(h, c, ws + [w]).1)
  {
    var d, d' := Dispatched(h, c, ws), Dispatched(h, c, ws + [w]);
    DispatchedPush(h, c, ws, w);
    ToldMore(c, ms, d.0, d.1, d'.0, d'.1);
  }

  lemma ToldMore(c: Client, ms: seq<Message>, r: Client, ok: bool, r': Client, ok': bool)
    requires ms != [] && Told(c, ms[..|ms| - 1], |ms| - 1, r, ok)
    requires var last := ms[|ms| - 1];
      if ok && Readable(last) then ok' && r' == Tell(r, last) else !ok' && r' == r
    ensures Told(c, ms, |ms|, r', ok')
  {
    var init := ms[..|ms| - 1];
    var n := FirstUnreadable(init);
    assert init[..n] == ms[..n] && ms[..|ms|] == ms;
    assert init[..|init|] == init;
  }

  lemma {:induction false} FirstUnreadableOfPrefix(ms: seq<Message>, j: nat)
    requires j <= |ms|
    ensures FirstUnreadable(ms[..j]) == if j <= FirstUnreadable(ms) then j else FirstUnreadable(ms)
  {
    if j == |ms| {
      assert ms[..j] == ms;
    } else {
      var init := ms[..|ms| - 1];
      FirstUnreadableOfPrefix(init, j);
      assert init[..j] == ms[..j];
    }
  }

  lemma DispatchesFirst(h: Handler<Client>, c: Client, ms: seq<Message>, j: nat)
    requires Understands(h) && AllEncodable(ms) && j <= |ms|
    ensures Told(c, ms, j, Dispatched(h, c, Wires(ms[..j])).0, Dispatched(h, c, Wires(ms[..j])).1)
  {
    DispatchesWires(h, c, ms[..j]);
    FirstUnreadableOfPrefix(ms, j);
    var n := FirstUnreadable(ms[..j]);
    assert ms[..j][..n] == ms[..n];
  }

  /** The start of a stream of wires parses into the first of them. */
  lemma StreamParses(ms: seq<Message>, b: bytes)
    requires AllEncodable(ms) && b <= Frames(Wires(ms))
    ensures var (ws, rest) := Parse(b);
      && |ws| <= |ms| && ws == Wires(ms[..|ws|]) && Frames(ws) + rest == b
      && (b == Frames(Wires(ms)) ==> |ws| == |ms| && rest == [])
  {
    var ws := Wires(ms);
    forall w | w in ws ensures |w| < TWO32 {
      var i :| 0 <= i < |ws| && ws[i] == w;
      WireShort(ms[i]);
    }
    FramesWhole(ws);
    ParseUnique(ws, []);
    var more := Remainder(b, Frames(ws));
    ParsePrefix(b, more);
    ParseConserves(b);
  }

  /**
   As intended, at any time: of a stream of messages, in any chunks, the client was told those that have arrived
   completely, up to the first it cannot read, which is an error; what has arrived of the next one is kept.
   */
  lemma StreamTells(h: Handler<Client>, c: Client, ms: seq<Message>, chunks: seq<bytes>)
    requires Understands(h) && AllEncodable(ms) && Flatten(chunks) <= Frames(Wires(ms))
    ensures var j, r := |Parse(Flatten(chunks)).0|, ReceiveAll(h, c, chunks);
      && Told(c, ms, j, r.0, r.2) && (r.2 ==> Frames(Wires(ms[..j])) + r.1 == Flatten(chunks))
      && (Flatten(chunks) == Frames(Wires(ms)) ==> j == |ms| && (r.2 ==> r.1 == []))
  {
    StreamParses(ms, Flatten(chunks));
    DispatchesFirst(h, c, ms, |Parse(Flatten(chunks)).0|);
    ChunksDoNotMatter(h, c, chunks);
  }

  /** As written: those before the first that crosses the end of a read; all later bytes are kept. */
  lemma StreamTellsAsWritten(h: Handler<Client>, c: Client, ms: seq<Message>, parts: seq<bytes>)
    requires Understands(h) && AllEncodable(ms) && Flatten(parts) <= Frames(Wires(ms))
    ensures var n, r := FirstCrossing(Parse(Flatten(parts)).0, parts, 0), ReceiveAllFront(h, c, parts);
      Told(c, ms, n, r.0, r.2) && (r.2 ==> Frames(Wires(ms[..n])) + Flatten(r.1) == Flatten(parts))
  {
    AsWrittenExactly(h, c, parts);
    var n := FirstCrossing(Parse(Flatten(parts)).0, parts, 0);
    ReachedTells(h, c, ms, Flatten(parts), n, ReceiveAllFront(h, c, parts));
  }

  lemma ReachedTells(h: Handler<Client>, c: Client, ms: seq<Message>, b: bytes, n: nat, r: (Client, seq<bytes>, bool))
    requires Understands(h) && AllEncodable(ms) && b <= Frames(Wires(ms)) && Reaches(h, c, b, n, r)
    ensures Told(c, ms, n, r.0, r.2) && (r.2 ==> Frames(Wires(ms[..n])) + Flatten(r.1) == b)
  {
    StreamParses(ms, b);
    FirstWires(ms, |Parse(b).0|, n);
    DispatchesFirst(h, c, ms, n);
  }

  lemma FirstWires(ms: seq<Message>, j: nat, n: nat)
    requires n <= j <= |ms|
    ensures Wires(ms[..j])[..n] == Wires(ms[..n])
  {
  }

  /** As written, of a whole stream of which no message crosses the end of a read. */
  lemma WholeStreamAsWritten(h: Handler<Client>, c: Client, ms: seq<Message>, parts: seq<bytes>)
    requires Understands(h) && AllEncodable(ms) && Flatten(parts) == Frames(Wires(ms)) && NoneCross(Wires(ms), parts)
    ensures var r := ReceiveAllFront(h, c, parts); Told(c, ms, |ms|, r.0, r.2) && (r.2 ==> Flatten(r.1) == [])
  {
    StreamParses(ms, Flatten(parts));
    assert ms[..|ms|] == ms;
    StreamTells(h, c, ms, parts);
    AsWrittenAsIntended(h, c, parts);
  }

  // ---- what a whole outbox tells ----

  function Messages(box: seq<Sent>): (ms: seq<Message>)
    ensures |ms| == |box| && forall i :: 0 <= i < |box| ==> ms[i] == box[i].msg
  {
    seq(|box|, i requires 0 <= i < |box| => box[i].msg)
  }

  lemma OutboxEncodable(box: seq<Sent>)
    requires BoxOk(box)
    ensures AllEncodable(Messages(box))
  {
    forall k | 0 <= k < |box| ensures Encodable(Messages(box)[k]) {
      assert SentOk(box[k]);
    }
  }

  lemma MembershipReadable(box: seq<Sent>)
    requires BoxOk(box)
    ensures AllReadable(MembershipOnly(box))
  {
    if box != [] {
      assert SentOk(box[|box| - 1]);
    }
  }

  lemma {:induction false} TellAppend(c: Client, a: seq<Message>, b: seq<Message>)
    requires AllReadable(a) && AllReadable(b)
    ensures AllReadable(a + b) && TellAll(c, a + b) == TellAll(TellAll(c, a), b)
  {
    if b == [] {
      assert a + b == a;
    } else {
      assert (a + b)[..|a + b| - 1] == a + b[..|b| - 1];
      TellAppend(c, a, b[..|b| - 1]);
    }
  }

  // ---- the roster a client ends up with ----

  function LastRoster(ms: seq<Message>): (es: Option<seq<Entry>>) {
    if ms == [] then None
    else if ms[|ms| - 1].UpdateLobby? then Some(ms[|ms| - 1].roster)
    else LastRoster(ms[..|ms| - 1])
  }

  /** The last roster posted, if it was the reply to a request and not a broadcast. */
  function LateReply(box: seq<Sent>): (es: Option<seq<Entry>>) {
    if box == [] then None else
    var last := box[|box| - 1];
    if !last.msg.UpdateLobby? then LateReply(box[..|box| - 1])
    else if last.reason == Requested then Some(last.msg.roster)
    else None
  }

  lemma {:induction false} LastRosterTold(c: Client, ms: seq<Message>)
    requires AllReadable(ms)
    ensures TellAll(c, ms).players == if LastRoster(ms).Some? then LastRoster(ms).value else c.players
  {
    if ms != [] {
      LastRosterTold(c, ms[..|ms| - 1]);
    }
  }

  /** The last roster posted is the last one broadcast, unless it is a reply. */
  lemma {:induction false} LastRosterPosted(box: seq<Sent>)
    requires BoxOk(box)
    ensures LastRoster(Messages(box)) ==
      if LateReply(box).Some? then LateReply(box) else LastRoster(MembershipOnly(box))
  {
    if box != [] {
      var init, last := box[..|box| - 1], box[|box| - 1];
      assert SentOk(last) && BoxOk(init);
      LastRosterPosted(init);
      assert Messages(box)[..|box| - 1] == Messages(init);
      if last.reason == Membership {
        assert MembershipOnly(box)[..|MembershipOnly(box)| - 1] == MembershipOnly(init);
      } else {
        assert MembershipOnly(box) == MembershipOnly(init);
      }
    }
  }

  lemma {:induction false} LateReplyAfter(a: seq<Sent>, b: seq<Sent>)
    requires LastRoster(Messages(b)).Some?
    ensures LateReply(a + b) == LateReply(b)
  {
    var init := b[..|b| - 1];
    assert (a + b)[..|a + b| - 1] == a + init;
    assert Messages(b)[..|b| - 1] == Messages(init);
    if !b[|b| - 1].msg.UpdateLobby? {
      LateReplyAfter(a, init);
    }
  }

  /** Ids come with welcomes only. */
  lemma {:induction false} IdsTold(c: Client, box: seq<Sent>)
    requires BoxOk(box) && AllReadable(Messages(box))
    ensures AllReadable(MembershipOnly(box))
    ensures var r, d := TellAll(c, Messages(box)), TellAll(c, MembershipOnly(box));
      r.playerId == d.playerId && r.lobbyId == d.lobbyId
  {
    MembershipReadable(box);
    if box != [] {
      var init, last := box[..|box| - 1], box[|box| - 1];
      IdsTold(c, init);
      assert Messages(box)[..|box| - 1] == Messages(init);
      assert SentOk(last);
      if last.reason == Membership {
        assert MembershipOnly(box)[..|MembershipOnly(box)| - 1] == MembershipOnly(init);
      } else {
        assert MembershipOnly(box) == MembershipOnly(init);
      }
    }
  }

  lemma {:induction false} WelcomedThenTold(c: Client, lobby: LobbyId, id: nat, h: seq<seq<Entry>>)
    requires AllReadable([LobbyJoined(lobby, id)] + Broadcasts(h))
    ensures var r := TellAll(c, [LobbyJoined(lobby, id)] + Broadcasts(h));
      r.playerId == Some(id) && r.lobbyId == Some(lobby)
  {
    var joined, ms := LobbyJoined(lobby, id), [LobbyJoined(lobby, id)] + Broadcasts(h);
    if h == [] {
      assert ms == [joined] && ms[..0] == [];
      assert TellAll(c, ms) == Tell(TellAll(c, ms[..0]), joined);
    } else {
      assert ms[..|ms| - 1] == [joined] + Broadcasts(h[..|h| - 1]);
      WelcomedThenTold(c, lobby, id, h[..|h| - 1]);
    }
  }

  /**
   What a member's client makes of its whole outbox: its id, its lobby, and the current roster, unless a reply to
   a request for the roster was posted after the last broadcast; then the roster it was sent with the reply.
   */
  lemma OutboxTells(evs: seq<Event>, st: State, s: Sid)
    requires SafeRun(evs) && Run(evs) == Some(st) && s in st.sessions
    requires st.sessions[s].playerId.Some?
    requires InLobby(st, s) && Home(st, s).writer == None
    requires AllReadable(Messages(st.sessions[s].outbox))
    ensures var x, ps := st.sessions[s], Home(st, s).players;
      var c := TellAll(NEW_CLIENT, Messages(x.outbox));
      && c.players == (if LateReply(x.outbox).Some? then LateReply(x.outbox).value else View(ps))
      && c.playerId == x.playerId && c.lobbyId == x.lobby
  {
    var x, l := st.sessions[s], Home(st, s);
    OutboxesInRuns(evs);
    assert Tidy(x);
    RosterView(evs, s);
    SessionTells(x, View(l.players), l.history[x.since..]);
  }

  lemma MessagesAppend(a: seq<Sent>, b: seq<Sent>)
    ensures Messages(a + b) == Messages(a) + Messages(b)
    ensures AllReadable(Messages(a + b)) ==> AllReadable(Messages(a)) && AllReadable(Messages(b))
  {
    var ms := Messages(a + b);
    assert ms == Messages(a) + Messages(b);
    assert Messages(a) == ms[..|a|] && Messages(b) == ms[|a|..];
  }

  lemma SessionTells(x: Session, now: seq<Entry>, h: seq<seq<Entry>>)
    requires BoxOk(x.outbox) && AllReadable(Messages(x.outbox))
    requires x.mark <= |x.outbox| && x.lobby.Some? && x.playerId.Some?
    requires Updates(x) == [LobbyJoined(x.lobby.value, x.playerId.value)] + Broadcasts(h)
    requires Updates(x)[|Updates(x)| - 1] == UpdateLobby(now)
    ensures var c := TellAll(NEW_CLIENT, Messages(x.outbox));
      && c.players == (if LateReply(x.outbox).Some? then LateReply(x.outbox).value else now)
      && c.playerId == x.playerId && c.lobbyId == x.lobby
  {
    var before, since := x.outbox[..x.mark], x.outbox[x.mark..];
    assert before + since == x.outbox;
    BoxTells(before, since, x.lobby.value, x.playerId.value, now, h);
  }

  lemma BoxTells(before: seq<Sent>, since: seq<Sent>, lobby: LobbyId, id: nat, now: seq<Entry>, h: seq<seq<Entry>>)
    requires BoxOk(since) && AllReadable(Messages(before + since))
    requires MembershipOnly(since) == [LobbyJoined(lobby, id)] + Broadcasts(h)
    requires MembershipOnly(since)[|MembershipOnly(since)| - 1] == UpdateLobby(now)
    ensures var c := TellAll(NEW_CLIENT, Messages(before + since));
      && c.players == (if LateReply(before + since).Some? then LateReply(before + since).value else now)
      && c.playerId == Some(id) && c.lobbyId == Some(lobby)
  {
    MessagesAppend(before, since);
    TellAppend(NEW_CLIENT, Messages(before), Messages(since));
    SinceTells(TellAll(NEW_CLIENT, Messages(before)), since, lobby, id, now, h);
    LateReplyAfter(before, since);
  }

  lemma SinceTells(c: Client, since: seq<Sent>, lobby: LobbyId, id: nat, now: seq<Entry>, h: seq<seq<Entry>>)
    requires BoxOk(since) && AllReadable(Messages(since))
    requires MembershipOnly(since) == [LobbyJoined(lobby, id)] + Broadcasts(h)
    requires MembershipOnly(since)[|MembershipOnly(since)| - 1] == UpdateLobby(now)
    ensures LastRoster(Messages(since)).Some?
    ensures var r := TellAll(c, Messages(since));
      && r.players == (if LateReply(since).Some? then LateReply(since).value else now)
      && r.playerId == Some(id) && r.lobbyId == Some(lobby)
  {
    LastRosterPosted(since);
    LastRosterTold(c, Messages(since));
    IdsTold(c, since);
    WelcomedThenTold(c, lobby, id, h);
  }

  /**
   A safe run after which a client is left with an old roster: one player asks for the roster, another joins
   before the reply is sent.
   */
  method StaleReply(a: Sid, b: Sid, name: Name, l: LobbyId) returns (st: State, ghost evs: seq<Event>)
    requires a != b && |l| <= MAX_LOBBY_NAME
    ensures SafeRun(evs) && Run(evs) == Some(st) && a in st.sessions && st.sessions[a].playerId.Some? && InLobby(st, a)
    ensures Home(st, a).writer == None && AllReadable(Messages(st.sessions[a].outbox))
    ensures TellAll(NEW_CLIENT, Messages(st.sessions[a].outbox)).players != View(Home(st, a).players)
  {
    var server := AskThenJoin(a, b, name, l);
    server.Do(Reply(a));
    st, evs := server.st, server.evs;
    OutboxTells(evs, st, a);
  }

  predicate NoRelays(box: seq<Sent>) {
    forall k :: 0 <= k < |box| ==> !box[k].msg.RelayMessage?
  }

  method AskThenJoin(a: Sid, b: Sid, name: Name, l: LobbyId) returns (server: LobbyServer)
    requires a != b && |l| <= MAX_LOBBY_NAME
    ensures fresh(server) && server.Valid() && SafeRun(server.evs) && InLobby(server.st, a)
    ensures server.st.sessions[a].doing == Replying([Entry(0, name)]) && server.st.sessions[a].playerId.Some?
    ensures Home(server.st, a).writer == None && |Home(server.st, a).players| == 2
    ensures NoRelays(server.st.sessions[a].outbox) && {a, b} == server.st.sessions.Keys && IdleSession(server.st, b)
    ensures forall s :: s in {a, b} ==>
      server.st.sessions[s].lobby == Some(l) && server.st.sessions[s].playerId.Some?
  {
    server := Ask(a, b, name, l);
    ghost var st := server.st;
    assert Alive(st, l) by { assert st.sessions[a].lobby == Some(l); }
    var joined := server.ProcessJoinLobby(b, name, l);
    JoinNoRelays(st, server.st, b, name, l, a);
  }

  /** A lobby with its creator in it, who has asked for the roster, and another session. */
  method Ask(a: Sid, b: Sid, name: Name, l: LobbyId) returns (server: LobbyServer)
    requires a != b && |l| <= MAX_LOBBY_NAME
    ensures fresh(server) && server.Valid() && SafeRun(server.evs) && {a, b} == server.st.sessions.Keys
    ensures server.st.sessions[a].lobby == Some(l) && server.st.sessions[a].playerId == Some(0)
    ensures server.st.sessions[a].doing == Replying([Entry(0, name)])
    ensures l in server.st.lobbies && Exclusive(server.st.lobbies[l]) && CanJoin(server.st.lobbies[l])
    ensures server.st.lobbies[l].players == [Player(0, a, name)]
    ensures IdleSession(server.st, b) && server.st.sessions[b].playerId == None
    ensures NoRelays(server.st.sessions[a].outbox)
  {
    server := CreateBeside(a, b, name, l);
    assert View([Player(0, a, name)]) == [Entry(0, name)];
    server.Do(Request(a));
  }

  method CreateBeside(a: Sid, b: Sid, name: Name, l: LobbyId) returns (server: LobbyServer)
    requires a != b && |l| <= MAX_LOBBY_NAME
    ensures fresh(server) && server.Valid() && SafeRun(server.evs) && {a, b} == server.st.sessions.Keys
    ensures server.st.sessions[a].lobby == Some(l) && server.st.sessions[a].playerId == Some(0)
    ensures IdleSession(server.st, a) && l in server.st.lobbies && Exclusive(server.st.lobbies[l])
    ensures !server.st.lobbies[l].locked && server.st.lobbies[l].players == [Player(0, a, name)]
    ensures IdleSession(server.st, b) && server.st.sessions[b].playerId == None
    ensures NoRelays(server.st.sessions[a].outbox)
  {
    server := new LobbyServer();
    server.Do(Connect(a));
    server.Do(Connect(b));
    ghost var st := server.st;
    server.ProcessCreateLobby(a, name, l);
    assert NoRelays(server.st.sessions[a].outbox) by {
      CreateNoRelays(st, server.st, a, name, l);
    }
  }

  lemma CreateNoRelays(st: State, r: State, s: Sid, name: Name, l: LobbyId)
    requires Created(st, r, s, name, l) && s in st.sessions && st.sessions[s].outbox == []
    ensures NoRelays(r.sessions[s].outbox)
  {
    var m, n := Sent(LobbyJoined(l, 0), Membership), Sent(UpdateLobby([Entry(0, name)]), Membership);
    var none: seq<Posted> := [];
    OneMorePost(none, s, m, s);
    assert none + [Posted(s, m)] == [Posted(s, m)] && [Posted(s, m)] + [Posted(s, n)] == [Posted(s, m), Posted(s, n)];
    OneMorePost([Posted(s, m)], s, n, s);
  }

  lemma JoinNoRelays(st: State, r: State, s: Sid, name: Name, l: LobbyId, t: Sid)
    requires Joined(st, r, s, name, l) && t in st.sessions && NoRelays(st.sessions[t].outbox)
    ensures NoRelays(r.sessions[t].outbox)
  {
    var all := WithPlayer(st.lobbies[l].players, name, s);
    var welcome := Sent(LobbyJoined(l, NextId(st.lobbies[l].players)), Membership);
    var m := Sent(UpdateLobby(View(all)), Membership);
    InboxAppend([Posted(s, welcome)], ToAll(all, m), t);
    InboxOfAll(all, m, t);
    assert [Posted(s, welcome)][..0] == [];
  }

  lemma {:induction false} InboxOfAll(ps: seq<Player>, m: Sent, t: Sid)
    ensures forall k :: 0 <= k < |Inbox(ToAll(ps, m), t)| ==> Inbox(ToAll(ps, m), t)[k] == m
  {
    if ps != [] {
      var init, last := ps[..|ps| - 1], ps[|ps| - 1];
      InboxOfAll(init, m, t);
      OneMorePost(ToAll(init, m), last.conn, m, t);
    }
  }

  // ---- over the wire ----

  function Framed(ws: seq<bytes>): (fs: seq<bytes>)
    ensures |fs| == |ws| && forall i :: 0 <= i < |fs| ==> fs[i] == Frame(ws[i])
  {
    seq(|ws|, i requires 0 <= i < |ws| => Frame(ws[i]))
  }

  lemma {:induction false} FramedStream(ws: seq<bytes>)
    ensures Flatten(Framed(ws)) == Frames(ws)
  {
    if ws != [] {
      var init, last := ws[..|ws| - 1], ws[|ws| - 1];
      FramedStream(init);
      assert Framed(ws) == Framed(init) + [Frame(last)];
      FlattenPush(Framed(init), Frame(last));
    }
  }

  /**
   A quiet connection that had no errors was given these messages to send, and the client has received the
   bytes it wrote, in these chunks.
   */
  ghost predicate Carried(ms: seq<Message>, link: seq<Connections.LinkEvent>, chunks: seq<bytes>) {
    && Connections.RunLink(link).Some? && Connections.NoErrors(link) && Connections.RunLink(link).value.writing == None
    && Connections.RunLink(link).value.queued == Framed(Wires(ms))
    && Flatten(chunks) == Flatten(Connections.RunLink(link).value.written)
  }

  lemma CarriedStream(ms: seq<Message>, link: seq<Connections.LinkEvent>, chunks: seq<bytes>)
    requires Carried(ms, link, chunks)
    ensures Flatten(chunks) == Frames(Wires(ms))
  {
    Connections.QuietMeansSent(link);
    FramedStream(Wires(ms));
  }

  /** At any time, with or without errors, what a connection has written is the start of what it was given to send. */
  lemma CarriedSoFar(ms: seq<Message>, link: seq<Connections.LinkEvent>, chunks: seq<bytes>)
    requires Connections.RunLink(link).Some? && Connections.RunLink(link).value.queued == Framed(Wires(ms))
    requires Flatten(chunks) <= Flatten(Connections.RunLink(link).value.written)
    ensures Flatten(chunks) <= Frames(Wires(ms))
  {
    Connections.LinkRuns(link);
    var k := Connections.RunLink(link).value;
    FlattenAppend(k.written, k.queue);
    FramedStream(Wires(ms));
  }

  /** A client with the lobby's roster, the session's id and lobby, and the server's view of who is master. */
  ghost predicate Agrees(c: Client, x: Session, ps: seq<Player>) {
    && c.players == View(ps) && c.playerId == x.playerId && c.lobbyId == x.lobby && c.playerId.Some?
    && MasterTest(c, None) == Some(IsMaster(ps, c.playerId.value))
    && forall id: nat :: MasterTest(c, Some(id)) == Some(IsMaster(ps, id))
  }

  /** What a member's client told everything agrees on, unless the last roster posted was a reply. */
  lemma ToldAgrees(evs: seq<Event>, st: State, s: Sid)
    requires SafeRun(evs) && Run(evs) == Some(st) && s in st.sessions
    requires st.sessions[s].playerId.Some?
    requires InLobby(st, s) && Home(st, s).writer == None
    requires AllReadable(Messages(st.sessions[s].outbox)) && LateReply(st.sessions[s].outbox) == None
    ensures var x, ps := st.sessions[s], Home(st, s).players;
      Agrees(TellAll(NEW_CLIENT, Messages(x.outbox)), x, ps)
  {
    OutboxTells(evs, st, s);
    HandlersFindTheirPlayer(evs, s);
  }

  lemma PostedEncodable(evs: seq<Event>, st: State, s: Sid)
    requires Run(evs) == Some(st) && s in st.sessions
    ensures AllEncodable(Messages(st.sessions[s].outbox))
  {
    OutboxesInRuns(evs);
    assert Tidy(st.sessions[s]);
    OutboxEncodable(st.sessions[s].outbox);
  }

  /**
   In every run, safe or not, at any time, with the client's queue as intended: the client has been told the
   first messages posted to its connection, as many as have arrived completely in any chunks, up to the first
   it cannot read.
   */
  lemma DeliveredSoFar(evs: seq<Event>, st: State, s: Sid, chunks: seq<bytes>)
    requires Run(evs) == Some(st) && s in st.sessions
    requires Flatten(chunks) <= Frames(Wires(Messages(st.sessions[s].outbox)))
    ensures var ms, r := Messages(st.sessions[s].outbox), ReceiveAll(Handle, NEW_CLIENT, chunks);
      var j := |Parse(Flatten(chunks)).0|;
      Told(NEW_CLIENT, ms, j, r.0, r.2) && (r.2 ==> Frames(Wires(ms[..j])) + r.1 == Flatten(chunks))
  {
    PostedEncodable(evs, st, s);
    HandleUnderstands();
    StreamTells(Handle, NEW_CLIENT, Messages(st.sessions[s].outbox), chunks);
  }

  /** With the queue as written: as many as come before the first that crosses the end of a read. */
  lemma DeliveredSoFarAsWritten(evs: seq<Event>, st: State, s: Sid, parts: seq<bytes>)
    requires Run(evs) == Some(st) && s in st.sessions
    requires Flatten(parts) <= Frames(Wires(Messages(st.sessions[s].outbox)))
    ensures var ms, r := Messages(st.sessions[s].outbox), ReceiveAllFront(Handle, NEW_CLIENT, parts);
      var n := FirstCrossing(Parse(Flatten(parts)).0, parts, 0);
      Told(NEW_CLIENT, ms, n, r.0, r.2) && (r.2 ==> Frames(Wires(ms[..n])) + Flatten(r.1) == Flatten(parts))
  {
    PostedEncodable(evs, st, s);
    HandleUnderstands();
    StreamTellsAsWritten(Handle, NEW_CLIENT, Messages(st.sessions[s].outbox), parts);
  }

  /**
   In every run, safe or not, with the queue as intended: a client that is sent everything posted to its
   connection raises an error if and only if a payload relayed to it is no packed value. Otherwise it is told
   everything and keeps nothing; with an error, it is told what was posted before the first such payload.
   */
  lemma DeliversExactly(evs: seq<Event>, st: State, s: Sid, chunks: seq<bytes>)
    requires Run(evs) == Some(st) && s in st.sessions
    requires Flatten(chunks) == Frames(Wires(Messages(st.sessions[s].outbox)))
    ensures var ms, (c, left, ok) := Messages(st.sessions[s].outbox), ReceiveAll(Handle, NEW_CLIENT, chunks);
      && (ok <==> AllReadable(ms))
      && (ok ==> left == [] && c == TellAll(NEW_CLIENT, ms))
      && (!ok ==> c == TellAll(NEW_CLIENT, ms[..FirstUnreadable(ms)]))
  {
    var ms, r := Messages(st.sessions[s].outbox), ReceiveAll(Handle, NEW_CLIENT, chunks);
    PostedEncodable(evs, st, s);
    HandleUnderstands();
    StreamTells(Handle, NEW_CLIENT, ms, chunks);
    ToldAll(NEW_CLIENT, ms, r.0, r.2);
  }

  /** With the queue as written, so it is when no message crosses the end of a read. */
  lemma DeliversExactlyAsWritten(evs: seq<Event>, st: State, s: Sid, parts: seq<bytes>)
    requires Run(evs) == Some(st) && s in st.sessions
    requires Flatten(parts) == Frames(Wires(Messages(st.sessions[s].outbox)))
    requires NoneCross(Wires(Messages(st.sessions[s].outbox)), parts)
    ensures var ms, (c, left, ok) := Messages(st.sessions[s].outbox), ReceiveAllFront(Handle, NEW_CLIENT, parts);
      && (ok <==> AllReadable(ms))
      && (ok ==> Flatten(left) == [] && c == TellAll(NEW_CLIENT, ms))
      && (!ok ==> c == TellAll(NEW_CLIENT, ms[..FirstUnreadable(ms)]))
  {
    var ms, r := Messages(st.sessions[s].outbox), ReceiveAllFront(Handle, NEW_CLIENT, parts);
    PostedEncodable(evs, st, s);
    HandleUnderstands();
    WholeStreamAsWritten(Handle, NEW_CLIENT, ms, parts);
    ToldAll(NEW_CLIENT, ms, r.0, r.2);
  }

  /** A safe run that makes a client fail: another player relays a byte that starts no packed value. */
  method RelayGarbage(a: Sid, b: Sid, name: Name, l: LobbyId) returns (st: State, ghost evs: seq<Event>)
    requires a != b && |l| <= MAX_LOBBY_NAME
    ensures SafeRun(evs) && Run(evs) == Some(st) && b in st.sessions
    ensures forall chunks :: Flatten(chunks) == Frames(Wires(Messages(st.sessions[b].outbox))) ==>
      !ReceiveAll(Handle, NEW_CLIENT, chunks).2
  {
    var server := TwoPlayers(a, b, name, l);
    ghost var st0, evs0 := server.st, server.evs;
    var failed := server.ProcessSendMessage(a, [0xC1]);
    st, evs := server.st, server.evs;
    GarbageReaches(evs0, st0, st, a, b);
    NotDelivered(evs, st, b, |st0.sessions[b].outbox|);
  }

  lemma GarbageReaches(evs: seq<Event>, st: State, r: State, a: Sid, b: Sid)
    requires SafeRun(evs) && Run(evs) == Some(st) && Relayed(st, r, a, [0xC1]) && a != b && b in st.sessions
    requires st.sessions[b].playerId.Some? && st.sessions[b].lobby == st.sessions[a].lobby
    ensures var k := |st.sessions[b].outbox|;
      b in r.sessions && k < |r.sessions[b].outbox| && !Readable(r.sessions[b].outbox[k].msg)
  {
    RelayedToMembers(evs, a, [0xC1], r, b);
    NoValueStarts();
  }

  lemma NotDelivered(evs: seq<Event>, st: State, s: Sid, k: nat)
    requires Run(evs) == Some(st) && s in st.sessions
    requires k < |st.sessions[s].outbox| && !Readable(st.sessions[s].outbox[k].msg)
    ensures forall chunks :: Flatten(chunks) == Frames(Wires(Messages(st.sessions[s].outbox))) ==>
      !ReceiveAll(Handle, NEW_CLIENT, chunks).2
  {
    assert !Readable(Messages(st.sessions[s].outbox)[k]);
    forall chunks | Flatten(chunks) == Frames(Wires(Messages(st.sessions[s].outbox)))
      ensures !ReceiveAll(Handle, NEW_CLIENT, chunks).2
    {
      DeliversExactly(evs, st, s, chunks);
    }
  }

  lemma NoValueStarts()
    ensures !MsgPack.Unpack([0xC1]).Ok?
  {
  }

  /** Two players in a lobby. */
  method TwoPlayers(a: Sid, b: Sid, name: Name, l: LobbyId) returns (server: LobbyServer)
    requires a != b && |l| <= MAX_LOBBY_NAME
    ensures fresh(server) && server.Valid() && SafeRun(server.evs) && {a, b} == server.st.sessions.Keys
    ensures IdleSession(server.st, a) && InLobby(server.st, a) && Home(server.st, a).writer == None
    ensures forall s :: s in {a, b} ==>
      server.st.sessions[s].lobby == Some(l) && server.st.sessions[s].playerId.Some?
  {
    server := AskThenJoin(a, b, name, l);
    server.Do(Reply(a));
  }

  /**
   In every safe run, with the client's queue as intended: when the messages posted to a member have all been
   written by its connection, and the client has received the bytes in any chunks without an error, the client's
   roster is the lobby's, its id is the session's, and both sides agree on who is master. Two things are
   excluded, exactly: a payload relayed to it is no packed value, and the last roster posted is a late reply.
   */
  lemma RosterReachesClient(evs: seq<Event>, st: State, s: Sid, link: seq<Connections.LinkEvent>, chunks: seq<bytes>)
    requires SafeRun(evs) && Run(evs) == Some(st) && s in st.sessions
    requires st.sessions[s].playerId.Some?
    requires InLobby(st, s) && Home(st, s).writer == None
    requires Carried(Messages(st.sessions[s].outbox), link, chunks)
    ensures var (c, left, ok) := ReceiveAll(Handle, NEW_CLIENT, chunks);
      var x, ps := st.sessions[s], Home(st, s).players;
      && (ok <==> AllReadable(Messages(x.outbox)))
      && (ok ==> left == [] && c.playerId == x.playerId && c.lobbyId == x.lobby)
      && (ok ==> if LateReply(x.outbox).Some? then c.players == LateReply(x.outbox).value else Agrees(c, x, ps))
  {
    CarriedStream(Messages(st.sessions[s].outbox), link, chunks);
    DeliversExactly(evs, st, s, chunks);
    MemberTold(evs, st, s);
  }

  lemma MemberTold(evs: seq<Event>, st: State, s: Sid)
    requires SafeRun(evs) && Run(evs) == Some(st) && s in st.sessions
    requires st.sessions[s].playerId.Some?
    requires InLobby(st, s) && Home(st, s).writer == None
    ensures AllReadable(Messages(st.sessions[s].outbox)) ==>
      var x, ps, c := st.sessions[s], Home(st, s).players, TellAll(NEW_CLIENT, Messages(st.sessions[s].outbox));
      && c.playerId == x.playerId && c.lobbyId == x.lobby
      && if LateReply(x.outbox).Some? then c.players == LateReply(x.outbox).value else Agrees(c, x, ps)
  {
    if AllReadable(Messages(st.sessions[s].outbox)) {
      OutboxTells(evs, st, s);
      if LateReply(st.sessions[s].outbox) == None {
        ToldAgrees(evs, st, s);
      }
    }
  }

  /** With the queue as written, so it is when no message crosses the end of a read. */
  lemma RosterReachesClientAsWritten(evs: seq<Event>, st: State, s: Sid,
        link: seq<Connections.LinkEvent>, parts: seq<bytes>)
    requires SafeRun(evs) && Run(evs) == Some(st) && s in st.sessions
    requires st.sessions[s].playerId.Some?
    requires InLobby(st, s) && Home(st, s).writer == None
    requires Carried(Messages(st.sessions[s].outbox), link, parts)
    requires NoneCross(Wires(Messages(st.sessions[s].outbox)), parts)
    ensures var (c, left, ok) := ReceiveAllFront(Handle, NEW_CLIENT, parts);
      var x, ps := st.sessions[s], Home(st, s).players;
      && (ok <==> AllReadable(Messages(x.outbox)))
      && (ok ==> Flatten(left) == [] && c.playerId == x.playerId && c.lobbyId == x.lobby)
      && (ok ==> if LateReply(x.outbox).Some? then c.players == LateReply(x.outbox).value else Agrees(c, x, ps))
  {
    CarriedStream(Messages(st.sessions[s].outbox), link, parts);
    DeliversExactlyAsWritten(evs, st, s, parts);
    MemberTold(evs, st, s);
  }

  // ---- relayed values ----

  function EventsOf(ms: seq<Message>): (es: seq<NetEvent>)
    requires AllReadable(ms)
    ensures |es| == |ms| && forall i :: 0 <= i < |ms| ==> es[i] == EventOf(ms[i])
  {
    seq(|ms|, i requires 0 <= i < |ms| => EventOf(ms[i]))
  }

  lemma {:induction false} EventsTold(c: Client, ms: seq<Message>)
    requires AllReadable(ms)
    ensures TellAll(c, ms).events == c.events + EventsOf(ms)
  {
    if ms != [] {
      var init, last := ms[..|ms| - 1], ms[|ms| - 1];
      EventsTold(c, init);
      assert EventsOf(ms) == EventsOf(init) + [EventOf(last)];
      Assoc(c.events, EventsOf(init), [EventOf(last)]);
    }
  }

  /** The events of the messages that session `s` relayed, among the events of an outbox. */
  function EventsFrom(box: seq<Sent>, es: seq<NetEvent>, s: Sid): (r: seq<NetEvent>)
    requires |es| == |box|
  {
    if box == [] then [] else
    var n := |box| - 1;
    EventsFrom(box[..n], es[..n], s) + if box[n].reason == RelayFrom(s) then [es[n]] else []
  }

  lemma {:induction false} RelayEvents(box: seq<Sent>, s: Sid)
    requires AllReadable(Messages(box))
    ensures AllReadable(RelaysFrom(box, s))
    ensures EventsFrom(box, EventsOf(Messages(box)), s) == EventsOf(RelaysFrom(box, s))
  {
    if box != [] {
      var n := |box| - 1;
      var init, last := box[..n], box[n];
      assert Messages(box)[n] == last.msg;
      assert Messages(init) == Messages(box)[..n];
      RelayEvents(init, s);
      assert EventsOf(Messages(box))[..n] == EventsOf(Messages(init));
      if last.reason == RelayFrom(s) {
        assert EventsOf(RelaysFrom(box, s)) == EventsOf(RelaysFrom(init, s)) + [EventOf(last.msg)];
      } else {
        assert RelaysFrom(box, s) == RelaysFrom(init, s);
      }
    }
  }

  lemma {:induction false} RelaysFromPrefix(box: seq<Sent>, n: nat, s: Sid)
    requires n <= |box|
    ensures RelaysFrom(box[..n], s) <= RelaysFrom(box, s)
  {
    if n == |box| {
      assert box[..n] == box;
    } else {
      RelaysFromPrefix(box[..|box| - 1], n, s);
      assert box[..|box| - 1][..n] == box[..n];
    }
  }

  /**
   The events of a client that has been told some first messages of its outbox: one for each, and those from
   sender `s` are the first of the values due to it, decoded, once each and in order.
   */
  predicate HeardFrom(st: State, s: Sid, r: Sid, es: seq<NetEvent>)
    requires r in st.sessions
  {
    var box, n := st.sessions[r].outbox, |es|;
    && n <= |box| && AllReadable(Messages(box[..n])) && AllReadable(RelaysFrom(box[..n], s))
    && EventsFrom(box[..n], es, s) == EventsOf(RelaysFrom(box[..n], s))
    && RelaysFrom(box[..n], s) <= Due(LogOf(st, s), r)
  }

  lemma FirstTold(evs: seq<Event>, st: State, s: Sid, r: Sid, n: nat)
    requires SafeRun(evs) && Run(evs) == Some(st) && r in st.sessions
    requires n <= |st.sessions[r].outbox| && AllReadable(Messages(st.sessions[r].outbox)[..n])
    ensures var es := TellAll(NEW_CLIENT, Messages(st.sessions[r].outbox)[..n]).events;
      |es| == n && HeardFrom(st, s, r, es)
  {
    var box := st.sessions[r].outbox;
    assert Messages(box[..n]) == Messages(box)[..n];
    EventsTold(NEW_CLIENT, Messages(box[..n]));
    assert [] + EventsOf(Messages(box[..n])) == EventsOf(Messages(box[..n]));
    RelayEvents(box[..n], s);
    RelaysFromPrefix(box, n, s);
    RelayOrderAnyTime(evs, s, r);
  }

  lemma SomeTold(evs: seq<Event>, st: State, s: Sid, r: Sid, j: nat, c: Client, ok: bool)
    requires SafeRun(evs) && Run(evs) == Some(st) && r in st.sessions
    requires Told(NEW_CLIENT, Messages(st.sessions[r].outbox), j, c, ok)
    ensures HeardFrom(st, s, r, c.events)
  {
    var n := ToldFirst(NEW_CLIENT, Messages(st.sessions[r].outbox), j, c, ok);
    FirstTold(evs, st, s, r, n);
  }

  /** In every safe run, at any time, with the client's queue as intended, in any chunks. */
  lemma RelaysSoFar(evs: seq<Event>, st: State, s: Sid, r: Sid, chunks: seq<bytes>)
    requires SafeRun(evs) && Run(evs) == Some(st) && r in st.sessions
    requires Flatten(chunks) <= Frames(Wires(Messages(st.sessions[r].outbox)))
    ensures HeardFrom(st, s, r, ReceiveAll(Handle, NEW_CLIENT, chunks).0.events)
  {
    DeliveredSoFar(evs, st, r, chunks);
    var d := ReceiveAll(Handle, NEW_CLIENT, chunks);
    SomeTold(evs, st, s, r, |Parse(Flatten(chunks)).0|, d.0, d.2);
  }

  /** And with the queue as written, over any reads. */
  lemma RelaysSoFarAsWritten(evs: seq<Event>, st: State, s: Sid, r: Sid, parts: seq<bytes>)
    requires SafeRun(evs) && Run(evs) == Some(st) && r in st.sessions
    requires Flatten(parts) <= Frames(Wires(Messages(st.sessions[r].outbox)))
    ensures HeardFrom(st, s, r, ReceiveAllFront(Handle, NEW_CLIENT, parts).0.events)
  {
    DeliveredSoFarAsWritten(evs, st, r, parts);
    var d := ReceiveAllFront(Handle, NEW_CLIENT, parts);
    SomeTold(evs, st, s, r, FirstCrossing(Parse(Flatten(parts)).0, parts, 0), d.0, d.2);
  }

  /** The events of a client told its whole outbox, while `s` is between relays: from `s`, all that is due. */
  predicate HeardAllFrom(st: State, s: Sid, r: Sid, es: seq<NetEvent>)
    requires r in st.sessions
  {
    && |es| == |st.sessions[r].outbox| && AllReadable(Due(LogOf(st, s), r))
    && EventsFrom(st.sessions[r].outbox, es, s) == EventsOf(Due(LogOf(st, s), r))
  }

  lemma AllTold(evs: seq<Event>, st: State, s: Sid, r: Sid)
    requires SafeRun(evs) && Run(evs) == Some(st) && r in st.sessions && TurnOf(st, s).Resting?
    ensures AllReadable(Messages(st.sessions[r].outbox)) ==>
      HeardAllFrom(st, s, r, TellAll(NEW_CLIENT, Messages(st.sessions[r].outbox)).events)
  {
    var box := st.sessions[r].outbox;
    if AllReadable(Messages(box)) {
      var n := |box|;
      assert Messages(box)[..n] == Messages(box) && box[..n] == box;
      FirstTold(evs, st, s, r, n);
      RelayOrder(evs, s, r);
    }
  }

  /**
   In every safe run, with the client's queue as intended: once the messages posted to `r` have been carried to
   its client in any chunks without an error, each has become one event, and the events from sender `s` are the
   values `s` relayed while `r` was another member of its lobby, decoded, once each and in order. There is an
   error exactly if some relayed payload is no packed value.
   */
  lemma RelaysReachClient(evs: seq<Event>, st: State, s: Sid, r: Sid,
        link: seq<Connections.LinkEvent>, chunks: seq<bytes>)
    requires SafeRun(evs) && Run(evs) == Some(st) && r in st.sessions && TurnOf(st, s).Resting?
    requires Carried(Messages(st.sessions[r].outbox), link, chunks)
    ensures var (c, left, ok) := ReceiveAll(Handle, NEW_CLIENT, chunks);
      && (ok <==> AllReadable(Messages(st.sessions[r].outbox)))
      && (ok ==> left == [] && HeardAllFrom(st, s, r, c.events))
      && (!ok ==> HeardFrom(st, s, r, c.events))
  {
    CarriedStream(Messages(st.sessions[r].outbox), link, chunks);
    DeliversExactly(evs, st, r, chunks);
    AllTold(evs, st, s, r);
    RelaysSoFar(evs, st, s, r, chunks);
  }

  /** With the queue as written, so it is when no message crosses the end of a read. */
  lemma RelaysReachClientAsWritten(evs: seq<Event>, st: State, s: Sid, r: Sid,
        link: seq<Connections.LinkEvent>, parts: seq<bytes>)
    requires SafeRun(evs) && Run(evs) == Some(st) && r in st.sessions && TurnOf(st, s).Resting?
    requires Carried(Messages(st.sessions[r].outbox), link, parts)
    requires NoneCross(Wires(Messages(st.sessions[r].outbox)), parts)
    ensures var (c, left, ok) := ReceiveAllFront(Handle, NEW_CLIENT, parts);
      && (ok <==> AllReadable(Messages(st.sessions[r].outbox)))
      && (ok ==> Flatten(left) == [] && HeardAllFrom(st, s, r, c.events))
      && (!ok ==> HeardFrom(st, s, r, c.events))
  {
    CarriedStream(Messages(st.sessions[r].outbox), link, parts);
    DeliversExactlyAsWritten(evs, st, r, parts);
    AllTold(evs, st, s, r);
    RelaysSoFarAsWritten(evs, st, s, r, parts);
  }

  /** `msgpack.set_string("string")` and `msgpack.set_number("float")`. */
  const CLIENT_SETTINGS := MsgPack.Settings(MsgPack.Plain, MsgPack.Unsigned, Floats.SINGLE)

  /** The client's settings in plain numbers: unsigned integers, strings as such, and single precision. */
  lemma ClientBytes(n: int, x: real, s: bytes)
    requires 0x80 <= n <= 0xFF && x.Floor as real != x && 0x20 <= |s| <= 0xFF
    ensures MsgPack.Pack(CLIENT_SETTINGS, MsgPack.Index(n)) == Some([0xCC, n])
    ensures MsgPack.Pack(CLIENT_SETTINGS, MsgPack.Num(Floats.Real(x))) == Some(Floats.PackFloat(Floats.Real(x)))
    ensures MsgPack.Pack(CLIENT_SETTINGS, MsgPack.Str(s)) == Some([0xD9, |s|] + s)
  {
    MsgPackFormats.ByteInteger(CLIENT_SETTINGS, n);
    MsgPackFormats.FloatPackerExactly(CLIENT_SETTINGS, Floats.Real(x));
  }

  /** A value as a client packs it becomes another's event, with a value that means the same exactly if faithful. */
  lemma RelayedValueArrives(id: nat, v: MsgPack.Value)
    requires id < 0x100 && MsgPackRoundTrip.WellFormed(v)
    requires MsgPack.Pack(CLIENT_SETTINGS, v).Some? && |MsgPack.Pack(CLIENT_SETTINGS, v).value| <= 0xFFFF
    ensures var m := RelayMessage(id, MsgPack.Pack(CLIENT_SETTINGS, v).value);
      && Encodable(m) && Readable(m) && EventOf(m).MessageEvent? && EventOf(m).id == id
      && (MsgPackRoundTrip.Meaning(EventOf(m).message) == MsgPackRoundTrip.Meaning(v)
          <==> MsgPackRoundTrip.Faithful(CLIENT_SETTINGS, v))
  {
    MsgPackRoundTrip.RoundTrip(CLIENT_SETTINGS, v);
  }

  // ---- requests ----

  function Encoded(rs: seq<Request>): (ms: seq<bytes>)
    ensures |ms| == |rs| && forall i :: 0 <= i < |ms| ==> ms[i] == EncodeRequest(rs[i])
  {
    seq(|rs|, i requires 0 <= i < |rs| => EncodeRequest(rs[i]))
  }

  /** However the network cuts them, the server extracts and understands a client's requests, in order. */
  lemma RequestsArrive(rs: seq<Request>, chunks: seq<bytes>)
    requires forall i :: 0 <= i < |rs| ==> FitsCounts(rs[i])
    requires Flatten(chunks) <= Frames(Encoded(rs))
    ensures ServeAll(chunks).Serving?
    ensures var msgs := ServeAll(chunks).msgs;
      && |msgs| <= |rs| && |msgs| <= |chunks|
      && forall i :: 0 <= i < |msgs| ==> ParseRequest(msgs[i]) == Handled(rs[i])
  {
    EncodedShort(rs);
    FramesWhole(Encoded(rs));
    ShortMessagesServed(Encoded(rs), [], chunks);
    ServedOf(Encoded(rs), chunks);
    forall i | 0 <= i < |ServeAll(chunks).msgs| ensures ParseRequest(ServeAll(chunks).msgs[i]) == Handled(rs[i]) {
      RequestReadsBack(rs[i]);
    }
  }

  lemma FramesWhole(ms: seq<bytes>)
    ensures Frames(ms) + [] == Frames(ms)
  {
  }

  /** What is served of a stream of messages is its first messages. */
  lemma ServedOf(ms: seq<bytes>, chunks: seq<bytes>)
    requires Sendable(ms) && Flatten(chunks) <= Frames(ms) && ServeAll(chunks).Serving?
    ensures ServeAll(chunks).msgs <= ms
  {
    var b, more := Flatten(chunks), Frames(ms)[|Flatten(chunks)|..];
    assert b + more == Frames(ms);
    FramesWhole(ms);
    ParseUnique(ms, []);
    ParsePrefix(b, more);
    ServedPrefix(chunks);
  }

  /** A message without bytes is one too, and the server reads its type outside of it. */
  lemma EmptyMessageOverreads()
    ensures ServeAll([Frame([])]) == Serving([[]], []) && ParseRequest([]) == Overread
  {
    var chunks := [Frame([])];
    FrameHasIt([], []);
    assert Frame([]) + [] == Frame([]) && [] + Frame([]) == Frame([]);
    assert chunks[..0] == [] && ServeAll(chunks) == Serve(Serving([], []), Frame([]));
  }

  lemma EncodedShort(rs: seq<Request>)
    requires forall i :: 0 <= i < |rs| ==> FitsCounts(rs[i])
    ensures forall m :: m in Encoded(rs) ==> |m| <= TWO32 - 5
  {
    var ms := Encoded(rs);
    forall m | m in ms ensures |m| <= TWO32 - 5 {
      var i :| 0 <= i < |ms| && ms[i] == m;
      RequestShort(rs[i]);
    }
  }

  lemma RequestShort(r: Request)
    requires FitsCounts(r)
    ensures |EncodeRequest(r)| <= 0x1_0002
  {
    match r
    case CreateLobby(name) => assert |EncodeRequest(r)| == 2 + |name|;
    case JoinLobby(name, lobby) => assert |EncodeRequest(r)| == 3 + |name| + |lobby|;
    case SendMessage(payload) => assert |EncodeRequest(r)| == 3 + |payload|;
    case _ =>
  }
}
