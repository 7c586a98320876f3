/**
 The client's side of the wire: reassembly of received chunks, dispatch to the message handlers, and
 sending. Where the size of the receive queue and the length of its chunks matter, both the code as
 written and the code as intended are modelled.
 */
module NetClient {
  import opened Bytes
  import opened Queues
  import opened SendLaws
  import opened Framing
  import opened ClientLaws
  import opened LobbyProtocol
  import LobbyWire
  import B = BlobBuffers
  import MsgPack

  // ---- the handlers on values ----

  datatype NetEvent =
    | JoinedEvent(lobby: bytes, id: nat)
    | UpdatedEvent(roster: seq<Entry>)
    | MessageEvent(id: nat, message: MsgPack.Value)

  datatype Client = Client(
    players: seq<Entry>, playerId: Option<nat>, lobbyId: Option<bytes>, events: seq<NetEvent>)

  const NEW_CLIENT := Client([], None, None, [])

  /** What dispatching a message does; false is a Lua error. Unknown and empty messages are dropped. */
  function Handle(c: Client, msg: bytes): (r: (Client, bool)) {
    if msg == [] then (c, true)
    else if msg[0] == LobbyWire.LOBBY_JOINED then HandleJoined(c, msg[1..])
    else if msg[0] == LobbyWire.RELAY_MESSAGE then HandleRelay(c, msg[1..])
    else if msg[0] == LobbyWire.UPDATE_LOBBY then HandleUpdate(c, msg[1..])
    else (c, true)
  }

  function HandleJoined(c: Client, b: bytes): (r: (Client, bool)) {
    match LobbyWire.ReadJoined(b)
    case None => (c, false)
    case Some((lobby, id)) =>
      (Client(c.players, Some(id), Some(lobby), c.events + [JoinedEvent(lobby, id)]), true)
  }

  function HandleRelay(c: Client, b: bytes): (r: (Client, bool)) {
    match LobbyWire.ReadRelay(b)
    case None => (c, false)
    case Some((id, payload)) =>
      match MsgPack.Unpack(payload)
      case Fail(_) => (c, false)
      case Ok(v, _) => (c.(events := c.events + [MessageEvent(id, v)]), true)
  }

  /** A roster that breaks off is kept as far as it was read. */
  function HandleUpdate(c: Client, b: bytes): (r: (Client, bool)) {
    if b == [] then (c, false) else
    var (es, ok) := LobbyWire.ReadUpdate(b);
    if ok then (c.(players := es, events := c.events + [UpdatedEvent(es)]), true) else (c.(players := es), false)
  }

  /** `isMaster`, for this client's own id if none is given; None is the error of indexing a missing player. */
  function MasterTest(c: Client, id: Option<nat>): (r: Option<bool>) {
    if c.players == [] then None else Some(Some(c.players[0].id) == (if id.Some? then id else c.playerId))
  }

  // ---- queues without nils ----

  predicate NoNils<T>(slots: seq<Option<T>>) {
    forall i :: 0 <= i < |slots| ==> slots[i].Some?
  }

  function ValuesOf<T>(slots: seq<Option<T>>): (s: seq<T>)
    requires NoNils(slots)
    ensures |s| == |slots| && forall i :: 0 <= i < |s| ==> Some(s[i]) == slots[i]
  {
    seq(|slots|, i requires 0 <= i < |slots| => slots[i].value)
  }

  /** The chunks of a byte queue. */
  ghost function ChunksOf(q: Queue<bytes>): (s: seq<bytes>)
    reads q
    requires q.Valid() && NoNils(q.Slots())
  {
    ValuesOf(q.Slots())
  }

  /** The queue's own methods, for a queue of chunks. */
  method PushChunk(q: Queue<bytes>, c: bytes)
    requires q.Valid() && NoNils(q.Slots())
    modifies q
    ensures q.Valid() && NoNils(q.Slots()) && ChunksOf(q) == old(ChunksOf(q)) + [c]
  {
    q.Push(c);
  }

  method PushFrontChunk(q: Queue<bytes>, c: bytes)
    requires q.Valid() && NoNils(q.Slots())
    modifies q
    ensures q.Valid() && NoNils(q.Slots()) && ChunksOf(q) == [c] + old(ChunksOf(q))
  {
    q.PushFront(c);
  }

  method PopChunk(q: Queue<bytes>) returns (c: bytes)
    requires q.Valid() && NoNils(q.Slots()) && ChunksOf(q) != []
    modifies q
    ensures q.Valid() && NoNils(q.Slots()) && c == old(ChunksOf(q))[0] && ChunksOf(q) == old(ChunksOf(q))[1..]
  {
    var ok, v := q.Pop();
    assert q.Slots() == old(q.Slots())[1..] && v == old(q.Slots())[0];
    c := v.value;
  }

  lemma FlattenTake(chunks: seq<bytes>, k: nat)
    requires k < |chunks|
    ensures Flatten(chunks[..k + 1]) == Flatten(chunks[..k]) + chunks[k]
    ensures |Flatten(chunks[..k + 1])| <= |Flatten(chunks)|
  {
    assert chunks[..k + 1] == chunks[..k] + [chunks[k]];
    FlattenPush(chunks[..k], chunks[k]);
    assert chunks == chunks[..k + 1] + chunks[k + 1..];
    FlattenAppend(chunks[..k + 1], chunks[k + 1..]);
  }

  /**
   Make the front chunk `need` bytes long, if the queue holds that many. As written the loop bound is
   `front - back`, so only the front chunk counts.
   */
  method ConcatUntil(q: Queue<bytes>, need: nat, fixed: bool) returns (ok: bool)
    requires q.Valid() && NoNils(q.Slots()) && ChunksOf(q) != []
    modifies q
    ensures q.Valid() && NoNils(q.Slots()) && ChunksOf(q) != [] && Flatten(ChunksOf(q)) == Flatten(old(ChunksOf(q)))
    ensures NonEmpty(old(ChunksOf(q))) ==> NonEmpty(ChunksOf(q))
    ensures ok ==> |ChunksOf(q)[0]| >= need
    ensures fixed ==> (ok <==> |Flatten(old(ChunksOf(q)))| >= need)
    ensures !fixed ==> ChunksOf(q) == old(ChunksOf(q)) && (ok <==> |ChunksOf(q)[0]| >= need)
  {
    ghost var chunks := ChunksOf(q);
    var front := q.Peek(0);
    assert Flatten(chunks[..1]) == chunks[0] == front.value by { FlattenTake(chunks, 0); }
    FlattenTake(chunks, 0);
    if |front.value| >= need {
      return true;
    }
    var totalSize := |front.value|;
    var offset, size := 1, if fixed then q.Count() else q.Size();
    while offset <= size - 1
      invariant 1 <= offset <= |chunks| && q.Valid() && q.Slots() == old(q.Slots())
      invariant fixed || offset == 1
      invariant totalSize == |Flatten(chunks[..offset])| < need
    {
      var part := q.Peek(offset);
      assert part == Some(chunks[offset]);
      FlattenTake(chunks, offset);
      totalSize := totalSize + |part.value|;
      if totalSize >= need {
        JoinFront(q, offset + 1);
        return true;
      }
      offset := offset + 1;
    }
    assert fixed ==> chunks[..offset] == chunks;
    return false;
  }

  /** Replace the first `n` chunks by one. */
  method JoinFront(q: Queue<bytes>, n: nat)
    requires q.Valid() && NoNils(q.Slots()) && 0 < n <= |ChunksOf(q)|
    modifies q
    ensures q.Valid() && NoNils(q.Slots())
    ensures ChunksOf(q) == [Flatten(old(ChunksOf(q))[..n])] + old(ChunksOf(q))[n..]
    ensures Flatten(ChunksOf(q)) == Flatten(old(ChunksOf(q)))
  {
    ghost var chunks := ChunksOf(q);
    var parts: bytes := [];
    for i := 0 to n
      invariant q.Valid() && NoNils(q.Slots()) && ChunksOf(q) == chunks[i..]
      invariant parts == Flatten(chunks[..i])
    {
      FlattenTake(chunks, i);
      var part := PopChunk(q);
      parts := parts + part;
    }
    PushFrontChunk(q, parts);
    FlattenSplit(chunks, n);
  }

  lemma FlattenSplit(chunks: seq<bytes>, n: nat)
    requires n <= |chunks|
    ensures Flatten([Flatten(chunks[..n])] + chunks[n..]) == Flatten(chunks)
  {
    TakeAndDrop(chunks, n);
    FlattenJoined(chunks[..n], chunks[n..]);
  }

  lemma TakeAndDrop(chunks: seq<bytes>, n: nat)
    requires n <= |chunks|
    ensures chunks[..n] + chunks[n..] == chunks
  {
  }

  lemma FlattenJoined(a: seq<bytes>, b: seq<bytes>)
    ensures Flatten([Flatten(a)] + b) == Flatten(a + b)
  {
    FlattenCons(Flatten(a), b);
    FlattenAppend(a, b);
  }

  // ---- the module's state ----

  lemma Sliced(b: bytes, i: nat, n: nat)
    requires i + n <= |b|
    ensures b[i..][..n] == b[i..i + n] && b[i..][n..] == b[i + n..]
  {
  }

  lemma OneEntry(b: bytes)
    requires b != []
    ensures LobbyWire.ReadOne(b) ==
      if |b| < 2 || |b| < 2 + b[1] as int then None
      else Some((Entry(b[0], b[2..2 + b[1] as int]), b[2 + b[1] as int..]))
  {
    if |b| >= 2 && |b| >= 2 + b[1] as int {
      var n := b[1] as int;
      assert b[1..][1..1 + n] == b[2..2 + n] && b[1..][1 + n..] == b[2 + n..];
    }
  }

  lemma EntriesStep(b: bytes, n: nat, es: seq<Entry>)
    requires n > 0
    ensures LobbyWire.ReadEntries(b, n, es) ==
      match LobbyWire.ReadOne(b)
      case None => (es, false)
      case Some((e, rest)) => LobbyWire.ReadEntries(rest, n - 1, LobbyWire.SortById(es + [e]))
  {
  }

  class Net {
    const recvQueue: Queue<bytes>
    const sendQueue: Queue<bytes>
    const events: Queue<NetEvent>
    const reader: B.Reader
    var players: seq<Entry>
    var playerId: Option<nat>
    var lobbyId: Option<bytes>

    ghost predicate Valid()
      reads this, recvQueue, sendQueue, events, reader
    {
      && recvQueue.Valid() && sendQueue.Valid() && events.Valid() && reader.Valid() && reader.order.Big?
      && recvQueue != sendQueue
      && NoNils(recvQueue.Slots()) && NoNils(sendQueue.Slots()) && NoNils(events.Slots())
      && NonEmpty(ChunksOf(recvQueue))
    }

    ghost function View(): (c: Client)
      reads this, events
      requires events.Valid() && NoNils(events.Slots())
    {
      Client(players, playerId, lobbyId, ValuesOf(events.Slots()))
    }

    ghost function Pending(): (chunks: seq<bytes>)
      reads recvQueue
      requires recvQueue.Valid() && NoNils(recvQueue.Slots())
    {
      ChunksOf(recvQueue)
    }

    constructor ()
      ensures Valid() && View() == NEW_CLIENT && Pending() == [] && ChunksOf(sendQueue) == []
      ensures fresh(recvQueue) && fresh(sendQueue) && fresh(events) && fresh(reader)
    {
      recvQueue := new Queue();
      sendQueue := new Queue();
      events := new Queue();
      reader := new B.Reader([], B.Big);
      players, playerId, lobbyId := [], None, None;
    }

    // ---- handlers ----

    /** Start reading a message behind its type byte. */
    method OpenMessage(msg: bytes)
      requires msg != []
      modifies reader
      ensures reader.Valid() && reader.Rest() == msg[1..]
    {
      reader.Reset(msg);
      var kind := reader.GetByte();
    }

    method ReadJoined() returns (r: Option<(bytes, nat)>)
      requires reader.Valid()
      modifies reader
      ensures reader.Valid() && r == LobbyWire.ReadJoined(old(reader.Rest()))
    {
      ghost var b := reader.Rest();
      var lobbyIdLen := reader.GetByte();
      if lobbyIdLen.None? { return None; }
      var lobby := reader.GetRaw(lobbyIdLen.value);
      if lobby.None? { return None; }
      assert b[1..][..lobbyIdLen.value] == b[1..1 + lobbyIdLen.value];
      assert reader.Rest() == b[1 + lobbyIdLen.value..];
      var id := reader.GetByte();
      return if id.None? then None else Some((lobby.value, id.value));
    }

    method ReadRelay() returns (r: Option<(nat, bytes)>)
      requires reader.Valid() && reader.order.Big?
      modifies reader
      ensures reader.Valid() && r == LobbyWire.ReadRelay(old(reader.Rest()))
    {
      ghost var b := reader.Rest();
      var id := reader.GetByte();
      if id.None? { return None; }
      var msgLen := reader.GetHalf();
      if msgLen.None? { return None; }
      Sliced(b, 1, 2);
      assert reader.Rest() == b[3..];
      var payload := reader.GetRaw(msgLen.value);
      if payload.None? { return None; }
      Sliced(b, 3, msgLen.value);
      return Some((id.value, payload.value));
    }

    method OnLobbyJoined(msg: bytes) returns (ok: bool)
      requires Valid() && msg != []
      modifies this, events, reader
      ensures Valid() && (View(), ok) == HandleJoined(old(View()), msg[1..])
    {
      OpenMessage(msg);
      var r := ReadJoined();
      if r.None? {
        return false;
      }
      events.Push(JoinedEvent(r.value.0, r.value.1));
      playerId, lobbyId := Some(r.value.1), Some(r.value.0);
      assert View().events == old(View()).events + [JoinedEvent(r.value.0, r.value.1)];
      return true;
    }

    method OnRelayMessage(msg: bytes) returns (ok: bool)
      requires Valid() && msg != []
      modifies this, events, reader
      ensures Valid() && (View(), ok) == HandleRelay(old(View()), msg[1..])
    {
      OpenMessage(msg);
      var r := ReadRelay();
      if r.None? {
        return false;
      }
      var message := MsgPack.Unpack(r.value.1);
      if message.Fail? {
        return false;
      }
      events.Push(MessageEvent(r.value.0, message.value));
      assert View().events == old(View()).events + [MessageEvent(r.value.0, message.value)];
      return true;
    }

    /** `net.players` is rebuilt entry by entry, and sorted after each. */
    method OnUpdateLobby(msg: bytes) returns (ok: bool)
      requires Valid() && msg != []
      modifies this, events, reader
      ensures Valid() && (View(), ok) == HandleUpdate(old(View()), msg[1..])
    {
      OpenMessage(msg);
      ghost var b := reader.Rest();
      var numPlayers := reader.GetByte();
      if numPlayers.None? {
        return false;
      }
      ok := ReadPlayers(numPlayers.value);
      if ok {
        events.Push(UpdatedEvent(players));
        assert View().events == old(View()).events + [UpdatedEvent(players)];
      }
    }

    method ReadPlayers(n: nat) returns (ok: bool)
      requires reader.Valid()
      modifies this`players, reader
      ensures reader.Valid() && (players, ok) == LobbyWire.ReadEntries(old(reader.Rest()), n, [])
    {
      ghost var whole := LobbyWire.ReadEntries(reader.Rest(), n, []);
      players := [];
      for i := 0 to n
        invariant reader.Valid()
        invariant LobbyWire.ReadEntries(reader.Rest(), n - i, players) == whole
      {
        EntriesStep(reader.Rest(), n - i, players);
        ok := ReadEntry();
        if !ok { return; }
      }
      return true;
    }

    /** One round of the loop above. */
    method ReadEntry() returns (ok: bool)
      requires reader.Valid()
      modifies this`players, reader
      ensures reader.Valid()
      ensures match LobbyWire.ReadOne(old(reader.Rest()))
              case None => !ok && players == old(players)
              case Some((e, rest)) => ok && reader.Rest() == rest && players == LobbyWire.SortById(old(players) + [e])
    {
      ghost var b := reader.Rest();
      var id := reader.GetByte();
      if id.None? { return false; }
      OneEntry(b);
      var nameLen := reader.GetByte();
      if nameLen.None? { return false; }
      Sliced(b, 1, 1);
      var name := reader.GetRaw(nameLen.value);
      if name.None? { return false; }
      Sliced(b, 2, nameLen.value);
      players := LobbyWire.SortById(players + [Entry(id.value, name.value)]);
      return true;
    }

    method Dispatch(msg: bytes) returns (ok: bool)
      requires Valid()
      modifies this, events, reader
      ensures Valid() && (View(), ok) == Handle(old(View()), msg)
    {
      if msg == [] {
        return true;
      }
      var msgType := msg[0];
      if msgType == LobbyWire.LOBBY_JOINED {
        ok := OnLobbyJoined(msg);
      } else if msgType == LobbyWire.RELAY_MESSAGE {
        ok := OnRelayMessage(msg);
      } else if msgType == LobbyWire.UPDATE_LOBBY {
        ok := OnUpdateLobby(msg);
      } else {
        ok := true;
      }
    }

    method IsMaster(id: Option<nat>) returns (r: Option<bool>)
      requires Valid()
      ensures r == MasterTest(View(), id)
      ensures r == if players == [] then None else Some(Some(players[0].id) == if id.Some? then id else playerId)
    {
      var who := if id.Some? then id else playerId;
      if |players| == 0 {
        return None;
      }
      return Some(Some(players[0].id) == who);
    }

    // ---- receiving ----

    /** Take the first message off the queue, if it is there in full. */
    method PopMessage(fixed: bool) returns (msg: Option<bytes>)
      requires Valid() && Pending() != []
      modifies recvQueue, reader
      ensures Valid() && View() == old(View())
      ensures fixed ==>
        if HasFrame(Flatten(old(Pending()))) then
          && msg == Some(FirstMessage(Flatten(old(Pending()))))
          && Flatten(Pending()) == AfterFirst(Flatten(old(Pending())))
        else msg == None && Flatten(Pending()) == Flatten(old(Pending()))
      ensures !fixed ==>
        if HasFrame(old(Pending())[0]) then
          msg == Some(FirstMessage(old(Pending())[0])) && Pending() == WithoutFirst(old(Pending()))
        else msg == None && Pending() == old(Pending())
    {
      var enoughForSize := ConcatUntil(recvQueue, 4, fixed);
      if !enoughForSize {
        return None;
      }
      FrontOfAll(Pending());
      var msgSize := PeekSize();
      var enoughForMsg := ConcatUntil(recvQueue, msgSize + 4, fixed);
      if !enoughForMsg {
        return None;
      }
      FrontOfAll(Pending());
      var m := SplitFront(msgSize);
      return Some(m);
    }

    method PeekSize() returns (n: nat)
      requires Valid() && Pending() != [] && |Pending()[0]| >= 4
      modifies reader
      ensures Valid() && n == SizeAt(Pending()[0])
    {
      var front := recvQueue.Peek(0);
      reader.Reset(front.value);
      var msgSize := reader.GetWord();
      n := msgSize.value;
    }

    /** Pop the front chunk, cut off its message and push the rest back. */
    method SplitFront(msgSize: nat) returns (msg: bytes)
      requires Valid() && Pending() != [] && HasFrame(Pending()[0]) && msgSize == SizeAt(Pending()[0])
      modifies recvQueue
      ensures Valid() && Pending() == WithoutFirst(old(Pending())) && msg == FirstMessage(old(Pending())[0])
    {
      var b := PopChunk(recvQueue);
      if |b| > msgSize + 4 {
        PushFrontChunk(recvQueue, b[msgSize + 4..]);
      }
      msg := b[4..msgSize + 4];
    }

    /** `data` is what the socket had; `ok` is false when a handler raises an error. */
    method Receive(data: bytes, fixed: bool) returns (ok: bool)
      requires Valid()
      modifies this, recvQueue, events, reader
      ensures Valid()
      ensures fixed ==> (View(), Flatten(Pending()), ok) == Drain(Handle, old(View()), Flatten(old(Pending())) + data)
      ensures !fixed ==>
        (View(), Pending(), ok) == DrainFront(Handle, old(View()), old(Pending()) + if data == [] then [] else [data])
    {
      if |data| > 0 {
        PushChunk(recvQueue, data);
        FlattenPush(old(Pending()), data);
      }
      assert Pending() == old(Pending()) + if data == [] then [] else [data];
      assert Flatten(Pending()) == Flatten(old(Pending())) + data;
      assert View() == old(View());
      ok := DispatchAll(fixed);
    }

    /** The loop of `receive`. */
    method DispatchAll(fixed: bool) returns (ok: bool)
      requires Valid()
      modifies this, recvQueue, events, reader
      ensures Valid()
      ensures fixed ==> (View(), Flatten(Pending()), ok) == Drain(Handle, old(View()), Flatten(old(Pending())))
      ensures !fixed ==> (View(), Pending(), ok) == DrainFront(Handle, old(View()), old(Pending()))
    {
      while true
        invariant Valid()
        invariant fixed ==>
          Drain(Handle, old(View()), Flatten(old(Pending()))) == Drain(Handle, View(), Flatten(Pending()))
        invariant !fixed ==> DrainFront(Handle, old(View()), old(Pending())) == DrainFront(Handle, View(), Pending())
        decreases |Flatten(Pending())|
      {
        if recvQueue.Empty() {
          assert Pending() == [];
          return true;
        }
        var msg := PopMessage(fixed);
        if msg.None? {
          return true;
        }
        ok := Dispatch(msg.value);
        if !ok {
          return;
        }
      }
    }
  }

  // ---- sending ----

  /** `send`: what it hands over and leaves, and no byte is made up or lost but by a broken socket. */
  method Send(q: Queue<bytes>, attempts: seq<Attempt>) returns (r: SendReport)
    requires q.Valid() && NoNils(q.Slots())
    modifies q
    ensures q.Valid() && NoNils(q.Slots())
    ensures (r, ChunksOf(q)) == Sending(old(ChunksOf(q)), attempts)
    ensures Conserved(Flatten(old(ChunksOf(q))), r, Flatten(ChunksOf(q)))
  {
    r := SendAttempts(q, attempts);
    SendConserves(old(ChunksOf(q)), attempts);
  }

  /** Its loop, as long as `attempts` lasts. */
  method SendAttempts(q: Queue<bytes>, attempts: seq<Attempt>) returns (r: SendReport)
    requires q.Valid() && NoNils(q.Slots())
    modifies q
    ensures q.Valid() && NoNils(q.Slots())
    ensures (r, ChunksOf(q)) == Sending(old(ChunksOf(q)), attempts)
  {
    ghost var whole := Sending(ChunksOf(q), attempts);
    r := SendReport([], [], 0);
    var i := 0;
    GoesOn(r, whole);
    assert attempts[0..] == attempts;
    while !q.Empty() && i < |attempts|
      invariant 0 <= i <= |attempts| && q.Valid() && NoNils(q.Slots()) && r.lost == []
      invariant whole == After(r.accepted, r.again, Sending(ChunksOf(q), attempts[i..]))
    {
      ghost var chunks := ChunksOf(q);
      var data := PopChunk(q);
      var a := attempts[i];
      GoesOnMore(r, chunks, attempts, i);
      i := i + 1;
      if a.Blocked? {
        var n := Min(a.n, |data|);
        PushRest(q, data, 0);
        assert data[0..] == data && [data] + chunks[1..] == chunks;
        r := SendReport(r.accepted + data[..n], [], r.again + n);
      } else if a.Accepted? && a.n < |data| {
        PushRest(q, data, a.n);
        return SendReport(r.accepted + data[..a.n], [], r.again);
      } else if a.Broken? {
        return SendReport(r.accepted, data, r.again);
      } else {
        r := SendReport(r.accepted + data, [], r.again);
      }
    }
    assert r.accepted + [] == r.accepted;
  }

  lemma GoesOn(r: SendReport, s: (SendReport, seq<bytes>))
    ensures After([], 0, s) == s
  {
    assert [] + s.0.accepted == s.0.accepted;
  }

  /** One round of the loop. */
  lemma GoesOnMore(r: SendReport, chunks: seq<bytes>, attempts: seq<Attempt>, i: nat)
    requires chunks != [] && i < |attempts|
    ensures After(r.accepted, r.again, Sending(chunks, attempts[i..])) ==
      var c, more := chunks[0], attempts[i + 1..];
      match attempts[i]
      case Blocked(n) =>
        After(r.accepted + c[..Min(n, |c|)], r.again + Min(n, |c|), Sending(chunks, more))
      case Broken => (SendReport(r.accepted, c, r.again), chunks[1..])
      case Accepted(n) =>
        if n < |c| then (SendReport(r.accepted + c[..n], [], r.again), [c[n..]] + chunks[1..])
        else After(r.accepted + c, r.again, Sending(chunks[1..], more))
  {
    assert attempts[i..][1..] == attempts[i + 1..];
    var c := chunks[0];
    assert r.accepted + [] == r.accepted;
    Assoc(r.accepted, c, Sending(chunks[1..], attempts[i + 1..]).0.accepted);
    if attempts[i].Blocked? {
      Assoc(r.accepted, c[..Min(attempts[i].n, |c|)], Sending(chunks, attempts[i + 1..]).0.accepted);
    }
  }

  /** Push back what the socket did not take. */
  method PushRest(q: Queue<bytes>, data: bytes, n: nat)
    requires q.Valid() && NoNils(q.Slots()) && n <= |data|
    modifies q
    ensures q.Valid() && NoNils(q.Slots())
    ensures ChunksOf(q) == [data[n..]] + old(ChunksOf(q))
  {
    PushFrontChunk(q, data[n..]);
  }

  /** `encodeMessage` and `sendMessage`: the writer is filled twice, first with the body, then with its frame. */
  method SendRequest(w: B.Writer, q: Queue<bytes>, r: LobbyWire.Request)
    requires w.Valid() && w.order.Big? && q.Valid() && NoNils(q.Slots())
    requires r.CreateLobby? || r.JoinLobby? || r.SendMessage?
    modifies w, w.data, q
    ensures w.Valid() && w.order.Big? && q.Valid() && NoNils(q.Slots())
    ensures ChunksOf(q) == old(ChunksOf(q)) + [Frame(LobbyWire.EncodeRequest(r))]
  {
    w.Clear(None);
    EncodeBody(w, r);
    var data := w.Contents();
    w.Clear(None);
    w.PutWord(|data|);
    assert w.Contents() == Be4(|data|);
    var ok := w.PutRaw(data);
    var framed := w.Contents();
    PushChunk(q, framed);
  }

  method EncodeBody(w: B.Writer, r: LobbyWire.Request)
    requires w.Valid() && w.order.Big? && w.Contents() == []
    requires r.CreateLobby? || r.JoinLobby? || r.SendMessage?
    modifies w, w.data
    ensures w.Valid() && w.order.Big? && (w.data == old(w.data) || fresh(w.data))
    ensures w.Contents() == LobbyWire.EncodeRequest(r)
  {
    match r
    case CreateLobby(name) =>
      w.PutByte(LobbyWire.CREATE_LOBBY);
      assert w.Contents() == [LobbyWire.CREATE_LOBBY];
      PutName(w, name);
    case JoinLobby(name, lobby) =>
      w.PutByte(LobbyWire.JOIN_LOBBY);
      assert w.Contents() == [LobbyWire.JOIN_LOBBY];
      PutName(w, name);
      PutName(w, lobby);
      Assoc([LobbyWire.JOIN_LOBBY], LobbyWire.Str8(name), LobbyWire.Str8(lobby));
    case SendMessage(payload) =>
      w.PutByte(LobbyWire.SEND_MESSAGE);
      assert w.Contents() == [LobbyWire.SEND_MESSAGE];
      w.PutHalf(|payload|);
      var ok := w.PutRaw(payload);
      Assoc([LobbyWire.SEND_MESSAGE], Be2(|payload|), payload);
  }

  method PutName(w: B.Writer, name: bytes)
    requires w.Valid()
    modifies w, w.data
    ensures w.Valid() && w.order == old(w.order) && (w.data == old(w.data) || fresh(w.data))
    ensures w.Contents() == old(w.Contents()) + LobbyWire.Str8(name)
  {
    w.PutByte(|name| % 0x100);
    var ok := w.PutRaw(name);
  }
}
