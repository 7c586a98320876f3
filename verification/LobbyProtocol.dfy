/**
 The lobby server as a transition system. A step is one lock-held change of a roster, one iteration
 of a sending loop, one lookup, or one lock release, of one session; any session may take the next step.
 */
module LobbyProtocol {
  import opened Bytes
  import opened Roster

  type LobbyId = bytes

  /** An adjective and a noun of the word lists, of at most 14 letters each. */
  const MAX_LOBBY_NAME := 28

  /** What a payload behind a 16-bit length can hold. */
  const MAX_PAYLOAD := 0xFFFF

  /** A roster entry as clients see it. */
  datatype Entry = Entry(id: nat, name: Name)

  function View(ps: seq<Player>): (es: seq<Entry>)
    ensures |es| == |ps| && forall i :: 0 <= i < |ps| ==> es[i] == Entry(ps[i].id, ps[i].name)
  {
    seq(|ps|, i requires 0 <= i < |ps| => Entry(ps[i].id, ps[i].name))
  }

  datatype Message =
    | LobbyJoined(lobby: LobbyId, id: nat)
    | UpdateLobby(roster: seq<Entry>)
    | RelayMessage(id: nat, payload: bytes)

  /** Why a message was sent; a history note, not part of the message. */
  datatype Reason = Membership | RelayFrom(sender: Sid) | Requested

  datatype Sent = Sent(msg: Message, reason: Reason)

  /** What the strand of a session is in the middle of. The mutex owner is recorded in the lobby. */
  datatype Activity =
    | Idle
    | Entering(name: Name, creating: bool)
    | Welcoming(roster: seq<Entry>)
    | Announcing(roster: seq<Entry>, next: nat)
    | Relaying(payload: bytes, next: nat)
    | Replying(roster: seq<Entry>)

  /**
   `lobby_` and `playerId` of a live session, its activity, and the messages posted to its connection.
   `mark` and `since` are history: where in `outbox` and in the lobby's history its membership began.
   */
  datatype Session = Session(
    lobby: Option<LobbyId>, playerId: Option<nat>, doing: Activity,
    outbox: seq<Sent>, mark: nat, since: nat)

  /** A lobby with its shared mutex spelled out; `history` lists every roster ever broadcast, in order. */
  datatype LobbyState = LobbyState(
    players: seq<Player>, locked: bool, writer: Option<Sid>, readers: set<Sid>, history: seq<seq<Entry>>)

  /** One relayed message and the connections it is for; history. */
  datatype Relay = Relay(id: nat, payload: bytes, recipients: set<Sid>)

  datatype State = State(
    sessions: map<Sid, Session>, lobbies: map<LobbyId, LobbyState>,
    used: set<Sid>, relays: map<Sid, seq<Relay>>)

  const INIT := State(map[], map[], {}, map[])

  datatype Event =
    | Connect(s: Sid)
    | Disconnect(s: Sid)
    | Create(s: Sid, name: Name, lobby: LobbyId)
    | Join(s: Sid, name: Name, lobby: LobbyId)
    | Enter(s: Sid)
    | Welcome(s: Sid)
    | Announce(s: Sid)
    | Release(s: Sid)
    | Leave(s: Sid)
    | SetLocked(s: Sid, locked: bool)
    | StartRelay(s: Sid, payload: bytes)
    | RelayNext(s: Sid)
    | EndRelay(s: Sid)
    | Request(s: Sid)
    | Reply(s: Sid)

  // ---- guards ----

  predicate Exclusive(l: LobbyState) {
    l.writer == None && l.readers == {}
  }

  predicate CanJoin(l: LobbyState) {
    !l.locked && |l.players| < MAX_PLAYERS
  }

  /** `weak_ptr::lock` succeeds while some session refers to the lobby. */
  predicate Alive(st: State, l: LobbyId) {
    l in st.lobbies && exists t :: t in st.sessions && st.sessions[t].lobby == Some(l)
  }

  predicate IdleSession(st: State, s: Sid) {
    s in st.sessions && st.sessions[s].doing == Idle
  }

  predicate InLobby(st: State, s: Sid) {
    s in st.sessions && st.sessions[s].lobby.Some? && st.sessions[s].lobby.value in st.lobbies
  }

  /** The lobby of a session that has one. */
  function Home(st: State, s: Sid): (l: LobbyState)
    requires InLobby(st, s)
  {
    st.lobbies[st.sessions[s].lobby.value]
  }

  /** A handler that asserts `playerId` when `lobby_` is set, and passes. */
  predicate MemberOrOutside(st: State, s: Sid) {
    IdleSession(st, s) && (st.sessions[s].lobby.Some? ==> InLobby(st, s) && st.sessions[s].playerId.Some?)
  }

  /** The step can be taken, and no assertion in it fails. */
  predicate Enabled(st: State, ev: Event) {
    match ev
    case Connect(s) => s !in st.used
    case Disconnect(s) => IdleSession(st, s)
    case Create(s, _, l) => IdleSession(st, s) && l !in st.lobbies && |l| <= MAX_LOBBY_NAME
    case Join(s, _, _) => IdleSession(st, s)
    case Enter(s) =>
      && InLobby(st, s) && st.sessions[s].doing.Entering? && Exclusive(Home(st, s))
      && (st.sessions[s].doing.creating ==> |Home(st, s).players| < MAX_PLAYERS)
    case Welcome(s) => InLobby(st, s) && st.sessions[s].doing.Welcoming? && st.sessions[s].playerId.Some?
    case Announce(s) =>
      InLobby(st, s) && st.sessions[s].doing.Announcing? && st.sessions[s].doing.next < |Home(st, s).players|
    case Release(s) =>
      InLobby(st, s) && st.sessions[s].doing.Announcing? && st.sessions[s].doing.next == |Home(st, s).players|
    case Leave(s) =>
      && MemberOrOutside(st, s)
      && (InLobby(st, s) ==> Exclusive(Home(st, s)) && HasId(Home(st, s).players, st.sessions[s].playerId.value))
    case SetLocked(s, _) => MemberOrOutside(st, s) && (InLobby(st, s) ==> Exclusive(Home(st, s)))
    case StartRelay(s, payload) =>
      && MemberOrOutside(st, s) && s in st.relays && |payload| <= MAX_PAYLOAD
      && (InLobby(st, s) ==> Home(st, s).writer == None)
    case RelayNext(s) =>
      && InLobby(st, s) && st.sessions[s].doing.Relaying? && st.sessions[s].playerId.Some?
      && st.sessions[s].doing.next < |Home(st, s).players|
    case EndRelay(s) =>
      InLobby(st, s) && st.sessions[s].doing.Relaying? && st.sessions[s].doing.next == |Home(st, s).players|
    case Request(s) => IdleSession(st, s) && (InLobby(st, s) ==> Home(st, s).writer == None)
    case Reply(s) => s in st.sessions && st.sessions[s].doing.Replying?
  }

  // ---- effects ----

  function WithSession(st: State, s: Sid, x: Session): (r: State) {
    st.(sessions := st.sessions[s := x])
  }

  function WithLobby(st: State, l: LobbyId, x: LobbyState): (r: State) {
    st.(lobbies := st.lobbies[l := x])
  }

  function Doing(st: State, s: Sid, a: Activity): (r: State)
    requires s in st.sessions
  {
    WithSession(st, s, st.sessions[s].(doing := a))
  }

  /** `sendMessage` to a connection that may be gone. */
  function Post(st: State, conn: Sid, m: Sent): (r: State) {
    if conn in st.sessions then
      WithSession(st, conn, st.sessions[conn].(outbox := st.sessions[conn].outbox + [m]))
    else
      st
  }

  function Recipients(ps: seq<Player>, id: nat): (r: set<Sid>) {
    set i | 0 <= i < |ps| && ps[i].id != id :: ps[i].conn
  }

  function Apply(st: State, ev: Event): (r: State)
    requires Enabled(st, ev)
  {
    match ev
    case Connect(s) =>
      st.(sessions := st.sessions[s := Session(None, None, Idle, [], 0, 0)],
          used := st.used + {s}, relays := st.relays[s := []])
    case Disconnect(s) => st.(sessions := st.sessions - {s})
    case Create(s, name, l) =>
      WithSession(WithLobby(st, l, LobbyState([], false, None, {}, [])), s,
                  st.sessions[s].(lobby := Some(l), doing := Entering(name, true)))
    case Join(s, name, l) =>
      if Alive(st, l) then
        WithSession(st, s, st.sessions[s].(lobby := Some(l), doing := Entering(name, false)))
      else
        WithSession(st, s, st.sessions[s].(lobby := None))
    case Enter(s) =>
      if st.sessions[s].doing.creating || CanJoin(Home(st, s)) then Admit(st, s) else Doing(st, s, Idle)
    case Welcome(s) =>
      var x := st.sessions[s];
      Post(Doing(st, s, Announcing(x.doing.roster, 0)), s,
           Sent(LobbyJoined(x.lobby.value, x.playerId.value), Membership))
    case Announce(s) =>
      var d := st.sessions[s].doing;
      Post(Doing(st, s, Announcing(d.roster, d.next + 1)), Home(st, s).players[d.next].conn,
           Sent(UpdateLobby(d.roster), Membership))
    case Release(s) =>
      var x := st.sessions[s];
      WithSession(WithLobby(st, x.lobby.value, Home(st, s).(writer := None)), s,
                  x.(doing := Idle, lobby := if x.playerId.None? then None else x.lobby))
    case Leave(s) => if st.sessions[s].lobby.None? then st else Expel(st, s)
    case SetLocked(s, locked) =>
      if st.sessions[s].lobby.Some? && IsMaster(Home(st, s).players, st.sessions[s].playerId.value) then
        WithLobby(st, st.sessions[s].lobby.value, Home(st, s).(locked := locked))
      else
        st
    case StartRelay(s, payload) =>
      if st.sessions[s].lobby.None? then st else
      var x, l := st.sessions[s], Home(st, s);
      var rec := Relay(x.playerId.value, payload, Recipients(l.players, x.playerId.value));
      Doing(WithLobby(st, x.lobby.value, l.(readers := l.readers + {s})), s, Relaying(payload, 0))
        .(relays := st.relays[s := st.relays[s] + [rec]])
    case RelayNext(s) =>
      var x, l := st.sessions[s], Home(st, s);
      var d, p := x.doing, l.players[x.doing.next];
      var moved := Doing(st, s, Relaying(d.payload, d.next + 1));
      if p.id != x.playerId.value then
        Post(moved, p.conn, Sent(RelayMessage(x.playerId.value, d.payload), RelayFrom(s)))
      else
        moved
    case EndRelay(s) =>
      var l := Home(st, s);
      Doing(WithLobby(st, st.sessions[s].lobby.value, l.(readers := l.readers - {s})), s, Idle)
    case Request(s) => if InLobby(st, s) then Doing(st, s, Replying(View(Home(st, s).players))) else st
    case Reply(s) =>
      Post(Doing(st, s, Idle), s, Sent(UpdateLobby(st.sessions[s].doing.roster), Requested))
  }

  /** The exclusive part of create and join up to the first send: add the player and encode the roster. */
  function Admit(st: State, s: Sid): (r: State)
    requires InLobby(st, s) && st.sessions[s].doing.Entering?
  {
    var x, l := st.sessions[s], Home(st, s);
    var ps := WithPlayer(l.players, x.doing.name, s);
    var l' := l.(players := ps, writer := Some(s), history := l.history + [View(ps)]);
    WithSession(WithLobby(st, x.lobby.value, l'), s,
                x.(playerId := Some(NextId(l.players)), doing := Welcoming(View(ps)),
                   mark := |x.outbox|, since := |l.history|))
  }

  /** The exclusive part of leave up to the first send. */
  function Expel(st: State, s: Sid): (r: State)
    requires InLobby(st, s) && st.sessions[s].playerId.Some?
    requires HasId(Home(st, s).players, st.sessions[s].playerId.value)
  {
    var x, l := st.sessions[s], Home(st, s);
    var ps := WithoutIndex(l.players, IndexOf(l.players, x.playerId.value).value);
    var l' := l.(players := ps, writer := Some(s), history := l.history + [View(ps)]);
    WithSession(WithLobby(st, x.lobby.value, l'), s,
                x.(playerId := None, doing := Announcing(View(ps), 0)))
  }

  // ---- failing steps ----

  datatype Outcome = Goes(st: State) | Fails | Waits

  /**
   A step with its failures: an assertion, or an empty `playerId` that is used. `Waits` is a step that cannot
   be taken now, because the strand is busy or a mutex is held.
   */
  function Attempt(st: State, ev: Event): (o: Outcome) {
    match ev
    case Leave(s) =>
      if !IdleSession(st, s) then Waits
      else if st.sessions[s].lobby.None? then Goes(st)
      else if !InLobby(st, s) || !Exclusive(Home(st, s)) then Waits
      else if st.sessions[s].playerId.None? || !HasId(Home(st, s).players, st.sessions[s].playerId.value) then Fails
      else Goes(Expel(st, s))
    case SetLocked(s, _) =>
      if !IdleSession(st, s) then Waits
      else if st.sessions[s].lobby.Some? && st.sessions[s].playerId.None? then Fails
      else if Enabled(st, ev) then Goes(Apply(st, ev)) else Waits
    case StartRelay(s, _) =>
      if !IdleSession(st, s) then Waits
      else if st.sessions[s].lobby.Some? && st.sessions[s].playerId.None? then Fails
      else if Enabled(st, ev) then Goes(Apply(st, ev)) else Waits
    case Enter(s) =>
      if !InLobby(st, s) || !st.sessions[s].doing.Entering? || !Exclusive(Home(st, s)) then Waits
      else if st.sessions[s].doing.creating && |Home(st, s).players| >= MAX_PLAYERS then Fails
      else Goes(Apply(st, ev))
    case _ => if Enabled(st, ev) then Goes(Apply(st, ev)) else Waits
  }

  /** The steps of a run are those that go. */
  lemma AttemptGoes(st: State, ev: Event)
    ensures Attempt(st, ev).Goes? <==> Enabled(st, ev)
    ensures Enabled(st, ev) ==> Attempt(st, ev) == Goes(Apply(st, ev))
  {
  }

  // ---- runs ----

  /** The state after a list of events, if each was enabled when it happened. */
  function Run(evs: seq<Event>): (r: Option<State>) {
    if evs == [] then Some(INIT) else
    match Run(evs[..|evs| - 1])
    case None => None
    case Some(st) => if Enabled(st, evs[|evs| - 1]) then Some(Apply(st, evs[|evs| - 1])) else None
  }
}
