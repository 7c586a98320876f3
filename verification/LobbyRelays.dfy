/**
 Relayed messages: in every interleaving of senders under the shared lock, what a live connection has been
 posted from one sender is what that sender relayed to it, once each and in the sender's order.
 */
module LobbyRelays {
  import opened Bytes
  import opened Roster
  import opened LobbyProtocol
  import opened LobbyInvariants
  import opened LobbyMembership

  /** The messages some connection was posted that session `s` relayed. */
  function RelaysFrom(box: seq<Sent>, s: Sid): (ms: seq<Message>) {
    if box == [] then [] else
    var last := box[|box| - 1];
    RelaysFrom(box[..|box| - 1], s) + if last.reason == RelayFrom(s) then [last.msg] else []
  }

  /** The relayed messages addressed to connection `r`, with their sender's id. */
  function Due(log: seq<Relay>, r: Sid): (ms: seq<Message>) {
    if log == [] then [] else
    var last := log[|log| - 1];
    Due(log[..|log| - 1], r) + if r in last.recipients then [RelayMessage(last.id, last.payload)] else []
  }

  function LogOf(st: State, s: Sid): (log: seq<Relay>) {
    if s in st.relays then st.relays[s] else []
  }

  /** Where the relay loop of a session is, if it is in one. */
  datatype Turn = Resting | Busy(id: nat, payload: bytes, players: seq<Player>, next: nat)

  function TurnOf(st: State, s: Sid): (t: Turn) {
    if InLobby(st, s) && st.sessions[s].doing.Relaying? && st.sessions[s].playerId.Some? then
      var x := st.sessions[s];
      Busy(x.playerId.value, x.doing.payload, Home(st, s).players, x.doing.next)
    else
      Resting
  }

  /** Has a loop passed an entry of connection `r` that is not the sender's own? */
  predicate Passed(ps: seq<Player>, next: nat, id: nat, r: Sid)
    requires next <= |ps|
  {
    exists i :: 0 <= i < next && ps[i].conn == r && ps[i].id != id
  }

  /** What `r` should have been posted by one sender: all finished relays, and the current one once passed. */
  predicate PairOk(got: seq<Message>, log: seq<Relay>, turn: Turn, r: Sid) {
    match turn
    case Resting => got == Due(log, r)
    case Busy(id, payload, ps, next) =>
      && log != [] && next <= |ps|
      && log[|log| - 1] == Relay(id, payload, Recipients(ps, id))
      && got == Due(log[..|log| - 1], r) + if Passed(ps, next, id, r) then [RelayMessage(id, payload)] else []
  }

  predicate RelayOk(st: State, s: Sid, r: Sid)
    requires r in st.sessions
  {
    PairOk(RelaysFrom(st.sessions[r].outbox, s), LogOf(st, s), TurnOf(st, s), r)
  }

  /** Senders never address themselves, and only connections that have existed. */
  predicate LogOk(log: seq<Relay>, s: Sid, used: set<Sid>) {
    forall k :: 0 <= k < |log| ==> s !in log[k].recipients && log[k].recipients <= used
  }

  ghost predicate Relays(st: State) {
    && (forall s: Sid :: LogOk(LogOf(st, s), s, st.used))
    && (forall s: Sid, r: Sid :: r in st.sessions ==> RelayOk(st, s, r))
  }

  // ---- steps that relay nothing ----

  lemma RelaysGrow(box: seq<Sent>, m: Sent, s: Sid)
    ensures RelaysFrom(box + [m], s) == RelaysFrom(box, s) + if m.reason == RelayFrom(s) then [m.msg] else []
  {
    assert (box + [m])[..|box|] == box;
  }

  predicate Quiet(box: seq<Sent>, box': seq<Sent>) {
    || box' == box
    || (|box'| == |box| + 1 && box'[..|box|] == box && !box'[|box|].reason.RelayFrom?)
  }

  lemma QuietRelays(box: seq<Sent>, box': seq<Sent>, s: Sid)
    requires Quiet(box, box')
    ensures RelaysFrom(box', s) == RelaysFrom(box, s)
  {
  }

  /** A step that moves no relay loop, adds to no log and posts no relay. */
  lemma Undisturbed(st: State, st': State)
    requires Relays(st) && st'.relays == st.relays && st'.used == st.used
    requires forall t: Sid :: TurnOf(st', t) == TurnOf(st, t)
    requires forall r :: r in st'.sessions ==> r in st.sessions && Quiet(st.sessions[r].outbox, st'.sessions[r].outbox)
    ensures Relays(st')
  {
    forall s: Sid ensures LogOk(LogOf(st', s), s, st'.used) {
      assert LogOf(st', s) == LogOf(st, s);
    }
    forall s: Sid, r: Sid | r in st'.sessions ensures RelayOk(st', s, r) {
      assert RelayOk(st, s, r);
      QuietRelays(st.sessions[r].outbox, st'.sessions[r].outbox, s);
    }
  }

  lemma PostKeepsRelays(st: State, conn: Sid, m: Sent)
    requires Relays(st) && !m.reason.RelayFrom?
    ensures Relays(Post(st, conn, m))
  {
    Undisturbed(st, Post(st, conn, m));
  }

  lemma DoingKeepsRelays(st: State, s: Sid, a: Activity)
    requires Relays(st) && s in st.sessions && !st.sessions[s].doing.Relaying? && !a.Relaying?
    ensures Relays(Doing(st, s, a))
  {
    Undisturbed(st, Doing(st, s, a));
  }

  /** Steps of a session that is not relaying, in a lobby nobody else is relaying in. */
  lemma ElsewhereRelays(st: State, ev: Event)
    requires Structure(st) && Relays(st) && Enabled(st, ev)
    requires ev.Disconnect? || ev.Create? || ev.Join? || ev.Enter? || ev.Release? || ev.Leave? || ev.SetLocked?
    ensures Relays(Apply(st, ev))
  {
    forall t: Sid ensures TurnOf(Apply(st, ev), t) == TurnOf(st, t) {
      ElsewhereTurn(st, ev, t);
    }
    Undisturbed(st, Apply(st, ev));
  }

  lemma ElsewhereTurn(st: State, ev: Event, t: Sid)
    requires Structure(st) && Enabled(st, ev)
    requires ev.Disconnect? || ev.Create? || ev.Join? || ev.Enter? || ev.Release? || ev.Leave? || ev.SetLocked?
    ensures TurnOf(Apply(st, ev), t) == TurnOf(st, t)
  {
    if t in st.sessions {
      if ev.Enter? || ev.Release? || ev.Leave? {
        WriterElsewhere(st, ev, t);
      } else {
        OthersElsewhere(st, ev, t);
      }
    }
  }

  lemma WriterElsewhere(st: State, ev: Event, t: Sid)
    requires Structure(st) && Enabled(st, ev) && (ev.Enter? || ev.Release? || ev.Leave?) && t in st.sessions
    ensures SameHome(st, Apply(st, ev), t)
  {
    assert InLobby(st, ev.s) ==> LobbyOk(st, st.sessions[ev.s].lobby.value);
    assert SessionOk(st, t);
  }

  lemma OthersElsewhere(st: State, ev: Event, t: Sid)
    requires Structure(st) && Enabled(st, ev) && t in st.sessions
    requires ev.Disconnect? || ev.Create? || ev.Join? || ev.SetLocked?
    ensures SameHome(st, Apply(st, ev), t)
  {
    assert SessionOk(st, t);
  }

  /** A relaying session keeps its record and its roster. */
  predicate SameHome(st: State, st': State, t: Sid)
    requires t in st.sessions
  {
    if st.sessions[t].doing.Relaying? then
      && t in st'.sessions && st'.sessions[t] == st.sessions[t]
      && InLobby(st, t) && InLobby(st', t) && Home(st', t).players == Home(st, t).players
    else t in st'.sessions ==> !st'.sessions[t].doing.Relaying?
  }

  lemma PostingRelays(st: State, ev: Event)
    requires Relays(st) && Enabled(st, ev) && (ev.Welcome? || ev.Announce? || ev.Request? || ev.Reply?)
    ensures Relays(Apply(st, ev))
  {
    var s, x := ev.s, st.sessions[ev.s];
    match ev
    case Welcome(_) =>
      DoingKeepsRelays(st, s, Announcing(x.doing.roster, 0));
      PostKeepsRelays(Doing(st, s, Announcing(x.doing.roster, 0)), s,
                      Sent(LobbyJoined(x.lobby.value, x.playerId.value), Membership));
    case Announce(_) =>
      var moved := AnnounceEffect(st, s);
      DoingKeepsRelays(st, s, Announcing(x.doing.roster, x.doing.next + 1));
      PostKeepsRelays(moved, Home(st, s).players[x.doing.next].conn, Sent(UpdateLobby(x.doing.roster), Membership));
    case Request(_) =>
      if InLobby(st, s) { DoingKeepsRelays(st, s, Replying(View(Home(st, s).players))); }
    case Reply(_) =>
      DoingKeepsRelays(st, s, Idle);
      PostKeepsRelays(Doing(st, s, Idle), s, Sent(UpdateLobby(x.doing.roster), Requested));
  }

  // ---- a new connection ----

  lemma {:induction false} NothingDue(log: seq<Relay>, r: Sid)
    requires forall k :: 0 <= k < |log| ==> r !in log[k].recipients
    ensures Due(log, r) == []
  {
    if log != [] {
      NothingDue(log[..|log| - 1], r);
    }
  }

  lemma ConnectRelays(st: State, c: Sid)
    requires Structure(st) && Relays(st) && Enabled(st, Connect(c))
    ensures Relays(Apply(st, Connect(c)))
  {
    var st' := Apply(st, Connect(c));
    assert c !in st.sessions by { assert c in st.sessions ==> SessionOk(st, c); }
    forall s: Sid ensures LogOk(LogOf(st', s), s, st'.used) {
      assert LogOk(LogOf(st, s), s, st.used);
      assert LogOf(st', s) == LogOf(st, s);
    }
    forall s: Sid, r: Sid | r in st'.sessions ensures RelayOk(st', s, r) {
      assert LogOf(st', s) == LogOf(st, s) && TurnOf(st', s) == TurnOf(st, s);
      if r != c {
        assert RelayOk(st, s, r);
      } else {
        ConnectedPair(st, c, s);
      }
    }
  }

  /** Nobody has relayed anything to a connection that did not exist. */
  lemma ConnectedPair(st: State, c: Sid, s: Sid)
    requires Structure(st) && Relays(st) && c !in st.used
    ensures PairOk([], LogOf(st, s), TurnOf(st, s), c)
  {
    var log := LogOf(st, s);
    forall k | 0 <= k < |log| ensures c !in log[k].recipients {
      assert LogOk(log, s, st.used);
    }
    NothingDue(log, c);
    if TurnOf(st, s).Busy? {
      assert RelayOk(st, s, s) && LobbyOk(st, st.sessions[s].lobby.value);
      NothingDue(log[..|log| - 1], c);
    }
  }

  // ---- starting, passing one entry, finishing ----

  lemma StartRelays(st: State, s: Sid, payload: bytes)
    requires Structure(st) && Coherent(st) && Relays(st) && Enabled(st, StartRelay(s, payload)) && InLobby(st, s)
    ensures Relays(Apply(st, StartRelay(s, payload)))
  {
    var st' := Apply(st, StartRelay(s, payload));
    assert LogOk(LogOf(st', s), s, st'.used) by { StartedLog(st, s, payload); }
    forall t: Sid ensures LogOk(LogOf(st', t), t, st'.used) {
      assert t != s ==> LogOf(st', t) == LogOf(st, t);
    }
    forall t: Sid, r: Sid | r in st'.sessions ensures RelayOk(st', t, r) {
      assert RelayOk(st, t, r);
      if t != s {
        StartedOther(st, s, payload, t);
      } else {
        StartedPair(st, s, payload, r);
      }
    }
  }

  lemma StartedOther(st: State, s: Sid, payload: bytes, t: Sid)
    requires Enabled(st, StartRelay(s, payload)) && InLobby(st, s) && t != s
    ensures var st' := Apply(st, StartRelay(s, payload));
      && LogOf(st', t) == LogOf(st, t) && TurnOf(st', t) == TurnOf(st, t)
      && forall r :: r in st.sessions ==> r in st'.sessions && st'.sessions[r].outbox == st.sessions[r].outbox
  {
  }

  lemma StartedPair(st: State, s: Sid, payload: bytes, r: Sid)
    requires Enabled(st, StartRelay(s, payload)) && InLobby(st, s) && r in st.sessions && RelayOk(st, s, r)
    ensures var st' := Apply(st, StartRelay(s, payload)); r in st'.sessions && RelayOk(st', s, r)
  {
    var log := LogOf(Apply(st, StartRelay(s, payload)), s);
    assert log[..|log| - 1] == LogOf(st, s);
  }

  lemma StartedLog(st: State, s: Sid, payload: bytes)
    requires Structure(st) && Coherent(st) && Enabled(st, StartRelay(s, payload)) && InLobby(st, s)
    requires LogOk(LogOf(st, s), s, st.used)
    ensures LogOk(LogOf(Apply(st, StartRelay(s, payload)), s), s, st.used)
  {
    var x, l := st.sessions[s], Home(st, s);
    assert LobbyOk(st, x.lobby.value);
    forall i | 0 <= i < |l.players| && l.players[i].id != x.playerId.value ensures l.players[i].conn != s {
      assert EntryOk(st, x.lobby.value, l.players[i]);
    }
    var log := LogOf(st, s);
    assert LogOf(Apply(st, StartRelay(s, payload)), s)
        == log + [Relay(x.playerId.value, payload, Recipients(l.players, x.playerId.value))];
  }

  lemma RelayNextOwn(st: State, s: Sid, r: Sid)
    requires Structure(st) && Coherent(st) && Relays(st) && Enabled(st, RelayNext(s))
    requires r in Apply(st, RelayNext(s)).sessions
    ensures RelayOk(Apply(st, RelayNext(s)), s, r)
  {
    RelayNextMoves(st, s, s, r);
    assert RelayOk(st, s, r);
    var x, ps := st.sessions[s], Home(st, s).players;
    assert PassedStep(ps, x.doing.next, x.playerId.value, r) by {
      PassedOnce(st, x.lobby.value, x.doing.next, x.playerId.value, r);
    }
    PairStep(RelaysFrom(st.sessions[r].outbox, s), LogOf(st, s), TurnOf(st, s), r);
  }

  lemma RelayNextRelays(st: State, s: Sid)
    requires Structure(st) && Coherent(st) && Relays(st) && Enabled(st, RelayNext(s))
    ensures Relays(Apply(st, RelayNext(s)))
  {
    var st' := Apply(st, RelayNext(s));
    forall t: Sid, r: Sid | r in st'.sessions ensures RelayOk(st', t, r) {
      if t == s {
        RelayNextOwn(st, s, r);
      } else {
        RelayNextMoves(st, s, t, r);
        assert RelayOk(st, t, r);
      }
    }
    forall t: Sid ensures LogOk(LogOf(st', t), t, st'.used) {
      assert st'.relays == st.relays && LogOf(st', t) == LogOf(st, t);
    }
  }

  /** What one iteration of the relay loop of `s` does to the pair `t`, `r`. */
  lemma RelayNextMoves(st: State, s: Sid, t: Sid, r: Sid)
    requires Enabled(st, RelayNext(s))
    ensures var st', x := Apply(st, RelayNext(s)), st.sessions[s];
      var p, id := Home(st, s).players[x.doing.next], x.playerId.value;
      && st'.relays == st.relays && st'.used == st.used && (r in st'.sessions <==> r in st.sessions)
      && TurnOf(st', t) == (if t == s then TurnOf(st, s).(next := x.doing.next + 1) else TurnOf(st, t))
      && (r in st.sessions ==>
            RelaysFrom(st'.sessions[r].outbox, t) == RelaysFrom(st.sessions[r].outbox, t) +
              if t == s && p.id != id && p.conn == r then [RelayMessage(id, x.doing.payload)] else [])
  {
    var x, p := st.sessions[s], Home(st, s).players[st.sessions[s].doing.next];
    var moved := RelayNextEffect(st, s);
    var m := Sent(RelayMessage(x.playerId.value, x.doing.payload), RelayFrom(s));
    assert TurnOf(st, s).Busy? && TurnOf(moved, s) == TurnOf(st, s).(next := x.doing.next + 1);
    assert t != s ==> TurnOf(moved, t) == TurnOf(st, t);
    assert r in st.sessions ==> moved.sessions[r].outbox == st.sessions[r].outbox;
    if p.id != x.playerId.value {
      PostMoves(moved, p.conn, m, t, r);
    }
  }

  lemma PostMoves(st: State, conn: Sid, m: Sent, t: Sid, r: Sid)
    ensures TurnOf(Post(st, conn, m), t) == TurnOf(st, t)
    ensures r in Post(st, conn, m).sessions <==> r in st.sessions
    ensures r in st.sessions ==>
      RelaysFrom(Post(st, conn, m).sessions[r].outbox, t) ==
      RelaysFrom(st.sessions[r].outbox, t) + if conn == r && m.reason == RelayFrom(t) then [m.msg] else []
  {
    if r in st.sessions {
      RelaysGrow(st.sessions[r].outbox, m, t);
    }
  }

  predicate PassedStep(ps: seq<Player>, next: nat, id: nat, r: Sid)
    requires next < |ps|
  {
    if ps[next].conn == r && ps[next].id != id then !Passed(ps, next, id, r) && Passed(ps, next + 1, id, r)
    else Passed(ps, next + 1, id, r) == Passed(ps, next, id, r)
  }

  /** A live connection is passed only once. */
  lemma PassedOnce(st: State, l: LobbyId, next: nat, id: nat, r: Sid)
    requires Structure(st) && Coherent(st) && l in st.lobbies && r in st.sessions
    requires next < |st.lobbies[l].players|
    ensures PassedStep(st.lobbies[l].players, next, id, r)
  {
    var ps := st.lobbies[l].players;
    assert LobbyOk(st, l);
    forall i | 0 <= i < next && ps[next].conn == r ensures ps[i].conn != r {
      assert EntryOk(st, l, ps[i]) && EntryOk(st, l, ps[next]);
    }
  }

  lemma PairStep(got: seq<Message>, log: seq<Relay>, turn: Turn, r: Sid)
    requires turn.Busy? && PairOk(got, log, turn, r)
    requires turn.next < |turn.players| && PassedStep(turn.players, turn.next, turn.id, r)
    ensures var p := turn.players[turn.next];
      PairOk(got + if p.id != turn.id && p.conn == r then [RelayMessage(turn.id, turn.payload)] else [],
             log, turn.(next := turn.next + 1), r)
  {
  }

  lemma EndRelays(st: State, s: Sid)
    requires Structure(st) && Relays(st) && Enabled(st, EndRelay(s))
    ensures Relays(Apply(st, EndRelay(s)))
  {
    var st' := Apply(st, EndRelay(s));
    assert SessionOk(st, s);
    forall t: Sid ensures LogOk(LogOf(st', t), t, st'.used) {
      assert LogOf(st', t) == LogOf(st, t);
    }
    forall t: Sid, r: Sid | r in st'.sessions ensures RelayOk(st', t, r) {
      assert RelayOk(st, t, r);
      EndedTurn(st, s, t);
      if t == s {
        PairEnd(RelaysFrom(st.sessions[r].outbox, s), LogOf(st, s), TurnOf(st, s), r);
      }
    }
  }

  lemma EndedTurn(st: State, s: Sid, t: Sid)
    requires Enabled(st, EndRelay(s))
    ensures var st' := Apply(st, EndRelay(s));
      && TurnOf(st', t) == if t == s then Resting else TurnOf(st, t)
  {
  }

  lemma PairEnd(got: seq<Message>, log: seq<Relay>, turn: Turn, r: Sid)
    requires turn.Busy? && turn.next == |turn.players| && PairOk(got, log, turn, r)
    ensures PairOk(got, log, Resting, r)
  {
    assert r in Recipients(turn.players, turn.id) <==> Passed(turn.players, turn.next, turn.id, r);
  }

  /** Every step keeps relays exactly-once and in order. */
  lemma RelaysKept(st: State, ev: Event)
    requires Structure(st) && Coherent(st) && Relays(st) && Enabled(st, ev)
    ensures Relays(Apply(st, ev))
  {
    match ev
    case Connect(c) => ConnectRelays(st, c);
    case StartRelay(s, payload) => if st.sessions[s].lobby.Some? { StartRelays(st, s, payload); }
    case RelayNext(s) => RelayNextRelays(st, s);
    case EndRelay(s) => EndRelays(st, s);
    case Welcome(_) | Announce(_) | Request(_) | Reply(_) => PostingRelays(st, ev);
    case _ => ElsewhereRelays(st, ev);
  }
}
