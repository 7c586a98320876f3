/**
 Every message the server ever posts fits its encoding: names, ids, counts and payloads in their widths, rosters
 sorted.
 */
module LobbyOutboxes {
  import opened Bytes
  import opened Roster
  import opened LobbyProtocol
  import opened LobbyInvariants
  import opened LobbyRuns
  import opened LobbyWire

  /** A roster as the client may be sent it, with the ids players can have. */
  predicate RosterFits(es: seq<Entry>) {
    GoodRoster(es) && forall i :: 0 <= i < |es| ==> es[i].id < MAX_PLAYERS
  }

  lemma ViewFits(ps: seq<Player>)
    requires ValidRoster(ps)
    ensures RosterFits(View(ps))
  {
    ValidIsGood(ps);
  }

  /** A message that fits its encoding, posted for a reason of its kind. */
  predicate SentOk(m: Sent) {
    match m.msg
    case LobbyJoined(l, id) => m.reason == Membership && |l| <= MAX_LOBBY_NAME && id < MAX_PLAYERS
    case UpdateLobby(es) => (m.reason == Membership || m.reason == Requested) && RosterFits(es)
    case RelayMessage(id, payload) => m.reason.RelayFrom? && id < MAX_PLAYERS && |payload| <= MAX_PAYLOAD
  }

  predicate BoxOk(box: seq<Sent>) {
    forall k :: 0 <= k < |box| ==> SentOk(box[k])
  }

  /** A session that has posted and been posted only such messages, and is about to post only such. */
  predicate Tidy(x: Session) {
    && BoxOk(x.outbox) && (x.playerId.Some? ==> x.playerId.value < MAX_PLAYERS)
    && (x.lobby.Some? ==> |x.lobby.value| <= MAX_LOBBY_NAME)
    && match x.doing
       case Relaying(payload, _) => |payload| <= MAX_PAYLOAD
       case Replying(es) => RosterFits(es)
       case _ => true
  }

  predicate Outboxes(st: State) {
    && (forall s :: s in st.sessions ==> Tidy(st.sessions[s]))
    && (forall l :: l in st.lobbies ==> |l| <= MAX_LOBBY_NAME)
  }

  lemma PostOk(st: State, conn: Sid, m: Sent)
    requires Outboxes(st) && SentOk(m)
    ensures Outboxes(Post(st, conn, m))
  {
    var r := Post(st, conn, m);
    forall s | s in r.sessions ensures Tidy(r.sessions[s]) {
      assert Tidy(st.sessions[s]);
    }
  }

  lemma DoingOk(st: State, s: Sid, a: Activity)
    requires Outboxes(st) && s in st.sessions && Tidy(st.sessions[s].(doing := a))
    ensures Outboxes(Doing(st, s, a))
  {
  }

  lemma WelcomeOk(st: State, s: Sid)
    requires Outboxes(st) && Enabled(st, Welcome(s))
    ensures Outboxes(Apply(st, Welcome(s)))
  {
    var x := st.sessions[s];
    DoingOk(st, s, Announcing(x.doing.roster, 0));
    PostOk(Doing(st, s, Announcing(x.doing.roster, 0)), s,
           Sent(LobbyJoined(x.lobby.value, x.playerId.value), Membership));
  }

  lemma AnnounceOk(st: State, s: Sid)
    requires Structure(st) && Outboxes(st) && Enabled(st, Announce(s))
    ensures Outboxes(Apply(st, Announce(s)))
  {
    var x := st.sessions[s];
    var moved := AnnounceEffect(st, s);
    assert RosterFits(x.doing.roster) by {
      assert SessionOk(st, s) && LobbyOk(st, x.lobby.value);
      ViewFits(Home(st, s).players);
    }
    DoingOk(st, s, Announcing(x.doing.roster, x.doing.next + 1));
    PostOk(moved, Home(st, s).players[x.doing.next].conn, Sent(UpdateLobby(x.doing.roster), Membership));
  }

  lemma RelayNextOk(st: State, s: Sid)
    requires Outboxes(st) && Enabled(st, RelayNext(s))
    ensures Outboxes(Apply(st, RelayNext(s)))
  {
    var x := st.sessions[s];
    var moved := RelayNextEffect(st, s);
    assert Tidy(x);
    DoingOk(st, s, Relaying(x.doing.payload, x.doing.next + 1));
    PostOk(moved, Home(st, s).players[x.doing.next].conn,
           Sent(RelayMessage(x.playerId.value, x.doing.payload), RelayFrom(s)));
  }

  lemma ReplyOk(st: State, s: Sid)
    requires Outboxes(st) && Enabled(st, Reply(s))
    ensures Outboxes(Apply(st, Reply(s)))
  {
    assert Tidy(st.sessions[s]);
    DoingOk(st, s, Idle);
    PostOk(Doing(st, s, Idle), s, Sent(UpdateLobby(st.sessions[s].doing.roster), Requested));
  }

  lemma RequestOk(st: State, s: Sid)
    requires Structure(st) && Outboxes(st) && Enabled(st, Request(s))
    ensures Outboxes(Apply(st, Request(s)))
  {
    if InLobby(st, s) {
      assert LobbyOk(st, st.sessions[s].lobby.value);
      ViewFits(Home(st, s).players);
      DoingOk(st, s, Replying(View(Home(st, s).players)));
    }
  }

  lemma EnterOk(st: State, s: Sid)
    requires Structure(st) && Outboxes(st) && Enabled(st, Enter(s))
    ensures Outboxes(Apply(st, Enter(s)))
  {
    assert LobbyOk(st, st.sessions[s].lobby.value) && Tidy(st.sessions[s]);
    NextIdSmallestFree(Home(st, s).players);
  }

  /** The other steps post nothing and start nothing that would. */
  lemma QuietOk(st: State, ev: Event)
    requires Outboxes(st) && Enabled(st, ev)
    requires ev.Connect? || ev.Disconnect? || ev.Create? || ev.Join? || ev.Release? || ev.Leave?
          || ev.SetLocked? || ev.StartRelay? || ev.EndRelay?
    ensures Outboxes(Apply(st, ev))
  {
    var r := Apply(st, ev);
    forall s | s in r.sessions ensures Tidy(r.sessions[s]) {
      assert s in st.sessions ==> Tidy(st.sessions[s]);
    }
  }

  lemma OutboxesKept(st: State, ev: Event)
    requires Structure(st) && Outboxes(st) && Enabled(st, ev)
    ensures Outboxes(Apply(st, ev))
  {
    match ev
    case Welcome(s) => WelcomeOk(st, s);
    case Announce(s) => AnnounceOk(st, s);
    case RelayNext(s) => RelayNextOk(st, s);
    case Reply(s) => ReplyOk(st, s);
    case Request(s) => RequestOk(st, s);
    case Enter(s) => EnterOk(st, s);
    case _ => QuietOk(st, ev);
  }

  /** In every run, safe or not. */
  lemma {:induction false} OutboxesInRuns(evs: seq<Event>)
    requires Run(evs).Some?
    ensures Outboxes(Run(evs).value)
  {
    if evs != [] {
      OutboxesInRuns(evs[..|evs| - 1]);
      RunsAreStructured(evs[..|evs| - 1]);
      OutboxesKept(Run(evs[..|evs| - 1]).value, evs[|evs| - 1]);
    }
  }

  /** Spelled out: every message ever posted to a live session fits its encoding. */
  lemma PostedMessagesFit(evs: seq<Event>, s: Sid, k: nat)
    requires Run(evs).Some? && s in Run(evs).value.sessions && k < |Run(evs).value.sessions[s].outbox|
    ensures match Run(evs).value.sessions[s].outbox[k].msg
            case LobbyJoined(l, id) => |l| <= 0xFF && id < 0xFF
            case UpdateLobby(es) => GoodRoster(es) && forall i :: 0 <= i < |es| ==> es[i].id < 0xFF
            case RelayMessage(id, payload) => id < 0xFF && |payload| <= 0xFFFF
  {
    OutboxesInRuns(evs);
    assert Tidy(Run(evs).value.sessions[s]);
    assert SentOk(Run(evs).value.sessions[s].outbox[k]);
  }
}
