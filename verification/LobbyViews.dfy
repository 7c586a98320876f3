/**
 Every member's view of the roster: what has been broadcast to it since it joined is the welcome and
 then its lobby's history, in order and without gaps, up to the last roster it has been sent.
 */
module LobbyViews {
  import opened Bytes
  import opened Roster
  import opened LobbyProtocol
  import opened LobbyInvariants
  import opened LobbyMembership

  /** The welcomes and broadcast rosters among some posted messages; replies and relays are skipped. */
  function MembershipOnly(box: seq<Sent>): (ms: seq<Message>) {
    if box == [] then [] else
    var last := box[|box| - 1];
    MembershipOnly(box[..|box| - 1]) + if last.reason == Membership then [last.msg] else []
  }

  function Updates(x: Session): (ms: seq<Message>)
    requires x.mark <= |x.outbox|
  {
    MembershipOnly(x.outbox[x.mark..])
  }

  function Broadcasts(h: seq<seq<Entry>>): (ms: seq<Message>) {
    seq(|h|, k requires 0 <= k < |h| => UpdateLobby(h[k]))
  }

  /** How many players of the lobby, in roster order, have been sent its last roster. */
  function SentTo(st: State, l: LobbyId): (n: nat)
    requires l in st.lobbies
  {
    var x := st.lobbies[l];
    if x.writer == None then |x.players|
    else if x.writer.value in st.sessions && st.sessions[x.writer.value].doing.Announcing? then
      st.sessions[x.writer.value].doing.next
    else 0
  }

  /** The index after the last roster the i-th player of the lobby has been sent. */
  function Upto(st: State, l: LobbyId, i: nat): (k: int)
    requires l in st.lobbies
  {
    if i < SentTo(st, l) then |st.lobbies[l].history| else |st.lobbies[l].history| - 1
  }

  predicate Listed(h: seq<seq<Entry>>, since: nat, p: Player) {
    forall k :: since <= k < |h| ==> Entry(p.id, p.name) in h[k]
  }

  /** The view of the i-th player of its lobby, when that is the live session `s`. */
  predicate PlayerView(st: State, s: Sid, i: nat)
    requires InLobby(st, s) && i < |Home(st, s).players|
  {
    var x, l, p := st.sessions[s], Home(st, s), Home(st, s).players[i];
    && x.mark <= |x.outbox| && x.since < |l.history|
    && Listed(l.history, x.since, p)
    && (x.doing.Welcoming? ==> x.since == |l.history| - 1)
    && Updates(x) ==
       if x.doing.Welcoming? then []
       else [LobbyJoined(x.lobby.value, p.id)] + Broadcasts(l.history[x.since..Upto(st, x.lobby.value, i)])
  }

  predicate ViewOk(st: State, s: Sid)
    requires s in st.sessions
  {
    InLobby(st, s) ==>
      forall i :: 0 <= i < |Home(st, s).players| && Home(st, s).players[i].conn == s ==> PlayerView(st, s, i)
  }

  predicate Views(st: State) {
    forall s :: s in st.sessions ==> ViewOk(st, s)
  }

  // ---- frames ----

  lemma UpdatesGrow(x: Session, m: Sent)
    requires x.mark <= |x.outbox|
    ensures Updates(x.(outbox := x.outbox + [m]))
         == Updates(x) + if m.reason == Membership then [m.msg] else []
  {
    var box := (x.outbox + [m])[x.mark..];
    assert box == x.outbox[x.mark..] + [m] && box[..|box| - 1] == x.outbox[x.mark..];
  }

  /** The view of one session only depends on its own record, its lobby and how far the writer got. */
  predicate SameView(st: State, r: State, s: Sid) {
    && InLobby(st, s) && InLobby(r, s)
    && r.sessions[s].lobby == st.sessions[s].lobby
    && r.sessions[s].mark == st.sessions[s].mark && r.sessions[s].since == st.sessions[s].since
    && r.sessions[s].doing.Welcoming? == st.sessions[s].doing.Welcoming?
    && (r.sessions[s].mark <= |st.sessions[s].outbox| ==>
          r.sessions[s].mark <= |r.sessions[s].outbox| && Updates(r.sessions[s]) == Updates(st.sessions[s]))
    && Home(r, s).players == Home(st, s).players && Home(r, s).history == Home(st, s).history
    && SentTo(r, st.sessions[s].lobby.value) == SentTo(st, st.sessions[s].lobby.value)
  }

  lemma ViewFramed(st: State, r: State, s: Sid)
    requires s in st.sessions && ViewOk(st, s) && SameView(st, r, s)
    ensures ViewOk(r, s)
  {
    forall i | 0 <= i < |Home(r, s).players| && Home(r, s).players[i].conn == s ensures PlayerView(r, s, i) {
      assert PlayerView(st, s, i);
    }
  }

  /** A post that is not a membership message changes nobody's view. */
  lemma PostFramed(st: State, conn: Sid, m: Sent)
    requires Views(st) && m.reason != Membership
    ensures Views(Post(st, conn, m))
  {
    var r := Post(st, conn, m);
    forall s | s in r.sessions ensures ViewOk(r, s) {
      if InLobby(st, s) {
        if s == conn && st.sessions[s].mark <= |st.sessions[s].outbox| {
          UpdatesGrow(st.sessions[s], m);
        }
        ViewFramed(st, r, s);
      }
    }
  }

  /** Changing the activity of a session that is not its lobby's writer. */
  lemma DoingFramed(st: State, s: Sid, a: Activity)
    requires Structure(st) && Views(st) && s in st.sessions
    requires !a.Welcoming? && !st.sessions[s].doing.Welcoming? && !st.sessions[s].doing.Announcing?
    ensures Views(Doing(st, s, a))
  {
    var r := Doing(st, s, a);
    forall t | t in r.sessions ensures ViewOk(r, t) {
      if InLobby(st, t) {
        assert LobbyOk(st, st.sessions[t].lobby.value);
        ViewFramed(st, r, t);
      }
    }
  }

  // ---- steps ----

  /** A live entry's index is unique, since it carries its session's id. */
  lemma OneIndex(st: State, l: LobbyId, i: nat, j: nat)
    requires Structure(st) && Coherent(st) && l in st.lobbies
    requires i < |st.lobbies[l].players| && j < |st.lobbies[l].players|
    requires st.lobbies[l].players[i].conn == st.lobbies[l].players[j].conn
    requires st.lobbies[l].players[i].conn in st.sessions
    ensures i == j
  {
    assert LobbyOk(st, l);
    assert EntryOk(st, l, st.lobbies[l].players[i]) && EntryOk(st, l, st.lobbies[l].players[j]);
  }

  lemma WelcomedView(st: State, s: Sid, i: nat)
    requires Structure(st) && Coherent(st) && Views(st) && Enabled(st, Welcome(s))
    requires i < |Home(st, s).players| && Home(st, s).players[i].conn == s
    ensures InLobby(Apply(st, Welcome(s)), s) && i < |Home(Apply(st, Welcome(s)), s).players|
    ensures PlayerView(Apply(st, Welcome(s)), s, i)
  {
    var x, l := st.sessions[s], Home(st, s);
    assert SessionOk(st, s);
    assert ViewOk(st, s) && PlayerView(st, s, i);
    assert EntryOk(st, x.lobby.value, l.players[i]);
    UpdatesGrow(x, Sent(LobbyJoined(x.lobby.value, x.playerId.value), Membership));
    assert Broadcasts(l.history[x.since..|l.history| - 1]) == [];
  }

  lemma WelcomeView(st: State, s: Sid)
    requires Structure(st) && Coherent(st) && Views(st) && Enabled(st, Welcome(s))
    ensures Views(Apply(st, Welcome(s)))
  {
    var r := Apply(st, Welcome(s));
    assert SessionOk(st, s);
    forall t | t in r.sessions ensures ViewOk(r, t) {
      if t == s {
        forall i | 0 <= i < |Home(r, s).players| && Home(r, s).players[i].conn == s ensures PlayerView(r, s, i) {
          WelcomedView(st, s, i);
        }
      } else if InLobby(st, t) {
        assert LobbyOk(st, st.sessions[t].lobby.value);
        ViewFramed(st, r, t);
      }
    }
  }

  lemma BroadcastsGrow(h: seq<seq<Entry>>, since: nat)
    requires since < |h|
    ensures Broadcasts(h[since..|h| - 1]) + [UpdateLobby(h[|h| - 1])] == Broadcasts(h[since..|h|])
  {
  }

  lemma AnnounceView(st: State, s: Sid)
    requires Structure(st) && Coherent(st) && Views(st) && Enabled(st, Announce(s))
    ensures Views(Apply(st, Announce(s)))
  {
    var r := Apply(st, Announce(s));
    forall t | t in r.sessions ensures ViewOk(r, t) {
      AnnounceSessions(st, s, t);
      if InLobby(st, t) {
        if st.sessions[t].lobby == st.sessions[s].lobby {
          AnnounceHere(st, s, t);
        } else {
          AnnounceElsewhere(st, s, t);
        }
      }
    }
  }

  lemma AnnounceSessions(st: State, s: Sid, t: Sid)
    requires Enabled(st, Announce(s)) && t in Apply(st, Announce(s)).sessions
    ensures t in st.sessions && (InLobby(Apply(st, Announce(s)), t) <==> InLobby(st, t))
  {
    var moved := AnnounceEffect(st, s);
  }

  lemma AnnounceHere(st: State, s: Sid, t: Sid)
    requires Structure(st) && Coherent(st) && Views(st) && Enabled(st, Announce(s))
    requires InLobby(st, t) && st.sessions[t].lobby == st.sessions[s].lobby
    ensures t in Apply(st, Announce(s)).sessions && ViewOk(Apply(st, Announce(s)), t)
  {
    var r := Apply(st, Announce(s));
    assert InLobby(r, t) && Home(r, t).players == Home(st, t).players by {
      var moved := AnnounceEffect(st, s);
    }
    forall i | 0 <= i < |Home(r, t).players| && Home(r, t).players[i].conn == t ensures PlayerView(r, t, i) {
      AnnounceViewOf(st, s, t, i);
    }
  }

  lemma AnnounceElsewhere(st: State, s: Sid, t: Sid)
    requires Structure(st) && Coherent(st) && Views(st) && Enabled(st, Announce(s))
    requires InLobby(st, t) && st.sessions[t].lobby != st.sessions[s].lobby
    ensures t in Apply(st, Announce(s)).sessions && ViewOk(Apply(st, Announce(s)), t)
  {
    var moved := AnnounceEffect(st, s);
    var x, l := st.sessions[s], Home(st, s);
    assert LobbyOk(st, st.sessions[t].lobby.value);
    assert EntryOk(st, x.lobby.value, l.players[x.doing.next]);
    ViewFramed(st, Apply(st, Announce(s)), t);
  }

  lemma AnnounceViewOf(st: State, s: Sid, t: Sid, i: nat)
    requires Structure(st) && Coherent(st) && Views(st) && Enabled(st, Announce(s))
    requires InLobby(st, t) && st.sessions[t].lobby == st.sessions[s].lobby
    requires i < |Home(st, t).players| && Home(st, t).players[i].conn == t
    ensures InLobby(Apply(st, Announce(s)), t) && i < |Home(Apply(st, Announce(s)), t).players|
    ensures PlayerView(Apply(st, Announce(s)), t, i)
  {
    assert PlayerView(st, t, i) by { assert ViewOk(st, t); }
    var r := Apply(st, Announce(s));
    AnnounceReaches(st, s, t, i);
    AnnouncedPlayer(st, r, t, i, st.sessions[s].doing.next);
  }

  /** What one iteration of the broadcast does to a member of the lobby. */
  lemma AnnounceReaches(st: State, s: Sid, t: Sid, i: nat)
    requires Structure(st) && Coherent(st) && Enabled(st, Announce(s))
    requires InLobby(st, t) && st.sessions[t].lobby == st.sessions[s].lobby
    requires i < |Home(st, t).players| && Home(st, t).players[i].conn == t
    ensures var r, m := Apply(st, Announce(s)), Sent(UpdateLobby(View(Home(st, s).players)), Membership);
      && r.lobbies == st.lobbies && t in r.sessions && r.sessions.Keys == st.sessions.Keys
      && r.sessions[t] == st.sessions[t].(
           doing := r.sessions[t].doing,
           outbox := st.sessions[t].outbox + if i == st.sessions[s].doing.next then [m] else [])
      && !st.sessions[t].doing.Welcoming? && !r.sessions[t].doing.Welcoming?
      && SentTo(st, st.sessions[t].lobby.value) == st.sessions[s].doing.next
      && SentTo(r, st.sessions[t].lobby.value) == st.sessions[s].doing.next + 1
    ensures var l := Home(st, t); l.history != [] && l.history[|l.history| - 1] == View(l.players)
  {
    var moved := AnnounceEffect(st, s);
    var x, l := st.sessions[s], Home(st, s);
    assert SessionOk(st, s) && SessionOk(st, t);
    if l.players[x.doing.next].conn == t {
      OneIndex(st, x.lobby.value, i, x.doing.next);
    }
  }

  lemma AnnouncedPlayer(st: State, r: State, t: Sid, i: nat, n: nat)
    requires InLobby(st, t) && i < |Home(st, t).players| && PlayerView(st, t, i)
    requires r.lobbies == st.lobbies && t in r.sessions
    requires Home(st, t).history != [] && Home(st, t).history[|Home(st, t).history| - 1] == View(Home(st, t).players)
    requires r.sessions[t] == st.sessions[t].(
               doing := r.sessions[t].doing,
               outbox := st.sessions[t].outbox +
                 if i == n then [Sent(UpdateLobby(View(Home(st, t).players)), Membership)] else [])
    requires !st.sessions[t].doing.Welcoming? && !r.sessions[t].doing.Welcoming?
    requires SentTo(st, st.sessions[t].lobby.value) == n && SentTo(r, st.sessions[t].lobby.value) == n + 1
    ensures PlayerView(r, t, i)
  {
    var x, y, h := st.sessions[t], r.sessions[t], Home(st, t).history;
    if i == n {
      var m := Sent(UpdateLobby(View(Home(st, t).players)), Membership);
      assert Updates(y) == Updates(x) + [m.msg] by {
        UpdatesGrow(x, m);
        UpdatesOf(x.(outbox := x.outbox + [m]), y);
      }
      BroadcastsGrow(h, x.since);
      Assoc([LobbyJoined(x.lobby.value, Home(st, t).players[i].id)], Broadcasts(h[x.since..|h| - 1]), [m.msg]);
    } else {
      UpdatesOf(x, y);
    }
  }

  lemma UpdatesOf(x: Session, y: Session)
    requires x.mark <= |x.outbox| && y.outbox == x.outbox && y.mark == x.mark
    ensures Updates(y) == Updates(x)
  {
  }

  lemma ReleaseView(st: State, s: Sid)
    requires Structure(st) && Coherent(st) && Views(st) && Enabled(st, Release(s))
    ensures Views(Apply(st, Release(s)))
  {
    var r := Apply(st, Release(s));
    forall t | t in r.sessions ensures ViewOk(r, t) {
      if InLobby(r, t) {
        ReleaseSameView(st, s, t);
        ViewFramed(st, r, t);
      }
    }
  }

  /** The writer has sent the last roster to all. */
  lemma ReleaseSameView(st: State, s: Sid, t: Sid)
    requires Structure(st) && Enabled(st, Release(s)) && InLobby(Apply(st, Release(s)), t)
    ensures SameView(st, Apply(st, Release(s)), t)
  {
    assert SessionOk(st, s) && LobbyOk(st, st.sessions[s].lobby.value);
    assert LobbyOk(st, st.sessions[t].lobby.value) && SessionOk(st, t);
  }

  /** A new roster in the history of an unlocked lobby leaves every other member one roster behind. */
  lemma HistoryGrows(st: State, r: State, s: Sid, t: Sid, i: nat, j: nat)
    requires InLobby(st, t) && InLobby(r, t) && t != s && r.sessions[t] == st.sessions[t]
    requires !st.sessions[t].doing.Welcoming?
    requires i < |Home(r, t).players| && j < |Home(st, t).players| && Home(r, t).players[i] == Home(st, t).players[j]
    requires PlayerView(st, t, j) && Home(st, t).writer == None
    requires Home(r, t).history == Home(st, t).history + [View(Home(r, t).players)]
    requires SentTo(r, st.sessions[t].lobby.value) == 0
    ensures PlayerView(r, t, i)
  {
    var h, h' := Home(st, t).history, Home(r, t).history;
    assert h'[st.sessions[t].since..|h|] == h[st.sessions[t].since..|h|];
    var p := Home(r, t).players[i];
    assert View(Home(r, t).players)[i] == Entry(p.id, p.name);
  }

  lemma EnterView(st: State, s: Sid)
    requires Structure(st) && Coherent(st) && Views(st) && Enabled(st, Enter(s)) && Safe(st, Enter(s))
    ensures Views(Apply(st, Enter(s)))
  {
    if st.sessions[s].doing.creating || CanJoin(Home(st, s)) {
      forall t | t in Apply(st, Enter(s)).sessions ensures ViewOk(Apply(st, Enter(s)), t) {
        if t == s {
          NewcomerView(st, s);
        } else {
          AdmitViewOf(st, s, t);
        }
      }
    } else {
      DoingFramed(st, s, Idle);
    }
  }

  lemma NewcomerView(st: State, s: Sid)
    requires Structure(st) && Coherent(st) && Enabled(st, Enter(s)) && st.sessions[s].playerId == None
    requires st.sessions[s].doing.creating || CanJoin(Home(st, s))
    ensures ViewOk(Apply(st, Enter(s)), s)
  {
    var r := Apply(st, Enter(s));
    var x, l := r.sessions[s], Home(r, s);
    forall i | 0 <= i < |l.players| && l.players[i].conn == s ensures PlayerView(r, s, i) {
      assert x.outbox[x.mark..] == [];
      assert View(l.players)[i] == Entry(l.players[i].id, l.players[i].name);
    }
  }

  lemma AdmitViewOf(st: State, s: Sid, t: Sid)
    requires Structure(st) && Coherent(st) && Views(st) && Enabled(st, Enter(s)) && t in st.sessions && t != s
    requires st.sessions[s].playerId == None && (st.sessions[s].doing.creating || CanJoin(Home(st, s)))
    ensures t in Apply(st, Enter(s)).sessions && ViewOk(Apply(st, Enter(s)), t)
  {
    var r := Apply(st, Enter(s));
    if InLobby(st, t) {
      assert LobbyOk(st, st.sessions[t].lobby.value);
      if st.sessions[t].lobby != st.sessions[s].lobby {
        ViewFramed(st, r, t);
      } else {
        forall i | 0 <= i < |Home(r, t).players| && Home(r, t).players[i].conn == t ensures PlayerView(r, t, i) {
          AdmitPlayerView(st, s, t, i);
        }
      }
    }
  }

  lemma AdmitPlayerView(st: State, s: Sid, t: Sid, i: nat)
    requires Structure(st) && Coherent(st) && Views(st) && Enabled(st, Enter(s)) && InLobby(st, t) && t != s
    requires st.sessions[s].playerId == None && (st.sessions[s].doing.creating || CanJoin(Home(st, s)))
    requires st.sessions[t].lobby == st.sessions[s].lobby
    requires InLobby(Apply(st, Enter(s)), t) && i < |Home(Apply(st, Enter(s)), t).players|
    requires Home(Apply(st, Enter(s)), t).players[i].conn == t
    ensures PlayerView(Apply(st, Enter(s)), t, i)
  {
    var r := Apply(st, Enter(s));
    var j := AdmitLeaves(st, s, t, i);
    assert PlayerView(st, t, j) by { assert ViewOk(st, t); }
    HistoryGrows(st, r, s, t, i, j);
  }

  /** What an admission does to another member: nothing but one more roster in the history. */
  lemma AdmitLeaves(st: State, s: Sid, t: Sid, i: nat) returns (j: nat)
    requires Structure(st) && Coherent(st) && Enabled(st, Enter(s)) && InLobby(st, t) && t != s
    requires st.sessions[s].playerId == None && (st.sessions[s].doing.creating || CanJoin(Home(st, s)))
    requires st.sessions[t].lobby == st.sessions[s].lobby
    requires InLobby(Apply(st, Enter(s)), t) && i < |Home(Apply(st, Enter(s)), t).players|
    requires Home(Apply(st, Enter(s)), t).players[i].conn == t
    ensures var r := Apply(st, Enter(s));
      && j < |Home(st, t).players| && Home(r, t).players[i] == Home(st, t).players[j]
      && r.sessions[t] == st.sessions[t] && !st.sessions[t].doing.Welcoming? && Home(st, t).writer == None
      && Home(r, t).history == Home(st, t).history + [View(Home(r, t).players)]
      && SentTo(r, st.sessions[t].lobby.value) == 0
  {
    var r, l := Apply(st, Enter(s)), Home(st, s);
    assert LobbyOk(st, st.sessions[s].lobby.value) && SessionOk(st, t);
    j := AdmitKeepsIndex(l.players, st.sessions[s].doing.name, s, i);
  }

  /** Everyone but the newcomer was in the roster before. */
  lemma AdmitKeepsIndex(ps: seq<Player>, name: Name, s: Sid, i: nat) returns (j: nat)
    requires ValidRoster(ps) && |ps| < MAX_PLAYERS
    requires i < |WithPlayer(ps, name, s)| && WithPlayer(ps, name, s)[i].conn != s
    ensures j < |ps| && WithPlayer(ps, name, s)[i] == ps[j]
  {
    AddKeepsValid(ps, name, s);
    var p := WithPlayer(ps, name, s)[i];
    assert p in WithPlayer(ps, name, s);
    j :| 0 <= j < |ps| && ps[j] == p;
  }

  lemma LeaveView(st: State, s: Sid)
    requires Structure(st) && Coherent(st) && Views(st) && Enabled(st, Leave(s)) && InLobby(st, s)
    ensures Views(Apply(st, Leave(s)))
  {
    var r := Apply(st, Leave(s));
    forall t | t in r.sessions ensures ViewOk(r, t) {
      if InLobby(st, t) {
        if st.sessions[t].lobby != st.sessions[s].lobby {
          LeaveElsewhere(st, s, t);
        } else {
          forall i | 0 <= i < |Home(r, t).players| && Home(r, t).players[i].conn == t ensures PlayerView(r, t, i) {
            LeavePlayerView(st, s, t, i);
          }
        }
      }
    }
  }

  lemma LeaveElsewhere(st: State, s: Sid, t: Sid)
    requires Structure(st) && Views(st) && Enabled(st, Leave(s)) && InLobby(st, s)
    requires InLobby(st, t) && st.sessions[t].lobby != st.sessions[s].lobby
    ensures t in Apply(st, Leave(s)).sessions && ViewOk(Apply(st, Leave(s)), t)
  {
    assert LobbyOk(st, st.sessions[t].lobby.value);
    ViewFramed(st, Apply(st, Leave(s)), t);
  }

  lemma LeavePlayerView(st: State, s: Sid, t: Sid, i: nat)
    requires Structure(st) && Coherent(st) && Enabled(st, Leave(s)) && InLobby(st, s) && InLobby(st, t) && ViewOk(st, t)
    requires st.sessions[t].lobby == st.sessions[s].lobby
    requires InLobby(Apply(st, Leave(s)), t) && i < |Home(Apply(st, Leave(s)), t).players|
    requires Home(Apply(st, Leave(s)), t).players[i].conn == t
    ensures PlayerView(Apply(st, Leave(s)), t, i)
  {
    var j := LeaveLeaves(st, s, t, i);
    assert PlayerView(st, t, j);
    HistoryGrows(st, Apply(st, Leave(s)), s, t, i, j);
  }

  /** What a leave does to a remaining member: nothing but one more roster in the history. */
  lemma LeaveLeaves(st: State, s: Sid, t: Sid, i: nat) returns (j: nat)
    requires Structure(st) && Coherent(st) && Enabled(st, Leave(s)) && InLobby(st, s) && InLobby(st, t)
    requires st.sessions[t].lobby == st.sessions[s].lobby
    requires InLobby(Apply(st, Leave(s)), t) && i < |Home(Apply(st, Leave(s)), t).players|
    requires Home(Apply(st, Leave(s)), t).players[i].conn == t
    ensures var r := Apply(st, Leave(s));
      && t != s && j < |Home(st, t).players| && Home(r, t).players[i] == Home(st, t).players[j]
      && r.sessions[t] == st.sessions[t] && !st.sessions[t].doing.Welcoming? && Home(st, t).writer == None
      && Home(r, t).history == Home(st, t).history + [View(Home(r, t).players)]
      && SentTo(r, st.sessions[t].lobby.value) == 0
  {
    var x, l := st.sessions[s], Home(st, s);
    var gone := IndexOf(l.players, x.playerId.value).value;
    assert LobbyOk(st, x.lobby.value) && SessionOk(st, t);
    j := if i < gone then i else i + 1;
    assert EntryOk(st, x.lobby.value, l.players[j]);
  }

  /** Connections, lookups, locks and the ends of relays. */
  lemma OutsideView(st: State, ev: Event)
    requires Structure(st) && Coherent(st) && Views(st) && Enabled(st, ev) && Safe(st, ev)
    requires ev.Connect? || ev.Disconnect? || ev.Create? || ev.Join?
    ensures Views(Apply(st, ev))
  {
    var r := Apply(st, ev);
    forall t | t in r.sessions ensures ViewOk(r, t) {
      if t == ev.s {
        OutsideOwnView(st, ev);
      } else if InLobby(st, t) {
        OutsideSameView(st, ev, t);
        ViewFramed(st, r, t);
      }
    }
  }

  lemma OutsideSameView(st: State, ev: Event, t: Sid)
    requires Structure(st) && Enabled(st, ev) && (ev.Connect? || ev.Disconnect? || ev.Create? || ev.Join?)
    requires InLobby(st, t) && t != ev.s
    ensures SameView(st, Apply(st, ev), t)
  {
    assert LobbyOk(st, st.sessions[t].lobby.value);
  }

  lemma OutsideOwnView(st: State, ev: Event)
    requires Structure(st) && Coherent(st) && Views(st) && Enabled(st, ev) && Safe(st, ev)
    requires (ev.Connect? || ev.Disconnect? || ev.Create? || ev.Join?) && ev.s in Apply(st, ev).sessions
    ensures ViewOk(Apply(st, ev), ev.s)
  {
    var r, s := Apply(st, ev), ev.s;
    if InLobby(r, s) {
      if !ev.Create? && st.sessions[s].lobby == r.sessions[s].lobby {
        assert LobbyOk(st, st.sessions[s].lobby.value);
        ViewFramed(st, r, s);
      } else {
        forall i | 0 <= i < |Home(r, s).players| ensures Home(r, s).players[i].conn != s {
          assert !ev.Create? ==> EntryOk(st, r.sessions[s].lobby.value, Home(r, s).players[i]);
        }
      }
    }
  }

  lemma LockView(st: State, ev: Event)
    requires Structure(st) && Views(st) && Enabled(st, ev) && (ev.SetLocked? || ev.StartRelay? || ev.EndRelay?)
    ensures Views(Apply(st, ev))
  {
    var r := Apply(st, ev);
    forall t | t in r.sessions ensures ViewOk(r, t) {
      if InLobby(st, t) {
        LockSameView(st, ev, t);
        ViewFramed(st, r, t);
      }
    }
  }

  lemma LockSameView(st: State, ev: Event, t: Sid)
    requires Structure(st) && Enabled(st, ev) && (ev.SetLocked? || ev.StartRelay? || ev.EndRelay?)
    requires InLobby(st, t)
    ensures SameView(st, Apply(st, ev), t)
  {
    assert SessionOk(st, ev.s) && LobbyOk(st, st.sessions[t].lobby.value);
  }

  lemma RelayView(st: State, s: Sid)
    requires Structure(st) && Views(st) && Enabled(st, RelayNext(s))
    ensures Views(Apply(st, RelayNext(s)))
  {
    var x, p := st.sessions[s], Home(st, s).players[st.sessions[s].doing.next];
    var moved := RelayNextEffect(st, s);
    assert Views(moved) by { DoingFramed(st, s, Relaying(x.doing.payload, x.doing.next + 1)); }
    var m := Sent(RelayMessage(x.playerId.value, x.doing.payload), RelayFrom(s));
    assert Views(Post(moved, p.conn, m)) by { PostFramed(moved, p.conn, m); }
  }

  lemma RequestView(st: State, ev: Event)
    requires Structure(st) && Views(st) && Enabled(st, ev) && (ev.Request? || ev.Reply?)
    ensures Views(Apply(st, ev))
  {
    var s := ev.s;
    if ev.Reply? {
      var m := Sent(UpdateLobby(st.sessions[s].doing.roster), Requested);
      assert Views(Doing(st, s, Idle)) by { DoingFramed(st, s, Idle); }
      assert Views(Post(Doing(st, s, Idle), s, m)) by { PostFramed(Doing(st, s, Idle), s, m); }
    } else if InLobby(st, s) {
      DoingFramed(st, s, Replying(View(Home(st, s).players)));
    }
  }

  /** Every safe step keeps every member's view. */
  lemma ViewsKept(st: State, ev: Event)
    requires Structure(st) && Coherent(st) && Views(st) && Enabled(st, ev) && Safe(st, ev)
    ensures Views(Apply(st, ev))
  {
    match ev
    case Connect(_) | Disconnect(_) | Create(_, _, _) | Join(_, _, _) => OutsideView(st, ev);
    case Enter(s) => EnterView(st, s);
    case Welcome(s) => WelcomeView(st, s);
    case Announce(s) => AnnounceView(st, s);
    case Release(s) => ReleaseView(st, s);
    case Leave(s) => if st.sessions[s].lobby.Some? { LeaveView(st, s); }
    case RelayNext(s) => RelayView(st, s);
    case Request(_) | Reply(_) => RequestView(st, ev);
    case SetLocked(_, _) | StartRelay(_, _) | EndRelay(_) => LockView(st, ev);
  }
}
