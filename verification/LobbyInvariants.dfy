/** What every step of the lobby protocol keeps: rosters, mutexes, membership, and histories. */
module LobbyInvariants {
  import opened Bytes
  import opened Roster
  import opened LobbyProtocol

  // ---- structure: rosters, mutexes, activities ----

  predicate LobbyOk(st: State, l: LobbyId)
    requires l in st.lobbies
  {
    var x := st.lobbies[l];
    && ValidRoster(x.players)
    && (forall i :: 0 <= i < |x.players| ==> x.players[i].conn in st.used)
    && (if x.history == [] then x.players == [] else x.history[|x.history| - 1] == View(x.players))
    && (x.writer.Some? ==> x.readers == {} && Writing(st, l, x.writer.value))
    && (forall r :: r in x.readers ==> Reading(st, l, r))
  }

  predicate Writing(st: State, l: LobbyId, s: Sid) {
    && s in st.sessions && st.sessions[s].lobby == Some(l)
    && (st.sessions[s].doing.Welcoming? || st.sessions[s].doing.Announcing?)
  }

  predicate Reading(st: State, l: LobbyId, s: Sid) {
    s in st.sessions && st.sessions[s].lobby == Some(l) && st.sessions[s].doing.Relaying?
  }

  predicate SessionOk(st: State, s: Sid)
    requires s in st.sessions
  {
    var x := st.sessions[s];
    && s in st.used && s in st.relays
    && (x.lobby.Some? ==> x.lobby.value in st.lobbies)
    && match x.doing
       case Idle => true
       case Replying(_) => true
       case Entering(_, _) => x.lobby.Some?
       case Welcoming(roster) =>
         InLobby(st, s) && x.playerId.Some? && Home(st, s).writer == Some(s) && roster == View(Home(st, s).players)
       case Announcing(roster, next) =>
         && InLobby(st, s) && Home(st, s).writer == Some(s) && roster == View(Home(st, s).players)
         && next <= |Home(st, s).players|
       case Relaying(_, next) =>
         InLobby(st, s) && x.playerId.Some? && s in Home(st, s).readers && next <= |Home(st, s).players|
  }

  predicate Structure(st: State) {
    && (forall l :: l in st.lobbies ==> LobbyOk(st, l))
    && (forall s :: s in st.sessions ==> SessionOk(st, s))
    && st.relays.Keys == st.used
  }

  // ---- membership ----

  /** A member's entry: its id, over its own connection. */
  predicate HasEntry(ps: seq<Player>, s: Sid, id: nat) {
    exists i :: 0 <= i < |ps| && ps[i].conn == s && ps[i].id == id
  }

  predicate MemberOk(st: State, s: Sid)
    requires s in st.sessions
  {
    st.sessions[s].playerId.Some? ==> InLobby(st, s) && HasEntry(Home(st, s).players, s, st.sessions[s].playerId.value)
  }

  /** An entry whose connection is live is that session's own. */
  predicate EntryOk(st: State, l: LobbyId, p: Player) {
    p.conn in st.sessions ==> st.sessions[p.conn].lobby == Some(l) && st.sessions[p.conn].playerId == Some(p.id)
  }

  /** Sessions and roster entries of live connections correspond one to one. */
  predicate Coherent(st: State) {
    && (forall s :: s in st.sessions ==> MemberOk(st, s))
    && (forall l, i :: l in st.lobbies && 0 <= i < |st.lobbies[l].players| ==> EntryOk(st, l, st.lobbies[l].players[i]))
  }

  /**
   The steps that keep membership coherent. A member must not create a lobby; it may only name its own
   lobby in a join, and that join must then be refused.
   */
  predicate Safe(st: State, ev: Event)
    requires Enabled(st, ev)
  {
    match ev
    case Create(s, _, _) => st.sessions[s].playerId == None
    case Join(s, _, l) => st.sessions[s].playerId == None || (Alive(st, l) && st.sessions[s].lobby == Some(l))
    case Enter(s) =>
      st.sessions[s].playerId == None || !(st.sessions[s].doing.creating || CanJoin(Home(st, s)))
    case _ => true
  }

  // ---- structure is kept by every step ----

  lemma PostStructure(st: State, conn: Sid, m: Sent)
    requires Structure(st)
    ensures Structure(Post(st, conn, m))
  {
  }

  lemma DoingStructure(st: State, s: Sid, a: Activity)
    requires Structure(st) && s in st.sessions
    requires SessionOk(Doing(st, s, a), s)
    requires InLobby(st, s) && Home(st, s).writer == Some(s) ==> a.Welcoming? || a.Announcing?
    requires InLobby(st, s) && s in Home(st, s).readers ==> a.Relaying?
    ensures Structure(Doing(st, s, a))
  {
  }

  /** An idle or entering session holds no mutex. */
  lemma HoldsNothing(st: State, s: Sid)
    requires Structure(st) && s in st.sessions
    requires st.sessions[s].doing.Idle? || st.sessions[s].doing.Entering? || st.sessions[s].doing.Replying?
    ensures forall l :: l in st.lobbies ==> st.lobbies[l].writer != Some(s) && s !in st.lobbies[l].readers
  {
    forall l | l in st.lobbies ensures st.lobbies[l].writer != Some(s) && s !in st.lobbies[l].readers {
      assert LobbyOk(st, l);
    }
  }

  lemma ConnectStructure(st: State, s: Sid)
    requires Structure(st) && Enabled(st, Connect(s))
    ensures Structure(Apply(st, Connect(s)))
  {
    var r := Apply(st, Connect(s));
    forall t | t in r.sessions ensures SessionOk(r, t) {
      assert t != s ==> SessionOk(st, t);
    }
  }

  lemma DisconnectStructure(st: State, s: Sid)
    requires Structure(st) && Enabled(st, Disconnect(s))
    ensures Structure(Apply(st, Disconnect(s)))
  {
    HoldsNothing(st, s);
    var r := Apply(st, Disconnect(s));
    forall l | l in r.lobbies ensures LobbyOk(r, l) {
      assert LobbyOk(st, l);
    }
    forall t | t in r.sessions ensures SessionOk(r, t) {
      assert SessionOk(st, t);
    }
  }

  lemma CreateStructure(st: State, s: Sid, name: Name, l: LobbyId)
    requires Structure(st) && Enabled(st, Create(s, name, l))
    ensures Structure(Apply(st, Create(s, name, l)))
  {
    HoldsNothing(st, s);
    var r := Apply(st, Create(s, name, l));
    forall k | k in r.lobbies ensures LobbyOk(r, k) {
      assert k != l ==> LobbyOk(st, k);
    }
    forall t | t in r.sessions ensures SessionOk(r, t) {
      assert SessionOk(st, t);
    }
  }

  lemma JoinStructure(st: State, s: Sid, name: Name, l: LobbyId)
    requires Structure(st) && Enabled(st, Join(s, name, l))
    ensures Structure(Apply(st, Join(s, name, l)))
  {
    var r := Apply(st, Join(s, name, l));
    forall k | k in r.lobbies ensures LobbyOk(r, k) {
      JoinLobbyOk(st, s, name, l, k);
    }
    forall t | t in r.sessions ensures SessionOk(r, t) {
      JoinSessionOk(st, s, name, l, t);
    }
  }

  lemma JoinSessionOk(st: State, s: Sid, name: Name, l: LobbyId, t: Sid)
    requires Structure(st) && Enabled(st, Join(s, name, l)) && t in st.sessions
    ensures t in Apply(st, Join(s, name, l)).sessions && SessionOk(Apply(st, Join(s, name, l)), t)
  {
    HoldsNothing(st, s);
    assert SessionOk(st, t);
  }

  lemma JoinLobbyOk(st: State, s: Sid, name: Name, l: LobbyId, k: LobbyId)
    requires Structure(st) && Enabled(st, Join(s, name, l)) && k in st.lobbies
    ensures k in Apply(st, Join(s, name, l)).lobbies && LobbyOk(Apply(st, Join(s, name, l)), k)
  {
    HoldsNothing(st, s);
    assert LobbyOk(st, k);
  }

  /** A new writer with a new valid roster. */
  lemma ExclusiveStructure(st: State, s: Sid, ps: seq<Player>, x: Session)
    requires Structure(st) && InLobby(st, s) && Exclusive(Home(st, s))
    requires st.sessions[s].doing.Idle? || st.sessions[s].doing.Entering?
    requires ValidRoster(ps) && forall p :: p in ps ==> p.conn in st.used
    requires x.lobby == st.sessions[s].lobby
    requires (x.doing == Welcoming(View(ps)) && x.playerId.Some?) || x.doing == Announcing(View(ps), 0)
    ensures var l := Home(st, s);
      Structure(WithSession(WithLobby(st, x.lobby.value,
        l.(players := ps, writer := Some(s), history := l.history + [View(ps)])), s, x))
  {
    var l, k := Home(st, s), x.lobby.value;
    HoldsNothing(st, s);
    var l' := l.(players := ps, writer := Some(s), history := l.history + [View(ps)]);
    var r := WithSession(WithLobby(st, k, l'), s, x);
    assert LobbyOk(st, k);
    forall j | j in r.lobbies ensures LobbyOk(r, j) {
      assert LobbyOk(st, j);
    }
    forall t | t in r.sessions ensures SessionOk(r, t) {
      assert SessionOk(st, t);
    }
  }

  lemma EnterStructure(st: State, s: Sid)
    requires Structure(st) && Enabled(st, Enter(s))
    ensures Structure(Apply(st, Enter(s)))
  {
    var x, l := st.sessions[s], Home(st, s);
    assert LobbyOk(st, x.lobby.value) && SessionOk(st, s);
    if x.doing.creating || CanJoin(l) {
      AddKeepsValid(l.players, x.doing.name, s);
      var ps := WithPlayer(l.players, x.doing.name, s);
      ExclusiveStructure(st, s, ps,
        x.(playerId := Some(NextId(l.players)), doing := Welcoming(View(ps)),
           mark := |x.outbox|, since := |l.history|));
    } else {
      HoldsNothing(st, s);
      DoingStructure(st, s, Idle);
    }
  }

  lemma LeaveStructure(st: State, s: Sid)
    requires Structure(st) && Enabled(st, Leave(s)) && InLobby(st, s)
    ensures Structure(Apply(st, Leave(s)))
  {
    var x, l := st.sessions[s], Home(st, s);
    assert LobbyOk(st, x.lobby.value);
    var i := IndexOf(l.players, x.playerId.value).value;
    RemoveKeepsValid(l.players, i);
    ExclusiveStructure(st, s, WithoutIndex(l.players, i),
      x.(playerId := None, doing := Announcing(View(WithoutIndex(l.players, i)), 0)));
  }

  lemma ReleaseStructure(st: State, s: Sid)
    requires Structure(st) && Enabled(st, Release(s))
    ensures Structure(Apply(st, Release(s)))
  {
    var r := Apply(st, Release(s));
    assert SessionOk(st, s);
    forall j | j in r.lobbies ensures LobbyOk(r, j) {
      assert LobbyOk(st, j);
    }
    forall t | t in r.sessions ensures SessionOk(r, t) {
      assert SessionOk(st, t);
    }
  }

  lemma SetLockedStructure(st: State, s: Sid, locked: bool)
    requires Structure(st) && Enabled(st, SetLocked(s, locked))
    ensures Structure(Apply(st, SetLocked(s, locked)))
  {
    var r := Apply(st, SetLocked(s, locked));
    forall j | j in r.lobbies ensures LobbyOk(r, j) {
      SetLockedLobbyOk(st, s, locked, j);
    }
    forall t | t in r.sessions ensures SessionOk(r, t) {
      SetLockedSessionOk(st, s, locked, t);
    }
  }

  lemma SetLockedLobbyOk(st: State, s: Sid, locked: bool, j: LobbyId)
    requires Structure(st) && Enabled(st, SetLocked(s, locked)) && j in st.lobbies
    ensures j in Apply(st, SetLocked(s, locked)).lobbies && LobbyOk(Apply(st, SetLocked(s, locked)), j)
  {
    assert LobbyOk(st, j);
  }

  lemma SetLockedSessionOk(st: State, s: Sid, locked: bool, t: Sid)
    requires Structure(st) && Enabled(st, SetLocked(s, locked)) && t in st.sessions
    ensures t in Apply(st, SetLocked(s, locked)).sessions && SessionOk(Apply(st, SetLocked(s, locked)), t)
  {
    assert SessionOk(st, t);
  }

  lemma RelayStructure(st: State, s: Sid, payload: bytes)
    requires Structure(st) && Enabled(st, StartRelay(s, payload)) && InLobby(st, s)
    ensures Structure(Apply(st, StartRelay(s, payload)))
  {
    var r := Apply(st, StartRelay(s, payload));
    forall k | k in r.lobbies ensures LobbyOk(r, k) {
      RelayLobbyOk(st, s, payload, k);
    }
    forall t | t in r.sessions ensures SessionOk(r, t) {
      HoldsNothing(st, s);
      assert SessionOk(st, t);
    }
  }

  lemma RelayLobbyOk(st: State, s: Sid, payload: bytes, k: LobbyId)
    requires Structure(st) && Enabled(st, StartRelay(s, payload)) && InLobby(st, s) && k in st.lobbies
    ensures k in Apply(st, StartRelay(s, payload)).lobbies && LobbyOk(Apply(st, StartRelay(s, payload)), k)
  {
    HoldsNothing(st, s);
    assert LobbyOk(st, k);
  }

  lemma EndRelayStructure(st: State, s: Sid)
    requires Structure(st) && Enabled(st, EndRelay(s))
    ensures Structure(Apply(st, EndRelay(s)))
  {
    var r := Apply(st, EndRelay(s));
    assert SessionOk(st, s);
    forall j | j in r.lobbies ensures LobbyOk(r, j) {
      assert LobbyOk(st, j);
    }
    forall t | t in r.sessions ensures SessionOk(r, t) {
      assert SessionOk(st, t);
    }
  }

  lemma WelcomeStructure(st: State, s: Sid)
    requires Structure(st) && Enabled(st, Welcome(s))
    ensures Structure(Apply(st, Welcome(s)))
  {
    var x := st.sessions[s];
    assert SessionOk(st, s);
    DoingStructure(st, s, Announcing(x.doing.roster, 0));
    PostStructure(Doing(st, s, Announcing(x.doing.roster, 0)), s,
                  Sent(LobbyJoined(x.lobby.value, x.playerId.value), Membership));
  }

  /** One iteration of `sendToAll`, as a move of the loop and a post. */
  lemma AnnounceEffect(st: State, s: Sid) returns (moved: State)
    requires Enabled(st, Announce(s))
    ensures var d := st.sessions[s].doing;
      && moved == Doing(st, s, Announcing(d.roster, d.next + 1))
      && Apply(st, Announce(s)) ==
         Post(moved, Home(st, s).players[d.next].conn, Sent(UpdateLobby(d.roster), Membership))
  {
    var d := st.sessions[s].doing;
    moved := Doing(st, s, Announcing(d.roster, d.next + 1));
  }

  lemma AnnounceStructure(st: State, s: Sid)
    requires Structure(st) && Enabled(st, Announce(s))
    ensures Structure(Apply(st, Announce(s)))
  {
    var d := st.sessions[s].doing;
    var moved := AnnounceEffect(st, s);
    assert Structure(moved) by { AnnounceMovedStructure(st, s); }
    PostStructure(moved, Home(st, s).players[d.next].conn, Sent(UpdateLobby(d.roster), Membership));
  }

  lemma AnnounceMovedStructure(st: State, s: Sid)
    requires Structure(st) && Enabled(st, Announce(s))
    ensures Structure(Doing(st, s, Announcing(st.sessions[s].doing.roster, st.sessions[s].doing.next + 1)))
  {
    var d := st.sessions[s].doing;
    assert SessionOk(st, s);
    assert LobbyOk(st, st.sessions[s].lobby.value);
    DoingStructure(st, s, Announcing(d.roster, d.next + 1));
  }

  /** One iteration of the relay loop: the sender's own id is skipped. */
  lemma RelayNextEffect(st: State, s: Sid) returns (moved: State)
    requires Enabled(st, RelayNext(s))
    ensures var x, p := st.sessions[s], Home(st, s).players[st.sessions[s].doing.next];
      && moved == Doing(st, s, Relaying(x.doing.payload, x.doing.next + 1))
      && Apply(st, RelayNext(s)) ==
         if p.id == x.playerId.value then moved
         else Post(moved, p.conn, Sent(RelayMessage(x.playerId.value, x.doing.payload), RelayFrom(s)))
  {
    var x := st.sessions[s];
    moved := Doing(st, s, Relaying(x.doing.payload, x.doing.next + 1));
  }

  lemma RelayNextStructure(st: State, s: Sid)
    requires Structure(st) && Enabled(st, RelayNext(s))
    ensures Structure(Apply(st, RelayNext(s)))
  {
    var x, p := st.sessions[s], Home(st, s).players[st.sessions[s].doing.next];
    var moved := RelayNextEffect(st, s);
    assert Structure(moved) by { RelayMovedStructure(st, s); }
    if p.id != x.playerId.value {
      PostStructure(moved, p.conn, Sent(RelayMessage(x.playerId.value, x.doing.payload), RelayFrom(s)));
    }
  }

  lemma RelayMovedStructure(st: State, s: Sid)
    requires Structure(st) && Enabled(st, RelayNext(s))
    ensures Structure(Doing(st, s, Relaying(st.sessions[s].doing.payload, st.sessions[s].doing.next + 1)))
  {
    var x := st.sessions[s];
    assert SessionOk(st, s);
    assert LobbyOk(st, x.lobby.value);
    DoingStructure(st, s, Relaying(x.doing.payload, x.doing.next + 1));
  }

  lemma RequestStructure(st: State, ev: Event)
    requires Structure(st) && Enabled(st, ev) && (ev.Request? || ev.Reply?)
    ensures Structure(Apply(st, ev))
  {
    var s := ev.s;
    var x := st.sessions[s];
    assert SessionOk(st, s);
    HoldsNothing(st, s);
    if ev.Reply? {
      DoingStructure(st, s, Idle);
      PostStructure(Doing(st, s, Idle), s, Sent(UpdateLobby(x.doing.roster), Requested));
    } else if InLobby(st, s) {
      DoingStructure(st, s, Replying(View(Home(st, s).players)));
    }
  }

  lemma StructureKept(st: State, ev: Event)
    requires Structure(st) && Enabled(st, ev)
    ensures Structure(Apply(st, ev))
  {
    match ev
    case Connect(s) => ConnectStructure(st, s);
    case Disconnect(s) => DisconnectStructure(st, s);
    case Create(s, name, l) => CreateStructure(st, s, name, l);
    case Join(s, name, l) => JoinStructure(st, s, name, l);
    case Enter(s) => EnterStructure(st, s);
    case Release(s) => ReleaseStructure(st, s);
    case Leave(s) => if st.sessions[s].lobby.Some? { LeaveStructure(st, s); }
    case SetLocked(s, locked) => SetLockedStructure(st, s, locked);
    case StartRelay(s, payload) => if st.sessions[s].lobby.Some? { RelayStructure(st, s, payload); }
    case EndRelay(s) => EndRelayStructure(st, s);
    case Request(_) | Reply(_) => RequestStructure(st, ev);
    case Welcome(s) => WelcomeStructure(st, s);
    case Announce(s) => AnnounceStructure(st, s);
    case RelayNext(s) => RelayNextStructure(st, s);
  }
}
