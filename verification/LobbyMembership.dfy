/** Membership stays coherent through exactly the safe steps. */
module LobbyMembership {
  import opened Bytes
  import opened Roster
  import opened LobbyProtocol
  import opened LobbyInvariants

  /** Same live sessions with the same lobby and id, same rosters. */
  predicate SameMembership(st: State, r: State) {
    && r.sessions.Keys == st.sessions.Keys
    && (forall s :: s in st.sessions ==>
          r.sessions[s].lobby == st.sessions[s].lobby && r.sessions[s].playerId == st.sessions[s].playerId)
    && r.lobbies.Keys == st.lobbies.Keys
    && (forall l :: l in st.lobbies ==> r.lobbies[l].players == st.lobbies[l].players)
  }

  lemma CoherenceFramed(st: State, r: State)
    requires Structure(st) && Coherent(st) && SameMembership(st, r)
    ensures Coherent(r)
  {
    forall s | s in r.sessions ensures MemberOk(r, s) {
      assert MemberOk(st, s);
    }
    forall l, i | l in r.lobbies && 0 <= i < |r.lobbies[l].players| ensures EntryOk(r, l, r.lobbies[l].players[i]) {
      assert EntryOk(st, l, st.lobbies[l].players[i]);
    }
  }

  /** A member's own entry, as an index. */
  lemma OwnEntry(st: State, s: Sid) returns (i: nat)
    requires Coherent(st) && s in st.sessions && st.sessions[s].playerId.Some?
    ensures InLobby(st, s) && i < |Home(st, s).players|
    ensures Home(st, s).players[i].conn == s && st.sessions[s].playerId == Some(Home(st, s).players[i].id)
  {
    assert MemberOk(st, s);
    var j :| 0 <= j < |Home(st, s).players| && Home(st, s).players[j].conn == s
          && Home(st, s).players[j].id == st.sessions[s].playerId.value;
    i := j;
  }

  /** An entry whose live connection points elsewhere breaks coherence. */
  lemma StaleEntry(r: State, l: LobbyId, p: Player)
    requires l in r.lobbies && p in r.lobbies[l].players && p.conn in r.sessions
    requires r.sessions[p.conn].lobby != Some(l) || r.sessions[p.conn].playerId != Some(p.id)
    ensures !Coherent(r)
  {
    var i :| 0 <= i < |r.lobbies[l].players| && r.lobbies[l].players[i] == p;
    assert !EntryOk(r, l, r.lobbies[l].players[i]);
  }

  lemma ConnectCoherent(st: State, s: Sid)
    requires Structure(st) && Coherent(st) && Enabled(st, Connect(s))
    ensures Coherent(Apply(st, Connect(s)))
  {
    var r := Apply(st, Connect(s));
    forall t | t in r.sessions ensures MemberOk(r, t) {
      assert t != s ==> MemberOk(st, t);
    }
    forall l, i | l in r.lobbies && 0 <= i < |r.lobbies[l].players| ensures EntryOk(r, l, r.lobbies[l].players[i]) {
      assert LobbyOk(st, l) && EntryOk(st, l, st.lobbies[l].players[i]);
    }
  }

  lemma DisconnectCoherent(st: State, s: Sid)
    requires Coherent(st) && Enabled(st, Disconnect(s))
    ensures Coherent(Apply(st, Disconnect(s)))
  {
    var r := Apply(st, Disconnect(s));
    forall t | t in r.sessions ensures MemberOk(r, t) {
      assert MemberOk(st, t);
    }
    forall l, i | l in r.lobbies && 0 <= i < |r.lobbies[l].players| ensures EntryOk(r, l, r.lobbies[l].players[i]) {
      assert EntryOk(st, l, st.lobbies[l].players[i]);
    }
  }

  lemma CreateCoherent(st: State, s: Sid, name: Name, l: LobbyId)
    requires Structure(st) && Coherent(st) && Enabled(st, Create(s, name, l))
    ensures Coherent(Apply(st, Create(s, name, l))) <==> st.sessions[s].playerId == None
  {
    var r := Apply(st, Create(s, name, l));
    if st.sessions[s].playerId.Some? {
      var i := OwnEntry(st, s);
      StaleEntry(r, st.sessions[s].lobby.value, Home(st, s).players[i]);
    } else {
      OutsiderMoves(st, r, s, l);
    }
  }

  /** A session that is no member may refer to any lobby. */
  lemma OutsiderMoves(st: State, r: State, s: Sid, l: LobbyId)
    requires Coherent(st) && s in st.sessions && st.sessions[s].playerId == None
    requires r.sessions.Keys == st.sessions.Keys && r.sessions[s].playerId == None
    requires forall t :: t in st.sessions && t != s ==> r.sessions[t] == st.sessions[t]
    requires r.lobbies.Keys == st.lobbies.Keys + {l}
    requires forall k :: k in st.lobbies ==> r.lobbies[k].players == st.lobbies[k].players
    requires l !in st.lobbies ==> r.lobbies[l].players == []
    ensures Coherent(r)
  {
    forall t | t in r.sessions ensures MemberOk(r, t) {
      assert MemberOk(st, t);
    }
    forall k, i | k in r.lobbies && 0 <= i < |r.lobbies[k].players| ensures EntryOk(r, k, r.lobbies[k].players[i]) {
      assert EntryOk(st, k, st.lobbies[k].players[i]);
    }
  }

  lemma JoinCoherent(st: State, s: Sid, name: Name, l: LobbyId)
    requires Structure(st) && Coherent(st) && Enabled(st, Join(s, name, l))
    ensures Coherent(Apply(st, Join(s, name, l))) <==> Safe(st, Join(s, name, l))
  {
    var r := Apply(st, Join(s, name, l));
    var x := st.sessions[s];
    if x.playerId.Some? {
      var i := OwnEntry(st, s);
      if Alive(st, l) && x.lobby == Some(l) {
        CoherenceFramed(st, r);
      } else {
        StaleEntry(r, x.lobby.value, Home(st, s).players[i]);
      }
    } else {
      OutsiderJoins(st, s, name, l);
    }
  }

  lemma OutsiderJoins(st: State, s: Sid, name: Name, l: LobbyId)
    requires Coherent(st) && Enabled(st, Join(s, name, l)) && st.sessions[s].playerId == None
    ensures Coherent(Apply(st, Join(s, name, l)))
  {
    var r := Apply(st, Join(s, name, l));
    forall t | t in r.sessions ensures MemberOk(r, t) {
      assert MemberOk(st, t);
    }
    forall k, i | k in r.lobbies && 0 <= i < |r.lobbies[k].players| ensures EntryOk(r, k, r.lobbies[k].players[i]) {
      assert EntryOk(st, k, st.lobbies[k].players[i]);
    }
  }

  lemma EnterCoherent(st: State, s: Sid)
    requires Structure(st) && Coherent(st) && Enabled(st, Enter(s))
    ensures Coherent(Apply(st, Enter(s))) <==> Safe(st, Enter(s))
  {
    var r := Apply(st, Enter(s));
    var x, l := st.sessions[s], Home(st, s);
    assert LobbyOk(st, x.lobby.value);
    if !(x.doing.creating || CanJoin(l)) {
      CoherenceFramed(st, r);
    } else {
      AddKeepsValid(l.players, x.doing.name, s);
      NextIdSmallestFree(l.players);
      if x.playerId.Some? {
        var i := OwnEntry(st, s);
        StaleEntry(r, x.lobby.value, l.players[i]);
      } else {
        AdmitCoherent(st, s);
      }
    }
  }

  lemma AdmitCoherent(st: State, s: Sid)
    requires Structure(st) && Coherent(st) && Enabled(st, Enter(s)) && st.sessions[s].playerId == None
    requires st.sessions[s].doing.creating || CanJoin(Home(st, s))
    ensures Coherent(Apply(st, Enter(s)))
  {
    var r := Apply(st, Enter(s));
    forall t | t in r.sessions ensures MemberOk(r, t) {
      if t == s {
        AdmittedIn(st, s);
      } else if st.sessions[t].playerId.Some? {
        AdmittedOthersStay(st, s, t);
      }
    }
    forall k, i | k in r.lobbies && 0 <= i < |r.lobbies[k].players| ensures EntryOk(r, k, r.lobbies[k].players[i]) {
      AdmittedEntries(st, s, k, i);
    }
  }

  lemma AdmittedIn(st: State, s: Sid)
    requires Structure(st) && Enabled(st, Enter(s))
    requires st.sessions[s].doing.creating || CanJoin(Home(st, s))
    ensures s in Apply(st, Enter(s)).sessions && MemberOk(Apply(st, Enter(s)), s)
  {
    var x, l := st.sessions[s], Home(st, s);
    assert LobbyOk(st, x.lobby.value);
    AddKeepsValid(l.players, x.doing.name, s);
    EntryFound(WithPlayer(l.players, x.doing.name, s), Player(NextId(l.players), s, x.doing.name));
  }

  lemma AdmittedEntries(st: State, s: Sid, k: LobbyId, i: nat)
    requires Structure(st) && Coherent(st) && Enabled(st, Enter(s)) && st.sessions[s].playerId == None
    requires st.sessions[s].doing.creating || CanJoin(Home(st, s))
    requires var r := Apply(st, Enter(s)); k in r.lobbies && i < |r.lobbies[k].players|
    ensures var r := Apply(st, Enter(s)); EntryOk(r, k, r.lobbies[k].players[i])
  {
    var x, l, p := st.sessions[s], Home(st, s), Apply(st, Enter(s)).lobbies[k].players[i];
    assert LobbyOk(st, x.lobby.value);
    AddKeepsValid(l.players, x.doing.name, s);
    assert p in Apply(st, Enter(s)).lobbies[k].players;
    if p in st.lobbies[k].players {
      var j :| 0 <= j < |st.lobbies[k].players| && st.lobbies[k].players[j] == p;
      assert EntryOk(st, k, st.lobbies[k].players[j]);
    }
  }

  lemma AdmittedOthersStay(st: State, s: Sid, t: Sid)
    requires Structure(st) && Coherent(st) && Enabled(st, Enter(s))
    requires st.sessions[s].doing.creating || CanJoin(Home(st, s))
    requires t in st.sessions && t != s && st.sessions[t].playerId.Some?
    ensures t in Apply(st, Enter(s)).sessions && MemberOk(Apply(st, Enter(s)), t)
  {
    var r := Apply(st, Enter(s));
    assert LobbyOk(st, st.sessions[s].lobby.value);
    AddKeepsValid(Home(st, s).players, st.sessions[s].doing.name, s);
    var i := OwnEntry(st, t);
    assert Home(st, t).players[i] in Home(r, t).players;
    EntryFound(Home(r, t).players, Home(st, t).players[i]);
  }

  lemma EntryFound(ps: seq<Player>, p: Player)
    requires p in ps
    ensures HasEntry(ps, p.conn, p.id)
  {
    var i :| 0 <= i < |ps| && ps[i] == p;
  }

  lemma LeaveCoherent(st: State, s: Sid)
    requires Structure(st) && Coherent(st) && Enabled(st, Leave(s)) && InLobby(st, s)
    ensures Coherent(Apply(st, Leave(s)))
  {
    var r := Apply(st, Leave(s));
    var x, l := st.sessions[s], Home(st, s);
    assert LobbyOk(st, x.lobby.value);
    RemoveKeepsValid(l.players, IndexOf(l.players, x.playerId.value).value);
    forall t | t in r.sessions ensures MemberOk(r, t) {
      if t != s && st.sessions[t].playerId.Some? {
        LeftOthersStay(st, s, t);
      }
    }
    var own := OwnEntry(st, s);
    forall k, i | k in r.lobbies && 0 <= i < |r.lobbies[k].players| ensures EntryOk(r, k, r.lobbies[k].players[i]) {
      var p := r.lobbies[k].players[i];
      assert p in r.lobbies[k].players && p in st.lobbies[k].players;
      var j :| 0 <= j < |st.lobbies[k].players| && st.lobbies[k].players[j] == p;
      assert EntryOk(st, k, st.lobbies[k].players[j]);
    }
  }

  lemma LeftOthersStay(st: State, s: Sid, t: Sid)
    requires Structure(st) && Coherent(st) && Enabled(st, Leave(s)) && InLobby(st, s)
    requires t in st.sessions && t != s && st.sessions[t].playerId.Some?
    ensures t in Apply(st, Leave(s)).sessions && MemberOk(Apply(st, Leave(s)), t)
  {
    var r := Apply(st, Leave(s));
    var x, l := st.sessions[s], Home(st, s);
    assert LobbyOk(st, x.lobby.value);
    var gone := IndexOf(l.players, x.playerId.value).value;
    RemoveKeepsValid(l.players, gone);
    var own := OwnEntry(st, s);
    var i := OwnEntry(st, t);
    assert Home(st, t).players[i] in Home(r, t).players by {
      assert Home(st, t).players[i] in Home(st, t).players;
      assert x.lobby == st.sessions[t].lobby ==> l.players[i].id != l.players[gone].id;
    }
    EntryFound(Home(r, t).players, Home(st, t).players[i]);
  }

  lemma ReleaseCoherent(st: State, s: Sid)
    requires Structure(st) && Coherent(st) && Enabled(st, Release(s))
    ensures Coherent(Apply(st, Release(s)))
  {
    var r := Apply(st, Release(s));
    forall t | t in r.sessions ensures MemberOk(r, t) {
      assert MemberOk(st, t);
    }
    forall k, i | k in r.lobbies && 0 <= i < |r.lobbies[k].players| ensures EntryOk(r, k, r.lobbies[k].players[i]) {
      assert EntryOk(st, k, st.lobbies[k].players[i]);
    }
  }

  /** Every other step leaves membership alone. */
  lemma SteadySteps(st: State, ev: Event)
    requires Enabled(st, ev) && (ev.Welcome? || ev.Request? || ev.Reply?)
    ensures SameMembership(st, Apply(st, ev))
  {
  }

  lemma SteadyLocks(st: State, ev: Event)
    requires Enabled(st, ev) && (ev.SetLocked? || ev.StartRelay? || ev.EndRelay?)
    ensures SameMembership(st, Apply(st, ev))
  {
  }

  lemma SteadyLoops(st: State, ev: Event)
    requires Enabled(st, ev) && (ev.Announce? || ev.RelayNext?)
    ensures SameMembership(st, Apply(st, ev))
  {
    if ev.Announce? {
      var moved := AnnounceEffect(st, ev.s);
    } else {
      var moved := RelayNextEffect(st, ev.s);
    }
  }

  lemma SteadyCoherent(st: State, ev: Event)
    requires Structure(st) && Coherent(st) && Enabled(st, ev)
    requires ev.Welcome? || ev.Request? || ev.Reply? || ev.SetLocked? || ev.StartRelay? || ev.EndRelay?
          || ev.Announce? || ev.RelayNext?
    ensures Coherent(Apply(st, ev))
  {
    assert SameMembership(st, Apply(st, ev)) by {
      match ev
      case Announce(_) | RelayNext(_) => SteadyLoops(st, ev);
      case Welcome(_) | Request(_) | Reply(_) => SteadySteps(st, ev);
      case _ => SteadyLocks(st, ev);
    }
    CoherenceFramed(st, Apply(st, ev));
  }

  /** From a coherent state a step leads to a coherent state exactly when it is safe. */
  lemma CoherentExactly(st: State, ev: Event)
    requires Structure(st) && Coherent(st) && Enabled(st, ev)
    ensures Coherent(Apply(st, ev)) <==> Safe(st, ev)
  {
    match ev
    case Connect(s) => ConnectCoherent(st, s);
    case Disconnect(s) => DisconnectCoherent(st, s);
    case Create(s, name, l) => CreateCoherent(st, s, name, l);
    case Join(s, name, l) => JoinCoherent(st, s, name, l);
    case Enter(s) => EnterCoherent(st, s);
    case Leave(s) => if st.sessions[s].lobby.Some? { LeaveCoherent(st, s); }
    case Release(s) => ReleaseCoherent(st, s);
    case _ => SteadyCoherent(st, ev);
  }
}
