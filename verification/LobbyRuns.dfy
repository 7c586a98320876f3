/** The lobby protocol over whole runs: what holds in every state a list of steps can reach. */
module LobbyRuns {
  import opened Bytes
  import opened Roster
  import opened LobbyProtocol
  import opened LobbyInvariants
  import opened LobbyMembership
  import opened LobbyViews
  import opened LobbyRelays

  /** A run whose steps are all safe: no member creates, and a member only joins where it is refused. */
  predicate SafeRun(evs: seq<Event>) {
    evs == [] ||
    var init, last := evs[..|evs| - 1], evs[|evs| - 1];
    SafeRun(init) && Run(init).Some? && Enabled(Run(init).value, last) && Safe(Run(init).value, last)
  }

  ghost predicate Inv(st: State) {
    Structure(st) && Coherent(st) && Views(st) && Relays(st)
  }

  lemma {:induction false} RunsAreStructured(evs: seq<Event>)
    requires Run(evs).Some?
    ensures Structure(Run(evs).value)
  {
    if evs != [] {
      RunsAreStructured(evs[..|evs| - 1]);
      StructureKept(Run(evs[..|evs| - 1]).value, evs[|evs| - 1]);
    }
  }

  lemma InitiallyOk()
    ensures Inv(INIT)
  {
    forall s: Sid ensures LogOk(LogOf(INIT, s), s, INIT.used) {
      assert LogOf(INIT, s) == [];
    }
  }

  lemma {:induction false} SafeRunsKeepAll(evs: seq<Event>)
    requires SafeRun(evs)
    ensures Run(evs).Some? && Inv(Run(evs).value)
  {
    if evs == [] {
      InitiallyOk();
    } else {
      var init, ev := evs[..|evs| - 1], evs[|evs| - 1];
      SafeRunsKeepAll(init);
      var st := Run(init).value;
      StructureKept(st, ev);
      CoherentExactly(st, ev);
      ViewsKept(st, ev);
      RelaysKept(st, ev);
    }
  }

  /** The membership is coherent after the first `k` steps. */
  ghost predicate CoherentAt(evs: seq<Event>, k: nat) {
    k <= |evs| && Run(evs[..k]).Some? && Coherent(Run(evs[..k]).value)
  }

  /** A run is coherent after each of its steps exactly when each of its steps is safe. */
  lemma {:induction false} CoherentRunsExactly(evs: seq<Event>)
    requires Run(evs).Some?
    ensures SafeRun(evs) <==> forall k: nat :: k <= |evs| ==> CoherentAt(evs, k)
  {
    assert evs[..|evs|] == evs;
    if evs != [] {
      var n: nat, init := |evs| - 1, evs[..|evs| - 1];
      CoherentRunsExactly(init);
      RunsAreStructured(init);
      assert init[..n] == init;
      forall k: nat | k <= n ensures CoherentAt(init, k) <==> CoherentAt(evs, k) {
        assert init[..k] == evs[..k];
      }
      if CoherentAt(evs, n) {
        CoherentExactly(Run(init).value, evs[n]);
      }
      assert CoherentAt(evs, |evs|) <==> Coherent(Run(evs).value);
    }
  }

  // ---- rosters ----

  /** In every run, safe or not, rosters stay sorted, small and with distinct ids, and have one master. */
  lemma RostersInRuns(evs: seq<Event>, l: LobbyId)
    requires Run(evs).Some? && l in Run(evs).value.lobbies
    ensures ValidRoster(Run(evs).value.lobbies[l].players)
    ensures var ps := Run(evs).value.lobbies[l].players;
      forall id: nat :: IsMaster(ps, id) <==> HasId(ps, id) && forall k: nat :: HasId(ps, k) ==> id <= k
  {
    RunsAreStructured(evs);
    assert LobbyOk(Run(evs).value, l);
    OneMaster(Run(evs).value.lobbies[l].players);
  }

  /**
   Who gets in, in any run: an entry that has the mutex adds its player, over its connection, with a free id and
   under its name, exactly if the lobby is unlocked and has fewer than 255 players; a locked or full lobby stays as
   it is. The entry of a creator does not look at the lock.
   */
  lemma EnterExactly(evs: seq<Event>, s: Sid)
    requires Run(evs).Some? && InLobby(Run(evs).value, s) && Run(evs).value.sessions[s].doing.Entering?
    requires Home(Run(evs).value, s).writer == None && Home(Run(evs).value, s).readers == {}
    ensures var st, x, l := Run(evs).value, Run(evs).value.sessions[s], Home(Run(evs).value, s);
      var adds := |l.players| < 255 && (x.doing.creating || !l.locked);
      && (Enabled(st, Enter(s)) <==> !x.doing.creating || |l.players| < 255)
      && (Enabled(st, Enter(s)) ==>
            var r := Apply(st, Enter(s)); var ps := r.lobbies[x.lobby.value].players;
            if adds then
              && |ps| == |l.players| + 1 && r.sessions[s].playerId.Some?
              && var id := r.sessions[s].playerId.value;
                 && !HasId(l.players, id)
                 && forall p: Player :: p in ps <==> p in l.players || p == Player(id, s, x.doing.name)
            else r.lobbies == st.lobbies && r.sessions[s] == x.(doing := Idle))
  {
    var st, x, l := Run(evs).value, Run(evs).value.sessions[s], Home(Run(evs).value, s);
    RunsAreStructured(evs);
    assert LobbyOk(st, x.lobby.value);
    if |l.players| < 255 {
      AddKeepsValid(l.players, x.doing.name, s);
      NextIdSmallestFree(l.players);
    }
  }

  /** A lobby's history lists the roster after each change of it; only entries and leaves change it. */
  lemma HistoryRecords(st: State, ev: Event, l: LobbyId)
    requires Enabled(st, ev) && l in st.lobbies
    ensures var r := Apply(st, ev);
      && l in r.lobbies
      && (r.lobbies[l].players != st.lobbies[l].players ==> ev.Enter? || ev.Leave?)
      && if ev.Leave? || ev.Enter? then
           || r.lobbies[l] == st.lobbies[l]
           || r.lobbies[l].history == st.lobbies[l].history + [View(r.lobbies[l].players)]
         else r.lobbies[l].players == st.lobbies[l].players && r.lobbies[l].history == st.lobbies[l].history
  {
    if ev.Announce? {
      var moved := AnnounceEffect(st, ev.s);
    } else if ev.RelayNext? {
      var moved := RelayNextEffect(st, ev.s);
    }
  }

  /** Connecting adds a session without lobby, id and messages; disconnecting takes one away; lobbies stay. */
  lemma ComingAndGoing(st: State, s: Sid)
    ensures Enabled(st, Connect(s)) ==>
      var r := Apply(st, Connect(s));
      && r.lobbies == st.lobbies && r.sessions.Keys == st.sessions.Keys + {s}
      && r.sessions[s].lobby == None && r.sessions[s].playerId == None && r.sessions[s].outbox == []
      && forall t :: t in st.sessions && t != s ==> r.sessions[t] == st.sessions[t]
    ensures Enabled(st, Disconnect(s)) ==>
      var r := Apply(st, Disconnect(s));
      && r.lobbies == st.lobbies && r.sessions.Keys == st.sessions.Keys - {s}
      && forall t :: t in st.sessions && t != s ==> r.sessions[t] == st.sessions[t]
  {
  }

  // ---- membership ----

  predicate IsEntryOf(st: State, s: Sid, l: LobbyId, i: nat)
    requires l in st.lobbies && i < |st.lobbies[l].players|
  {
    st.lobbies[l].players[i].conn == s
  }

  /** A live session that has an id has exactly one entry anywhere, in its own lobby and under its id. */
  lemma OneEntryEach(evs: seq<Event>, s: Sid) returns (i: nat)
    requires SafeRun(evs) && Run(evs).Some? && s in Run(evs).value.sessions
    requires Run(evs).value.sessions[s].playerId.Some?
    ensures var st := Run(evs).value;
      && InLobby(st, s) && i < |Home(st, s).players|
      && Home(st, s).players[i].conn == s && Some(Home(st, s).players[i].id) == st.sessions[s].playerId
      && forall l, j: nat :: l in st.lobbies && j < |st.lobbies[l].players| ==>
           (IsEntryOf(st, s, l, j) <==> st.sessions[s].lobby == Some(l) && j == i)
  {
    SafeRunsKeepAll(evs);
    var st := Run(evs).value;
    i := OwnEntry(st, s);
    forall l, j: nat | l in st.lobbies && j < |st.lobbies[l].players|
      ensures IsEntryOf(st, s, l, j) <==> st.sessions[s].lobby == Some(l) && j == i
    {
      assert EntryOk(st, l, st.lobbies[l].players[j]);
      if IsEntryOf(st, s, l, j) {
        OneIndex(st, l, i, j);
      }
    }
  }

  /** A live session without an id has no entry in any roster. */
  lemma OutsidersHaveNone(evs: seq<Event>, s: Sid)
    requires SafeRun(evs) && Run(evs).Some? && s in Run(evs).value.sessions
    requires Run(evs).value.sessions[s].playerId == None
    ensures var st := Run(evs).value;
      forall l, j: nat :: l in st.lobbies && j < |st.lobbies[l].players| ==> !IsEntryOf(st, s, l, j)
  {
    SafeRunsKeepAll(evs);
    var st := Run(evs).value;
    forall l, j: nat | l in st.lobbies && j < |st.lobbies[l].players| ensures !IsEntryOf(st, s, l, j) {
      assert EntryOk(st, l, st.lobbies[l].players[j]);
    }
  }

  /** Leaving takes out the leaver's own entry and keeps every other, in every lobby. */
  lemma LeavingRemovesOwn(evs: seq<Event>, s: Sid)
    requires SafeRun(evs) && Run(evs).Some? && Enabled(Run(evs).value, Leave(s)) && InLobby(Run(evs).value, s)
    ensures var st, r := Run(evs).value, Apply(Run(evs).value, Leave(s));
      && r.lobbies.Keys == st.lobbies.Keys
      && forall l, p: Player :: l in st.lobbies ==>
           (p in r.lobbies[l].players <==>
              p in st.lobbies[l].players && !(p.conn == s && st.sessions[s].lobby == Some(l)))
  {
    var i := OneEntryEach(evs, s);
    var st, l := Run(evs).value, Run(evs).value.sessions[s].lobby.value;
    forall p: Player | p in st.lobbies[l].players ensures p.id == st.sessions[s].playerId.value <==> p.conn == s {
      RostersInRuns(evs, l);
      var j :| 0 <= j < |st.lobbies[l].players| && st.lobbies[l].players[j] == p;
      assert IsEntryOf(st, s, l, j) <==> j == i;
    }
    RostersInRuns(evs, l);
    RemoveKeepsValid(st.lobbies[l].players, IndexOf(st.lobbies[l].players, st.sessions[s].playerId.value).value);
  }

  /** A session with an id always finds its player. */
  lemma HandlersFindTheirPlayer(evs: seq<Event>, s: Sid)
    requires SafeRun(evs) && Run(evs).Some? && s in Run(evs).value.sessions
    requires Run(evs).value.sessions[s].playerId.Some?
    ensures InLobby(Run(evs).value, s)
    ensures HasId(Home(Run(evs).value, s).players, Run(evs).value.sessions[s].playerId.value)
  {
    var i := OneEntryEach(evs, s);
  }

  // ---- failing handlers ----

  /** An entry of a session without an id into a lobby that cannot be joined. */
  predicate EntryRefused(st: State, s: Sid) {
    && InLobby(st, s) && st.sessions[s].doing.Entering? && st.sessions[s].playerId == None
    && !st.sessions[s].doing.creating && !CanJoin(Home(st, s))
  }

  /**
   The last of the session's messages that create, join or leave was a join, made without an id, that was
   refused by `canJoin`.
   */
  predicate LastJoinRefused(evs: seq<Event>, s: Sid)
    requires Run(evs).Some?
  {
    if evs == [] then false else
    var init, ev := evs[..|evs| - 1], evs[|evs| - 1];
    match ev
    case Enter(t) => if t == s then EntryRefused(Run(init).value, s) else LastJoinRefused(init, s)
    case Connect(t) => t != s && LastJoinRefused(init, s)
    case Create(t, _, _) => t != s && LastJoinRefused(init, s)
    case Join(t, _, _) => t != s && LastJoinRefused(init, s)
    case Leave(t) => t != s && LastJoinRefused(init, s)
    case _ => LastJoinRefused(init, s)
  }

  /** A lobby without an id, between handlers; a reply to a roster request counts as between. */
  predicate Stranded(st: State, s: Sid)
    requires s in st.sessions
  {
    var x := st.sessions[s];
    x.lobby.Some? && x.playerId == None && (x.doing.Idle? || x.doing.Replying?)
  }

  lemma OthersStay(st: State, ev: Event, s: Sid)
    requires Enabled(st, ev) && ev.s != s && s in Apply(st, ev).sessions
    ensures s in st.sessions
    ensures var x, y := st.sessions[s], Apply(st, ev).sessions[s];
      y.lobby == x.lobby && y.playerId == x.playerId && y.doing == x.doing
  {
    if ev.Announce? {
      var moved := AnnounceEffect(st, ev.s);
    } else if ev.RelayNext? {
      var moved := RelayNextEffect(st, ev.s);
    }
  }

  /** What one step of the session itself does to being stranded. */
  lemma StrandedStep(st: State, ev: Event)
    requires Structure(st) && Enabled(st, ev) && ev.s in Apply(st, ev).sessions
    ensures Stranded(Apply(st, ev), ev.s) <==>
      match ev
      case Enter(s) => EntryRefused(st, s)
      case Connect(_) | Create(_, _, _) | Join(_, _, _) | Leave(_) => false
      case _ => ev.s in st.sessions && Stranded(st, ev.s)
  {
    assert ev.s in st.sessions ==> SessionOk(st, ev.s);
    if ev.Announce? || ev.RelayNext? {
      NotStrandedInLoops(st, ev);
    }
  }

  lemma NotStrandedInLoops(st: State, ev: Event)
    requires Enabled(st, ev) && (ev.Announce? || ev.RelayNext?) && ev.s in Apply(st, ev).sessions
    ensures !Stranded(st, ev.s) && !Stranded(Apply(st, ev), ev.s)
  {
    if ev.Announce? {
      var moved := AnnounceEffect(st, ev.s);
    } else {
      var moved := RelayNextEffect(st, ev.s);
    }
  }

  /** In every run a session is stranded exactly when its last join was refused. */
  lemma {:induction false} StrandedExactly(evs: seq<Event>, s: Sid)
    requires Run(evs).Some? && s in Run(evs).value.sessions
    ensures Stranded(Run(evs).value, s) <==> LastJoinRefused(evs, s)
  {
    if evs != [] {
      var init, ev := evs[..|evs| - 1], evs[|evs| - 1];
      var st := Run(init).value;
      RunsAreStructured(init);
      if ev.s == s {
        StrandedStep(st, ev);
      } else {
        OthersStay(st, ev, s);
      }
      if s in st.sessions {
        StrandedExactly(init, s);
      }
    }
  }

  /**
   Over safe runs, the next sendMessage, lock or unlock of a session between handlers fails if and only if its
   last join was refused; so does its next leave, once it gets the mutex.
   */
  lemma HandlersFailExactly(evs: seq<Event>, s: Sid)
    requires SafeRun(evs) && Run(evs).Some? && IdleSession(Run(evs).value, s)
    ensures forall locked :: Attempt(Run(evs).value, SetLocked(s, locked)).Fails? <==> LastJoinRefused(evs, s)
    ensures forall payload :: Attempt(Run(evs).value, StartRelay(s, payload)).Fails? <==> LastJoinRefused(evs, s)
    ensures Attempt(Run(evs).value, Leave(s)).Fails? <==>
      LastJoinRefused(evs, s) && InLobby(Run(evs).value, s) && Exclusive(Home(Run(evs).value, s))
    ensures LastJoinRefused(evs, s) ==> InLobby(Run(evs).value, s)
  {
    var st := Run(evs).value;
    StrandedExactly(evs, s);
    assert st.sessions[s].lobby.Some? ==> InLobby(st, s) by {
      RunsAreStructured(evs);
      assert SessionOk(st, s);
    }
    if st.sessions[s].playerId.Some? {
      HandlersFindTheirPlayer(evs, s);
    }
    forall locked ensures Attempt(st, SetLocked(s, locked)).Fails? <==> Stranded(st, s) {
      AttemptsFail(st, s, SetLocked(s, locked));
    }
    forall payload ensures Attempt(st, StartRelay(s, payload)).Fails? <==> Stranded(st, s) {
      AttemptsFail(st, s, StartRelay(s, payload));
    }
    AttemptsFail(st, s, Leave(s));
  }

  lemma AttemptsFail(st: State, s: Sid, ev: Event)
    requires IdleSession(st, s) && (st.sessions[s].lobby.Some? ==> InLobby(st, s))
    requires st.sessions[s].playerId.Some? && InLobby(st, s) ==>
      HasId(Home(st, s).players, st.sessions[s].playerId.value)
    requires ev.s == s && (ev.SetLocked? || ev.StartRelay? || ev.Leave?)
    ensures Attempt(st, ev).Fails? <==>
      Stranded(st, s) && (ev.Leave? ==> InLobby(st, s) && Exclusive(Home(st, s)))
  {
  }

  // ---- progress ----

  /** A session that holds a lobby's mutex alone can take its next step, whatever the others do. */
  lemma WriterGoesOn(evs: seq<Event>, l: LobbyId, s: Sid)
    requires Run(evs).Some? && l in Run(evs).value.lobbies && Run(evs).value.lobbies[l].writer == Some(s)
    ensures var st := Run(evs).value;
      && s in st.sessions && st.sessions[s].lobby == Some(l)
      && (Enabled(st, Welcome(s)) || Enabled(st, Announce(s)) || Enabled(st, Release(s)))
  {
    RunsAreStructured(evs);
    var st := Run(evs).value;
    assert LobbyOk(st, l) && SessionOk(st, s);
  }

  /** So can a session that shares it. */
  lemma ReaderGoesOn(evs: seq<Event>, l: LobbyId, s: Sid)
    requires Run(evs).Some? && l in Run(evs).value.lobbies && s in Run(evs).value.lobbies[l].readers
    ensures var st := Run(evs).value;
      && s in st.sessions && st.sessions[s].lobby == Some(l)
      && (Enabled(st, RelayNext(s)) || Enabled(st, EndRelay(s)))
  {
    RunsAreStructured(evs);
    var st := Run(evs).value;
    assert LobbyOk(st, l) && SessionOk(st, s);
  }

  /** In every reachable state a mutex that is held has a holder that can go on. */
  lemma HeldMutexesProgress(evs: seq<Event>, l: LobbyId) returns (ev: Event)
    requires Run(evs).Some? && l in Run(evs).value.lobbies && !Exclusive(Run(evs).value.lobbies[l])
    ensures ev.Welcome? || ev.Announce? || ev.Release? || ev.RelayNext? || ev.EndRelay?
    ensures Enabled(Run(evs).value, ev) && Run(evs).value.sessions[ev.s].lobby == Some(l)
  {
    var st := Run(evs).value;
    if st.lobbies[l].writer.Some? {
      var s := st.lobbies[l].writer.value;
      WriterGoesOn(evs, l, s);
      ev := if Enabled(st, Welcome(s)) then Welcome(s)
            else if Enabled(st, Announce(s)) then Announce(s) else Release(s);
    } else {
      var s :| s in st.lobbies[l].readers;
      ReaderGoesOn(evs, l, s);
      ev := if Enabled(st, RelayNext(s)) then RelayNext(s) else EndRelay(s);
    }
  }

  // ---- the roster view of a member ----

  lemma MemberView(evs: seq<Event>, s: Sid) returns (i: nat)
    requires SafeRun(evs) && Run(evs).Some? && s in Run(evs).value.sessions
    requires Run(evs).value.sessions[s].playerId.Some?
    ensures var st := Run(evs).value;
      && InLobby(st, s) && i < |Home(st, s).players| && PlayerView(st, s, i)
      && Home(st, s).players[i].conn == s && Some(Home(st, s).players[i].id) == st.sessions[s].playerId
  {
    SafeRunsKeepAll(evs);
    var st := Run(evs).value;
    i := OwnEntry(st, s);
    assert ViewOk(st, s);
  }

  /**
   When nobody writes to the lobby, a member has been sent its welcome and then every roster of the lobby's
   history since it joined, in order; the last one is the current roster and all of them list the member.
   */
  lemma RosterView(evs: seq<Event>, s: Sid)
    requires SafeRun(evs) && Run(evs).Some? && s in Run(evs).value.sessions
    requires Run(evs).value.sessions[s].playerId.Some?
    requires InLobby(Run(evs).value, s) && Home(Run(evs).value, s).writer == None
    ensures var st, x, l := Run(evs).value, Run(evs).value.sessions[s], Home(Run(evs).value, s);
      && x.mark <= |x.outbox| && x.since < |l.history|
      && Updates(x) == [LobbyJoined(x.lobby.value, x.playerId.value)] + Broadcasts(l.history[x.since..])
      && Updates(x)[|Updates(x)| - 1] == UpdateLobby(View(l.players))
      && forall k :: x.since <= k < |l.history| ==> Lists(l.history[k], x.playerId.value)
  {
    var i := MemberView(evs, s);
    RunsAreStructured(evs);
    FullView(Run(evs).value, s, i);
  }

  predicate Lists(es: seq<Entry>, id: nat) {
    exists e :: e in es && e.id == id
  }

  lemma FullView(st: State, s: Sid, i: nat)
    requires Structure(st) && InLobby(st, s) && Home(st, s).writer == None && i < |Home(st, s).players|
    requires PlayerView(st, s, i) && st.sessions[s].playerId == Some(Home(st, s).players[i].id)
    ensures var x, l := st.sessions[s], Home(st, s);
      && x.mark <= |x.outbox| && x.since < |l.history|
      && Updates(x) == [LobbyJoined(x.lobby.value, x.playerId.value)] + Broadcasts(l.history[x.since..])
      && Updates(x)[|Updates(x)| - 1] == UpdateLobby(View(l.players))
      && forall k :: x.since <= k < |l.history| ==> Lists(l.history[k], x.playerId.value)
  {
    var x, l, p := st.sessions[s], Home(st, s), Home(st, s).players[i];
    assert LobbyOk(st, x.lobby.value) && SessionOk(st, s);
    assert l.history[x.since..|l.history|] == l.history[x.since..];
    forall k | x.since <= k < |l.history| ensures Lists(l.history[k], x.playerId.value) {
      assert Entry(p.id, p.name) in l.history[k];
    }
  }

  /** At any time, what a member has been sent is a prefix of that, at most the last roster behind. */
  lemma RosterViewAnyTime(evs: seq<Event>, s: Sid)
    requires SafeRun(evs) && Run(evs).Some? && s in Run(evs).value.sessions
    requires Run(evs).value.sessions[s].playerId.Some?
    ensures InLobby(Run(evs).value, s)
    ensures var x, l := Run(evs).value.sessions[s], Home(Run(evs).value, s);
      && x.mark <= |x.outbox| && x.since < |l.history|
      && var full := [LobbyJoined(x.lobby.value, x.playerId.value)] + Broadcasts(l.history[x.since..]);
         Updates(x) <= full && (|Updates(x)| >= |full| - 1 || (x.doing.Welcoming? && Updates(x) == [] && |full| == 2))
  {
    var i := MemberView(evs, s);
    var st, x, l := Run(evs).value, Run(evs).value.sessions[s], Home(Run(evs).value, s);
    var k := Upto(st, x.lobby.value, i);
    assert Broadcasts(l.history[x.since..k]) <= Broadcasts(l.history[x.since..]);
  }

  // ---- relays ----

  /** While a session is not relaying, every live connection has its relayed messages: once each, in order. */
  lemma RelayOrder(evs: seq<Event>, s: Sid, r: Sid)
    requires SafeRun(evs) && Run(evs).Some? && r in Run(evs).value.sessions
    requires TurnOf(Run(evs).value, s).Resting?
    ensures RelaysFrom(Run(evs).value.sessions[r].outbox, s) == Due(LogOf(Run(evs).value, s), r)
  {
    SafeRunsKeepAll(evs);
    assert RelayOk(Run(evs).value, s, r);
  }

  /** In the middle of a relay, a receiver has all of them or all but the last. */
  lemma RelayOrderAnyTime(evs: seq<Event>, s: Sid, r: Sid)
    requires SafeRun(evs) && Run(evs).Some? && r in Run(evs).value.sessions
    ensures var got, due := RelaysFrom(Run(evs).value.sessions[r].outbox, s), Due(LogOf(Run(evs).value, s), r);
      got <= due && |got| >= |due| - 1
  {
    SafeRunsKeepAll(evs);
    var st := Run(evs).value;
    assert RelayOk(st, s, r);
    var turn := TurnOf(st, s);
    if turn.Busy? {
      assert Passed(turn.players, turn.next, turn.id, r) ==> r in Recipients(turn.players, turn.id);
    }
  }

  /** No session is ever posted a copy of its own relays. */
  lemma NoEcho(evs: seq<Event>, s: Sid)
    requires SafeRun(evs) && Run(evs).Some? && s in Run(evs).value.sessions
    ensures RelaysFrom(Run(evs).value.sessions[s].outbox, s) == []
  {
    RelayOrderAnyTime(evs, s, s);
    SafeRunsKeepAll(evs);
    var st := Run(evs).value;
    assert LogOk(LogOf(st, s), s, st.used);
    NothingDue(LogOf(st, s), s);
  }

  /** A relay started in a safe run is for exactly the other members among the live sessions. */
  lemma RelayedToOthers(evs: seq<Event>, s: Sid, payload: bytes, r: Sid)
    requires SafeRun(evs) && Run(evs).Some? && Enabled(Run(evs).value, StartRelay(s, payload))
    requires InLobby(Run(evs).value, s) && r in Run(evs).value.sessions
    ensures var st, st' := Run(evs).value, Apply(Run(evs).value, StartRelay(s, payload));
      && |LogOf(st', s)| == |LogOf(st, s)| + 1 && LogOf(st', s)[..|LogOf(st, s)|] == LogOf(st, s)
      && var rec := LogOf(st', s)[|LogOf(st, s)|];
         && rec.payload == payload && Some(rec.id) == st.sessions[s].playerId
         && (r in rec.recipients <==>
               r != s && st.sessions[r].playerId.Some? && st.sessions[r].lobby == st.sessions[s].lobby)
  {
    var st, x := Run(evs).value, Run(evs).value.sessions[s];
    assert r in Recipients(Home(st, s).players, x.playerId.value) <==>
           r != s && st.sessions[r].playerId.Some? && st.sessions[r].lobby == x.lobby by {
      SafeRunsKeepAll(evs);
      RecipientsAreOthers(st, s, r);
    }
  }

  lemma RecipientsAreOthers(st: State, s: Sid, r: Sid)
    requires Structure(st) && Coherent(st) && InLobby(st, s) && st.sessions[s].playerId.Some? && r in st.sessions
    ensures var x := st.sessions[s];
      r in Recipients(Home(st, s).players, x.playerId.value) <==>
      r != s && st.sessions[r].playerId.Some? && st.sessions[r].lobby == x.lobby
  {
    var x, ps := st.sessions[s], Home(st, s).players;
    var i := OwnEntry(st, s);
    if r != s && st.sessions[r].playerId.Some? && st.sessions[r].lobby == x.lobby {
      var j := OwnEntry(st, r);
      assert LobbyOk(st, x.lobby.value);
      assert ps[j].id != ps[i].id;
    } else {
      forall j | 0 <= j < |ps| && ps[j].conn == r ensures ps[j].id == x.playerId.value {
        assert EntryOk(st, x.lobby.value, ps[j]);
      }
    }
  }

  lemma OneMore(evs: seq<Event>, ev: Event)
    requires Run(evs).Some? && Enabled(Run(evs).value, ev)
    ensures Run(evs + [ev]) == Some(Apply(Run(evs).value, ev))
  {
    assert (evs + [ev])[..|evs|] == evs;
  }
}
