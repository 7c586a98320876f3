/**
 The message handlers of a session, run from start to end in any reachable state: each is a list of steps of
 the protocol, ends with the session idle and its mutex released or fails where the source does, and does to
 the lobby and to every connection what its message asks for.
 */
module LobbySessions {
  import opened Bytes
  import opened Roster
  import opened LobbyProtocol
  import opened LobbyInvariants
  import opened LobbyMembership
  import opened LobbyViews
  import opened LobbyRelays
  import opened LobbyRuns

  // ---- what a handler posts ----

  datatype Posted = Posted(conn: Sid, m: Sent)

  /** What a list of posts brings to connection `t`. */
  function Inbox(posts: seq<Posted>, t: Sid): (box: seq<Sent>) {
    if posts == [] then [] else
    var last := posts[|posts| - 1];
    Inbox(posts[..|posts| - 1], t) + if last.conn == t then [last.m] else []
  }

  /** The loop of `sendToAll`. */
  function ToAll(ps: seq<Player>, m: Sent): (posts: seq<Posted>) {
    if ps == [] then [] else ToAll(ps[..|ps| - 1], m) + [Posted(ps[|ps| - 1].conn, m)]
  }

  /** The relay loop: entries with the sender's id are skipped. */
  function ToOthers(ps: seq<Player>, id: nat, m: Sent): (posts: seq<Posted>) {
    if ps == [] then [] else
    var p := ps[|ps| - 1];
    ToOthers(ps[..|ps| - 1], id, m) + if p.id != id then [Posted(p.conn, m)] else []
  }

  /**
   From `st` to `r` session `s` made just these posts, and no other session changed otherwise. Posts to
   connections that are gone are dropped.
   */
  predicate Delivered(st: State, r: State, s: Sid, posts: seq<Posted>) {
    && r.sessions.Keys == st.sessions.Keys && r.used == st.used
    && forall t :: t in st.sessions ==>
         && r.sessions[t].outbox == st.sessions[t].outbox + Inbox(posts, t)
         && (t != s ==> r.sessions[t] == st.sessions[t].(outbox := r.sessions[t].outbox))
  }

  lemma {:induction false} InboxAppend(p: seq<Posted>, q: seq<Posted>, t: Sid)
    ensures Inbox(p + q, t) == Inbox(p, t) + Inbox(q, t)
  {
    if q == [] {
      assert p + q == p;
    } else {
      assert (p + q)[..|p + q| - 1] == p + q[..|q| - 1];
      InboxAppend(p, q[..|q| - 1], t);
    }
  }

  lemma DeliveredMore(a: State, b: State, c: State, s: Sid, p: seq<Posted>, q: seq<Posted>)
    requires Delivered(a, b, s, p) && Delivered(b, c, s, q)
    ensures Delivered(a, c, s, p + q)
  {
    forall t | t in a.sessions
      ensures c.sessions[t].outbox == a.sessions[t].outbox + Inbox(p + q, t)
      ensures t != s ==> c.sessions[t] == a.sessions[t].(outbox := c.sessions[t].outbox)
    {
      InboxAppend(p, q, t);
      Assoc(a.sessions[t].outbox, Inbox(p, t), Inbox(q, t));
    }
  }

  lemma NothingBefore(a: State, b: State, c: State, s: Sid, q: seq<Posted>)
    requires Delivered(a, b, s, []) && Delivered(b, c, s, q)
    ensures Delivered(a, c, s, q)
  {
    DeliveredMore(a, b, c, s, [], q);
    assert [] + q == q;
  }

  lemma NothingAfter(a: State, b: State, c: State, s: Sid, p: seq<Posted>)
    requires Delivered(a, b, s, p) && Delivered(b, c, s, [])
    ensures Delivered(a, c, s, p)
  {
    DeliveredMore(a, b, c, s, p, []);
    assert p + [] == p;
  }

  lemma PostsNothing(st: State, ev: Event)
    requires Enabled(st, ev)
    requires ev.Create? || ev.Join? || ev.Enter? || ev.Release? || ev.Leave? || ev.StartRelay? || ev.EndRelay?
          || ev.Request?
    ensures Delivered(st, Apply(st, ev), ev.s, [])
  {
  }

  // ---- what a handler leaves ----

  /** Lobby `l` with the one player of a creation. */
  predicate Created(st: State, r: State, s: Sid, name: Name, l: LobbyId) {
    && s in r.sessions && r.sessions[s].lobby == Some(l) && r.sessions[s].playerId == Some(0)
    && r.lobbies == st.lobbies[l := LobbyState([Player(0, s, name)], false, None, {}, [[Entry(0, name)]])]
    && Delivered(st, r, s,
         [Posted(s, Sent(LobbyJoined(l, 0), Membership)), Posted(s, Sent(UpdateLobby([Entry(0, name)]), Membership))])
  }

  /** A creation before its first message: the creator is in, and holds the mutex. */
  predicate Begun(st: State, r: State, s: Sid, name: Name, l: LobbyId) {
    && Enabled(r, Welcome(s)) && r.sessions[s].lobby == Some(l) && r.sessions[s].playerId == Some(0)
    && r.sessions[s].doing == Welcoming([Entry(0, name)])
    && r.lobbies == st.lobbies[l := LobbyState([Player(0, s, name)], false, Some(s), {}, [[Entry(0, name)]])]
    && Delivered(st, r, s, [])
  }

  /** Lobby `l` with one more player, who has been welcomed, and everyone sent the roster. */
  predicate Joined(st: State, r: State, s: Sid, name: Name, l: LobbyId) {
    && l in st.lobbies && s in r.sessions
    && var ps, id := st.lobbies[l].players, NextId(st.lobbies[l].players);
    var all := WithPlayer(ps, name, s);
    && r.sessions[s].lobby == Some(l) && r.sessions[s].playerId == Some(id)
    && r.lobbies == st.lobbies[l :=
         st.lobbies[l].(players := all, writer := None, history := st.lobbies[l].history + [View(all)])]
    && Delivered(st, r, s,
         [Posted(s, Sent(LobbyJoined(l, id), Membership))] + ToAll(all, Sent(UpdateLobby(View(all)), Membership)))
  }

  /** A join before its first message. */
  predicate JoinBegun(st: State, r: State, s: Sid, name: Name, l: LobbyId) {
    && l in st.lobbies && Enabled(r, Welcome(s)) && r.sessions[s].lobby == Some(l)
    && r.sessions[s].playerId == Some(NextId(st.lobbies[l].players))
    && var all := WithPlayer(st.lobbies[l].players, name, s);
    && r.sessions[s].doing == Welcoming(View(all))
    && r.lobbies == st.lobbies[l :=
         st.lobbies[l].(players := all, writer := Some(s), history := st.lobbies[l].history + [View(all)])]
    && Delivered(st, r, s, [])
  }

  /** A refused join changes `lobby_` only. */
  predicate Turned(st: State, r: State, s: Sid, lobby: Option<LobbyId>) {
    && s in st.sessions && s in r.sessions && r.lobbies == st.lobbies
    && r.sessions[s].playerId == st.sessions[s].playerId && r.sessions[s].lobby == lobby
    && Delivered(st, r, s, [])
  }

  /** The leaver's lobby without the first player of its id, and the others sent the roster. */
  predicate Left(st: State, r: State, s: Sid) {
    && InLobby(st, s) && s in r.sessions && st.sessions[s].playerId.Some?
    && var l, id := st.sessions[s].lobby.value, st.sessions[s].playerId.value;
    && IndexOf(st.lobbies[l].players, id).Some?
    && var rest := WithoutIndex(st.lobbies[l].players, IndexOf(st.lobbies[l].players, id).value);
    && r.sessions[s].lobby == None && r.sessions[s].playerId == None
    && r.lobbies == st.lobbies[l :=
         st.lobbies[l].(players := rest, writer := None, history := st.lobbies[l].history + [View(rest)])]
    && Delivered(st, r, s, ToAll(rest, Sent(UpdateLobby(View(rest)), Membership)))
  }

  /** Every entry under another id than the sender's was posted one copy. */
  predicate Relayed(st: State, r: State, s: Sid, payload: bytes) {
    && InLobby(st, s) && st.sessions[s].playerId.Some?
    && var id := st.sessions[s].playerId.value;
    && Delivered(st, r, s, ToOthers(Home(st, s).players, id, Sent(RelayMessage(id, payload), RelayFrom(s))))
  }

  /** The first `n` turns of the relay loop that started in `st`. */
  predicate RelayedSoFar(st: State, r: State, s: Sid, payload: bytes, n: nat) {
    && InLobby(st, s) && st.sessions[s].playerId.Some? && n <= |Home(st, s).players|
    && r.lobbies == st.lobbies && s in r.sessions && r.sessions[s].lobby == st.sessions[s].lobby
    && r.sessions[s].playerId == st.sessions[s].playerId && r.sessions[s].doing == Relaying(payload, n)
    && var id := st.sessions[s].playerId.value;
       Delivered(st, r, s, ToOthers(Home(st, s).players[..n], id, Sent(RelayMessage(id, payload), RelayFrom(s))))
  }

  /** The first `n` turns of the loop of `sendToAll` that started in `st`. */
  predicate AnnouncedSoFar(st: State, r: State, s: Sid, roster: seq<Entry>, n: nat) {
    && InLobby(st, s) && n <= |Home(st, s).players| && SameMembership(st, r) && r.lobbies == st.lobbies
    && InLobby(r, s) && r.sessions[s].doing == Announcing(roster, n)
    && Delivered(st, r, s, ToAll(Home(st, s).players[..n], Sent(UpdateLobby(roster), Membership)))
  }

  lemma AnnouncedMore(st: State, r: State, s: Sid, roster: seq<Entry>, n: nat)
    requires AnnouncedSoFar(st, r, s, roster, n) && n < |Home(st, s).players|
    ensures Enabled(r, Announce(s)) && AnnouncedSoFar(st, Apply(r, Announce(s)), s, roster, n + 1)
  {
    var r' := Apply(r, Announce(s));
    SteadyLoops(r, Announce(s));
    SameMembershipTrans(st, r, r');
    AnnouncePosts(r, s);
    ToAllMore(st, r, r', s, Home(st, s).players, Sent(UpdateLobby(roster), Membership), n);
  }

  lemma ToAllMore(a: State, b: State, c: State, s: Sid, ps: seq<Player>, m: Sent, n: nat)
    requires n < |ps| && Delivered(a, b, s, ToAll(ps[..n], m)) && Delivered(b, c, s, [Posted(ps[n].conn, m)])
    ensures Delivered(a, c, s, ToAll(ps[..n + 1], m))
  {
    DeliveredMore(a, b, c, s, ToAll(ps[..n], m), [Posted(ps[n].conn, m)]);
    assert ps[..n + 1][..n] == ps[..n];
  }

  lemma RelayedMore(st: State, r: State, s: Sid, payload: bytes, n: nat)
    requires RelayedSoFar(st, r, s, payload, n) && n < |Home(st, s).players|
    ensures Enabled(r, RelayNext(s)) && RelayedSoFar(st, Apply(r, RelayNext(s)), s, payload, n + 1)
  {
    var id := st.sessions[s].playerId.value;
    RelayNextPosts(r, s);
    var m := Sent(RelayMessage(id, payload), RelayFrom(s));
    ToOthersMore(st, r, Apply(r, RelayNext(s)), s, Home(st, s).players, id, m, n);
  }

  lemma ToOthersMore(a: State, b: State, c: State, s: Sid, ps: seq<Player>, id: nat, m: Sent, n: nat)
    requires n < |ps| && Delivered(a, b, s, ToOthers(ps[..n], id, m))
    requires Delivered(b, c, s, if ps[n].id == id then [] else [Posted(ps[n].conn, m)])
    ensures Delivered(a, c, s, ToOthers(ps[..n + 1], id, m))
  {
    DeliveredMore(a, b, c, s, ToOthers(ps[..n], id, m), if ps[n].id == id then [] else [Posted(ps[n].conn, m)]);
    assert ps[..n + 1][..n] == ps[..n];
  }

  class LobbyServer {
    var st: State
    ghost var evs: seq<Event>

    ghost predicate Valid()
      reads this
    {
      Run(evs) == Some(st)
    }

    constructor ()
      ensures Valid() && st == INIT && evs == []
    {
      st, evs := INIT, [];
    }

    method Do(ev: Event)
      requires Valid() && Enabled(st, ev)
      modifies this
      ensures Valid() && st == Apply(old(st), ev) && evs == old(evs) + [ev]
      ensures SafeRun(evs) <==> SafeRun(old(evs)) && Safe(old(st), ev)
    {
      SafeMore(evs, st, ev);
      st, evs := Apply(st, ev), evs + [ev];
    }

    /** The loop of `sendToAll`, under the exclusive lock: every player's live connection is posted the roster. */
    method SendToAll(s: Sid, roster: seq<Entry>)
      requires Valid() && InLobby(st, s) && st.sessions[s].doing == Announcing(roster, 0)
      modifies this
      ensures Valid() && old(evs) <= evs && (SafeRun(evs) <==> SafeRun(old(evs)))
      ensures InLobby(st, s) && Enabled(st, Release(s))
      ensures SameMembership(old(st), st) && st.lobbies == old(st.lobbies)
      ensures Delivered(old(st), st, s, ToAll(old(Home(st, s).players), Sent(UpdateLobby(roster), Membership)))
    {
      ghost var st0, ps := st, Home(st, s).players;
      for i := 0 to |Home(st, s).players|
        invariant Valid() && old(evs) <= evs && (SafeRun(evs) <==> SafeRun(old(evs)))
        invariant AnnouncedSoFar(st0, st, s, roster, i)
      {
        AnnouncedMore(st0, st, s, roster, i);
        Do(Announce(s));
      }
      assert ps[..|ps|] == ps;
    }

    /** The name is the one `createLobby` came up with: one that is not in use. */
    method ProcessCreateLobby(s: Sid, name: Name, l: LobbyId)
      requires Valid() && IdleSession(st, s) && l !in st.lobbies && |l| <= 28
      modifies this
      ensures Valid() && old(evs) <= evs && IdleSession(st, s)
      ensures SafeRun(evs) <==> SafeRun(old(evs)) && old(st).sessions[s].playerId == None
      ensures Created(old(st), st, s, name, l)
    {
      ghost var st0 := st;
      BeginCreation(s, name, l);
      ghost var st1 := st;
      FinishEntry(s, [Entry(0, name)]);
      ghost var m, n := Sent(LobbyJoined(l, 0), Membership), Sent(UpdateLobby([Entry(0, name)]), Membership);
      ToOne(Player(0, s, name), n);
      assert [Posted(s, m)] + [Posted(s, n)] == [Posted(s, m), Posted(s, n)];
      NothingBefore(st0, st1, st, s, [Posted(s, m), Posted(s, n)]);
    }

    /** A creation up to its first message. */
    method BeginCreation(s: Sid, name: Name, l: LobbyId)
      requires Valid() && Enabled(st, Create(s, name, l))
      modifies this
      ensures Valid() && old(evs) <= evs && Begun(old(st), st, s, name, l)
      ensures SafeRun(evs) <==> SafeRun(old(evs)) && old(st).sessions[s].playerId == None
    {
      CreationEntered(st, s, name, l);
      Do(Create(s, name, l));
      Do(Enter(s));
    }

    /** From the exclusive lock of a create or a join to its release: the welcome, and the roster to all. */
    method FinishEntry(s: Sid, roster: seq<Entry>)
      requires Valid() && Enabled(st, Welcome(s)) && st.sessions[s].doing == Welcoming(roster)
      modifies this
      ensures Valid() && old(evs) <= evs && IdleSession(st, s) && InLobby(st, s)
      ensures SafeRun(evs) <==> SafeRun(old(evs))
      ensures st.sessions[s].lobby == old(st).sessions[s].lobby
      ensures st.sessions[s].playerId == old(st).sessions[s].playerId
      ensures st.lobbies == old(st).lobbies[st.sessions[s].lobby.value := Home(old(st), s).(writer := None)]
      ensures var x := old(st).sessions[s];
        Delivered(old(st), st, s,
          [Posted(s, Sent(LobbyJoined(x.lobby.value, x.playerId.value), Membership))]
          + ToAll(Home(old(st), s).players, Sent(UpdateLobby(roster), Membership)))
    {
      ghost var st0, x, ps := st, st.sessions[s], Home(st, s).players;
      ghost var welcome := Sent(LobbyJoined(x.lobby.value, x.playerId.value), Membership);
      WelcomePosts(st, s);
      Do(Welcome(s));
      ghost var st1 := st;
      Finish(s, roster);
      DeliveredMore(st0, st1, st, s, [Posted(s, welcome)], ToAll(ps, Sent(UpdateLobby(roster), Membership)));
    }

    /** The roster to all and the release of the mutex; after a leave, `lobby_.reset()`. */
    method Finish(s: Sid, roster: seq<Entry>)
      requires Valid() && InLobby(st, s) && st.sessions[s].doing == Announcing(roster, 0)
      modifies this
      ensures Valid() && old(evs) <= evs && IdleSession(st, s) && (SafeRun(evs) <==> SafeRun(old(evs)))
      ensures var x := old(st).sessions[s];
        && st.sessions[s].playerId == x.playerId
        && st.sessions[s].lobby == if x.playerId == None then None else x.lobby
      ensures st.lobbies == old(st).lobbies[old(st).sessions[s].lobby.value := Home(old(st), s).(writer := None)]
      ensures Delivered(old(st), st, s, ToAll(Home(old(st), s).players, Sent(UpdateLobby(roster), Membership)))
    {
      ghost var st0, posts := st, ToAll(Home(st, s).players, Sent(UpdateLobby(roster), Membership));
      SendToAll(s, roster);
      ghost var st1 := st;
      PostsNothing(st, Release(s));
      Do(Release(s));
      NothingAfter(st0, st1, st, s, posts);
    }

    /** A refused join still leaves `lobby_` pointing to the lobby, as written. */
    method ProcessJoinLobby(s: Sid, name: Name, l: LobbyId) returns (joined: bool)
      requires Valid() && IdleSession(st, s) && (Alive(st, l) ==> Exclusive(st.lobbies[l]))
      modifies this
      ensures Valid() && old(evs) <= evs && IdleSession(st, s)
      ensures joined <==>
        && l in old(st).lobbies && (exists t :: t in old(st).sessions && old(st).sessions[t].lobby == Some(l))
        && !old(st).lobbies[l].locked && |old(st).lobbies[l].players| < 255
      ensures SafeRun(evs) <==>
        (SafeRun(old(evs)) &&
         (old(st).sessions[s].playerId == None
          || (Alive(old(st), l) && !joined && old(st).sessions[s].lobby == Some(l))))
      ensures joined ==> Joined(old(st), st, s, name, l)
      ensures !joined ==> Turned(old(st), st, s, if Alive(old(st), l) then Some(l) else None)
    {
      ghost var st0 := st;
      if !Alive(st, l) {
        PostsNothing(st, Join(s, name, l));
        Do(Join(s, name, l));
        return false;
      }
      JoinTried(st, s, name, l);
      Do(Join(s, name, l));
      joined := CanJoin(Home(st, s));
      Do(Enter(s));
      if joined {
        ghost var st1 := st;
        FinishEntry(s, View(Home(st, s).players));
        JoinEnds(st0, st1, st, s, name, l);
      }
    }

    /** Fails where the step does; otherwise the others are posted the roster without the leaver. */
    method ProcessLeaveLobby(s: Sid) returns (failed: bool)
      requires Valid() && IdleSession(st, s) && (InLobby(st, s) ==> Exclusive(Home(st, s)))
      modifies this
      ensures Valid() && old(evs) <= evs && IdleSession(st, s) && (SafeRun(evs) <==> SafeRun(old(evs)))
      ensures failed <==> Attempt(old(st), Leave(s)).Fails?
      ensures failed || old(st).sessions[s].lobby == None ==> st == old(st)
      ensures !failed && old(st).sessions[s].lobby.Some? ==> Left(old(st), st, s)
    {
      if st.sessions[s].lobby.None? {
        return false;
      }
      assert InLobby(st, s) by { RunsAreStructured(evs); assert SessionOk(st, s); }
      var id := st.sessions[s].playerId;
      if id.None? || IndexOf(Home(st, s).players, id.value).None? {
        return true;
      }
      RemoveAndAnnounce(s);
      failed := false;
    }

    method RemoveAndAnnounce(s: Sid)
      requires Valid() && Enabled(st, Leave(s)) && InLobby(st, s)
      modifies this
      ensures Valid() && old(evs) <= evs && IdleSession(st, s) && (SafeRun(evs) <==> SafeRun(old(evs)))
      ensures Left(old(st), st, s)
    {
      ghost var st0 := st;
      LeaveBegins(st, s);
      Do(Leave(s));
      ghost var st1 := st;
      Finish(s, View(Home(st, s).players));
      LeaveEnds(st0, st1, st, s);
    }

    /** Fails where the step does; outside a lobby nothing happens. */
    method ProcessSendMessage(s: Sid, payload: bytes) returns (failed: bool)
      requires Valid() && IdleSession(st, s) && |payload| <= 0xFFFF
      requires InLobby(st, s) ==> Home(st, s).writer == None
      modifies this
      ensures Valid() && old(evs) <= evs && IdleSession(st, s) && (SafeRun(evs) <==> SafeRun(old(evs)))
      ensures failed <==> Attempt(old(st), StartRelay(s, payload)).Fails?
      ensures failed || old(st).sessions[s].lobby == None ==> st == old(st)
      ensures !failed && old(st).sessions[s].lobby.Some? ==> Relayed(old(st), st, s, payload)
    {
      if st.sessions[s].lobby.None? {
        return false;
      }
      assert InLobby(st, s) && s in st.relays by { RunsAreStructured(evs); assert SessionOk(st, s); }
      if st.sessions[s].playerId.None? {
        return true;
      }
      ghost var st0 := st;
      PostsNothing(st, StartRelay(s, payload));
      Do(StartRelay(s, payload));
      ghost var st1, id := st, st.sessions[s].playerId.value;
      RelayAll(s, payload);
      ghost var posts := ToOthers(Home(st0, s).players, id, Sent(RelayMessage(id, payload), RelayFrom(s)));
      NothingBefore(st0, st1, st, s, posts);
      failed := false;
    }

    /** The loop over the players, to the end of the shared lock. */
    method RelayAll(s: Sid, payload: bytes)
      requires Valid() && InLobby(st, s)
      requires st.sessions[s].playerId.Some? && st.sessions[s].doing == Relaying(payload, 0)
      modifies this
      ensures Valid() && old(evs) <= evs && IdleSession(st, s) && (SafeRun(evs) <==> SafeRun(old(evs)))
      ensures var id := old(st).sessions[s].playerId.value;
        Delivered(old(st), st, s, ToOthers(Home(old(st), s).players, id, Sent(RelayMessage(id, payload), RelayFrom(s))))
    {
      ghost var st0, ps, id := st, Home(st, s).players, st.sessions[s].playerId.value;
      ghost var m := Sent(RelayMessage(id, payload), RelayFrom(s));
      var n := |Home(st, s).players|;
      for i := 0 to n
        invariant Valid() && old(evs) <= evs && (SafeRun(evs) <==> SafeRun(old(evs)))
        invariant RelayedSoFar(st0, st, s, payload, i)
      {
        RelayedMore(st0, st, s, payload, i);
        Do(RelayNext(s));
      }
      assert ps[..|ps|] == ps;
      ghost var st1 := st;
      PostsNothing(st, EndRelay(s));
      Do(EndRelay(s));
      NothingAfter(st0, st1, st, s, ToOthers(ps, id, m));
    }

    method SetLobbyLocked(s: Sid, locked: bool) returns (failed: bool)
      requires Valid() && IdleSession(st, s) && (InLobby(st, s) ==> Exclusive(Home(st, s)))
      modifies this
      ensures Valid() && old(evs) <= evs && (SafeRun(evs) <==> SafeRun(old(evs)))
      ensures failed <==> Attempt(old(st), SetLocked(s, locked)).Fails?
      ensures failed ==> st == old(st)
      ensures !failed ==>
        && st.sessions == old(st).sessions && st.used == old(st).used && st.lobbies.Keys == old(st).lobbies.Keys
        && (st.sessions[s].lobby.Some? ==> st.sessions[s].playerId.Some?)
        && forall l :: l in st.lobbies ==>
             st.lobbies[l] ==
               if st.sessions[s].lobby == Some(l) && IsMaster(st.lobbies[l].players, st.sessions[s].playerId.value)
               then old(st).lobbies[l].(locked := locked) else old(st).lobbies[l]
    {
      RunsAreStructured(evs);
      assert SessionOk(st, s);
      failed := st.sessions[s].lobby.Some? && st.sessions[s].playerId.None?;
      if !failed {
        Do(SetLocked(s, locked));
      }
    }

    /** The roster encoded under the lock is posted to the sender. */
    method ProcessRequestLobbyUpdate(s: Sid)
      requires Valid() && IdleSession(st, s) && (InLobby(st, s) ==> Home(st, s).writer == None)
      modifies this
      ensures Valid() && old(evs) <= evs && IdleSession(st, s) && (SafeRun(evs) <==> SafeRun(old(evs)))
      ensures SameMembership(old(st), st) && st.lobbies == old(st).lobbies
      ensures Delivered(old(st), st, s,
        if InLobby(old(st), s) then [Posted(s, Sent(UpdateLobby(View(Home(old(st), s).players)), Requested))] else [])
    {
      ghost var st0 := st;
      var asked := InLobby(st, s);
      PostsNothing(st, Request(s));
      SteadySteps(st, Request(s));
      Do(Request(s));
      if asked {
        ghost var st1, m := st, Sent(UpdateLobby(View(Home(st, s).players)), Requested);
        SteadySteps(st, Reply(s));
        MovedAndPosted(st, s, Idle, s, m);
        Do(Reply(s));
        SameMembershipTrans(st0, st1, st);
        NothingBefore(st0, st1, st, s, [Posted(s, m)]);
      }
    }
  }

  // ---- runs the code does not survive ----

  /** The hypothesis on creations is needed: a member that creates a second lobby leaves a stale entry in the first. */
  method CreateTwice(s: Sid, name: Name, a: LobbyId, b: LobbyId) returns (st: State, ghost evs: seq<Event>)
    requires a != b && |a| <= MAX_LOBBY_NAME && |b| <= MAX_LOBBY_NAME
    ensures Run(evs) == Some(st) && !SafeRun(evs) && !Coherent(st)
    ensures a in st.lobbies && Player(0, s, name) in st.lobbies[a].players
    ensures s in st.sessions && st.sessions[s].lobby == Some(b)
  {
    var server := new LobbyServer();
    server.Do(Connect(s));
    server.ProcessCreateLobby(s, name, a);
    MemberMustNotCreate(server.evs, s, name, b);
    st := Apply(server.st, Create(s, name, b));
    evs := server.evs + [Create(s, name, b)];
  }

  lemma MemberMustNotCreate(evs: seq<Event>, s: Sid, name: Name, l: LobbyId)
    requires SafeRun(evs) && Run(evs).Some? && Enabled(Run(evs).value, Create(s, name, l))
    requires Run(evs).value.sessions[s].playerId.Some?
    ensures var more := evs + [Create(s, name, l)];
      && Run(more) == Some(Apply(Run(evs).value, Create(s, name, l)))
      && !SafeRun(more) && !Coherent(Run(more).value)
  {
    SafeRunsKeepAll(evs);
    CoherentExactly(Run(evs).value, Create(s, name, l));
    OneMore(evs, Create(s, name, l));
    assert (evs + [Create(s, name, l)])[..|evs|] == evs;
  }

  /** A safe run after which the handlers of session `b` fail: its join of a locked lobby was refused. */
  method JoinLockedLobby(a: Sid, b: Sid, name: Name, l: LobbyId) returns (st: State, ghost evs: seq<Event>)
    requires a != b && |l| <= MAX_LOBBY_NAME
    ensures SafeRun(evs) && Run(evs) == Some(st) && IdleSession(st, b) && LastJoinRefused(evs, b)
    ensures Attempt(st, Leave(b)) == Fails
    ensures forall locked :: Attempt(st, SetLocked(b, locked)) == Fails
    ensures forall payload :: Attempt(st, StartRelay(b, payload)) == Fails
  {
    var server := LockLobby(a, name, l);
    server.Do(Connect(b));
    assert Alive(server.st, l) by { assert server.st.sessions[a].lobby == Some(l); }
    var joined := server.ProcessJoinLobby(b, name, l);
    st, evs := server.st, server.evs;
    StrandedExactly(evs, b);
    HandlersFailExactly(evs, b);
  }

  /** A lobby with its creator in it, and locked. */
  method LockLobby(a: Sid, name: Name, l: LobbyId) returns (server: LobbyServer)
    requires |l| <= MAX_LOBBY_NAME
    ensures fresh(server) && server.Valid() && SafeRun(server.evs)
    ensures server.st.used == server.st.sessions.Keys == {a} && server.st.sessions[a].lobby == Some(l)
    ensures server.st.sessions[a].playerId == Some(0) && IdleSession(server.st, a)
    ensures l in server.st.lobbies && server.st.lobbies[l].locked && Exclusive(server.st.lobbies[l])
    ensures server.st.lobbies.Keys == {l} && server.st.lobbies[l].players == [Player(0, a, name)]
  {
    server := new LobbyServer();
    server.Do(Connect(a));
    server.ProcessCreateLobby(a, name, l);
    var failed := server.SetLobbyLocked(a, true);
  }

  /**
   A member's refused join, and its leave after it: the leave fails if the lobby it named has no player with the
   member's id, and else removes that player, who is the member itself if and only if it had named its own lobby.
   */
  lemma LeaveAfterRefusal(evs: seq<Event>, st: State, s: Sid, name: Name, l: LobbyId)
    requires SafeRun(evs) && Run(evs) == Some(st) && IdleSession(st, s) && st.sessions[s].playerId.Some?
    requires Alive(st, l) && Exclusive(st.lobbies[l]) && !CanJoin(st.lobbies[l])
    ensures var all := evs + [Join(s, name, l)] + [Enter(s)];
      && Run(all).Some? && (SafeRun(all) <==> st.sessions[s].lobby == Some(l))
      && var own := st.sessions[s].lobby == Some(l);
         LeaveTakes(Run(all).value, s, st.lobbies[l].players, st.sessions[s].playerId.value, own)
  {
    var r := RefusedRun(evs, st, s, name, l);
    SafeRunsKeepAll(evs);
    RefusedLeave(st, r, s, l);
  }

  /** A leave that takes the first player with id `id` out of `ps`, its own or not; or fails without one. */
  predicate LeaveTakes(st: State, s: Sid, ps: seq<Player>, id: nat, own: bool) {
    if !HasId(ps, id) then Attempt(st, Leave(s)) == Fails
    else
      && InLobby(st, s) && Enabled(st, Leave(s))
      && Home(Apply(st, Leave(s)), s).players == WithoutIndex(ps, IndexOf(ps, id).value)
      && (ps[IndexOf(ps, id).value].conn == s <==> own)
  }

  lemma RefusedRun(evs: seq<Event>, st: State, s: Sid, name: Name, l: LobbyId) returns (r: State)
    requires SafeRun(evs) && Run(evs) == Some(st) && IdleSession(st, s) && st.sessions[s].playerId.Some?
    requires Alive(st, l) && Exclusive(st.lobbies[l]) && !CanJoin(st.lobbies[l])
    ensures var all := evs + [Join(s, name, l)] + [Enter(s)];
      Run(all) == Some(r) && (SafeRun(all) <==> st.sessions[s].lobby == Some(l))
    ensures IdleSession(r, s) && Turned(st, r, s, Some(l))
  {
    var a, evs' := Apply(st, Join(s, name, l)), evs + [Join(s, name, l)];
    JoinTried(st, s, name, l);
    r := Apply(a, Enter(s));
    SafeMore(evs, st, Join(s, name, l));
    SafeMore(evs', a, Enter(s));
  }

  lemma SafeMore(evs: seq<Event>, st: State, ev: Event)
    requires Run(evs) == Some(st) && Enabled(st, ev)
    ensures Run(evs + [ev]) == Some(Apply(st, ev))
    ensures SafeRun(evs + [ev]) <==> SafeRun(evs) && Safe(st, ev)
  {
    OneMore(evs, ev);
    assert (evs + [ev])[..|evs|] == evs;
  }

  lemma RefusedLeave(st: State, r: State, s: Sid, l: LobbyId)
    requires Structure(st) && Coherent(st) && Turned(st, r, s, Some(l)) && IdleSession(r, s)
    requires st.sessions[s].playerId.Some? && l in st.lobbies && Exclusive(st.lobbies[l])
    ensures LeaveTakes(r, s, st.lobbies[l].players, st.sessions[s].playerId.value, st.sessions[s].lobby == Some(l))
  {
    var ps, id := st.lobbies[l].players, st.sessions[s].playerId.value;
    if HasId(ps, id) {
      var own := OwnEntry(st, s);
      assert EntryOk(st, l, ps[IndexOf(ps, id).value]) && LobbyOk(st, l);
    }
  }

  /** So a run in which one player's leave removes another, who stays connected and knows nothing of it. */
  method LeaveRemovesAnother(a: Sid, b: Sid, name: Name, own: LobbyId, other: LobbyId)
    returns (st: State, ghost evs: seq<Event>)
    requires a != b && own != other && |own| <= MAX_LOBBY_NAME && |other| <= MAX_LOBBY_NAME
    ensures Run(evs) == Some(st) && !SafeRun(evs) && own in st.lobbies && other in st.lobbies
    ensures b in st.sessions && st.sessions[b].lobby == Some(other) && st.sessions[b].playerId == Some(0)
    ensures st.lobbies[other].players == []
    ensures a in st.sessions && st.sessions[a].playerId == None && st.lobbies[own].players == [Player(0, a, name)]
  {
    var server := JoinAnother(a, b, name, own, other);
    OnlyPlayerGoes(Player(0, b, name));
    var failed := server.ProcessLeaveLobby(a);
    st, evs := server.st, server.evs;
  }

  lemma OnlyPlayerGoes(p: Player)
    ensures HasId([p], p.id) && IndexOf([p], p.id) == Some(0) && WithoutIndex([p], 0) == []
  {
    assert [p][0].id == p.id;
  }

  /** Two lobbies of one player each, after the player of one was refused by the other. */
  method JoinAnother(a: Sid, b: Sid, name: Name, own: LobbyId, other: LobbyId) returns (server: LobbyServer)
    requires a != b && own != other && |own| <= MAX_LOBBY_NAME && |other| <= MAX_LOBBY_NAME
    ensures fresh(server) && server.Valid() && !SafeRun(server.evs) && {own, other} == server.st.lobbies.Keys
    ensures IdleSession(server.st, a) && b in server.st.sessions && Exclusive(server.st.lobbies[other])
    ensures server.st.sessions[a].lobby == Some(other) && server.st.sessions[a].playerId == Some(0)
    ensures server.st.sessions[b].lobby == Some(other) && server.st.sessions[b].playerId == Some(0)
    ensures server.st.lobbies[own].players == [Player(0, a, name)]
    ensures server.st.lobbies[other].players == [Player(0, b, name)]
  {
    server := LockLobby(b, name, other);
    server.Do(Connect(a));
    server.ProcessCreateLobby(a, name, own);
    assert Alive(server.st, other) by { assert server.st.sessions[b].lobby == Some(other); }
    var joined := server.ProcessJoinLobby(a, name, other);
  }

  // ---- what the steps post ----

  lemma CreationEntered(st: State, s: Sid, name: Name, l: LobbyId)
    requires Enabled(st, Create(s, name, l))
    ensures var a := Apply(st, Create(s, name, l));
      && Enabled(a, Enter(s)) && (Safe(a, Enter(s)) <==> st.sessions[s].playerId == None)
      && Begun(st, Apply(a, Enter(s)), s, name, l)
  {
    var a := Apply(st, Create(s, name, l));
    PostsNothing(st, Create(s, name, l));
    FirstAdmitted(a, s, name, l);
    BegunFrom(st, a, Apply(a, Enter(s)), s, name, l);
  }

  lemma BegunFrom(st: State, a: State, r: State, s: Sid, name: Name, l: LobbyId)
    requires Delivered(st, a, s, []) && Begun(a, r, s, name, l)
    requires a.lobbies == st.lobbies[l := LobbyState([], false, None, {}, [])]
    ensures Begun(st, r, s, name, l)
  {
    NothingBefore(st, a, r, s, []);
  }

  lemma FirstAdmitted(a: State, s: Sid, name: Name, l: LobbyId)
    requires InLobby(a, s) && a.sessions[s].lobby == Some(l) && a.sessions[s].doing == Entering(name, true)
    requires a.lobbies[l] == LobbyState([], false, None, {}, [])
    ensures Enabled(a, Enter(s)) && (Safe(a, Enter(s)) <==> a.sessions[s].playerId == None)
    ensures Begun(a, Apply(a, Enter(s)), s, name, l)
  {
    FirstPlayer(name, s);
    assert View([Player(0, s, name)]) == [Entry(0, name)];
    assert [] + [[Entry(0, name)]] == [[Entry(0, name)]];
    PostsNothing(a, Enter(s));
  }

  lemma JoinTried(st: State, s: Sid, name: Name, l: LobbyId)
    requires IdleSession(st, s) && Alive(st, l) && Exclusive(st.lobbies[l])
    ensures var a := Apply(st, Join(s, name, l));
      && Enabled(a, Enter(s)) && Home(a, s) == st.lobbies[l]
      && var r := Apply(a, Enter(s));
      && (Safe(st, Join(s, name, l)) && Safe(a, Enter(s)) <==>
            st.sessions[s].playerId == None || (!CanJoin(st.lobbies[l]) && st.sessions[s].lobby == Some(l)))
      && if CanJoin(st.lobbies[l]) then JoinBegun(st, r, s, name, l) else IdleSession(r, s) && Turned(st, r, s, Some(l))
  {
    var a := Apply(st, Join(s, name, l));
    PostsNothing(st, Join(s, name, l));
    PostsNothing(a, Enter(s));
    NothingBefore(st, a, Apply(a, Enter(s)), s, []);
  }

  lemma JoinEnds(st: State, a: State, r: State, s: Sid, name: Name, l: LobbyId)
    requires JoinBegun(st, a, s, name, l) && s in r.sessions
    requires r.sessions[s].lobby == a.sessions[s].lobby && r.sessions[s].playerId == a.sessions[s].playerId
    requires r.lobbies == a.lobbies[l := a.lobbies[l].(writer := None)]
    requires Delivered(a, r, s,
               [Posted(s, Sent(LobbyJoined(l, a.sessions[s].playerId.value), Membership))]
               + ToAll(a.lobbies[l].players, Sent(UpdateLobby(View(a.lobbies[l].players)), Membership)))
    ensures Joined(st, r, s, name, l)
  {
    var all := WithPlayer(st.lobbies[l].players, name, s);
    var posts := [Posted(s, Sent(LobbyJoined(l, NextId(st.lobbies[l].players)), Membership))]
                 + ToAll(all, Sent(UpdateLobby(View(all)), Membership));
    assert Delivered(st, r, s, posts) by { NothingBefore(st, a, r, s, posts); }
    assert r.lobbies == st.lobbies[l :=
             st.lobbies[l].(players := all, writer := None, history := st.lobbies[l].history + [View(all)])];
  }

  lemma ToOne(p: Player, m: Sent)
    ensures ToAll([p], m) == [Posted(p.conn, m)]
  {
    assert [p][..0] == [];
  }

  /** A leave before its first message: the player is gone, and its session holds the mutex. */
  predicate Leaving(st: State, r: State, s: Sid) {
    && InLobby(st, s) && s in r.sessions && st.sessions[s].playerId.Some?
    && var x, l, i := st.sessions[s], Home(st, s), IndexOf(Home(st, s).players, st.sessions[s].playerId.value);
    && i.Some?
    && var rest := WithoutIndex(l.players, i.value);
    && r.sessions[s].lobby == x.lobby && r.sessions[s].playerId == None
    && r.sessions[s].doing == Announcing(View(rest), 0)
    && r.lobbies == st.lobbies[x.lobby.value :=
         l.(players := rest, writer := Some(s), history := l.history + [View(rest)])]
    && Delivered(st, r, s, [])
  }

  lemma LeaveBegins(st: State, s: Sid)
    requires Enabled(st, Leave(s)) && InLobby(st, s)
    ensures Leaving(st, Apply(st, Leave(s)), s)
  {
    PostsNothing(st, Leave(s));
  }

  lemma LeaveEnds(st: State, a: State, r: State, s: Sid)
    requires Leaving(st, a, s) && s in r.sessions && r.sessions[s].lobby == None && r.sessions[s].playerId == None
    requires r.lobbies == a.lobbies[a.sessions[s].lobby.value := Home(a, s).(writer := None)]
    requires Delivered(a, r, s, ToAll(Home(a, s).players, Sent(UpdateLobby(View(Home(a, s).players)), Membership)))
    ensures Left(st, r, s)
  {
    var rest := Home(a, s).players;
    NothingBefore(st, a, r, s, ToAll(rest, Sent(UpdateLobby(View(rest)), Membership)));
  }

  /** What every sending step does: the session's activity moves on, and one message is posted. */
  lemma MovedAndPosted(st: State, s: Sid, a: Activity, conn: Sid, m: Sent)
    requires s in st.sessions
    ensures var r := Post(Doing(st, s, a), conn, m);
      && s in r.sessions && r.lobbies == st.lobbies && r.sessions[s].doing == a
      && r.sessions[s].lobby == st.sessions[s].lobby && r.sessions[s].playerId == st.sessions[s].playerId
      && Delivered(st, r, s, [Posted(conn, m)])
  {
    assert [Posted(conn, m)][..0] == [];
  }

  lemma WelcomePosts(st: State, s: Sid)
    requires Enabled(st, Welcome(s))
    ensures var r, x := Apply(st, Welcome(s)), st.sessions[s];
      && r.lobbies == st.lobbies && InLobby(r, s) && r.sessions[s].doing == Announcing(x.doing.roster, 0)
      && r.sessions[s].lobby == x.lobby && r.sessions[s].playerId == x.playerId
      && Delivered(st, r, s, [Posted(s, Sent(LobbyJoined(x.lobby.value, x.playerId.value), Membership))])
  {
    var x := st.sessions[s];
    MovedAndPosted(st, s, Announcing(x.doing.roster, 0), s,
                   Sent(LobbyJoined(x.lobby.value, x.playerId.value), Membership));
  }

  lemma AnnouncePosts(st: State, s: Sid)
    requires Enabled(st, Announce(s))
    ensures var r, d := Apply(st, Announce(s)), st.sessions[s].doing;
      && r.lobbies == st.lobbies && InLobby(r, s) && r.sessions[s].doing == Announcing(d.roster, d.next + 1)
      && Delivered(st, r, s, [Posted(Home(st, s).players[d.next].conn, Sent(UpdateLobby(d.roster), Membership))])
  {
    var d := st.sessions[s].doing;
    var moved := AnnounceEffect(st, s);
    MovedAndPosted(st, s, Announcing(d.roster, d.next + 1), Home(st, s).players[d.next].conn,
                   Sent(UpdateLobby(d.roster), Membership));
  }

  lemma RelayNextPosts(st: State, s: Sid)
    requires Enabled(st, RelayNext(s))
    ensures var r, x, p := Apply(st, RelayNext(s)), st.sessions[s], Home(st, s).players[st.sessions[s].doing.next];
      && r.lobbies == st.lobbies && InLobby(r, s)
      && r.sessions[s].lobby == x.lobby && r.sessions[s].playerId == x.playerId
      && r.sessions[s].doing == Relaying(x.doing.payload, x.doing.next + 1)
      && Delivered(st, r, s,
           if p.id == x.playerId.value then []
           else [Posted(p.conn, Sent(RelayMessage(x.playerId.value, x.doing.payload), RelayFrom(s)))])
  {
    var x, p := st.sessions[s], Home(st, s).players[st.sessions[s].doing.next];
    var m := Sent(RelayMessage(x.playerId.value, x.doing.payload), RelayFrom(s));
    var a := Relaying(x.doing.payload, x.doing.next + 1);
    if p.id == x.playerId.value {
      assert Apply(st, RelayNext(s)) == Doing(st, s, a) by { var moved := RelayNextEffect(st, s); }
      MovedOnly(st, s, a);
    } else {
      assert Apply(st, RelayNext(s)) == Post(Doing(st, s, a), p.conn, m) by { var moved := RelayNextEffect(st, s); }
      MovedAndPosted(st, s, a, p.conn, m);
    }
  }

  lemma MovedOnly(st: State, s: Sid, a: Activity)
    requires s in st.sessions
    ensures var r := Doing(st, s, a);
      && s in r.sessions && r.lobbies == st.lobbies && r.sessions[s].doing == a
      && r.sessions[s].lobby == st.sessions[s].lobby && r.sessions[s].playerId == st.sessions[s].playerId
      && Delivered(st, r, s, [])
  {
  }

  // ---- in a safe run, copies are for members ----

  /** A connection in the roster at most once gets its one copy, or none under the sender's id. */
  lemma {:induction false} OneCopy(ps: seq<Player>, id: nat, r: Sid, m: Sent)
    requires forall i, j :: 0 <= i < j < |ps| ==> ps[i].conn != r || ps[j].conn != r
    ensures Inbox(ToOthers(ps, id, m), r) == if r in Recipients(ps, id) then [m] else []
  {
    if ps != [] {
      var init, last := ps[..|ps| - 1], ps[|ps| - 1];
      OneCopy(init, id, r, m);
      if last.id != id {
        OneMorePost(ToOthers(init, id, m), last.conn, m, r);
      } else {
        assert ToOthers(ps, id, m) == ToOthers(init, id, m);
      }
      RecipientsGrow(ps, id, r);
      if last.conn == r {
        assert r !in Recipients(init, id);
      }
    }
  }

  lemma RecipientsGrow(ps: seq<Player>, id: nat, r: Sid)
    requires ps != []
    ensures var init, last := ps[..|ps| - 1], ps[|ps| - 1];
      r in Recipients(ps, id) <==> r in Recipients(init, id) || (last.conn == r && last.id != id)
  {
    var init, last := ps[..|ps| - 1], ps[|ps| - 1];
    if r in Recipients(init, id) {
      var i :| 0 <= i < |init| && init[i].id != id && init[i].conn == r;
      assert ps[i] == init[i];
    }
    if r in Recipients(ps, id) {
      var i :| 0 <= i < |ps| && ps[i].id != id && ps[i].conn == r;
      assert i < |init| ==> init[i] == ps[i];
    }
  }

  lemma OneMorePost(posts: seq<Posted>, conn: Sid, m: Sent, t: Sid)
    ensures Inbox(posts + [Posted(conn, m)], t) == if conn == t then Inbox(posts, t) + [m] else Inbox(posts, t)
  {
    assert (posts + [Posted(conn, m)])[..|posts|] == posts;
  }

  /** In a safe run a relay reaches just the other live members of the lobby, once each. */
  lemma RelayedToMembers(evs: seq<Event>, s: Sid, payload: bytes, r: State, t: Sid)
    requires SafeRun(evs) && Run(evs).Some? && Relayed(Run(evs).value, r, s, payload) && t in r.sessions
    ensures var st := Run(evs).value;
      t in st.sessions && r.sessions[t].outbox == st.sessions[t].outbox +
        if t != s && st.sessions[t].playerId.Some? && st.sessions[t].lobby == st.sessions[s].lobby
        then [Sent(RelayMessage(st.sessions[s].playerId.value, payload), RelayFrom(s))] else []
  {
    SafeRunsKeepAll(evs);
    var st := Run(evs).value;
    var l, ps, id := st.sessions[s].lobby.value, Home(st, s).players, st.sessions[s].playerId.value;
    forall i, j | 0 <= i < j < |ps| ensures ps[i].conn != t || ps[j].conn != t {
      if ps[i].conn == t && ps[j].conn == t {
        OneIndex(st, l, i, j);
      }
    }
    OneCopy(ps, id, t, Sent(RelayMessage(id, payload), RelayFrom(s)));
    RecipientsAreOthers(st, s, t);
  }

  lemma SameMembershipTrans(a: State, b: State, c: State)
    requires SameMembership(a, b) && SameMembership(b, c)
    ensures SameMembership(a, c)
  {
  }

  /** The first player of a lobby gets id 0. */
  lemma FirstPlayer(name: Name, s: Sid)
    ensures WithPlayer([], name, s) == [Player(0, s, name)] && NextId([]) == 0
  {
    var p := Player(0, s, name);
    assert [] + [p] == [p] && [p][..0] == [];
    assert Sort([p]) == Insert(Sort([]), p);
  }
}
