/** A lobby's roster: id allocation, sorted insertion, removal and the master. */
module Roster {
  import opened Bytes

  /** Player names travel behind a one-byte length. */
  type Name = s: bytes | |s| <= 0xFF witness []

  /** The identity of a connection object; never reused. */
  type Sid = nat

  datatype Player = Player(id: nat, conn: Sid, name: Name)

  /** `maxPlayers`, the largest 8-bit id. */
  const MAX_PLAYERS := 255

  predicate Sorted(ps: seq<Player>) {
    forall i, j :: 0 <= i < j < |ps| ==> ps[i].id < ps[j].id
  }

  /** Strictly increasing 8-bit ids that leave 255 for nobody; the size then fits its count byte. */
  predicate ValidRoster(ps: seq<Player>) {
    Sorted(ps) && |ps| <= MAX_PLAYERS && forall i :: 0 <= i < |ps| ==> ps[i].id < MAX_PLAYERS
  }

  predicate HasId(ps: seq<Player>, id: nat) {
    exists i :: 0 <= i < |ps| && ps[i].id == id
  }

  /** The first index whose player has another id, or the size. */
  function NextId(ps: seq<Player>): (id: nat)
    ensures id <= |ps|
    ensures forall k :: 0 <= k < id ==> ps[k].id == k
    ensures id < |ps| ==> ps[id].id != id
  {
    NextIdFrom(ps, 0)
  }

  function NextIdFrom(ps: seq<Player>, i: nat): (id: nat)
    requires i <= |ps| && forall k :: 0 <= k < i ==> ps[k].id == k
    ensures i <= id <= |ps| && (id < |ps| ==> ps[id].id != id)
    ensures forall k :: 0 <= k < id ==> ps[k].id == k
    decreases |ps| - i
  {
    if i == |ps| || ps[i].id != i then i else NextIdFrom(ps, i + 1)
  }

  lemma {:induction false} SortedIdsGrow(ps: seq<Player>, i: nat)
    requires Sorted(ps) && i < |ps|
    ensures i <= ps[i].id
  {
    if i > 0 {
      SortedIdsGrow(ps, i - 1);
    }
  }

  /** On a sorted roster the allocated id is the smallest free one, and there is one below 255 unless full. */
  lemma NextIdSmallestFree(ps: seq<Player>)
    requires Sorted(ps)
    ensures !HasId(ps, NextId(ps))
    ensures forall k: nat :: k < NextId(ps) ==> HasId(ps, k)
    ensures |ps| < MAX_PLAYERS ==> NextId(ps) < MAX_PLAYERS
  {
    var id := NextId(ps);
    if id < |ps| {
      SortedIdsGrow(ps, id);
    }
    forall k: nat | k < id ensures HasId(ps, k) {
      assert ps[k].id == k;
    }
  }

  // ---- std::sort by id ----

  /** Insert before the first player with a larger id. */
  function Insert(ps: seq<Player>, p: Player): (r: seq<Player>)
    ensures |r| == |ps| + 1 && multiset(r) == multiset(ps) + multiset{p}
  {
    if ps == [] then [p]
    else if ps[|ps| - 1].id <= p.id then
      ps + [p]
    else
      assert ps == ps[..|ps| - 1] + [ps[|ps| - 1]];
      Insert(ps[..|ps| - 1], p) + [ps[|ps| - 1]]
  }

  function Sort(ps: seq<Player>): (r: seq<Player>)
    ensures multiset(r) == multiset(ps)
  {
    if ps == [] then [] else
    assert ps == ps[..|ps| - 1] + [ps[|ps| - 1]];
    Insert(Sort(ps[..|ps| - 1]), ps[|ps| - 1])
  }

  lemma InsertMembers(ps: seq<Player>, p: Player)
    ensures forall q :: q in Insert(ps, p) <==> q in ps || q == p
  {
    forall q ensures q in Insert(ps, p) <==> q in ps || q == p {
      assert q in Insert(ps, p) <==> q in multiset(Insert(ps, p));
      assert q in ps <==> q in multiset(ps);
    }
  }

  lemma {:induction false} InsertSorted(ps: seq<Player>, p: Player)
    requires Sorted(ps) && !HasId(ps, p.id)
    ensures Sorted(Insert(ps, p))
  {
    if ps != [] && ps[|ps| - 1].id > p.id {
      var init, last := ps[..|ps| - 1], ps[|ps| - 1];
      InsertSorted(init, p);
      var r := Insert(init, p);
      forall i | 0 <= i < |r| ensures r[i].id < last.id {
        assert r[i] in r;
        InsertMembers(init, p);
      }
      AppendSorted(r, last);
    }
  }

  lemma AppendSorted(ps: seq<Player>, p: Player)
    requires Sorted(ps) && forall i :: 0 <= i < |ps| ==> ps[i].id < p.id
    ensures Sorted(ps + [p])
  {
  }

  lemma InsertLast(ps: seq<Player>)
    requires Sorted(ps) && ps != []
    ensures Insert(ps[..|ps| - 1], ps[|ps| - 1]) == ps && Sorted(ps[..|ps| - 1])
  {
    var init, last := ps[..|ps| - 1], ps[|ps| - 1];
    assert ps == init + [last];
    assert init != [] ==> init[|init| - 1].id <= last.id;
  }

  lemma {:induction false} SortOfSorted(ps: seq<Player>)
    requires Sorted(ps)
    ensures Sort(ps) == ps
  {
    if ps != [] {
      SortOfSorted(ps[..|ps| - 1]);
      InsertLast(ps);
    }
  }

  /** Any sorting algorithm gives the same roster: a sorted arrangement of distinct ids is unique. */
  lemma SortedUnique(a: seq<Player>, b: seq<Player>)
    requires Sorted(a) && Sorted(b) && multiset(a) == multiset(b)
    ensures a == b
  {
    forall q ensures q in a <==> q in b {
      assert q in a <==> q in multiset(a);
    }
    SameMembers(a, b);
  }

  lemma SomeMember(ps: seq<Player>)
    ensures ps != [] ==> exists q :: q in ps
  {
    if ps != [] {
      assert ps[0] in ps;
    }
  }

  lemma {:induction false} SameMembers(a: seq<Player>, b: seq<Player>)
    requires Sorted(a) && Sorted(b) && forall q :: q in a <==> q in b
    ensures a == b
  {
    SomeMember(b);
    if a != [] {
      assert a[0] in b;
      var x, y := a[|a| - 1], b[|b| - 1];
      assert x in b && y in a;
      InitMembers(a);
      InitMembers(b);
      assert x.id <= y.id && y.id <= x.id;
      var a', b' := a[..|a| - 1], b[..|b| - 1];
      forall q ensures q in a' <==> q in b' {
        assert q in a <==> q in b;
      }
      SameMembers(a', b');
      assert a == a[..|a| - 1] + [x] && b == b[..|b| - 1] + [y];
    }
  }

  lemma InitMembers(ps: seq<Player>)
    requires Sorted(ps) && ps != []
    ensures forall q :: q in ps ==> q.id <= ps[|ps| - 1].id && (q.id == ps[|ps| - 1].id ==> q == ps[|ps| - 1])
    ensures forall q :: q in ps[..|ps| - 1] <==> q in ps && q != ps[|ps| - 1]
  {
  }

  // ---- add and remove ----

  function WithPlayer(ps: seq<Player>, name: Name, conn: Sid): (r: seq<Player>) {
    Sort(ps + [Player(NextId(ps), conn, name)])
  }

  /** Adding keeps the roster valid, keeps everyone, and adds just the new player under the smallest free id. */
  lemma AddKeepsValid(ps: seq<Player>, name: Name, conn: Sid)
    requires ValidRoster(ps) && |ps| < MAX_PLAYERS
    ensures ValidRoster(WithPlayer(ps, name, conn))
    ensures |WithPlayer(ps, name, conn)| == |ps| + 1
    ensures forall q :: q in WithPlayer(ps, name, conn) <==> q in ps || q == Player(NextId(ps), conn, name)
  {
    var p := Player(NextId(ps), conn, name);
    NextIdSmallestFree(ps);
    SortOfSorted(ps);
    assert (ps + [p])[..|ps|] == ps;
    InsertSorted(ps, p);
    InsertMembers(ps, p);
    var r := WithPlayer(ps, name, conn);
    forall i | 0 <= i < |r| ensures r[i].id < MAX_PLAYERS {
      assert r[i] in r;
    }
  }

  function IndexOf(ps: seq<Player>, id: nat): (r: Option<nat>)
    ensures r.Some? ==> r.value < |ps| && ps[r.value].id == id
    ensures r.None? ==> !HasId(ps, id)
  {
    IndexFrom(ps, id, 0)
  }

  function IndexFrom(ps: seq<Player>, id: nat, i: nat): (r: Option<nat>)
    requires i <= |ps| && forall k :: 0 <= k < i ==> ps[k].id != id
    ensures r.Some? ==> r.value < |ps| && ps[r.value].id == id && forall k :: 0 <= k < r.value ==> ps[k].id != id
    ensures r.None? ==> !HasId(ps, id)
    decreases |ps| - i
  {
    if i == |ps| then None else if ps[i].id == id then Some(i) else IndexFrom(ps, id, i + 1)
  }

  function WithoutIndex(ps: seq<Player>, i: nat): (r: seq<Player>)
    requires i < |ps|
  {
    ps[..i] + ps[i + 1..]
  }

  /** Removing takes out one player and leaves the others in order. */
  lemma RemoveKeepsValid(ps: seq<Player>, i: nat)
    requires ValidRoster(ps) && i < |ps|
    ensures ValidRoster(WithoutIndex(ps, i)) && !HasId(WithoutIndex(ps, i), ps[i].id)
    ensures forall q :: q in WithoutIndex(ps, i) <==> q in ps && q.id != ps[i].id
  {
    var r := WithoutIndex(ps, i);
    forall q ensures q in r <==> q in ps && q.id != ps[i].id {
      if q in ps && q.id != ps[i].id {
        var k :| 0 <= k < |ps| && ps[k] == q;
        assert q == if k < i then r[k] else r[k - 1];
      }
    }
  }

  predicate IsMaster(ps: seq<Player>, id: nat) {
    |ps| > 0 && ps[0].id == id
  }

  /** A non-empty lobby has exactly one master, its least id; an empty one has none. */
  lemma OneMaster(ps: seq<Player>)
    requires Sorted(ps)
    ensures forall id: nat :: IsMaster(ps, id) <==>
      HasId(ps, id) && forall k: nat :: HasId(ps, k) ==> id <= k
  {
    forall id: nat ensures IsMaster(ps, id) <==> HasId(ps, id) && forall k: nat :: HasId(ps, k) ==> id <= k {
      if |ps| > 0 {
        assert HasId(ps, ps[0].id);
      }
    }
  }

  // ---- every run of adds and removes ----

  datatype RosterOp = Add(name: Name, conn: Sid) | Remove(id: nat)

  /** One operation; an add needs room and a remove needs its player, as the source asserts. */
  function Step(ps: seq<Player>, op: RosterOp): (r: Option<seq<Player>>) {
    match op
    case Add(name, conn) => if |ps| < MAX_PLAYERS then Some(WithPlayer(ps, name, conn)) else None
    case Remove(id) => if IndexOf(ps, id).Some? then Some(WithoutIndex(ps, IndexOf(ps, id).value)) else None
  }

  function RunOps(ops: seq<RosterOp>): (r: Option<seq<Player>>) {
    if ops == [] then Some([]) else
    match RunOps(ops[..|ops| - 1])
    case None => None
    case Some(ps) => Step(ps, ops[|ops| - 1])
  }

  lemma {:induction false} AllRostersValid(ops: seq<RosterOp>)
    requires RunOps(ops).Some?
    ensures ValidRoster(RunOps(ops).value)
  {
    if ops != [] {
      AllRostersValid(ops[..|ops| - 1]);
      var ps := RunOps(ops[..|ops| - 1]).value;
      match ops[|ops| - 1]
      case Add(name, conn) => AddKeepsValid(ps, name, conn);
      case Remove(id) => RemoveKeepsValid(ps, IndexOf(ps, id).value);
    }
  }

  // ---- the lobby object ----

  class Lobby {
    const name: bytes
    var players: seq<Player>
    var locked: bool

    ghost predicate Valid()
      reads this
    {
      ValidRoster(players)
    }

    constructor (name: bytes)
      ensures Valid() && this.name == name && players == [] && !locked
    {
      this.name := name;
      players, locked := [], false;
    }

    method GetNextPlayerId() returns (id: nat)
      ensures id == NextId(players)
    {
      for i := 0 to |players|
        invariant forall k :: 0 <= k < i ==> players[k].id == k
        invariant NextId(players) == NextIdFrom(players, i)
      {
        if players[i].id != i {
          return i;
        }
      }
      return |players|;
    }

    /** The caller has checked `canJoin`, or just created the lobby. */
    method AddPlayer(name: Name, conn: Sid) returns (id: nat)
      requires Valid() && |players| < MAX_PLAYERS
      modifies `players
      ensures Valid() && players == WithPlayer(old(players), name, conn)
      ensures !HasId(old(players), id) && Player(id, conn, name) in players
      ensures forall k: nat :: k < id ==> HasId(old(players), k)
    {
      AddKeepsValid(players, name, conn);
      NextIdSmallestFree(players);
      id := GetNextPlayerId();
      players := players + [Player(id, conn, name)];
      players := Sort(players);
    }

    method GetPlayerIndexById(id: nat) returns (r: Option<nat>)
      ensures r == IndexOf(players, id)
    {
      for i := 0 to |players|
        invariant forall k :: 0 <= k < i ==> players[k].id != id
        invariant IndexOf(players, id) == IndexFrom(players, id, i)
      {
        if players[i].id == id {
          return Some(i);
        }
      }
      return None;
    }

    method RemovePlayer(id: nat)
      requires Valid() && HasId(players, id)
      modifies `players
      ensures Valid() && !HasId(players, id)
      ensures forall q :: q in players <==> q in old(players) && q.id != id
    {
      var index := GetPlayerIndexById(id);
      RemoveKeepsValid(players, index.value);
      players := players[..index.value] + players[index.value + 1..];
    }

    predicate CanJoin()
      reads this
    {
      !locked && |players| < MAX_PLAYERS
    }

    /** The player with the least id. */
    method IsPlayerMaster(id: nat) returns (b: bool)
      requires Valid()
      ensures b <==> HasId(players, id) && forall k: nat :: HasId(players, k) ==> id <= k
    {
      OneMaster(players);
      b := |players| > 0 && players[0].id == id;
      assert b == IsMaster(players, id);
    }
  }
}
