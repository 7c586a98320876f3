/** The bytes of lobby messages, as the server writes and reads them and as the client does. */
module LobbyWire {
  import opened Bytes
  import opened Roster
  import opened LobbyProtocol

  const CREATE_LOBBY: byte := 0
  const JOIN_LOBBY: byte := 2
  const LOBBY_JOINED: byte := 3
  const LEAVE_LOBBY: byte := 4
  const LOCK_LOBBY: byte := 5
  const UNLOCK_LOBBY: byte := 6
  const SEND_MESSAGE: byte := 7
  const RELAY_MESSAGE: byte := 8
  const REQUEST_LOBBY_UPDATE: byte := 9
  const UPDATE_LOBBY: byte := 10
  const HEARTBEAT: byte := 11
  const LAST_MESSAGE_TYPE := 12

  // ---- the server's writer ----

  /** Counted strings; a longer count is cut to its width. */
  function Str8(s: bytes): (b: bytes) {
    [|s| % 0x100] + s
  }

  function Str16(s: bytes): (b: bytes) {
    Be2(|s|) + s
  }

  class BufferWriter {
    var buffer: bytes

    constructor ()
      ensures buffer == []
    {
      buffer := [];
    }

    /** Integers are cut to their width. */
    method Integer8(v: nat)
      modifies this
      ensures buffer == old(buffer) + [v % 0x100]
    {
      buffer := buffer + [v % 0x100];
    }

    method Integer16(v: nat)
      modifies this
      ensures buffer == old(buffer) + Be2(v)
    {
      buffer := buffer + Be2(v);
    }

    method String8(s: bytes)
      modifies this
      ensures buffer == old(buffer) + Str8(s)
    {
      Integer8(|s|);
      buffer := buffer + s;
      Assoc(old(buffer), [|s| % 0x100], s);
    }

    method String16(s: bytes)
      modifies this
      ensures buffer == old(buffer) + Str16(s)
    {
      Integer16(|s|);
      buffer := buffer + s;
      Assoc(old(buffer), Be2(|s|), s);
    }

    method EncodeLobbyJoined(lobby: LobbyId, id: nat)
      modifies this
      ensures buffer == old(buffer) + Wire(LobbyJoined(lobby, id))
    {
      Layout(buffer, [LOBBY_JOINED], Str8(lobby), [id % 0x100]);
      Integer8(LOBBY_JOINED);
      String8(lobby);
      Integer8(id);
    }

    method EncodeLobbyUpdate(players: seq<Player>)
      modifies this
      ensures buffer == old(buffer) + Wire(UpdateLobby(View(players)))
    {
      Layout(buffer, [UPDATE_LOBBY], [|players| % 0x100], EntriesBytes(View(players)));
      Integer8(UPDATE_LOBBY);
      Integer8(|players|);
      EncodePlayers(players);
    }

    /** The loop over the players of a lobby. */
    method EncodePlayers(players: seq<Player>)
      modifies this
      ensures buffer == old(buffer) + EntriesBytes(View(players))
    {
      ghost var start, es := buffer, View(players);
      for i := 0 to |players|
        invariant buffer == start + EntriesBytes(es[..i])
      {
        EncodePlayer(players[i]);
        EntriesPush(es, i);
        Assoc(start, EntriesBytes(es[..i]), EntryBytes(es[i]));
      }
      assert es[..|players|] == es;
    }

    method EncodePlayer(p: Player)
      modifies this
      ensures buffer == old(buffer) + EntryBytes(Entry(p.id, p.name))
    {
      Assoc(buffer, [p.id % 0x100], Str8(p.name));
      Integer8(p.id);
      String8(p.name);
    }

    method EncodeRelay(id: nat, payload: bytes)
      modifies this
      ensures buffer == old(buffer) + Wire(RelayMessage(id, payload))
    {
      Layout(buffer, [RELAY_MESSAGE], [id % 0x100], Str16(payload));
      Integer8(RELAY_MESSAGE);
      Integer8(id);
      String16(payload);
    }
  }

  lemma Layout(start: bytes, a: bytes, b: bytes, c: bytes)
    ensures start + a + b + c == start + (a + (b + c))
  {
    Assoc(start, a, b);
    Assoc(start, a + b, c);
    Assoc(a, b, c);
  }

  // ---- messages to the client ----

  function EntryBytes(e: Entry): (b: bytes) {
    [e.id % 0x100] + Str8(e.name)
  }

  function EntriesBytes(es: seq<Entry>): (b: bytes) {
    if es == [] then [] else EntriesBytes(es[..|es| - 1]) + EntryBytes(es[|es| - 1])
  }

  lemma EntriesPush(es: seq<Entry>, i: nat)
    requires i < |es|
    ensures EntriesBytes(es[..i + 1]) == EntriesBytes(es[..i]) + EntryBytes(es[i])
  {
    assert es[..i + 1][..i] == es[..i];
  }

  function Wire(m: Message): (b: bytes) {
    match m
    case LobbyJoined(lobby, id) => [LOBBY_JOINED] + (Str8(lobby) + [id % 0x100])
    case UpdateLobby(es) => [UPDATE_LOBBY] + ([|es| % 0x100] + EntriesBytes(es))
    case RelayMessage(id, payload) => [RELAY_MESSAGE] + ([id % 0x100] + Str16(payload))
  }

  /** A roster as the client may be sent it: sorted, with ids and a count of one byte. */
  predicate GoodRoster(es: seq<Entry>) {
    && |es| <= 0xFF && (forall i :: 0 <= i < |es| ==> es[i].id < 0x100)
    && forall i, j :: 0 <= i < j < |es| ==> es[i].id < es[j].id
  }

  lemma ValidIsGood(ps: seq<Player>)
    requires ValidRoster(ps)
    ensures GoodRoster(View(ps))
  {
  }

  // ---- what the client reads ----

  /** A counted string and what follows it. */
  function TakeStr8(b: bytes): (r: Option<(Name, bytes)>) {
    if b == [] || |b| - 1 < b[0] then None else
    var n: int := b[0];
    Some((b[1..1 + n], b[1 + n..]))
  }

  lemma TakesStr8(s: Name, t: bytes)
    ensures TakeStr8(Str8(s) + t) == Some((s, t))
  {
    var b := Str8(s) + t;
    assert b[1..1 + |s|] == s && b[1 + |s|..] == t;
  }

  function ReadJoined(b: bytes): (r: Option<(LobbyId, nat)>)
    ensures r.Some? ==> |r.value.0| <= 0xFF
  {
    match TakeStr8(b)
    case None => None
    case Some((lobby, rest)) => if rest == [] then None else Some((lobby, rest[0]))
  }

  function ReadRelay(b: bytes): (r: Option<(nat, bytes)>) {
    if |b| < 3 then None else
    var n := FromBe(b[1..3]);
    if |b| < 3 + n then None else Some((b[0], b[3..3 + n]))
  }

  function AsPlayers(es: seq<Entry>): (ps: seq<Player>)
    ensures |ps| == |es| && forall i :: 0 <= i < |es| ==> ps[i] == Player(es[i].id, 0, es[i].name)
  {
    seq(|es|, i requires 0 <= i < |es| => Player(es[i].id, 0, es[i].name))
  }

  /** `table.sort` by id. */
  function SortById(es: seq<Entry>): (r: seq<Entry>) {
    View(Sort(AsPlayers(es)))
  }

  lemma SortedStays(es: seq<Entry>)
    requires forall i, j :: 0 <= i < j < |es| ==> es[i].id < es[j].id
    ensures SortById(es) == es
  {
    SortOfSorted(AsPlayers(es));
  }

  /** An id, and a name behind its count. */
  function ReadOne(b: bytes): (r: Option<(Entry, bytes)>) {
    if b == [] then None else
    match TakeStr8(b[1..])
    case None => None
    case Some((name, rest)) => Some((Entry(b[0], name), rest))
  }

  /** Up to `n` entries, sorted after each; the flag is false when the data runs out. */
  function ReadEntries(b: bytes, n: nat, es: seq<Entry>): (r: (seq<Entry>, bool))
    decreases n
  {
    if n == 0 then (es, true)
    else match ReadOne(b)
    case None => (es, false)
    case Some((e, rest)) => ReadEntries(rest, n - 1, SortById(es + [e]))
  }

  /** The roster in an update, as far as it could be read. */
  function ReadUpdate(b: bytes): (r: (seq<Entry>, bool)) {
    if b == [] then ([], false) else ReadEntries(b[1..], b[0], [])
  }

  // ---- the client reads back what the server wrote ----

  lemma JoinedReadsBack(lobby: LobbyId, id: nat)
    requires id < 0x100 && |lobby| <= 0xFF
    ensures ReadJoined(Wire(LobbyJoined(lobby, id))[1..]) == Some((lobby, id))
  {
    assert Wire(LobbyJoined(lobby, id))[1..] == Str8(lobby) + [id];
    TakesStr8(lobby, [id]);
  }

  lemma RelayReadsBack(id: nat, payload: bytes)
    requires id < 0x100 && |payload| <= 0xFFFF
    ensures ReadRelay(Wire(RelayMessage(id, payload))[1..]) == Some((id, payload))
  {
    Be2IsToBe(|payload|);
    Powers();
    FromToBeMod(|payload|, 2);
    ReadsRelay(id, Be2(|payload|), payload);
    ConsSplits(RELAY_MESSAGE, [id] + (Be2(|payload|) + payload));
  }

  lemma ReadsRelay(id: byte, field: bytes, payload: bytes)
    requires |field| == 2 && FromBe(field) == |payload|
    ensures ReadRelay([id] + (field + payload)) == Some((id, payload))
  {
    var b := [id] + (field + payload);
    ConsSplits(id, field + payload);
    assert b[1..3] == b[1..][..2] == field;
    assert b[3..3 + |payload|] == payload;
  }

  lemma {:induction false} EntriesAppend(a: seq<Entry>, b: seq<Entry>)
    ensures EntriesBytes(a + b) == EntriesBytes(a) + EntriesBytes(b)
  {
    if b == [] {
      assert a + b == a;
    } else {
      assert (a + b)[..|a + b| - 1] == a + b[..|b| - 1];
      EntriesAppend(a, b[..|b| - 1]);
      Assoc(EntriesBytes(a), EntriesBytes(b[..|b| - 1]), EntryBytes(b[|b| - 1]));
    }
  }

  lemma {:induction false} EntriesReadBack(es: seq<Entry>, done: nat)
    requires GoodRoster(es) && done <= |es|
    ensures ReadEntries(EntriesBytes(es[done..]), |es| - done, es[..done]) == (es, true)
    decreases |es| - done
  {
    if done == |es| {
      assert es[..done] == es;
    } else {
      RosterStep(es, done);
      ReadsOne(es[done], EntriesBytes(es[done + 1..]), |es| - done, es[..done]);
      EntriesReadBack(es, done + 1);
    }
  }

  lemma RosterStep(es: seq<Entry>, i: nat)
    requires GoodRoster(es) && i < |es|
    ensures EntriesBytes(es[i..]) == [es[i].id % 0x100] + (Str8(es[i].name) + EntriesBytes(es[i + 1..]))
    ensures SortById(es[..i] + [es[i]]) == es[..i + 1] && es[i].id < 0x100
  {
    assert es[i..][1..] == es[i + 1..];
    EntriesFirst(es[i..]);
    assert es[..i] + [es[i]] == es[..i + 1];
    SortedStays(es[..i + 1]);
  }

  lemma ReadsOne(e: Entry, tail: bytes, n: nat, es: seq<Entry>)
    requires n > 0 && e.id < 0x100
    ensures ReadEntries([e.id % 0x100] + (Str8(e.name) + tail), n, es) == ReadEntries(tail, n - 1, SortById(es + [e]))
  {
    TakesStr8(e.name, tail);
    ConsSplits(e.id % 0x100, Str8(e.name) + tail);
    assert Entry(e.id % 0x100, e.name) == e;
  }

  lemma ConsSplits(h: byte, t: bytes)
    ensures ([h] + t)[0] == h && ([h] + t)[1..] == t
  {
  }

  lemma EntriesFirst(es: seq<Entry>)
    requires es != []
    ensures EntriesBytes(es) == [es[0].id % 0x100] + (Str8(es[0].name) + EntriesBytes(es[1..]))
  {
    var e := es[0];
    assert es == [e] + es[1..] && [e][..0] == [];
    EntriesAppend([e], es[1..]);
    Assoc([e.id % 0x100], Str8(e.name), EntriesBytes(es[1..]));
  }

  /** The handler gets back exactly the roster the server encoded. */
  lemma UpdateReadsBack(es: seq<Entry>)
    requires GoodRoster(es)
    ensures ReadUpdate(Wire(UpdateLobby(es))[1..]) == (es, true)
  {
    var b := Wire(UpdateLobby(es))[1..];
    assert b[0] == |es| && b[1..] == EntriesBytes(es);
    assert es[0..] == es && es[..0] == [];
    EntriesReadBack(es, 0);
  }

  /** The messages to a client, byte for byte; a roster entry is an id and a counted name. */
  lemma JoinedBytes(lobby: LobbyId, id: nat)
    requires |lobby| <= 0xFF && id <= 0xFF
    ensures Wire(LobbyJoined(lobby, id)) == [3, |lobby|] + lobby + [id]
  {
    Assoc([3], [|lobby|], lobby);
    Assoc([3], [|lobby|] + lobby, [id]);
    assert [3] + [|lobby|] == [3, |lobby|];
  }

  lemma RelayBytes(id: nat, payload: bytes)
    requires id <= 0xFF && |payload| <= 0xFFFF
    ensures Wire(RelayMessage(id, payload)) == [8, id, |payload| / 0x100, |payload| % 0x100] + payload
  {
    Assoc([id], Be2(|payload|), payload);
    Assoc([8], [id] + Be2(|payload|), payload);
    assert [8] + ([id] + Be2(|payload|)) == [8, id, |payload| / 0x100, |payload| % 0x100];
  }

  lemma UpdateBytes(e: Entry)
    requires e.id <= 0xFF
    ensures Wire(UpdateLobby([])) == [10, 0]
    ensures Wire(UpdateLobby([e])) == [10, 1, e.id, |e.name|] + e.name
  {
    EntriesFirst([e]);
    EntryLayout(EntriesBytes([e]), e.id, |e.name|, e.name);
  }

  lemma EntryLayout(b: bytes, id: byte, n: byte, name: bytes)
    requires b == [id] + ([n] + name + [])
    ensures [10] + ([1] + b) == [10, 1, id, n] + name
  {
    assert [10, 1, id, n] == [10, 1] + ([id] + [n]);
    assert [n] + name + [] == [n] + name;
    Assoc([10, 1], [id] + [n], name);
    Assoc([id], [n], name);
    Assoc([10], [1], b);
  }

  /** How many of some entries are complete within `k` bytes. */
  function Complete(es: seq<Entry>, k: nat): (j: nat)
    ensures j <= |es|
  {
    if es == [] || k < 2 + |es[0].name| then 0 else 1 + Complete(es[1..], k - 2 - |es[0].name|)
  }

  /** A roster that breaks off is read as far as its entries are complete, and that is an error. */
  lemma {:induction false} EntriesCut(es: seq<Entry>, i: nat, k: nat) returns (j: nat)
    requires GoodRoster(es) && i <= |es| && k < |EntriesBytes(es[i..])|
    ensures i <= j < |es| && j - i == Complete(es[i..], k)
    ensures ReadEntries(EntriesBytes(es[i..])[..k], |es| - i, es[..i]) == (es[..j], false)
    decreases |es| - i
  {
    assert i < |es|;
    CompleteStep(es, i, k);
    RosterStep(es, i);
    j := i;
    if k < 2 + |es[i].name| {
      CutShort(es, i, k);
    } else {
      CutOnward(es, i, k);
      j := EntriesCut(es, i + 1, k - 2 - |es[i].name|);
    }
  }

  lemma CutShort(es: seq<Entry>, i: nat, k: nat)
    requires GoodRoster(es) && i < |es| && k < 2 + |es[i].name| && k <= |EntriesBytes(es[i..])|
    ensures ReadEntries(EntriesBytes(es[i..])[..k], |es| - i, es[..i]) == (es[..i], false)
  {
    RosterStep(es, i);
    CutFirst(es[i], EntriesBytes(es[i + 1..]), |es| - i, es[..i], k);
  }

  lemma CutOnward(es: seq<Entry>, i: nat, k: nat)
    requires GoodRoster(es) && i < |es| && k >= 2 + |es[i].name|
    requires k - 2 - |es[i].name| <= |EntriesBytes(es[i + 1..])| && k <= |EntriesBytes(es[i..])|
    ensures ReadEntries(EntriesBytes(es[i..])[..k], |es| - i, es[..i]) ==
      ReadEntries(EntriesBytes(es[i + 1..])[..k - 2 - |es[i].name|], |es| - i - 1, es[..i + 1])
  {
    RosterStep(es, i);
    CutFirst(es[i], EntriesBytes(es[i + 1..]), |es| - i, es[..i], k);
  }

  lemma CompleteStep(es: seq<Entry>, i: nat, k: nat)
    requires i < |es|
    ensures Complete(es[i..], k) ==
      if k < 2 + |es[i].name| then 0 else 1 + Complete(es[i + 1..], k - 2 - |es[i].name|)
  {
    assert es[i..][0] == es[i] && es[i..][1..] == es[i + 1..];
  }

  lemma CutFirst(e: Entry, tail: bytes, n: nat, es: seq<Entry>, k: nat)
    requires n > 0 && e.id < 0x100 && k <= 2 + |e.name| + |tail|
    ensures ReadEntries(([e.id % 0x100] + (Str8(e.name) + tail))[..k], n, es) ==
      if k < 2 + |e.name| then (es, false)
      else ReadEntries(tail[..k - 2 - |e.name|], n - 1, SortById(es + [e]))
  {
    if k < 2 + |e.name| {
      CutEntry(e, tail, k);
    } else {
      CutBehind(e.id % 0x100, Str8(e.name), tail, k);
      ReadsOne(e, tail[..k - 2 - |e.name|], n, es);
    }
  }

  lemma CutBehind(h: byte, s: bytes, tail: bytes, k: nat)
    requires 1 + |s| <= k <= 1 + |s| + |tail|
    ensures ([h] + (s + tail))[..k] == [h] + (s + tail[..k - 1 - |s|])
  {
  }

  lemma CutEntry(e: Entry, tail: bytes, k: nat)
    requires k < 2 + |e.name|
    ensures ReadOne(([e.id % 0x100] + (Str8(e.name) + tail))[..k]) == None
  {
    var b := ([e.id % 0x100] + (Str8(e.name) + tail))[..k];
    if k > 1 {
      assert b[1..][0] == |e.name|;
    }
  }

  /** So an update that breaks off behind its count gives its complete entries, and an error. */
  lemma CutUpdate(es: seq<Entry>, k: nat) returns (j: nat)
    requires GoodRoster(es) && 2 <= k < |Wire(UpdateLobby(es))|
    ensures j < |es| && j == Complete(es, k - 2)
    ensures ReadUpdate(Wire(UpdateLobby(es))[..k][1..]) == (es[..j], false)
  {
    UpdateIs(es);
    j := WireCut(Wire(UpdateLobby(es)), es, k);
  }

  lemma UpdateIs(es: seq<Entry>)
    requires |es| <= 0xFF
    ensures Wire(UpdateLobby(es)) == [UPDATE_LOBBY] + ([|es|] + EntriesBytes(es))
  {
    var n: byte := |es|;
    assert |es| % 0x100 == n;
    assert Wire(UpdateLobby(es)) == [UPDATE_LOBBY] + ([n] + EntriesBytes(es));
  }

  lemma WireCut(w: bytes, es: seq<Entry>, k: nat) returns (j: nat)
    requires GoodRoster(es) && w == [UPDATE_LOBBY] + ([|es|] + EntriesBytes(es)) && 2 <= k < |w|
    ensures j < |es| && j == Complete(es, k - 2) && ReadUpdate(w[..k][1..]) == (es[..j], false)
  {
    j := RosterCut(es, k - 2);
    ReadsFrom(w, |es|, EntriesBytes(es), k);
  }

  lemma RosterCut(es: seq<Entry>, k: nat) returns (j: nat)
    requires GoodRoster(es) && k < |EntriesBytes(es)|
    ensures j < |es| && j == Complete(es, k) && ReadEntries(EntriesBytes(es)[..k], |es|, []) == (es[..j], false)
  {
    assert es[0..] == es && es[..0] == [];
    j := EntriesCut(es, 0, k);
  }

  lemma ReadsFrom(w: bytes, n: byte, t: bytes, k: nat)
    requires w == [UPDATE_LOBBY] + ([n] + t) && 2 <= k <= |w|
    ensures ReadUpdate(w[..k][1..]) == ReadEntries(t[..k - 2], n, [])
  {
    CutBehindTwo(UPDATE_LOBBY, n, t, k);
  }

  lemma CutBehindTwo(x: byte, y: byte, t: bytes, k: nat)
    requires 2 <= k <= 2 + |t|
    ensures ([x] + ([y] + t))[..k][1..] == [y] + t[..k - 2] && ([y] + t[..k - 2])[1..] == t[..k - 2]
  {
  }

  /** A welcome or a relayed message that breaks off cannot be read at all. */
  lemma CutJoined(lobby: LobbyId, id: nat, k: nat)
    requires |lobby| <= 0xFF && id <= 0xFF && 1 <= k < |Wire(LobbyJoined(lobby, id))|
    ensures ReadJoined(Wire(LobbyJoined(lobby, id))[..k][1..]) == None
  {
    var b := Wire(LobbyJoined(lobby, id))[..k][1..];
    if k > 1 {
      assert b[0] == |lobby|;
    }
  }

  lemma CutRelay(id: nat, payload: bytes, k: nat)
    requires id <= 0xFF && |payload| <= 0xFFFF && 1 <= k < |Wire(RelayMessage(id, payload))|
    ensures ReadRelay(Wire(RelayMessage(id, payload))[..k][1..]) == None
  {
    var w := Wire(RelayMessage(id, payload));
    if k >= 4 {
      RelayCount(id, Be2(|payload|), payload, k);
      Be2IsToBe(|payload|);
      Powers();
      FromToBeMod(|payload|, 2);
    }
  }

  lemma RelayCount(id: byte, field: bytes, payload: bytes, k: nat)
    requires |field| == 2 && 4 <= k <= 4 + |payload|
    ensures var b := ([RELAY_MESSAGE] + ([id] + (field + payload)))[..k][1..];
      b[1..3] == field && |b| == k - 1
  {
    var w := [RELAY_MESSAGE] + ([id] + (field + payload));
    assert w[2..] == field + payload;
    var b := w[..k][1..];
    assert b[1..3] == w[2..4] == w[2..][..2];
  }

  // ---- messages to the server ----

  datatype Request =
    | CreateLobby(name: bytes)
    | JoinLobby(name: bytes, lobby: bytes)
    | LeaveLobby
    | LockLobby
    | UnlockLobby
    | SendMessage(payload: bytes)
    | RequestLobbyUpdate
    | Heartbeat

  /** `Overread` stands for a field that runs past the end of the message. */
  datatype Parsed = Handled(req: Request) | Ignored | Overread

  function EncodeRequest(r: Request): (b: bytes) {
    match r
    case CreateLobby(name) => [CREATE_LOBBY] + Str8(name)
    case JoinLobby(name, lobby) => [JOIN_LOBBY] + (Str8(name) + Str8(lobby))
    case LeaveLobby => [LEAVE_LOBBY]
    case LockLobby => [LOCK_LOBBY]
    case UnlockLobby => [UNLOCK_LOBBY]
    case SendMessage(payload) => [SEND_MESSAGE] + Str16(payload)
    case RequestLobbyUpdate => [REQUEST_LOBBY_UPDATE]
    case Heartbeat => [HEARTBEAT]
  }

  function ParseRequest(msg: bytes): (p: Parsed) {
    if msg == [] then Overread else
    var kind, b := msg[0], msg[1..];
    if kind == CREATE_LOBBY then
      (match TakeStr8(b) case None => Overread case Some((name, _)) => Handled(CreateLobby(name)))
    else if kind == JOIN_LOBBY then
      match TakeStr8(b) {
        case None => Overread
        case Some((name, rest)) =>
          match TakeStr8(rest)
          case None => Overread
          case Some((lobby, _)) => Handled(JoinLobby(name, lobby))
      }
    else if kind == LEAVE_LOBBY then Handled(LeaveLobby)
    else if kind == LOCK_LOBBY then Handled(LockLobby)
    else if kind == UNLOCK_LOBBY then Handled(UnlockLobby)
    else if kind == SEND_MESSAGE then
      if |b| < 2 || |b| < 2 + FromBe(b[..2]) then Overread
      else Handled(SendMessage(b[2..2 + FromBe(b[..2])]))
    else if kind == REQUEST_LOBBY_UPDATE then Handled(RequestLobbyUpdate)
    else if kind == HEARTBEAT then Handled(Heartbeat)
    else Ignored
  }

  /** The server's cursor; it never looks at the end, so `None` marks a read outside the message. */
  class BufferReader {
    const buffer: bytes
    var cursor: nat

    constructor (buffer: bytes)
      ensures this.buffer == buffer && cursor == 0
    {
      this.buffer, cursor := buffer, 0;
    }

    method Integer8() returns (r: Option<byte>)
      requires cursor <= |buffer|
      modifies this
      ensures cursor <= |buffer|
      ensures if old(cursor) < |buffer| then r == Some(buffer[old(cursor)]) && cursor == old(cursor) + 1 else r == None
    {
      if cursor == |buffer| { return None; }
      r := Some(buffer[cursor]);
      cursor := cursor + 1;
    }

    method Integer16() returns (r: Option<nat>)
      requires cursor <= |buffer|
      modifies this
      ensures cursor <= |buffer|
      ensures if old(cursor) + 2 <= |buffer| then
                r == Some(FromBe(buffer[old(cursor)..old(cursor) + 2])) && cursor == old(cursor) + 2
              else r == None
    {
      if cursor + 2 > |buffer| { return None; }
      r := Some(FromBe(buffer[cursor..cursor + 2]));
      cursor := cursor + 2;
    }

    method Take(size: nat) returns (r: Option<bytes>)
      requires cursor <= |buffer|
      modifies this
      ensures cursor <= |buffer|
      ensures if old(cursor) + size <= |buffer| then
                r == Some(buffer[old(cursor)..old(cursor) + size]) && cursor == old(cursor) + size
              else r == None
    {
      if cursor + size > |buffer| { return None; }
      r := Some(buffer[cursor..cursor + size]);
      cursor := cursor + size;
    }

    method String8() returns (r: Option<bytes>)
      requires cursor <= |buffer|
      modifies this
      ensures cursor <= |buffer|
      ensures match TakeStr8(buffer[old(cursor)..])
              case None => r == None
              case Some((s, rest)) => r == Some(s) && buffer[cursor..] == rest
    {
      ghost var start := cursor;
      var size := Integer8();
      if size.None? { return None; }
      r := Take(size.value);
      if r.Some? {
        SliceFrom(buffer, start, size.value);
      }
    }
  }

  lemma SliceFrom(b: bytes, i: nat, n: nat)
    requires i + 1 + n <= |b|
    ensures b[i..][1..1 + n] == b[i + 1..i + 1 + n] && b[i..][1 + n..] == b[i + 1 + n..]
  {
  }

  lemma SliceAfter(b: bytes, i: nat, j: nat)
    requires i <= j < |b|
    ensures b[1..][i..j] == b[i + 1..j + 1]
  {
  }

  method ProcessMessage(msg: bytes) returns (p: Parsed)
    ensures p == ParseRequest(msg)
  {
    var rbuf := new BufferReader(msg);
    var kind := rbuf.Integer8();
    if kind.None? { return Overread; }
    var typeVal := kind.value;
    if typeVal >= LAST_MESSAGE_TYPE { return Ignored; }
    if typeVal == CREATE_LOBBY || typeVal == JOIN_LOBBY {
      var name := rbuf.String8();
      if name.None? { return Overread; }
      if typeVal == CREATE_LOBBY { return Handled(CreateLobby(name.value)); }
      var lobby := rbuf.String8();
      return if lobby.None? then Overread else Handled(JoinLobby(name.value, lobby.value));
    }
    if typeVal == SEND_MESSAGE {
      var size := rbuf.Integer16();
      if size.None? { return Overread; }
      SliceAfter(msg, 0, 2);
      var payload := rbuf.Take(size.value);
      if payload.None? { return Overread; }
      SliceAfter(msg, 2, 2 + size.value);
      return Handled(SendMessage(payload.value));
    }
    return if typeVal == LEAVE_LOBBY then Handled(LeaveLobby)
           else if typeVal == LOCK_LOBBY then Handled(LockLobby)
           else if typeVal == UNLOCK_LOBBY then Handled(UnlockLobby)
           else if typeVal == REQUEST_LOBBY_UPDATE then Handled(RequestLobbyUpdate)
           else if typeVal == HEARTBEAT then Handled(Heartbeat)
           else Ignored;
  }

  /** The messages to the server, byte for byte. */
  lemma RequestBytes(name: bytes, lobby: bytes, payload: bytes)
    requires |name| <= 0xFF && |lobby| <= 0xFF && |payload| <= 0xFFFF
    ensures EncodeRequest(CreateLobby(name)) == [0, |name|] + name
    ensures EncodeRequest(JoinLobby(name, lobby)) == [2, |name|] + name + [|lobby|] + lobby
    ensures EncodeRequest(LeaveLobby) == [4] && EncodeRequest(LockLobby) == [5] && EncodeRequest(UnlockLobby) == [6]
    ensures EncodeRequest(SendMessage(payload)) == [7, |payload| / 0x100, |payload| % 0x100] + payload
    ensures EncodeRequest(RequestLobbyUpdate) == [9] && EncodeRequest(Heartbeat) == [11]
  {
    assert EncodeRequest(JoinLobby(name, lobby)) == [2, |name|] + name + [|lobby|] + lobby by {
      JoinBytes(name, lobby);
    }
    assert EncodeRequest(SendMessage(payload)) == [7, |payload| / 0x100, |payload| % 0x100] + payload by {
      SendBytes(payload);
    }
  }

  lemma JoinBytes(name: bytes, lobby: bytes)
    requires |name| <= 0xFF && |lobby| <= 0xFF
    ensures EncodeRequest(JoinLobby(name, lobby)) == [2, |name|] + name + [|lobby|] + lobby
  {
    Assoc([2], [|name|], name);
    assert [2] + [|name|] == [2, |name|];
    Assoc([2], [|name|] + name, [|lobby|] + lobby);
    Assoc([2, |name|] + name, [|lobby|], lobby);
  }

  lemma SendBytes(payload: bytes)
    requires |payload| <= 0xFFFF
    ensures EncodeRequest(SendMessage(payload)) == [7, |payload| / 0x100, |payload| % 0x100] + payload
  {
    Assoc([7], Be2(|payload|), payload);
    assert [7] + Be2(|payload|) == [7, |payload| / 0x100, |payload| % 0x100];
  }

  /** What the server ignores: types it does not know, and those of its own messages. */
  lemma IgnoredExactly(msg: bytes)
    ensures ParseRequest(msg) == Ignored <==>
      msg != [] && (msg[0] == 1 || msg[0] == 3 || msg[0] == 8 || msg[0] == 10 || msg[0] >= 12)
  {
  }

  /** The length a message needs by its type and its counts, as far as they are there. */
  function Needed(msg: bytes): (n: nat) {
    if |msg| < 1 then 1
    else if msg[0] == CREATE_LOBBY then if |msg| < 2 then 2 else 2 + msg[1] as nat
    else if msg[0] == JOIN_LOBBY then
      if |msg| < 2 then 3
      else if |msg| < 3 + msg[1] as nat then 3 + msg[1] as nat
      else 3 + msg[1] as nat + msg[2 + msg[1]] as nat
    else if msg[0] == SEND_MESSAGE then if |msg| < 3 then 3 else 3 + 0x100 * msg[1] as nat + msg[2] as nat
    else 1
  }

  /** The server reads outside a message exactly if it is shorter than that. */
  lemma OverreadExactly(msg: bytes)
    ensures ParseRequest(msg) == Overread <==> |msg| < Needed(msg)
  {
    if |msg| >= 3 {
      var b := msg[1..][..2];
      assert b[..1][..0] == [] && FromBe(b) == 0x100 * FromBe(b[..1]) + b[1] as int;
      assert FromBe(b[..1]) == b[0] as int;
    }
  }

  /** So a request that breaks off anywhere makes it do that. */
  lemma CutRequestOverreads(r: Request, k: nat)
    requires FitsCounts(r) && k < |EncodeRequest(r)|
    ensures ParseRequest(EncodeRequest(r)[..k]) == Overread
  {
    EncodedNeeds(r);
    CutNeedsMore(EncodeRequest(r), k);
    OverreadExactly(EncodeRequest(r)[..k]);
  }

  lemma EncodedNeeds(r: Request)
    requires FitsCounts(r)
    ensures Needed(EncodeRequest(r)) == |EncodeRequest(r)|
  {
    var b := EncodeRequest(r);
    match r
    case CreateLobby(name) => assert b[1] == |name|;
    case JoinLobby(name, lobby) => JoinNeeds(b, name, lobby);
    case SendMessage(payload) => assert b[1] == |payload| / 0x100 && b[2] == |payload| % 0x100;
    case _ =>
  }

  lemma JoinNeeds(b: bytes, name: bytes, lobby: bytes)
    requires |name| <= 0xFF && |lobby| <= 0xFF && b == [JOIN_LOBBY] + (Str8(name) + Str8(lobby))
    ensures Needed(b) == |b|
  {
    var n := |name|;
    assert b[1] == n && b[2 + n] == (Str8(name) + Str8(lobby))[1 + n] == |lobby|;
  }

  lemma CutNeedsMore(b: bytes, k: nat)
    requires k < |b| == Needed(b)
    ensures k < Needed(b[..k])
  {
  }

  /** Names and payloads no longer than their counts can say. */
  predicate FitsCounts(r: Request) {
    match r
    case CreateLobby(name) => |name| <= 0xFF
    case JoinLobby(name, lobby) => |name| <= 0xFF && |lobby| <= 0xFF
    case SendMessage(payload) => |payload| <= 0xFFFF
    case _ => true
  }

  /** The server understands what the client encoded, exactly when the counts were not cut. */
  lemma RequestReadsBack(r: Request)
    ensures ParseRequest(EncodeRequest(r)) == Handled(r) <==> FitsCounts(r)
  {
    ParsedFits(EncodeRequest(r));
    if FitsCounts(r) {
      FittingReadsBack(r);
    }
  }

  lemma ParsedFits(msg: bytes)
    ensures ParseRequest(msg).Handled? ==> FitsCounts(ParseRequest(msg).req)
  {
    if |msg| >= 3 {
      Powers();
      ToFromBe(msg[1..][..2]);
    }
  }

  lemma FittingReadsBack(r: Request)
    requires FitsCounts(r)
    ensures ParseRequest(EncodeRequest(r)) == Handled(r)
  {
    var b := EncodeRequest(r)[1..];
    match r
    case CreateLobby(name) =>
      assert b == Str8(name) + [];
      TakesStr8(name, []);
    case JoinLobby(name, lobby) =>
      assert b == Str8(name) + Str8(lobby) && Str8(lobby) == Str8(lobby) + [];
      TakesStr8(name, Str8(lobby));
      TakesStr8(lobby, []);
    case SendMessage(payload) => PayloadReadsBack(payload);
    case _ =>
  }

  lemma PayloadReadsBack(payload: bytes)
    requires |payload| <= 0xFFFF
    ensures ParseRequest(EncodeRequest(SendMessage(payload))) == Handled(SendMessage(payload))
  {
    var b := EncodeRequest(SendMessage(payload))[1..];
    assert b == Str16(payload) && b[..2] == Be2(|payload|) && b[2..2 + |payload|] == payload;
    Be2IsToBe(|payload|);
    Powers();
    FromToBeMod(|payload|, 2);
  }
}
