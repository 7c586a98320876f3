/** Length-prefixed messages over a byte stream, and the server's extraction of them from its read buffer. */
module Framing {
  import opened Bytes

  /** A message as both sides send it; a longer length is cut to its low 32 bits. */
  function Frame(msg: bytes): (b: bytes) {
    Be4(|msg|) + msg
  }

  function Frames(ms: seq<bytes>): (b: bytes) {
    if ms == [] then [] else Frames(ms[..|ms| - 1]) + Frame(ms[|ms| - 1])
  }

  predicate Sendable(ms: seq<bytes>) {
    forall m :: m in ms ==> |m| < TWO32
  }

  /** The length field at the front of a stream. */
  function SizeAt(b: bytes): (n: nat)
    requires |b| >= 4
    ensures n < TWO32
  {
    Be4OfFromBe(b[..4]);
    FromBe(b[..4])
  }

  predicate HasFrame(b: bytes) {
    |b| >= 4 && |b| >= SizeAt(b) + 4
  }

  function FirstMessage(b: bytes): (m: bytes)
    requires HasFrame(b)
  {
    b[4..SizeAt(b) + 4]
  }

  function AfterFirst(b: bytes): (rest: bytes)
    requires HasFrame(b)
    ensures |rest| < |b|
  {
    b[SizeAt(b) + 4..]
  }

  /** All complete messages at the front of a stream, and the bytes after them. */
  function Parse(b: bytes): (r: (seq<bytes>, bytes))
    decreases |b|
  {
    if HasFrame(b) then
      var (ms, rest) := Parse(AfterFirst(b));
      ([FirstMessage(b)] + ms, rest)
    else
      ([], b)
  }

  // ---- framing is unambiguous ----

  lemma FrameHasIt(m: bytes, t: bytes)
    requires |m| < TWO32
    ensures var b := Frame(m) + t; HasFrame(b) && FirstMessage(b) == m && AfterFirst(b) == t
  {
    var b := Frame(m) + t;
    Be4RoundTrip(|m|);
    assert b[..4] == Be4(|m|);
  }

  lemma FirstRebuilt(b: bytes)
    requires HasFrame(b)
    ensures |FirstMessage(b)| < TWO32 && Frame(FirstMessage(b)) + AfterFirst(b) == b
  {
    Be4OfFromBe(b[..4]);
    assert b == b[..4] + b[4..SizeAt(b) + 4] + b[SizeAt(b) + 4..];
  }

  lemma {:induction false} FramesAppend(a: seq<bytes>, b: seq<bytes>)
    ensures Frames(a + b) == Frames(a) + Frames(b)
  {
    if b == [] {
      assert a + b == a;
    } else {
      assert (a + b)[..|a + b| - 1] == a + b[..|b| - 1];
      FramesAppend(a, b[..|b| - 1]);
      Assoc(Frames(a), Frames(b[..|b| - 1]), Frame(b[|b| - 1]));
    }
  }

  lemma FramesOne(m: bytes)
    ensures Frames([m]) == Frame(m)
  {
    assert [m][..0] == [];
  }

  /** Messages framed one after another, before some tail. */
  lemma FramesJoin(a: seq<bytes>, b: seq<bytes>, rest: bytes)
    ensures Frames(a + b) + rest == Frames(a) + (Frames(b) + rest)
  {
    FramesAppend(a, b);
    Assoc(Frames(a), Frames(b), rest);
  }

  lemma FramesCons(m: bytes, ms: seq<bytes>, rest: bytes)
    ensures Frames([m] + ms) + rest == Frame(m) + (Frames(ms) + rest)
  {
    FramesJoin([m], ms, rest);
    FramesOne(m);
  }

  /** Nothing is lost, and nothing complete is left. */
  lemma {:induction false} ParseConserves(b: bytes)
    ensures var (ms, rest) := Parse(b); Frames(ms) + rest == b && Sendable(ms) && !HasFrame(rest)
    decreases |b|
  {
    if HasFrame(b) {
      ParseConserves(AfterFirst(b));
      FirstRebuilt(b);
      var (ms, rest) := Parse(AfterFirst(b));
      FramesCons(FirstMessage(b), ms, rest);
    }
  }

  /** Only one list of messages and one incomplete rest make up a stream. */
  lemma {:induction false} ParseUnique(ms: seq<bytes>, rest: bytes)
    requires Sendable(ms) && !HasFrame(rest)
    ensures Parse(Frames(ms) + rest) == (ms, rest)
  {
    if ms == [] {
      assert Frames(ms) + rest == rest;
    } else {
      var tail := Frames(ms[1..]) + rest;
      assert [ms[0]] + ms[1..] == ms;
      FramesCons(ms[0], ms[1..], rest);
      FrameHasIt(ms[0], tail);
      ParseUnique(ms[1..], rest);
    }
  }

  /** Parsing may stop anywhere and go on with what was left and what came since. */
  lemma ParseResumes(a: bytes, b: bytes)
    ensures var (ms, rest) := Parse(a); var (ms', rest') := Parse(rest + b); Parse(a + b) == (ms + ms', rest')
  {
    var (ms, rest) := Parse(a);
    var (ms', rest') := Parse(rest + b);
    ParseConserves(a);
    ParseConserves(rest + b);
    Assoc(Frames(ms), rest, b);
    FramesJoin(ms, ms', rest');
    ParseUnique(ms + ms', rest');
  }

  /** More bytes only add messages. */
  lemma ParsePrefix(a: bytes, b: bytes)
    ensures Parse(a).0 <= Parse(a + b).0
  {
    ParseResumes(a, b);
  }

  // ---- readMessage ----

  datatype ReadOutcome = NoMessage | Message(msg: bytes) | AssertionFails

  class StreamBuf {
    var data: bytes

    constructor ()
      ensures data == []
    {
      data := [];
    }

    method Commit(more: bytes)
      modifies this
      ensures data == old(data) + more
    {
      data := data + more;
    }

    method Consume(n: nat)
      requires n <= |data|
      modifies this
      ensures data == old(data)[n..]
    {
      data := data[n..];
    }
  }

  /** What `readMessage` makes of a buffer: its size test adds 4 in 32 bits, and `readString` asserts. */
  function Outcome(buf: bytes): (o: ReadOutcome) {
    if HasFrame(buf) then Message(FirstMessage(buf))
    else if |buf| >= 4 && SizeAt(buf) > TWO32 - 5 then AssertionFails
    else NoMessage
  }

  method ReadMessage(buf: StreamBuf) returns (o: ReadOutcome)
    modifies buf
    ensures o == Outcome(old(buf.data))
    ensures o.Message? ==> old(buf.data) == Frame(o.msg) + buf.data
    ensures o.NoMessage? ==> buf.data == old(buf.data) && !HasFrame(buf.data)
  {
    if |buf.data| >= 4 {
      var msgSize := SizeAt(buf.data);
      if |buf.data| >= (msgSize + 4) % TWO32 {
        FirstIfComplete(buf.data);
        buf.Consume(4);
        if |buf.data| < msgSize {
          return AssertionFails;
        }
        var msg := buf.data[..msgSize];
        buf.Consume(msgSize);
        return Message(msg);
      }
    }
    return NoMessage;
  }

  lemma FirstIfComplete(b: bytes)
    ensures HasFrame(b) ==> Frame(FirstMessage(b)) + AfterFirst(b) == b
  {
    if HasFrame(b) {
      FirstRebuilt(b);
    }
  }

  // ---- the read events of a connection ----

  datatype Served = Serving(msgs: seq<bytes>, buf: bytes) | Crashed

  /** One read event: commit the bytes, then extract at most one message. */
  function Serve(sv: Served, chunk: bytes): (r: Served)
    ensures r.Serving? ==> sv.Serving? && |r.msgs| <= |sv.msgs| + 1
  {
    if sv.Crashed? then Crashed else
    var buf := sv.buf + chunk;
    match Outcome(buf)
    case NoMessage => Serving(sv.msgs, buf)
    case Message(m) => Serving(sv.msgs + [m], AfterFirst(buf))
    case AssertionFails => Crashed
  }

  function ServeAll(chunks: seq<bytes>): (r: Served)
    ensures r.Serving? ==> |r.msgs| <= |chunks|
  {
    if chunks == [] then Serving([], []) else Serve(ServeAll(chunks[..|chunks| - 1]), chunks[|chunks| - 1])
  }

  lemma FlattenLast(chunks: seq<bytes>)
    requires chunks != []
    ensures Flatten(chunks) == Flatten(chunks[..|chunks| - 1]) + chunks[|chunks| - 1]
  {
    FlattenPush(chunks[..|chunks| - 1], chunks[|chunks| - 1]);
    assert chunks[..|chunks| - 1] + [chunks[|chunks| - 1]] == chunks;
  }

  /** Re-framed messages and the buffer are the bytes committed. */
  lemma {:induction false} ServeConserves(chunks: seq<bytes>)
    requires ServeAll(chunks).Serving?
    ensures var sv := ServeAll(chunks); Frames(sv.msgs) + sv.buf == Flatten(chunks) && Sendable(sv.msgs)
  {
    if chunks != [] {
      var init, chunk := chunks[..|chunks| - 1], chunks[|chunks| - 1];
      ServeConserves(init);
      FlattenLast(chunks);
      var sv := ServeAll(init);
      var buf := sv.buf + chunk;
      Assoc(Frames(sv.msgs), sv.buf, chunk);
      if HasFrame(buf) {
        FirstRebuilt(buf);
        FramesOne(FirstMessage(buf));
        FramesJoin(sv.msgs, [FirstMessage(buf)], AfterFirst(buf));
      }
    }
  }

  /** Served messages are the first messages of the stream, however it is cut. */
  lemma ServedPrefix(chunks: seq<bytes>)
    requires ServeAll(chunks).Serving?
    ensures ServeAll(chunks).msgs <= Parse(Flatten(chunks)).0
    ensures Parse(Flatten(chunks)).0[|ServeAll(chunks).msgs|..] == Parse(ServeAll(chunks).buf).0
  {
    var sv := ServeAll(chunks);
    ServeConserves(chunks);
    ParseConserves(sv.buf);
    var (ms, rest) := Parse(sv.buf);
    FramesJoin(sv.msgs, ms, rest);
    ParseUnique(sv.msgs + ms, rest);
  }

  /** Two ways to cut one stream serve comparable messages. */
  lemma ChunkingsComparable(a: seq<bytes>, b: seq<bytes>)
    requires Flatten(a) == Flatten(b) && ServeAll(a).Serving? && ServeAll(b).Serving?
    ensures ServeAll(a).msgs <= ServeAll(b).msgs || ServeAll(b).msgs <= ServeAll(a).msgs
  {
    ServedPrefix(a);
    ServedPrefix(b);
  }

  /** A read event leaves no complete message behind exactly when at most one had arrived. */
  lemma DrainedExactly(sv: Served, chunk: bytes)
    requires sv.Serving? && Serve(sv, chunk).Serving?
    ensures !HasFrame(Serve(sv, chunk).buf) <==> |Parse(sv.buf + chunk).0| <= 1
  {
    var buf := sv.buf + chunk;
    if HasFrame(buf) {
      assert Parse(buf).0 == [FirstMessage(buf)] + Parse(AfterFirst(buf)).0;
    }
  }

  /** A message is left waiting when two arrive in one read. */
  lemma SecondMessageWaits(a: bytes, b: bytes)
    requires |a| < TWO32 && |b| < TWO32
    ensures ServeAll([Frame(a) + Frame(b)]) == Serving([a], Frame(b)) && HasFrame(Frame(b))
  {
    FrameHasIt(a, Frame(b));
    FrameHasIt(b, []);
    assert Frame(b) + [] == Frame(b);
    var chunks := [Frame(a) + Frame(b)];
    assert chunks[..0] == [] && [] + (Frame(a) + Frame(b)) == Frame(a) + Frame(b) && [] + [a] == [a];
    assert ServeAll(chunks) == Serve(Serving([], []), chunks[0]);
  }

  /** A size within 4 of 2^32 whose message is not all there: adding 4 to it wraps around, so the size test passes. */
  predicate Overlong(b: bytes) {
    |b| >= 4 && SizeAt(b) > TWO32 - 5 && |b| < SizeAt(b) + 4
  }

  /** A read event fails exactly on such a size at the front of the buffer. */
  lemma ReadFailsExactly(sv: Served, chunk: bytes)
    requires sv.Serving?
    ensures Serve(sv, chunk) == Crashed <==> Overlong(sv.buf + chunk)
  {
  }

  /** Read `k` leaves such a size behind the messages extracted before. */
  predicate FailsAt(chunks: seq<bytes>, k: nat) {
    k < |chunks| && var sv := ServeAll(chunks[..k]); sv.Serving? && Overlong(sv.buf + chunks[k])
  }

  /** A server fails exactly if some read does. */
  lemma {:induction false} CrashesExactly(chunks: seq<bytes>)
    ensures ServeAll(chunks) == Crashed <==> exists k: nat :: FailsAt(chunks, k)
  {
    if chunks != [] {
      var n: nat, init := |chunks| - 1, chunks[..|chunks| - 1];
      CrashesExactly(init);
      assert FailsAt(chunks, n) <==> ServeAll(init).Serving? && ServeAll(chunks) == Crashed by {
        if ServeAll(init).Serving? {
          ReadFailsExactly(ServeAll(init), chunks[n]);
        }
      }
      forall k: nat | k < n ensures FailsAt(chunks, k) <==> FailsAt(init, k) {
        assert init[..k] == chunks[..k];
      }
    }
  }

  /** Such a failure: the header of a message of 2^32 - 1 bytes, alone in the first read. */
  lemma HeaderAloneCrashes()
    ensures ServeAll([[0xFF, 0xFF, 0xFF, 0xFF]]) == Crashed
  {
    var header: bytes := [0xFF, 0xFF, 0xFF, 0xFF];
    var chunks := [header];
    assert SizeAt(header) == TWO32 - 1 by {
      assert Be4(TWO32 - 1) == header;
      Be4RoundTrip(TWO32 - 1);
      assert header[..4] == header;
    }
    assert chunks[..0] == [] && [] + header == header;
    assert ServeAll(chunks) == Serve(Serving([], []), header);
  }

  /** A stream of messages of at most 2^32 - 5 bytes never makes the server fail. */
  lemma {:induction false} ShortMessagesServed(ms: seq<bytes>, rest: bytes, chunks: seq<bytes>)
    requires forall m :: m in ms ==> |m| <= TWO32 - 5
    requires |rest| >= 4 ==> SizeAt(rest) <= TWO32 - 5
    requires !HasFrame(rest) && Flatten(chunks) <= Frames(ms) + rest
    ensures ServeAll(chunks).Serving?
  {
    if chunks != [] {
      var init, chunk := chunks[..|chunks| - 1], chunks[|chunks| - 1];
      FlattenLast(chunks);
      assert Flatten(init) <= Flatten(chunks);
      ShortMessagesServed(ms, rest, init);
      var sv := ServeAll(init);
      assert Frames(sv.msgs) + sv.buf == Flatten(init) && Sendable(sv.msgs) by { ServeConserves(init); }
      Assoc(Frames(sv.msgs), sv.buf, chunk);
      HeaderShort(ms, rest, sv.msgs, sv.buf + chunk);
    }
  }

  lemma HeaderShort(ms: seq<bytes>, rest: bytes, done: seq<bytes>, buf: bytes)
    requires forall m :: m in ms ==> |m| <= TWO32 - 5
    requires |rest| >= 4 ==> SizeAt(rest) <= TWO32 - 5
    requires !HasFrame(rest) && Sendable(done) && Frames(done) + buf <= Frames(ms) + rest
    ensures |buf| >= 4 ==> SizeAt(buf) <= TWO32 - 5
  {
    var more := Remainder(Frames(done) + buf, Frames(ms) + rest);
    Assoc(Frames(done), buf, more);
    NextHeader(done, buf + more, ms, rest);
    if |buf| >= 4 {
      SizeInFront(buf, more);
    }
  }

  lemma Remainder(a: bytes, b: bytes) returns (more: bytes)
    requires a <= b
    ensures a + more == b
  {
    more := b[|a|..];
  }

  lemma SizeInFront(b: bytes, more: bytes)
    requires |b| >= 4
    ensures SizeAt(b + more) == SizeAt(b)
  {
    assert (b + more)[..4] == b[..4];
  }

  /** After some messages of a stream comes the header of the next one, or of the rest. */
  lemma NextHeader(done: seq<bytes>, tail: bytes, ms: seq<bytes>, rest: bytes)
    requires Sendable(done) && Sendable(ms) && !HasFrame(rest) && Frames(done) + tail == Frames(ms) + rest
    ensures done <= ms && tail == Frames(ms[|done|..]) + rest
    ensures |tail| >= 4 ==>
      SizeAt(tail) == (if |done| < |ms| then |ms[|done|]| else if |rest| >= 4 then SizeAt(rest) else SizeAt(tail))
    ensures |done| == |ms| ==> tail == rest
  {
    ParseConserves(tail);
    var (more, left) := Parse(tail);
    FramesJoin(done, more, left);
    ParseUnique(done + more, left);
    ParseUnique(ms, rest);
    assert ms[|done|..] == more && left == rest;
    if |done| < |ms| {
      assert [more[0]] + more[1..] == more;
      FramesCons(more[0], more[1..], rest);
      FrameHasIt(more[0], Frames(more[1..]) + rest);
      SizeOfFrame(more[0], Frames(more[1..]) + rest);
    } else {
      assert Frames([]) + rest == rest;
    }
  }

  lemma SizeOfFrame(m: bytes, t: bytes)
    requires |m| < TWO32
    ensures SizeAt(Frame(m) + t) == |m|
  {
    Be4RoundTrip(|m|);
    assert (Frame(m) + t)[..4] == Be4(|m|);
  }
}
