/**
 The client's receive loop over any message handler, and what it guarantees: as intended, with the whole
 queue in view, and as written, with only the front chunk in view. A handler takes the client's state and a
 message; its flag is false when it raises an error.
 */
module ClientLaws {
  import opened Bytes
  import opened Framing

  type Handler<!S> = (S, bytes) -> (S, bool)

  /** Dispatching a list of messages up to the first that fails, and how many messages that took. */
  function Dispatched<S>(h: Handler<S>, c: S, ms: seq<bytes>): (r: (S, bool, nat))
    ensures r.2 <= |ms| && (r.1 ==> r.2 == |ms|)
    decreases |ms|
  {
    if ms == [] then (c, true, 0) else
    var (c', ok) := h(c, ms[0]);
    if !ok then (c', false, 1) else
    var (c'', ok', n) := Dispatched(h, c', ms[1..]);
    (c'', ok', n + 1)
  }

  lemma {:induction false} DispatchedAppend<S>(h: Handler<S>, c: S, a: seq<bytes>, b: seq<bytes>)
    ensures var (c', ok, n) := Dispatched(h, c, a);
      var (c'', ok', m) := Dispatched(h, c', b);
      Dispatched(h, c, a + b) == if ok then (c'', ok', n + m) else (c', false, n)
    decreases |a|
  {
    if a == [] {
      assert a + b == b;
    } else {
      assert (a + b)[1..] == a[1..] + b;
      DispatchedAppend(h, h(c, a[0]).0, a[1..], b);
    }
  }

  lemma DispatchedPush<S>(h: Handler<S>, c: S, ms: seq<bytes>, m: bytes)
    ensures var d, e := Dispatched(h, c, ms), Dispatched(h, c, ms + [m]);
      e.0 == (if d.1 then h(d.0, m).0 else d.0) && e.1 == (d.1 && h(d.0, m).1)
  {
    DispatchedAppend(h, c, ms, [m]);
    assert [m][1..] == [];
  }

  // ---- as intended ----

  /** Dispatch until nothing complete is left or a handler fails; the flag tells which. */
  function Drain<S>(h: Handler<S>, c: S, b: bytes): (r: (S, bytes, bool))
    decreases |b|
  {
    if !HasFrame(b) then (c, b, true) else
    var (c', ok) := h(c, FirstMessage(b));
    if ok then Drain(h, c', AfterFirst(b)) else (c', AfterFirst(b), false)
  }

  /** Draining a stream dispatches its messages in order; what stays is the rest of the stream. */
  lemma {:induction false} DrainIsDispatch<S>(h: Handler<S>, c: S, b: bytes)
    ensures var (ms, rest) := Parse(b);
      var (c', left, ok) := Drain(h, c, b);
      && (c', ok) == (Dispatched(h, c, ms).0, Dispatched(h, c, ms).1)
      && left == Frames(ms[Dispatched(h, c, ms).2..]) + rest
    decreases |b|
  {
    if HasFrame(b) {
      var (c', ok) := h(c, FirstMessage(b));
      var (ms, rest) := Parse(AfterFirst(b));
      assert ([FirstMessage(b)] + ms)[1..] == ms;
      if ok {
        DrainIsDispatch(h, c', AfterFirst(b));
        var n := Dispatched(h, c', ms).2;
        assert ([FirstMessage(b)] + ms)[n + 1..] == ms[n..];
      } else {
        ParseConserves(AfterFirst(b));
      }
    } else {
      assert Frames(Parse(b).0[..0]) + b == b && Parse(b).0[0..] == [];
    }
  }

  /** Nothing is lost or made up: dispatched messages and the queue are the bytes that came. */
  lemma DrainConserves<S>(h: Handler<S>, c: S, b: bytes)
    ensures var (ms, rest) := Parse(b);
      var (c', left, ok) := Drain(h, c, b);
      Frames(ms[..Dispatched(h, c, ms).2]) + left == b
  {
    var (ms, rest) := Parse(b);
    var n := Dispatched(h, c, ms).2;
    assert Drain(h, c, b).1 == Frames(ms[n..]) + rest by { DrainIsDispatch(h, c, b); }
    SplitStream(b, n);
  }

  lemma SplitStream(b: bytes, n: nat)
    requires n <= |Parse(b).0|
    ensures var (ms, rest) := Parse(b); Frames(ms[..n]) + (Frames(ms[n..]) + rest) == b
  {
    ParseConserves(b);
    SplitFrames(Parse(b).0, Parse(b).1, n);
  }

  lemma SplitFrames(ms: seq<bytes>, rest: bytes, n: nat)
    requires n <= |ms|
    ensures Frames(ms[..n]) + (Frames(ms[n..]) + rest) == Frames(ms) + rest
  {
    FramesJoin(ms[..n], ms[n..], rest);
    assert ms[..n] + ms[n..] == ms;
  }

  /** Unless a handler fails, every complete message has been dispatched when `receive` returns. */
  lemma DrainCompletes<S>(h: Handler<S>, c: S, b: bytes)
    ensures Drain(h, c, b).2 ==> Drain(h, c, b).1 == Parse(b).1 && !HasFrame(Drain(h, c, b).1)
  {
    DrainIsDispatch(h, c, b);
    ParseConserves(b);
    var ms := Parse(b).0;
    if Drain(h, c, b).2 {
      assert ms[|ms|..] == [];
      assert Frames(ms[|ms|..]) + Parse(b).1 == Parse(b).1;
    }
  }

  /** Reading a stream in chunks, up to the first failure. */
  function ReceiveAll<S>(h: Handler<S>, c: S, chunks: seq<bytes>): (r: (S, bytes, bool)) {
    if chunks == [] then (c, [], true) else
    var (c', left, ok) := ReceiveAll(h, c, chunks[..|chunks| - 1]);
    if ok then Drain(h, c', left + chunks[|chunks| - 1]) else (c', left, false)
  }

  /** However a stream is cut into chunks, its messages are dispatched as if it had come at once. */
  lemma {:induction false} ChunksDoNotMatter<S>(h: Handler<S>, c: S, chunks: seq<bytes>)
    ensures var ms := Parse(Flatten(chunks)).0;
      var (c', left, ok) := ReceiveAll(h, c, chunks);
      && (c', ok) == (Dispatched(h, c, ms).0, Dispatched(h, c, ms).1)
      && (ok ==> left == Parse(Flatten(chunks)).1)
  {
    if chunks != [] {
      var init, last := chunks[..|chunks| - 1], chunks[|chunks| - 1];
      ChunksDoNotMatter(h, c, init);
      FlattenLast(chunks);
      ParseResumes(Flatten(init), last);
      var (c', left, ok) := ReceiveAll(h, c, init);
      var (ms, rest) := Parse(Flatten(init));
      DispatchedAppend(h, c, ms, Parse(rest + last).0);
      if ok {
        DrainIsDispatch(h, c', left + last);
        DrainCompletes(h, c', left + last);
      }
    }
  }

  // ---- as written: one call of `receive` ----

  predicate NonEmpty(chunks: seq<bytes>) {
    forall i :: 0 <= i < |chunks| ==> chunks[i] != []
  }

  /** The queue after its front message is taken: the rest of the front chunk is pushed back unless empty. */
  function WithoutFirst(chunks: seq<bytes>): (left: seq<bytes>)
    requires chunks != [] && HasFrame(chunks[0])
    ensures Flatten(left) == AfterFirst(chunks[0]) + Flatten(chunks[1..])
    ensures |Flatten(left)| < |Flatten(chunks)|
    ensures NonEmpty(chunks) ==> NonEmpty(left)
  {
    var rest := AfterFirst(chunks[0]);
    if rest == [] then chunks[1..] else
    assert ([rest] + chunks[1..])[1..] == chunks[1..];
    [rest] + chunks[1..]
  }

  /** As written, only the front chunk is looked at. */
  function DrainFront<S>(h: Handler<S>, c: S, chunks: seq<bytes>): (r: (S, seq<bytes>, bool))
    decreases |Flatten(chunks)|
  {
    if chunks == [] || !HasFrame(chunks[0]) then (c, chunks, true) else
    var (c', ok) := h(c, FirstMessage(chunks[0]));
    var left := WithoutFirst(chunks);
    if ok then DrainFront(h, c', left) else (c', left, false)
  }

  /** The front chunk begins the stream. */
  lemma FrontOfAll(chunks: seq<bytes>)
    requires chunks != []
    ensures var front, all := chunks[0], Flatten(chunks);
      && (|front| >= 4 ==> |all| >= 4 && SizeAt(front) == SizeAt(all))
      && (HasFrame(front) ==>
            HasFrame(all) && FirstMessage(all) == FirstMessage(front)
             && AfterFirst(all) == Flatten(WithoutFirst(chunks)))
  {
    var front, all := chunks[0], Flatten(chunks);
    if |front| >= 4 {
      assert all[..4] == front[..4];
      if HasFrame(front) {
        var n := SizeAt(front) + 4;
        assert all[4..n] == front[4..n] && all[n..] == front[n..] + Flatten(chunks[1..]);
      }
    }
  }

  /** Dispatching `ms` leads to `r`, and `ms` re-framed and the queue are the stream `b`. */
  predicate Progress<S(==)>(h: Handler<S>, c: S, ms: seq<bytes>, b: bytes, r: (S, seq<bytes>, bool)) {
    && Sendable(ms) && Dispatched(h, c, ms) == (r.0, r.2, |ms|)
    && Frames(ms) + Flatten(r.1) == b
  }

  /** As written, too, dispatched messages and the queue are the bytes that came. */
  lemma {:induction false} FrontConserves<S>(h: Handler<S>, c: S, chunks: seq<bytes>) returns (ms: seq<bytes>)
    ensures Progress(h, c, ms, Flatten(chunks), DrainFront(h, c, chunks))
    decreases |Flatten(chunks)|
  {
    ms := [];
    if chunks == [] || !HasFrame(chunks[0]) {
      assert Frames(ms) + Flatten(chunks) == Flatten(chunks);
    } else {
      var m, after := FirstMessage(chunks[0]), WithoutFirst(chunks);
      FrontRebuilt(chunks);
      var (c', ok) := h(c, m);
      if ok {
        var more := FrontConserves(h, c', after);
        FramesCons(m, more, Flatten(DrainFront(h, c', after).1));
        ms := [m] + more;
        assert ms[1..] == more;
      } else {
        ms := [m];
        FramesOne(m);
      }
    }
  }

  lemma FrontRebuilt(chunks: seq<bytes>)
    requires chunks != [] && HasFrame(chunks[0])
    ensures var m, after := FirstMessage(chunks[0]), WithoutFirst(chunks);
      && |m| < TWO32 && Frame(m) + Flatten(after) == Flatten(chunks)
      && Parse(Flatten(chunks)).0 == [m] + Parse(Flatten(after)).0
  {
    FrontOfAll(chunks);
    FirstRebuilt(Flatten(chunks));
  }

  // ---- the reads a stream came in ----

  /** Is position `p` of the stream its start or the end of one of the chunks it came in? */
  predicate IsCut(chunks: seq<bytes>, p: int) {
    p == 0 || (chunks != [] && p >= |chunks[0]| && IsCut(chunks[1..], p - |chunks[0]|))
  }

  lemma {:induction false} CutsAreEnds(chunks: seq<bytes>, p: int)
    ensures IsCut(chunks, p) <==> exists j :: 0 <= j <= |chunks| && p == |Flatten(chunks[..j])|
  {
    assert |Flatten(chunks[..0])| == 0;
    if chunks != [] {
      var c, tail := chunks[0], chunks[1..];
      CutsAreEnds(tail, p - |c|);
      forall j | 0 <= j < |chunks| ensures Flatten(chunks[..j + 1]) == c + Flatten(tail[..j]) {
        assert chunks[..j + 1] == [c] + tail[..j];
        FlattenCons(c, tail[..j]);
      }
      if j :| 0 <= j <= |tail| && p - |c| == |Flatten(tail[..j])| {
        assert p == |Flatten(chunks[..j + 1])|;
      }
      if j :| 0 < j <= |chunks| && p == |Flatten(chunks[..j])| {
        assert p - |c| == |Flatten(tail[..j - 1])|;
      }
    }
  }

  /** Where the `k`-th message of a stream begins, and the one before it ends. */
  function Offset(ms: seq<bytes>, k: nat): (p: nat)
    requires k <= |ms|
  {
    |Frames(ms[..k])|
  }

  predicate CutBetween(chunks: seq<bytes>, lo: nat, hi: nat) {
    exists p :: lo < p < hi && IsCut(chunks, p)
  }

  /** Does the end of a chunk fall inside the `k`-th message of the stream, header included? */
  predicate Crosses(ms: seq<bytes>, chunks: seq<bytes>, k: nat)
    requires k < |ms|
  {
    CutBetween(chunks, Offset(ms, k), Offset(ms, k + 1))
  }

  predicate NoneCross(ms: seq<bytes>, chunks: seq<bytes>) {
    forall k :: 0 <= k < |ms| ==> !Crosses(ms, chunks, k)
  }

  /** The first message from the `k`-th on that crosses the end of a chunk, or else their number. */
  function FirstCrossing(ms: seq<bytes>, chunks: seq<bytes>, k: nat): (n: nat)
    requires k <= |ms|
    ensures k <= n <= |ms| && (n < |ms| ==> Crosses(ms, chunks, n))
    ensures forall i :: k <= i < n ==> !Crosses(ms, chunks, i)
    decreases |ms| - k
  {
    if k == |ms| || Crosses(ms, chunks, k) then k else FirstCrossing(ms, chunks, k + 1)
  }

  lemma OffsetMoves(m: bytes, ms: seq<bytes>, k: nat)
    requires k <= |ms|
    ensures Offset([m] + ms, k + 1) == |Frame(m)| + Offset(ms, k) && Offset([m] + ms, 0) == 0
  {
    assert ([m] + ms)[..k + 1] == [m] + ms[..k];
    FramesAppend([m], ms[..k]);
    FramesOne(m);
  }

  /** Taking the front message off moves every later cut forward by its length. */
  lemma CutsMove(chunks: seq<bytes>, q: int)
    requires chunks != [] && HasFrame(chunks[0]) && q > 0
    ensures var f := SizeAt(chunks[0]) + 4;
      && IsCut(chunks, f + q) == IsCut(WithoutFirst(chunks), q)
      && forall p :: 0 < p < f ==> !IsCut(chunks, p)
  {
    var rest, tail := AfterFirst(chunks[0]), chunks[1..];
    if rest != [] {
      assert ([rest] + tail)[1..] == tail;
    }
  }

  lemma CrossingMoves(m: bytes, ms: seq<bytes>, chunks: seq<bytes>, k: nat)
    requires chunks != [] && HasFrame(chunks[0]) && m == FirstMessage(chunks[0]) && k < |ms|
    ensures Crosses([m] + ms, chunks, k + 1) == Crosses(ms, WithoutFirst(chunks), k)
  {
    OffsetMoves(m, ms, k);
    OffsetMoves(m, ms, k + 1);
    CutBetweenMoves(chunks, Offset(ms, k), Offset(ms, k + 1));
  }

  lemma CutBetweenMoves(chunks: seq<bytes>, lo: nat, hi: nat)
    requires chunks != [] && HasFrame(chunks[0])
    ensures var f := SizeAt(chunks[0]) + 4;
      CutBetween(chunks, f + lo, f + hi) == CutBetween(WithoutFirst(chunks), lo, hi)
  {
    var f, after := SizeAt(chunks[0]) + 4, WithoutFirst(chunks);
    if p :| f + lo < p < f + hi && IsCut(chunks, p) {
      CutsMove(chunks, p - f);
      assert IsCut(after, p - f);
    }
    if q :| lo < q < hi && IsCut(after, q) {
      CutsMove(chunks, q);
      assert IsCut(chunks, f + q);
    }
  }

  lemma FirstStays(m: bytes, ms: seq<bytes>, chunks: seq<bytes>)
    requires chunks != [] && HasFrame(chunks[0]) && m == FirstMessage(chunks[0])
    ensures !Crosses([m] + ms, chunks, 0)
  {
    OffsetMoves(m, ms, 0);
    CutsMove(chunks, 1);
  }

  lemma {:induction false} FirstCrossingMoves(m: bytes, ms: seq<bytes>, chunks: seq<bytes>, k: nat)
    requires chunks != [] && HasFrame(chunks[0]) && m == FirstMessage(chunks[0]) && k <= |ms|
    ensures FirstCrossing([m] + ms, chunks, k + 1) == 1 + FirstCrossing(ms, WithoutFirst(chunks), k)
    decreases |ms| - k
  {
    if k < |ms| {
      CrossingMoves(m, ms, chunks, k);
      FirstCrossingMoves(m, ms, chunks, k + 1);
    }
  }

  /** A front chunk that is short of the message it begins ends inside it. */
  lemma ShortFrontCrosses(chunks: seq<bytes>)
    requires chunks != [] && chunks[0] != [] && !HasFrame(chunks[0]) && HasFrame(Flatten(chunks))
    ensures Crosses(Parse(Flatten(chunks)).0, chunks, 0)
  {
    var ms, p := Parse(Flatten(chunks)).0, |chunks[0]|;
    FrontOfAll(chunks);
    OffsetMoves(ms[0], ms[1..], 0);
    assert [ms[0]] + ms[1..] == ms;
    assert IsCut(chunks[1..], 0) && IsCut(chunks, p);
  }

  /** The first `n` messages are the ones to dispatch, and unless one of them fails the queue is what follows them. */
  predicate Reaches<S(==)>(h: Handler<S>, c: S, b: bytes, n: nat, r: (S, seq<bytes>, bool)) {
    var ms := Parse(b).0;
    && n <= |ms| && r.0 == Dispatched(h, c, ms[..n]).0 && r.2 == Dispatched(h, c, ms[..n]).1
    && (r.2 ==> Frames(ms[..n]) + Flatten(r.1) == b)
  }

  /** As written, `receive` dispatches just the messages before the first that crosses the end of a chunk. */
  lemma {:induction false} FrontReaches<S>(h: Handler<S>, c: S, chunks: seq<bytes>)
    requires NonEmpty(chunks)
    ensures var n := FirstCrossing(Parse(Flatten(chunks)).0, chunks, 0);
      Reaches(h, c, Flatten(chunks), n, DrainFront(h, c, chunks))
    decreases |Flatten(chunks)|
  {
    var b := Flatten(chunks);
    if chunks == [] || !HasFrame(chunks[0]) {
      if HasFrame(b) {
        ShortFrontCrosses(chunks);
      }
      assert Frames(Parse(b).0[..0]) + b == b;
    } else {
      var m, after := FirstMessage(chunks[0]), WithoutFirst(chunks);
      var ms := Parse(Flatten(after)).0;
      var n := FirstCrossing(ms, after, 0);
      FrontRebuilt(chunks);
      assert FirstCrossing([m] + ms, chunks, 0) == n + 1 by {
        FirstStays(m, ms, chunks);
        FirstCrossingMoves(m, ms, chunks, 0);
      }
      var (c', ok) := h(c, m);
      if ok {
        FrontReaches(h, c', after);
      }
      ReachesMore(h, c, m, Flatten(after), n, DrainFront(h, c', after), DrainFront(h, c, chunks));
    }
  }

  lemma ReachesMore<S>(h: Handler<S>, c: S, m: bytes, b: bytes, n: nat,
        r: (S, seq<bytes>, bool), r': (S, seq<bytes>, bool))
    requires |m| < TWO32 && n <= |Parse(b).0|
    requires if h(c, m).1 then r' == r && Reaches(h, h(c, m).0, b, n, r) else r'.0 == h(c, m).0 && !r'.2
    ensures Reaches(h, c, Frame(m) + b, n + 1, r')
  {
    var ms := Parse(b).0;
    FrameHasIt(m, b);
    assert ([m] + ms)[..n + 1] == [m] + ms[..n] && ([m] + ms[..n])[1..] == ms[..n];
    FramesCons(m, ms[..n], Flatten(r.1));
  }

  // ---- as written: any reads ----

  /** Reads one after another, as written, up to the first failure; an empty read is not queued. */
  function ReceiveAllFront<S>(h: Handler<S>, c: S, parts: seq<bytes>): (r: (S, seq<bytes>, bool)) {
    if parts == [] then (c, [], true)
    else NextRead(h, ReceiveAllFront(h, c, parts[..|parts| - 1]), parts[|parts| - 1])
  }

  function NextRead<S>(h: Handler<S>, r: (S, seq<bytes>, bool), data: bytes): (r': (S, seq<bytes>, bool)) {
    if r.2 then DrainFront(h, r.0, Queued(r.1, data)) else r
  }

  function Queued(queue: seq<bytes>, data: bytes): (q: seq<bytes>) {
    queue + if data == [] then [] else [data]
  }

  /** The reads that brought something. */
  function Arrived(parts: seq<bytes>): (chunks: seq<bytes>)
    ensures NonEmpty(chunks)
  {
    if parts == [] then [] else Queued(Arrived(parts[..|parts| - 1]), parts[|parts| - 1])
  }

  lemma WithoutFirstMore(chunks: seq<bytes>, more: seq<bytes>)
    requires chunks != [] && HasFrame(chunks[0])
    ensures (chunks + more)[0] == chunks[0] && WithoutFirst(chunks + more) == WithoutFirst(chunks) + more
  {
    assert (chunks + more)[1..] == chunks[1..] + more;
  }

  /** The loop goes on after its queue has grown as if the queue had been that long from the start. */
  lemma {:induction false} FrontResumes<S>(h: Handler<S>, c: S, chunks: seq<bytes>, more: seq<bytes>)
    ensures var r := DrainFront(h, c, chunks);
      DrainFront(h, c, chunks + more) == if r.2 then DrainFront(h, r.0, r.1 + more) else (r.0, r.1 + more, false)
    decreases |Flatten(chunks)|
  {
    if chunks != [] && HasFrame(chunks[0]) {
      var (c', ok) := h(c, FirstMessage(chunks[0]));
      WithoutFirstMore(chunks, more);
      FrontResumes(h, c', WithoutFirst(chunks), more);
    }
  }

  /** Reading in steps is draining the arrived chunks at once. */
  lemma {:induction false} ReadsAtOnce<S>(h: Handler<S>, c: S, parts: seq<bytes>)
    ensures var r, d := ReceiveAllFront(h, c, parts), DrainFront(h, c, Arrived(parts));
      r.0 == d.0 && r.2 == d.2 && (r.2 ==> r.1 == d.1)
  {
    if parts != [] {
      var init, last := parts[..|parts| - 1], parts[|parts| - 1];
      var more := Queued([], last);
      ReadsAtOnce(h, c, init);
      FrontResumes(h, c, Arrived(init), more);
      assert Arrived(parts) == Arrived(init) + more;
      assert Queued(ReceiveAllFront(h, c, init).1, last) == ReceiveAllFront(h, c, init).1 + more;
    }
  }

  lemma QueuedFlat(queue: seq<bytes>, data: bytes)
    ensures Flatten(Queued(queue, data)) == Flatten(queue) + data
  {
    if data == [] {
      assert Queued(queue, data) == queue;
    } else {
      FlattenPush(queue, data);
    }
  }

  lemma {:induction false} ArrivedFlat(parts: seq<bytes>)
    ensures Flatten(Arrived(parts)) == Flatten(parts)
  {
    if parts != [] {
      ArrivedFlat(parts[..|parts| - 1]);
      QueuedFlat(Arrived(parts[..|parts| - 1]), parts[|parts| - 1]);
      FlattenLast(parts);
    }
  }

  /** A chunk more at the end adds one cut. */
  lemma {:induction false} CutsPush(chunks: seq<bytes>, c: bytes, p: int)
    ensures IsCut(chunks + [c], p) <==> IsCut(chunks, p) || p == |Flatten(chunks)| + |c|
  {
    if chunks == [] {
      assert (chunks + [c])[1..] == [];
    } else {
      assert (chunks + [c])[1..] == chunks[1..] + [c];
      CutsPush(chunks[1..], c, p - |chunks[0]|);
    }
  }

  lemma {:induction false} EndIsCut(chunks: seq<bytes>)
    ensures IsCut(chunks, |Flatten(chunks)|)
  {
    if chunks != [] {
      EndIsCut(chunks[1..]);
    }
  }

  /** Empty reads end nowhere new. */
  lemma {:induction false} ArrivedCuts(parts: seq<bytes>, p: int)
    ensures IsCut(Arrived(parts), p) == IsCut(parts, p)
  {
    if parts != [] {
      var init, last := parts[..|parts| - 1], parts[|parts| - 1];
      assert init + [last] == parts;
      ArrivedCuts(init, p);
      ArrivedFlat(init);
      CutsPush(init, last, p);
      if last == [] {
        EndIsCut(init);
        assert Arrived(parts) == Arrived(init);
      } else {
        CutsPush(Arrived(init), last, p);
      }
    }
  }

  lemma {:induction false} ArrivedCrossing(ms: seq<bytes>, parts: seq<bytes>, k: nat)
    requires k <= |ms|
    ensures FirstCrossing(ms, Arrived(parts), k) == FirstCrossing(ms, parts, k)
    decreases |ms| - k
  {
    forall p ensures IsCut(Arrived(parts), p) == IsCut(parts, p) {
      ArrivedCuts(parts, p);
    }
    if k < |ms| {
      assert Crosses(ms, Arrived(parts), k) == Crosses(ms, parts, k);
      ArrivedCrossing(ms, parts, k + 1);
    }
  }

  /**
   As written, over any reads: the messages dispatched are those before the first that crosses the end of a
   read, up to a failing handler; unless one fails, the queue holds the rest of the stream.
   */
  lemma AsWrittenExactly<S>(h: Handler<S>, c: S, parts: seq<bytes>)
    ensures var n := FirstCrossing(Parse(Flatten(parts)).0, parts, 0);
      Reaches(h, c, Flatten(parts), n, ReceiveAllFront(h, c, parts))
  {
    ReadsAtOnce(h, c, parts);
    ArrivedFlat(parts);
    ArrivedCrossing(Parse(Flatten(parts)).0, parts, 0);
    FrontReaches(h, c, Arrived(parts));
  }

  /** As written, no complete message is left behind if and only if none crosses the end of a read. */
  lemma FrontCompletesExactly<S>(h: Handler<S>, c: S, parts: seq<bytes>)
    requires ReceiveAllFront(h, c, parts).2
    ensures !HasFrame(Flatten(ReceiveAllFront(h, c, parts).1)) <==> NoneCross(Parse(Flatten(parts)).0, parts)
  {
    var ms := Parse(Flatten(parts)).0;
    var n, left := FirstCrossing(ms, parts, 0), Flatten(ReceiveAllFront(h, c, parts).1);
    AsWrittenExactly(h, c, parts);
    assert Sendable(ms[..n]) by { ParseConserves(Flatten(parts)); }
    ParseAfter(ms[..n], left);
    assert |Parse(left).0| == |ms| - n;
  }

  /** When no message crosses the end of a read, the code as written does what is intended. */
  lemma AsWrittenAsIntended<S>(h: Handler<S>, c: S, parts: seq<bytes>)
    requires NoneCross(Parse(Flatten(parts)).0, parts)
    ensures var w, i := ReceiveAllFront(h, c, parts), ReceiveAll(h, c, parts);
      w.0 == i.0 && w.2 == i.2 && (w.2 ==> Flatten(w.1) == i.1)
  {
    var (ms, rest) := Parse(Flatten(parts));
    AsWrittenExactly(h, c, parts);
    ChunksDoNotMatter(h, c, parts);
    assert FirstCrossing(ms, parts, 0) == |ms| && ms[..|ms|] == ms;
    ParseConserves(Flatten(parts));
    var w := ReceiveAllFront(h, c, parts);
    if w.2 {
      assert Frames(ms) + Flatten(w.1) == Frames(ms) + rest;
      SameTail(Frames(ms), Flatten(w.1), rest);
    }
  }

  lemma SameTail(a: bytes, b: bytes, c: bytes)
    requires a + b == a + c
    ensures b == c
  {
    assert b == (a + b)[|a|..] && c == (a + c)[|a|..];
  }

  /** The messages of a stream after some of its own. */
  lemma ParseAfter(done: seq<bytes>, tail: bytes)
    requires Sendable(done)
    ensures Parse(Frames(done) + tail).0 == done + Parse(tail).0
  {
    var (ms, rest) := Parse(tail);
    ParseConserves(tail);
    FramesJoin(done, ms, rest);
    ParseUnique(done + ms, rest);
  }

  /**
   Over any reads, as written: the dispatched messages re-framed and the queue are all the bytes received
   up to the read, if any, in which a handler failed.
   */
  lemma {:induction false} FrontConservesOverReads<S>(h: Handler<S>, c: S, parts: seq<bytes>)
    returns (ms: seq<bytes>, n: nat)
    ensures n <= |parts| && Progress(h, c, ms, Flatten(parts[..n]), ReceiveAllFront(h, c, parts))
    ensures ReceiveAllFront(h, c, parts).2 ==> n == |parts|
  {
    if parts == [] {
      ms, n := [], 0;
      assert Flatten(parts[..0]) == [] && Frames(ms) + Flatten(parts) == [];
    } else {
      var init, last := parts[..|parts| - 1], parts[|parts| - 1];
      var r := ReceiveAllFront(h, c, init);
      ms, n := FrontConservesOverReads(h, c, init);
      if r.2 {
        assert init[..n] == init && parts[..n + 1] == parts;
        FlattenLast(parts);
        ms := ProgressOn(h, c, ms, Flatten(init), r, last);
        n := n + 1;
      } else {
        assert init[..n] == parts[..n];
      }
    }
  }

  lemma ProgressOn<S>(h: Handler<S>, c: S, ms: seq<bytes>, b: bytes, r: (S, seq<bytes>, bool), last: bytes)
    returns (all: seq<bytes>)
    requires Progress(h, c, ms, b, r) && r.2
    ensures Progress(h, c, all, b + last, NextRead(h, r, last))
  {
    var queue, r' := Queued(r.1, last), NextRead(h, r, last);
    var more := FrontConserves(h, r.0, queue);
    all := ms + more;
    DispatchedAppend(h, c, ms, more);
    QueuedFlat(r.1, last);
    Assoc(Frames(ms), Flatten(r.1), last);
    FramesJoin(ms, more, Flatten(r'.1));
  }

  /** So only the stream's own messages are ever dispatched, from the first on and in order. */
  lemma FrontSafeOverReads<S>(h: Handler<S>, c: S, parts: seq<bytes>) returns (ms: seq<bytes>)
    ensures ms <= Parse(Flatten(parts)).0
    ensures Dispatched(h, c, ms) == (ReceiveAllFront(h, c, parts).0, ReceiveAllFront(h, c, parts).2, |ms|)
  {
    var n: nat;
    ms, n := FrontConservesOverReads(h, c, parts);
    assert ms <= Parse(Flatten(parts[..n])).0 by {
      ParseAfter(ms, Flatten(ReceiveAllFront(h, c, parts).1));
    }
    assert Flatten(parts) == Flatten(parts[..n]) + Flatten(parts[n..]) by {
      FlattenAppend(parts[..n], parts[n..]);
      assert parts == parts[..n] + parts[n..];
    }
    ParsePrefix(Flatten(parts[..n]), Flatten(parts[n..]));
  }

  /** Once the front chunk is short of its message, no later data is ever looked at. */
  lemma StuckForever<S>(h: Handler<S>, c: S, chunks: seq<bytes>, more: seq<bytes>)
    requires chunks != [] && !HasFrame(chunks[0])
    ensures DrainFront(h, c, chunks + more) == (c, chunks + more, true)
  {
    assert (chunks + more)[0] == chunks[0];
  }

  /** A message that comes in two reads is never dispatched as written, and always as intended. */
  lemma SplitMessageIsLost<S>(h: Handler<S>, c: S, m: bytes, k: nat)
    requires |m| < TWO32 && 0 < k < |Frame(m)|
    ensures var chunks := [Frame(m)[..k], Frame(m)[k..]];
      && DrainFront(h, c, chunks) == (c, chunks, true) && HasFrame(Flatten(chunks))
      && Drain(h, c, Flatten(chunks)).0 == h(c, m).0
  {
    var b := Frame(m);
    var chunks := [b[..k], b[k..]];
    FrameHasIt(m, []);
    var tail := chunks[1..];
    assert b + [] == b && tail == [b[k..]] && |tail[1..]| == 0;
    assert Flatten(tail) == b[k..] && Flatten(chunks) == b;
    if k >= 4 {
      assert b[..k][..4] == b[..4];
    }
  }
}
