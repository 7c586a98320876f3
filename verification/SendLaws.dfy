/** The client's sending loop: what a socket is handed, what it takes, and what stays queued. */
module SendLaws {
  import opened Bytes

  /** What the socket did with a chunk: took `n` bytes, timed out after taking `n`, or broke. */
  datatype Attempt = Accepted(n: nat) | Blocked(n: nat) | Broken

  /**
   What became of the bytes handed to the socket: those it took, in order; those lost with a broken socket;
   and how many it will be handed again although it took them before it timed out.
   */
  datatype SendReport = SendReport(accepted: bytes, lost: bytes, again: nat)

  function Min(a: nat, b: nat): (m: nat) {
    if a < b then a else b
  }

  function After(accepted: bytes, again: nat, r: (SendReport, seq<bytes>)): (s: (SendReport, seq<bytes>)) {
    (SendReport(accepted + r.0.accepted, r.0.lost, again + r.0.again), r.1)
  }

  /**
   The loop over a queue of chunks, as long as `attempts` lasts, and the queue it leaves: a chunk the socket takes
   only in part goes back to the front, cut, and ends the loop; one it blocks on goes back whole and is tried again.
   */
  function Sending(chunks: seq<bytes>, attempts: seq<Attempt>): (r: (SendReport, seq<bytes>))
    decreases |attempts|
  {
    if chunks == [] || attempts == [] then (SendReport([], [], 0), chunks) else
    var c, more := chunks[0], attempts[1..];
    match attempts[0]
    case Blocked(n) => After(c[..Min(n, |c|)], Min(n, |c|), Sending(chunks, more))
    case Broken => (SendReport([], c, 0), chunks[1..])
    case Accepted(n) =>
      if n < |c| then (SendReport(c[..n], [], 0), [c[n..]] + chunks[1..])
      else After(c, 0, Sending(chunks[1..], more))
  }

  /** An attempt that takes the whole of a chunk. */
  predicate Takes(a: Attempt, c: bytes) {
    a.Accepted? && a.n >= |c|
  }

  /** While chunks are taken in full they are handed over one after the other, and the loop goes on behind them. */
  lemma {:induction false} SendsOnward(chunks: seq<bytes>, attempts: seq<Attempt>, k: nat)
    requires k <= |chunks| && k <= |attempts| && forall i :: 0 <= i < k ==> Takes(attempts[i], chunks[i])
    ensures Sending(chunks, attempts) == After(Flatten(chunks[..k]), 0, Sending(chunks[k..], attempts[k..]))
    decreases k
  {
    var r := Sending(chunks[k..], attempts[k..]);
    if k == 0 {
      assert chunks[k..] == chunks && attempts[k..] == attempts;
      assert [] + r.0.accepted == r.0.accepted;
    } else {
      forall i | 0 <= i < k - 1 ensures Takes(attempts[1..][i], chunks[1..][i]) {
        assert Takes(attempts[i + 1], chunks[i + 1]);
      }
      SendsOnward(chunks[1..], attempts[1..], k - 1);
      assert chunks[1..][k - 1..] == chunks[k..] && attempts[1..][k - 1..] == attempts[k..];
      FirstTaken(chunks, k, r);
    }
  }

  lemma FirstTaken(chunks: seq<bytes>, k: nat, r: (SendReport, seq<bytes>))
    requires 0 < k <= |chunks|
    ensures After(chunks[0], 0, After(Flatten(chunks[1..][..k - 1]), 0, r)) == After(Flatten(chunks[..k]), 0, r)
  {
    assert chunks[..k][1..] == chunks[1..][..k - 1];
    Assoc(chunks[0], Flatten(chunks[1..][..k - 1]), r.0.accepted);
  }

  /** When every chunk is taken in full, all bytes are handed over, in order, and the queue is empty. */
  lemma SendsAll(chunks: seq<bytes>, attempts: seq<Attempt>)
    requires |chunks| <= |attempts| && forall i :: 0 <= i < |chunks| ==> Takes(attempts[i], chunks[i])
    ensures Sending(chunks, attempts) == (SendReport(Flatten(chunks), [], 0), [])
  {
    SendsOnward(chunks, attempts, |chunks|);
    assert chunks[..|chunks|] == chunks && Flatten(chunks) + [] == Flatten(chunks);
  }

  /**
   When the `k`-th chunk is the first not taken in full, the bytes before it and what was taken of it are handed
   over, and the queue is the rest of it before the chunks behind.
   */
  lemma SendsPart(chunks: seq<bytes>, attempts: seq<Attempt>, k: nat, n: nat)
    requires k < |chunks| && k < |attempts| && forall i :: 0 <= i < k ==> Takes(attempts[i], chunks[i])
    requires attempts[k] == Accepted(n) && n < |chunks[k]|
    ensures Sending(chunks, attempts) ==
      (SendReport(Flatten(chunks[..k]) + chunks[k][..n], [], 0), [chunks[k][n..]] + chunks[k + 1..])
  {
    SendsOnward(chunks, attempts, k);
    assert chunks[k..][1..] == chunks[k + 1..];
  }

  /** When the socket breaks on the `k`-th chunk, that chunk is lost and those behind stay queued. */
  lemma SendsUntilBroken(chunks: seq<bytes>, attempts: seq<Attempt>, k: nat)
    requires k < |chunks| && k < |attempts| && forall i :: 0 <= i < k ==> Takes(attempts[i], chunks[i])
    requires attempts[k] == Broken
    ensures Sending(chunks, attempts) == (SendReport(Flatten(chunks[..k]), chunks[k], 0), chunks[k + 1..])
  {
    SendsOnward(chunks, attempts, k);
    assert chunks[k..][1..] == chunks[k + 1..] && Flatten(chunks[..k]) + [] == Flatten(chunks[..k]);
  }

  /** A timeout changes nothing but what is handed over twice: the same chunk is tried again. */
  lemma BlockedTriesAgain(chunks: seq<bytes>, n: nat, attempts: seq<Attempt>)
    requires chunks != []
    ensures var m := if n < |chunks[0]| then n else |chunks[0]|;
      Sending(chunks, [Blocked(n)] + attempts) == After(chunks[0][..m], m, Sending(chunks, attempts))
  {
    assert ([Blocked(n)] + attempts)[1..] == attempts;
  }

  /** How many attempts are made. */
  function Tries(chunks: seq<bytes>, attempts: seq<Attempt>): (n: nat)
    ensures n <= |attempts|
    decreases |attempts|
  {
    if chunks == [] || attempts == [] then 0 else
    match attempts[0]
    case Blocked(_) => 1 + Tries(chunks, attempts[1..])
    case Broken => 1
    case Accepted(n) => if n < |chunks[0]| then 1 else 1 + Tries(chunks[1..], attempts[1..])
  }

  /** Chunks stay queued only when the attempts are used up, or the last one made took a part or broke. */
  lemma {:induction false} StopsOnlyThen(chunks: seq<bytes>, attempts: seq<Attempt>)
    requires Sending(chunks, attempts).1 != []
    ensures var t := Tries(chunks, attempts);
      || t == |attempts| || (t > 0 && attempts[t - 1].Broken?)
      || (t > 0 && attempts[t - 1].Accepted? && exists c :: c in chunks && attempts[t - 1].n < |c|)
    decreases |attempts|
  {
    if chunks != [] && attempts != [] && Tries(chunks, attempts) > 1 {
      var left := if attempts[0].Blocked? then chunks else chunks[1..];
      StopsOnlyThen(left, attempts[1..]);
    } else if attempts != [] && chunks != [] && attempts[0].Accepted? {
      assert chunks[0] in chunks;
    }
  }

  /** Bytes handed over, bytes lost and bytes queued are the bytes there were, and those that are handed over again. */
  predicate Conserved(b: bytes, r: SendReport, left: bytes) {
    && (r.again == 0 ==> r.accepted + r.lost + left == b)
    && |r.accepted| + |r.lost| + |left| == |b| + r.again
  }

  /** Nothing is made up, or lost but with a broken socket, or handed over twice but after a timeout. */
  lemma {:induction false} SendConserves(chunks: seq<bytes>, attempts: seq<Attempt>)
    ensures var (r, left) := Sending(chunks, attempts);
      && Conserved(Flatten(chunks), r, Flatten(left))
      && ((forall a :: a in attempts && a.Blocked? ==> a.n == 0) ==> r.again == 0)
      && (Broken !in attempts ==> r.lost == [])
    decreases |attempts|
  {
    if chunks != [] && attempts != [] {
      var c, more := chunks[0], attempts[1..];
      assert attempts[0] in attempts && forall a :: a in more ==> a in attempts;
      match attempts[0]
      case Blocked(n) =>
        SendConserves(chunks, more);
        assert c[..0] == [];
        NothingTaken(Sending(chunks, more).0);
      case Broken =>
        assert [] + c == c;
      case Accepted(n) =>
        if n < |c| {
          PartConserves(c, n, chunks[1..]);
        } else {
          SendConserves(chunks[1..], more);
          var (r, left) := Sending(chunks[1..], more);
          TakenConserves(c, Flatten(chunks[1..]), r, Flatten(left));
        }
    } else {
      assert [] + [] + Flatten(chunks) == Flatten(chunks);
    }
  }

  lemma NothingTaken(r: SendReport)
    ensures [] + r.accepted == r.accepted
  {
  }

  lemma PartConserves(c: bytes, n: nat, rest: seq<bytes>)
    requires n < |c|
    ensures Conserved(c + Flatten(rest), SendReport(c[..n], [], 0), Flatten([c[n..]] + rest))
  {
    FlattenCons(c[n..], rest);
    Assoc(c[..n], c[n..], Flatten(rest));
    assert c == c[..n] + c[n..] && c[..n] + [] == c[..n];
  }

  lemma TakenConserves(c: bytes, b: bytes, r: SendReport, left: bytes)
    requires Conserved(b, r, left)
    ensures Conserved(c + b, SendReport(c + r.accepted, r.lost, r.again), left)
  {
    Assoc(c, r.accepted, r.lost);
    Assoc(c, r.accepted + r.lost, left);
  }
}
