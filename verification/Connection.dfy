/** One server connection: a send queue with a single writer, and the read loop. */
module Connections {
  import opened Bytes
  import opened Framing

  // ---- the send queue as a state machine ----

  /**
   `queue` is the send queue and `writing` the buffer of the outstanding write. The rest is history:
   messages queued so far, messages written completely, every write started, and whether one failed.
   */
  datatype Link = Link(
    queue: seq<bytes>, writing: Option<bytes>,
    queued: seq<bytes>, written: seq<bytes>, started: seq<bytes>, failed: bool)

  const FRESH := Link([], None, [], [], [], false)

  datatype LinkEvent = Posted(msg: bytes) | Done(error: bool)

  /** A completion needs an outstanding write. */
  predicate CanHappen(k: Link, ev: LinkEvent) {
    ev.Done? ==> k.writing.Some?
  }

  function StartWrite(k: Link): (r: Link)
    requires k.queue != []
  {
    k.(writing := Some(k.queue[0]), started := k.started + [k.queue[0]])
  }

  function Happen(k: Link, ev: LinkEvent): (r: Link)
    requires CanHappen(k, ev)
  {
    match ev
    case Posted(msg) =>
      var r := k.(queue := k.queue + [msg], queued := k.queued + [msg]);
      if k.queue == [] then StartWrite(r) else r
    case Done(error) =>
      if error then k.(writing := None, failed := true)
      else if k.queue == [] then k.(writing := None) else
      var r := k.(queue := k.queue[1..], writing := None, written := k.written + [k.queue[0]]);
      if r.queue == [] then r else StartWrite(r)
  }

  function RunLink(evs: seq<LinkEvent>): (r: Option<Link>) {
    if evs == [] then Some(FRESH) else
    match RunLink(evs[..|evs| - 1])
    case None => None
    case Some(k) => if CanHappen(k, evs[|evs| - 1]) then Some(Happen(k, evs[|evs| - 1])) else None
  }

  /** Nothing lost or reordered; one write at most, over the unchanged front of the queue, until one fails. */
  predicate LinkOk(k: Link) {
    && k.queued == k.written + k.queue
    && (k.failed ==> k.queue != [] && k.writing == None)
    && (!k.failed ==> k.writing == if k.queue == [] then None else Some(k.queue[0]))
    && k.started == k.written + if k.queue == [] then [] else [k.queue[0]]
  }

  lemma HappenKeeps(k: Link, ev: LinkEvent)
    requires LinkOk(k) && CanHappen(k, ev)
    ensures LinkOk(Happen(k, ev))
    ensures |Happen(k, ev).started| <= |k.started| + 1 && k.started <= Happen(k, ev).started
    ensures |Happen(k, ev).started| > |k.started| && k.writing.Some? ==> ev == Done(false)
    ensures k.failed ==> Happen(k, ev).started == k.started && Happen(k, ev).written == k.written
  {
    if ev.Posted? {
      assert k.queued + [ev.msg] == k.written + (k.queue + [ev.msg]);
    } else if k.queue != [] {
      assert k.queue == [k.queue[0]] + k.queue[1..];
    }
  }

  /** In every run of posts and completions. */
  lemma {:induction false} LinkRuns(evs: seq<LinkEvent>)
    requires RunLink(evs).Some?
    ensures LinkOk(RunLink(evs).value)
  {
    if evs != [] {
      LinkRuns(evs[..|evs| - 1]);
      HappenKeeps(RunLink(evs[..|evs| - 1]).value, evs[|evs| - 1]);
    }
  }

  predicate NoErrors(evs: seq<LinkEvent>) {
    Done(true) !in evs
  }

  /** Without errors a write is outstanding exactly when the queue is non-empty. */
  lemma {:induction false} BusyExactly(evs: seq<LinkEvent>)
    requires RunLink(evs).Some?
    ensures RunLink(evs).value.failed <==> !NoErrors(evs)
    ensures NoErrors(evs) ==> (RunLink(evs).value.writing.Some? <==> RunLink(evs).value.queue != [])
  {
    LinkRuns(evs);
    if evs != [] {
      BusyExactly(evs[..|evs| - 1]);
      assert evs == evs[..|evs| - 1] + [evs[|evs| - 1]];
    }
  }

  /** After a failed write nothing more is started or written, whatever is posted. */
  lemma {:induction false} SilentAfterError(evs: seq<LinkEvent>, more: seq<LinkEvent>)
    requires RunLink(evs).Some? && RunLink(evs + more).Some? && !NoErrors(evs)
    ensures RunLink(evs + more).value.started == RunLink(evs).value.started
    ensures RunLink(evs + more).value.written == RunLink(evs).value.written
    ensures RunLink(evs + more).value.failed
    decreases |more|
  {
    if more == [] {
      assert evs + more == evs;
      BusyExactly(evs);
    } else {
      var all, more' := evs + more, more[..|more| - 1];
      assert all[..|all| - 1] == evs + more';
      SilentAfterError(evs, more');
      LinkRuns(evs + more');
      HappenKeeps(RunLink(evs + more').value, all[|all| - 1]);
    }
  }

  /** When every write completes, posting is what is written: all of it, in order. */
  lemma QuietMeansSent(evs: seq<LinkEvent>)
    requires RunLink(evs).Some? && NoErrors(evs) && RunLink(evs).value.writing == None
    ensures RunLink(evs).value.written == RunLink(evs).value.queued
  {
    LinkRuns(evs);
    BusyExactly(evs);
  }

  // ---- the connection object ----

  /** The asynchronous socket: at most one write may be outstanding, and its buffer must stay as it was. */
  class Socket {
    var outstanding: Option<bytes>
    var started: seq<bytes>
    var reading: bool

    constructor ()
      ensures outstanding == None && started == [] && !reading
    {
      outstanding, started, reading := None, [], false;
    }

    method AsyncWrite(buf: bytes)
      requires outstanding == None
      modifies this
      ensures outstanding == Some(buf) && started == old(started) + [buf] && reading == old(reading)
    {
      outstanding, started := Some(buf), started + [buf];
    }

    method AsyncRead()
      requires !reading
      modifies this
      ensures reading && outstanding == old(outstanding) && started == old(started)
    {
      reading := true;
    }
  }

  class Connection {
    const socket: Socket
    const readBuf: StreamBuf
    var sendQueue: seq<bytes>
    /** Messages handed to the strand of the session, in order; history. */
    var received: seq<bytes>
    var crashed: bool
    ghost var queued: seq<bytes>
    ghost var written: seq<bytes>
    ghost var failed: bool

    ghost function AsLink(): (k: Link)
      reads this, socket
    {
      Link(sendQueue, socket.outstanding, queued, written, socket.started, failed)
    }

    ghost function AsServed(): (sv: Served)
      reads this, readBuf
    {
      if crashed then Crashed else Serving(received, readBuf.data)
    }

    ghost predicate Valid()
      reads this, socket
    {
      LinkOk(AsLink())
    }

    constructor ()
      ensures Valid() && AsLink() == FRESH && AsServed() == Serving([], [])
      ensures fresh(socket) && fresh(readBuf) && socket.reading
    {
      socket := new Socket();
      readBuf := new StreamBuf();
      sendQueue, received, crashed := [], [], false;
      queued, written, failed := [], [], false;
      new;
      Read();
    }

    method Read()
      requires !socket.reading
      modifies socket
      ensures socket.reading && AsLink() == old(AsLink())
    {
      socket.AsyncRead();
    }

    /** The write strand runs one of these at a time. */
    method QueueMessage(msg: bytes)
      requires Valid()
      modifies this`sendQueue, this`queued, socket
      ensures Valid() && AsLink() == Happen(old(AsLink()), Posted(msg))
      ensures socket.reading == old(socket.reading)
    {
      HappenKeeps(AsLink(), Posted(msg));
      var writeInProgress := sendQueue != [];
      sendQueue := sendQueue + [msg];
      queued := queued + [msg];
      if !writeInProgress {
        SendFromQueue();
      }
    }

    method SendFromQueue()
      requires sendQueue != [] && socket.outstanding == None
      modifies socket
      ensures AsLink() == StartWrite(old(AsLink())) && socket.reading == old(socket.reading)
    {
      socket.AsyncWrite(sendQueue[0]);
    }

    /** The completion of the outstanding write. */
    method SendDone(error: bool)
      requires Valid() && socket.outstanding.Some?
      modifies this`sendQueue, this`written, this`failed, socket
      ensures Valid() && AsLink() == Happen(old(AsLink()), Done(error))
      ensures socket.reading == old(socket.reading)
    {
      HappenKeeps(AsLink(), Done(error));
      socket.outstanding := None;
      if !error {
        written := written + [sendQueue[0]];
        sendQueue := sendQueue[1..];
        if sendQueue != [] {
          SendFromQueue();
        }
      } else {
        failed := true;
      }
    }

    /** The completion of a read; an error ends the read loop. */
    method ReadBuf(error: bool, chunk: bytes)
      requires socket.reading && !crashed
      modifies this`received, this`crashed, readBuf, socket
      ensures AsLink() == old(AsLink())
      ensures error ==> AsServed() == old(AsServed()) && !socket.reading
      ensures !error ==> AsServed() == Serve(old(AsServed()), chunk) && (socket.reading <==> !crashed)
    {
      socket.reading := false;
      if error {
        return;
      }
      readBuf.Commit(chunk);
      FirstIfComplete(readBuf.data);
      var o := ReadMessage(readBuf);
      if o.AssertionFails? {
        crashed := true;
        return;
      }
      if o.Message? {
        received := received + [o.msg];
      }
      Read();
    }
  }
}
