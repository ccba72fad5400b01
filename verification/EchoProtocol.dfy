/**
 The multi-threaded echo server as a transition system.

 One I/O thread runs callbacks one at a time; any number of workers interleave with it at every
 queue and pipe operation.  A connection's frames go to the input queue numbered `fd % threads`,
 its worker re-frames each body onto the shared output queue and writes one byte to its pipe, and
 a readable pipe makes the I/O thread drain the output queue.
 */
module EchoProtocol {
  import opened Bytes
  import opened FrameParser

  const MAX_BODY := 1024000
  const FD_SETSIZE := 1024
  const NOTIFY_CHUNK := 4096
  const PIPE_CAPACITY := 65536

  datatype Element = Element(fd: nat, data: Bytes)

  /** A worker is before its Get, between Get and Put, or between Put and the write to its pipe. */
  datatype Worker = Waiting | Taken(element: Element) | Published

  /** The I/O thread waits for events, has bodies left to Put inside the read callback, or is inside
      the loop of the notify callback. */
  datatype Io = Dispatching | Reading(fd: nat, pending: seq<Bytes>) | Draining

  /** A live connection: its parser, and the history of its life: all bytes read from the socket,
      the bodies the parser produced, the bodies whose frames were written, all bytes written. */
  datatype Connection = Connection(
    parser: Session, received: Bytes, emitted: seq<Bytes>, delivered: seq<Bytes>, sent: Bytes)

  /** `pipes` counts the bytes in each kernel pipe, `notices` those in its input buffer. */
  datatype State = State(
    conns: map<nat, Connection>,
    inQ: seq<seq<Element>>,
    workers: seq<Worker>,
    pipes: seq<nat>,
    notices: seq<nat>,
    outQ: seq<Element>,
    io: Io)

  datatype Action =
    | Accept(fd: nat)
    | Receive(fd: nat, chunk: Bytes)
    | Close(fd: nat)
    | PutNext
    | Get(i: nat)
    | Publish(i: nat)
    | Notify(i: nat)
    | Wake(i: nat, k: nat)
    | TryGet

  predicate Shape(s: State) {
    0 < |s.inQ| == |s.workers| == |s.pipes| == |s.notices|
  }

  function Shard(s: State, fd: nat): (i: nat)
    requires Shape(s)
    ensures i < |s.inQ|
  {
    fd % |s.inQ|
  }

  function Init(threads: nat): (s: State)
    requires threads > 0
    ensures Shape(s)
  {
    State(map[], seq(threads, i => []), seq(threads, i => Waiting),
          seq(threads, i => 0), seq(threads, i => 0), [], Dispatching)
  }

  predicate Possible(s: State, a: Action) {
    match a
    case Accept(fd) => s.io.Dispatching? && fd !in s.conns && fd <= FD_SETSIZE
    case Receive(fd, chunk) => s.io.Dispatching? && fd in s.conns && chunk != []
    case Close(fd) => s.io.Dispatching? && fd in s.conns
    case PutNext => s.io.Reading?
    case Get(i) => i < |s.workers| && i < |s.inQ| && s.workers[i].Waiting? && s.inQ[i] != []
    case Publish(i) => i < |s.workers| && s.workers[i].Taken?
    case Notify(i) => i < |s.workers| && i < |s.pipes| && s.workers[i].Published? && s.pipes[i] < PIPE_CAPACITY
    case Wake(i, k) => s.io.Dispatching? && i < |s.pipes| && 0 < k <= s.pipes[i]
    case TryGet => s.io.Draining?
  }

  function Next(s: State, a: Action): (t: State)
    requires Shape(s) && Possible(s, a)
    ensures Shape(t)
  {
    match a
    case Accept(fd) => s.(conns := s.conns[fd := Connection(Fresh([]), [], [], [], [])])
    case Receive(fd, chunk) =>
      var c := s.conns[fd];
      var r := Feed(MAX_BODY, c.parser, chunk);
      var d := c.(parser := r.session, received := c.received + chunk, emitted := c.emitted + r.bodies);
      s.(conns := s.conns[fd := d], io := Reading(fd, r.bodies))
    case Close(fd) => s.(conns := s.conns - {fd})
    case PutNext =>
      if s.io.pending == [] then s.(io := Dispatching) else
      var i := Shard(s, s.io.fd);
      s.(inQ := s.inQ[i := s.inQ[i] + [Element(s.io.fd, s.io.pending[0])]],
         io := Reading(s.io.fd, s.io.pending[1..]))
    case Get(i) => s.(inQ := s.inQ[i := s.inQ[i][1..]], workers := s.workers[i := Taken(s.inQ[i][0])])
    case Publish(i) =>
      var e := s.workers[i].element;
      s.(outQ := s.outQ + [Element(e.fd, Frame(e.data))], workers := s.workers[i := Published])
    case Notify(i) => s.(pipes := s.pipes[i := s.pipes[i] + 1], workers := s.workers[i := Waiting])
    case Wake(i, k) =>
      var waiting := s.notices[i] + k;
      s.(pipes := s.pipes[i := s.pipes[i] - k],
         notices := s.notices[i := if waiting < NOTIFY_CHUNK then 0 else waiting - NOTIFY_CHUNK],
         io := Draining)
    case TryGet =>
      if s.outQ == [] then s.(io := Dispatching) else
      var e := s.outQ[0];
      var t := s.(outQ := s.outQ[1..]);
      if e.fd in s.conns then t.(conns := s.conns[e.fd := Deliver(s.conns[e.fd], e.data)]) else t
  }

  /** A new connection takes the number that its first four bytes are, unless that is above the limit. */
  lemma FirstHeader(s: State, fd: nat, header: Bytes)
    requires Shape(s) && Possible(s, Accept(fd)) && |header| == 4
    ensures var t := Next(Next(s, Accept(fd)), Receive(fd, header));
            var n := BigEndianValue(header);
            && t.conns[fd].parser == Session(false, if n > 1024000 then 0 else n, [])
            && t.io == Reading(fd, [])
  {
    hide Run, BigEndianValue;
    var first := Arrive(Fresh([]), header);
    assert first == Fresh(header) && header[4..] == [] && header[..4] == header;
    Unsigned32Value(header);
    RunHeader(MAX_BODY, first);
    RunStalled(MAX_BODY, Session(false, Unsigned32(header), []));
  }

  /** The frame is added to the connection's output buffer. */
  function Deliver(c: Connection, data: Bytes): Connection {
    c.(delivered := c.delivered + [Unframe(data)], sent := c.sent + data)
  }

  function Unframe(data: Bytes): Bytes {
    if |data| < 4 then [] else data[4..]
  }

  // ---- what is under way for one connection ----

  function Select(q: seq<Element>, fd: nat): seq<Bytes> {
    if q == [] then []
    else if q[0].fd == fd then [q[0].data] + Select(q[1..], fd)
    else Select(q[1..], fd)
  }

  lemma {:induction false} SelectAppend(q: seq<Element>, e: Element, fd: nat)
    ensures Select(q + [e], fd) == Select(q, fd) + (if e.fd == fd then [e.data] else [])
  {
    if q == [] {
      assert q + [e] == [e] && Select([e][1..], fd) == [];
    } else {
      assert (q + [e])[1..] == q[1..] + [e];
      SelectAppend(q[1..], e, fd);
    }
  }

  function InHand(w: Worker, fd: nat): seq<Bytes> {
    if w.Taken? && w.element.fd == fd then [w.element.data] else []
  }

  function BeingRead(io: Io, fd: nat): seq<Bytes> {
    if io.Reading? && io.fd == fd then io.pending else []
  }

  /** The bodies taken in for `fd` that no worker has re-framed yet, oldest first. */
  function Unframed(s: State, fd: nat): seq<Bytes>
    requires Shape(s)
  {
    InHand(s.workers[Shard(s, fd)], fd) + (Select(s.inQ[Shard(s, fd)], fd) + BeingRead(s.io, fd))
  }

  /** The bodies of the frames for `fd` in the output queue. */
  function Outgoing(q: seq<Element>, fd: nat): seq<Bytes> {
    var frames := Select(q, fd);
    seq(|frames|, i requires 0 <= i < |frames| => Unframe(frames[i]))
  }

  /** The bodies under way for `fd`, oldest first: those in the output queue, in its worker's hand,
      in its input queue and in the running read callback. */
  function UnderWay(s: State, fd: nat): seq<Bytes>
    requires Shape(s)
  {
    Outgoing(s.outQ, fd) + Unframed(s, fd)
  }

  // ---- the invariant ----

  /** Every element lies on the path of its own shard, and the output queue holds whole frames. */
  ghost predicate Routed(s: State)
    requires Shape(s)
  {
    && (forall i, e :: 0 <= i < |s.inQ| && e in s.inQ[i] ==> Shard(s, e.fd) == i)
    && (forall i :: 0 <= i < |s.workers| && s.workers[i].Taken? ==> Shard(s, s.workers[i].element.fd) == i)
    && (forall e :: e in s.outQ ==> e.data == Frame(Unframe(e.data)))
  }

  /** Nothing is lost, duplicated or reordered on the way of one connection. */
  ghost predicate Conserved(s: State, fd: nat)
    requires Shape(s) && fd in s.conns
  {
    var c := s.conns[fd];
    c.delivered + UnderWay(s, fd) == c.emitted && c.sent == Frames(c.delivered)
  }

  /** The parser is where one uninterrupted run over all received bytes would be. */
  ghost predicate InStep(c: Connection) {
    Sane(MAX_BODY, c.received) ==> Run(MAX_BODY, Fresh(c.received)) == Outcome(c.parser, c.emitted, false)
  }

  /** No wake-up is lost: output left in the queue will still be noticed. */
  ghost predicate WillDrain(s: State) {
    s.outQ != [] ==>
      || s.io.Draining?
      || (exists i :: 0 <= i < |s.workers| && s.workers[i].Published?)
      || (exists i :: 0 <= i < |s.pipes| && s.pipes[i] > 0)
  }

  ghost predicate Inv(s: State) {
    && Shape(s)
    && Routed(s)
    && WillDrain(s)
    && (forall fd :: fd in s.conns ==> Conserved(s, fd) && InStep(s.conns[fd]))
  }

  lemma InitInv(threads: nat)
    requires threads > 0
    ensures Inv(Init(threads))
  {
  }

  /** The assumption on descriptors: one is not handed out again while elements for its former
      connection are still under way. */
  predicate Clean(s: State, a: Action)
    requires Shape(s)
  {
    a.Accept? ==> Select(s.outQ, a.fd) == [] && Unframed(s, a.fd) == []
  }

  lemma KeepsRouted(s: State, a: Action)
    requires Shape(s) && Routed(s) && Possible(s, a)
    ensures Routed(Next(s, a))
  {
    var t := Next(s, a);
    assert |t.inQ| == |s.inQ|;
    forall i, e | 0 <= i < |t.inQ| && e in t.inQ[i] ensures Shard(t, e.fd) == i {
      if e !in s.inQ[i] {
        assert a.PutNext? && e.fd == s.io.fd;
      }
    }
    if a.Get? {
      assert s.inQ[a.i][0] in s.inQ[a.i];
    }
  }

  lemma KeepsWillDrain(s: State, a: Action)
    requires Shape(s) && WillDrain(s) && Possible(s, a)
    ensures WillDrain(Next(s, a))
  {
    var t := Next(s, a);
    match a
    case Publish(i) => assert t.workers[i].Published?;
    case Notify(i) => assert t.pipes[i] > 0;
    case Get(i) =>
      forall j | 0 <= j < |s.workers| && s.workers[j].Published? ensures t.workers[j].Published? {}
    case _ =>
  }

  /** Moving an element from the read callback to the input queue, or from there to the worker's
      hand, leaves what has to be re-framed as it was. */
  lemma PutKeepsUnframed(s: State, fd: nat)
    requires Shape(s) && Possible(s, PutNext)
    ensures Unframed(Next(s, PutNext), fd) == Unframed(s, fd)
  {
    if s.io.pending != [] {
      var e := Element(s.io.fd, s.io.pending[0]);
      SelectAppend(s.inQ[Shard(s, e.fd)], e, fd);
    }
  }

  lemma GetKeepsUnframed(s: State, i: nat, fd: nat)
    requires Shape(s) && Routed(s) && Possible(s, Get(i))
    ensures Unframed(Next(s, Get(i)), fd) == Unframed(s, fd)
  {
    assert s.inQ[i][0] in s.inQ[i];
  }

  lemma PublishConserves(s: State, i: nat, fd: nat)
    requires Shape(s) && Routed(s) && Possible(s, Publish(i))
    ensures UnderWay(Next(s, Publish(i)), fd) == UnderWay(s, fd)
  {
    var t := Next(s, Publish(i));
    var e := s.workers[i].element;
    assert Shard(t, fd) == Shard(s, fd);
    SelectAppend(s.outQ, Element(e.fd, Frame(e.data)), fd);
    if e.fd == fd {
      assert Unframe(Frame(e.data)) == e.data;
      assert Outgoing(t.outQ, fd) == Outgoing(s.outQ, fd) + [e.data];
      assert Unframed(s, fd) == [e.data] + Unframed(t, fd);
    } else {
      assert Select(t.outQ, fd) == Select(s.outQ, fd);
    }
  }

  lemma ReceiveConserves(s: State, fd: nat, chunk: Bytes)
    requires Shape(s) && Possible(s, Receive(fd, chunk)) && Conserved(s, fd)
    ensures Conserved(Next(s, Receive(fd, chunk)), fd)
  {
    hide Run, Feed, Select, Frames, Outgoing;
    var t := Next(s, Receive(fd, chunk));
    var bodies := Feed(MAX_BODY, s.conns[fd].parser, chunk).bodies;
    var i := Shard(s, fd);
    assert Shard(t, fd) == i;
    Added(s.conns[fd].delivered, Outgoing(s.outQ, fd), InHand(s.workers[i], fd), Select(s.inQ[i], fd), bodies);
  }

  /** What the read callback brings comes last. */
  lemma Added<T>(delivered: seq<T>, outgoing: seq<T>, hand: seq<T>, queue: seq<T>, bodies: seq<T>)
    ensures delivered + (outgoing + (hand + (queue + bodies)))
            == (delivered + (outgoing + (hand + (queue + [])))) + bodies
  {
    assert queue + [] == queue;
  }

  lemma OutgoingPop(q: seq<Element>, fd: nat)
    requires q != [] && q[0].fd == fd
    ensures Outgoing(q, fd) == [Unframe(q[0].data)] + Outgoing(q[1..], fd)
  {
  }

  lemma DeliverConserves(c: Connection, data: Bytes, rest: seq<Bytes>)
    requires data == Frame(Unframe(data))
    requires c.delivered + ([Unframe(data)] + rest) == c.emitted && c.sent == Frames(c.delivered)
    ensures var d := Deliver(c, data);
            d.delivered + rest == d.emitted && d.sent == Frames(d.delivered)
  {
    FramesSnoc(c.delivered, Unframe(data));
  }

  lemma TryGetUnderWay(s: State, fd: nat)
    requires Shape(s) && Possible(s, TryGet)
    ensures var t := Next(s, TryGet);
            if s.outQ != [] && s.outQ[0].fd == fd then UnderWay(s, fd) == [Unframe(s.outQ[0].data)] + UnderWay(t, fd)
            else UnderWay(t, fd) == UnderWay(s, fd)
  {
    var t := Next(s, TryGet);
    assert Unframed(t, fd) == Unframed(s, fd);
    if s.outQ != [] && s.outQ[0].fd == fd {
      OutgoingPop(s.outQ, fd);
      hide Outgoing, Unframed, Select, Unframe;
      var first, out, rest := [Unframe(s.outQ[0].data)], Outgoing(t.outQ, fd), Unframed(t, fd);
      assert (first + out) + rest == first + (out + rest);
    }
  }

  lemma TryGetConserves(s: State, fd: nat)
    requires Shape(s) && Routed(s) && Possible(s, TryGet) && fd in s.conns && Conserved(s, fd)
    ensures Conserved(Next(s, TryGet), fd)
  {
    TryGetUnderWay(s, fd);
    hide Frame, Frames, UnderWay, Unframe;
    if s.outQ != [] && s.outQ[0].fd == fd {
      var t, data := Next(s, TryGet), s.outQ[0].data;
      assert s.outQ[0] in s.outQ && data == Frame(Unframe(data));
      DeliverConserves(s.conns[fd], data, UnderWay(t, fd));
    }
  }

  /** The remaining steps change neither the queues nor the hands; a new connection starts empty. */
  lemma OtherStepsConserve(s: State, a: Action, fd: nat)
    requires Shape(s) && Possible(s, a) && fd in Next(s, a).conns
    requires if fd in s.conns then Conserved(s, fd) else Clean(s, a)
    requires a.Accept? || a.Close? || a.Notify? || a.Wake? || (a.Receive? && a.fd != fd)
    ensures Conserved(Next(s, a), fd)
  {
    var t := Next(s, a);
    assert Shard(t, fd) == Shard(s, fd);
    assert BeingRead(s.io, fd) == BeingRead(t.io, fd) == [] || s.io == t.io;
    assert UnderWay(t, fd) == UnderWay(s, fd);
    if fd !in s.conns {
      assert UnderWay(s, fd) == [];
    }
  }

  lemma KeepsConserved(s: State, a: Action, fd: nat)
    requires Shape(s) && Routed(s) && Possible(s, a) && fd in Next(s, a).conns
    requires if fd in s.conns then Conserved(s, fd) else Clean(s, a)
    ensures Conserved(Next(s, a), fd)
  {
    var t := Next(s, a);
    assert Shard(t, fd) == Shard(s, fd);
    if a.Receive? && a.fd == fd {
      ReceiveConserves(s, fd, a.chunk);
    } else if a.TryGet? {
      TryGetConserves(s, fd);
    } else if a.Publish? {
      PublishConserves(s, a.i, fd);
    } else if a.PutNext? {
      PutKeepsUnframed(s, fd);
    } else if a.Get? {
      GetKeepsUnframed(s, a.i, fd);
    } else {
      OtherStepsConserve(s, a, fd);
    }
  }

  lemma KeepsInStep(s: State, a: Action, fd: nat)
    requires Shape(s) && Possible(s, a) && fd in Next(s, a).conns
    requires fd in s.conns ==> InStep(s.conns[fd])
    ensures InStep(Next(s, a).conns[fd])
  {
    if a.Receive? && a.fd == fd {
      var c := s.conns[fd];
      assert Arrive(Fresh(c.received), a.chunk) == Fresh(c.received + a.chunk);
      MoreInput(MAX_BODY, Fresh(c.received), a.chunk);
      RefusesOversize(MAX_BODY, 0, c.received);
      RefusesOversize(MAX_BODY, 0, c.received + a.chunk);
    }
  }

  lemma KeepsInv(s: State, a: Action)
    requires Inv(s) && Possible(s, a) && Clean(s, a)
    ensures Inv(Next(s, a))
  {
    var t := Next(s, a);
    KeepsRouted(s, a);
    KeepsWillDrain(s, a);
    forall fd | fd in t.conns ensures Conserved(t, fd) && InStep(t.conns[fd]) {
      KeepsConserved(s, a, fd);
      KeepsInStep(s, a, fd);
    }
  }

  // ---- runs ----

  predicate Admissible(s: State, run: seq<Action>)
    requires Shape(s)
    decreases |run|
  {
    run == [] || (Possible(s, run[0]) && Clean(s, run[0]) && Admissible(Next(s, run[0]), run[1..]))
  }

  function After(s: State, run: seq<Action>): (t: State)
    requires Shape(s) && Admissible(s, run)
    ensures Shape(t)
    decreases |run|
  {
    if run == [] then s else After(Next(s, run[0]), run[1..])
  }

  lemma {:induction false} RunKeepsInv(s: State, run: seq<Action>)
    requires Inv(s) && Admissible(s, run)
    ensures Inv(After(s, run))
    decreases |run|
  {
    if run != [] {
      KeepsInv(s, run[0]);
      RunKeepsInv(Next(s, run[0]), run[1..]);
    }
  }

  /** For any number of workers, in every interleaving and for every splitting of the input: the
      bytes written to a live connection are a prefix of the bytes received on it.  A client whose
      headers are oversize loses this only for itself. */
  lemma EchoIsPrefix(threads: nat, run: seq<Action>, fd: nat)
    requires threads > 0 && Admissible(Init(threads), run)
    requires fd in After(Init(threads), run).conns
    ensures var c := After(Init(threads), run).conns[fd];
            Sane(MAX_BODY, c.received) ==> c.sent <= c.received
  {
    InitInv(threads);
    RunKeepsInv(Init(threads), run);
    var s := After(Init(threads), run);
    if Sane(MAX_BODY, s.conns[fd].received) {
      SentIsPrefix(s, fd);
    }
  }

  lemma SentIsPrefix(s: State, fd: nat)
    requires Inv(s) && fd in s.conns && Sane(MAX_BODY, s.conns[fd].received)
    ensures s.conns[fd].sent <= Frames(s.conns[fd].emitted) <= s.conns[fd].received
  {
    var c := s.conns[fd];
    RunKeepsBytes(MAX_BODY, Fresh(c.received));
    assert c.received == Frames(c.emitted) + Residue(c.parser);
    assert Conserved(s, fd);
    FramesAppend(c.delivered, UnderWay(s, fd));
  }

  lemma NoLostWakeUp(threads: nat, run: seq<Action>)
    requires threads > 0 && Admissible(Init(threads), run)
    ensures WillDrain(After(Init(threads), run))
  {
    InitInv(threads);
    RunKeepsInv(Init(threads), run);
  }

  /** Accepting a descriptor keeps the invariant exactly when nothing is under way for it. */
  lemma AcceptNeedsClean(s: State, fd: nat)
    requires Inv(s) && Possible(s, Accept(fd))
    ensures Inv(Next(s, Accept(fd))) <==> Clean(s, Accept(fd))
  {
    var t := Next(s, Accept(fd));
    assert Shard(t, fd) == Shard(s, fd) && UnderWay(t, fd) == UnderWay(s, fd);
    assert Conserved(t, fd) <==> UnderWay(s, fd) == [];
    assert |UnderWay(s, fd)| == |Select(s.outQ, fd)| + |Unframed(s, fd)|;
    if Clean(s, Accept(fd)) {
      KeepsInv(s, Accept(fd));
    }
  }
}
