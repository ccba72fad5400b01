/** The callbacks of both echo servers and the worker's loop body, as the code that changes the
    shared objects, proved against the functions of the frame parser and the protocol. */
module EchoCallbacks {
  import opened Bytes
  import opened FrameParser
  import opened EchoProtocol
  import opened EchoCompletion
  import opened ReferenceServer
  import opened Options

  /** A byte buffer of the event library. */
  class Buffer {
    var data: Bytes

    constructor ()
      ensures data == []
    {
      data := [];
    }

    method Remove(n: nat) returns (d: Bytes)
      modifies this
      ensures d + data == old(data) && |d| == if |old(data)| < n then |old(data)| else n
    {
      var k := if |data| < n then |data| else n;
      d, data := data[..k], data[k..];
    }

    method Add(d: Bytes)
      modifies this
      ensures data == old(data) + d
    {
      data := data + d;
    }
  }

  /** The shared queue: an atomic FIFO. */
  class Queue {
    var items: seq<Element>

    constructor ()
      ensures items == []
    {
      items := [];
    }

    method Put(e: Element)
      modifies this
      ensures items == old(items) + [e]
    {
      items := items + [e];
    }

    /** Blocks while the queue is empty. */
    method Get() returns (e: Element)
      requires items != []
      modifies this
      ensures [e] + items == old(items)
    {
      e, items := items[0], items[1..];
    }

    method TryGet() returns (e: Option<Element>)
      modifies this
      ensures e.None? <==> old(items) == []
      ensures old(items) == (if e.Some? then [e.value] else []) + items
    {
      if items == [] {
        e := None;
      } else {
        e, items := Some(items[0]), items[1..];
      }
    }
  }

  class SessionInfo {
    var recvingHeader: int
    var bodySize: int
    const input: Buffer
    const output: Buffer

    constructor ()
      ensures fresh(input) && fresh(output) && input != output
      ensures Valid() && View() == Fresh([]) && output.data == []
    {
      recvingHeader, bodySize := 1, 0;
      input := new Buffer();
      output := new Buffer();
    }

    predicate Valid()
      reads this
    {
      bodySize >= 0
    }

    function View(): Session
      requires Valid()
      reads this, input
    {
      Session(recvingHeader != 0, bodySize, input.data)
    }
  }

  lemma PrependLast(bodies: seq<Bytes>, s: Session, refused: bool)
    ensures Prepend(bodies, Outcome(s, [], refused)) == Outcome(s, bodies, refused)
  {
    assert bodies + [] == bodies;
  }

  /** The header branch of the read callback's loop.  A larger header than allowed ends the callback
      with the body size unchanged. */
  method TakeHeader(si: SessionInfo, ghost put: seq<Bytes>) returns (stop: bool)
    requires si.Valid() && |si.input.data| >= 4 && si.recvingHeader != 0
    modifies si, si.input
    ensures si.Valid() && |si.input.data| < |old(si.input.data)|
    ensures Prepend(put, Run(MAX_BODY, old(si.View()))) ==
            if stop then Outcome(si.View(), put, Run(MAX_BODY, old(si.View())).refused)
            else Prepend(put, Run(MAX_BODY, si.View()))
  {
    hide Run, Prepend;
    RunHeader(MAX_BODY, si.View());
    var data := si.input.Remove(4);
    assert Unsigned32(data) == Unsigned32(old(si.input.data)) && si.input.data == old(si.input.data)[4..];
    si.recvingHeader := 0;
    var size := Unsigned32(data);
    if size > MAX_BODY {
      PrependLast(put, si.View(), true);
      return true;
    }
    si.bodySize := size;
    stop := |si.input.data| < size;
    if stop {
      RunStalled(MAX_BODY, si.View());
      PrependLast(put, si.View(), false);
    }
  }

  /** The body branch: the body goes to the queue of the connection's shard. */
  method TakeBody(si: SessionInfo, queue: Queue, fd: nat, ghost put: seq<Bytes>) returns (stop: bool, ghost body: Bytes)
    requires si.Valid() && 0 < |si.input.data| && si.bodySize <= |si.input.data| && si.recvingHeader == 0
    modifies si, si.input, queue
    ensures si.Valid() && |si.input.data| <= |old(si.input.data)| && si.recvingHeader != 0
    ensures queue.items == old(queue.items) + [Element(fd, body)]
    ensures Prepend(put, Run(MAX_BODY, old(si.View()))) ==
            if stop then Outcome(si.View(), put + [body], false) else Prepend(put + [body], Run(MAX_BODY, si.View()))
  {
    hide Run, Prepend;
    var size := si.bodySize;
    RunBody(MAX_BODY, si.View(), put);
    var data := si.input.Remove(size);
    assert data == old(si.input.data)[..size] && si.input.data == old(si.input.data)[size..];
    body := data;
    queue.Put(Element(fd, data));
    si.recvingHeader := 1;
    stop := |si.input.data| < 4;
    if stop {
      RunStalled(MAX_BODY, si.View());
      PrependLast(put + [body], si.View(), false);
    }
  }

  /** The loop of the read callback. */
  method ReadLoop(si: SessionInfo, queue: Queue, fd: nat)
    requires si.Valid() && |si.input.data| < 0x8000_0000
    modifies si, si.input, queue
    ensures si.Valid()
    ensures var r := Run(MAX_BODY, old(si.View()));
            si.View() == r.session && queue.items == old(queue.items) + Tagged(fd, r.bodies)
  {
    hide Run, Prepend;
    ghost var put: seq<Bytes> := [];
    PrependPrepend([], [], Run(MAX_BODY, si.View()));
    var stop := false;
    while !stop && |si.input.data| > 0
      invariant si.Valid()
      invariant if stop then exists refused :: Run(MAX_BODY, old(si.View())) == Outcome(si.View(), put, refused)
                else Run(MAX_BODY, old(si.View())) == Prepend(put, Run(MAX_BODY, si.View()))
      invariant queue.items == old(queue.items) + Tagged(fd, put)
      decreases !stop, |si.input.data|, if si.recvingHeader != 0 then 0 else 1
    {
      if si.recvingHeader != 0 {
        if |si.input.data| >= 4 {
          stop := TakeHeader(si, put);
        } else {
          stop := true;
          RunStalled(MAX_BODY, si.View());
          PrependLast(put, si.View(), false);
        }
      } else {
        if |si.input.data| >= si.bodySize {
          ghost var body;
          stop, body := TakeBody(si, queue, fd, put);
          assert Tagged(fd, put + [body]) == Tagged(fd, put) + [Element(fd, body)];
          put := put + [body];
        } else {
          stop := true;
          RunStalled(MAX_BODY, si.View());
          PrependLast(put, si.View(), false);
        }
      }
    }
    if !stop {
      RunStalled(MAX_BODY, si.View());
      PrependLast(put, si.View(), false);
    }
  }

  lemma NothingSelected()
    ensures forall f :: Concat(Select([], f)) == []
  {
  }

  /** What the event loop and the workers can be made to do next.  `Accepted` carries what `accept`
      returned, `Woken` how many bytes were read from the pipe. */
  datatype Event =
    | Accepted(returned: int)
    | Readable(fd: nat, chunk: Bytes)
    | Broken(fd: nat)
    | Woken(i: nat, k: nat)
    | Worked(i: nat)

  /** Whether the event can happen now: the kernel hands out no open descriptor and reports events of
      open ones only, a worker starts a round when there is an element and room in its pipe, and no
      buffer grows beyond an `int`. */
  predicate CanHappen(s: State, e: Event) {
    match e
    case Accepted(fd) => fd !in s.conns
    case Readable(fd, chunk) => fd in s.conns && chunk != [] && |s.conns[fd].parser.input| + |chunk| < 0x8000_0000
    case Broken(fd) => fd in s.conns
    case Woken(i, k) => i < |s.pipes| && 0 < k <= s.pipes[i]
    case Worked(i) => i < |s.inQ| && i < |s.pipes| && s.inQ[i] != [] && s.pipes[i] < 65536
  }

  /** The steps that an event is made of. */
  predicate Does(e: Event, run: seq<Action>) {
    match e
    case Accepted(fd) => run == if 0 <= fd <= 1024 then [Accept(fd)] else []
    case Readable(fd, chunk) => run != [] && run[0] == Receive(fd, chunk) && forall a <- run[1..] :: a == PutNext
    case Broken(fd) => run == [Close(fd)]
    case Woken(i, k) => run != [] && run[0] == Wake(i, k) && forall a <- run[1..] :: a == TryGet
    case Worked(i) => run == [Get(i), Publish(i), Notify(i)]
  }

  /** What becomes of an event: its steps, or nothing if it cannot happen. */
  predicate Happens(s: State, e: Event, run: seq<Action>, t: State) {
    if CanHappen(s, e) then Does(e, run) && Shape(s) && PossibleRun(s, run, t) else run == [] && t == s
  }

  /** No callback is running and no worker holds anything. */
  ghost predicate Between(s: State) {
    Shape(s) && s.io.Dispatching? && forall w <- s.workers :: w.Waiting?
  }

  function Joined(parts: seq<seq<Action>>): seq<Action> {
    if parts == [] then [] else Joined(parts[..|parts| - 1]) + parts[|parts| - 1]
  }

  /** The states of the transition system before and after an event that concerns descriptor or
      worker number `at`. */
  datatype Move = Move(at: nat, before: State, after: State)

  class Context {
    var sessions: map<nat, SessionInfo>
    const queuesInput: seq<Queue>
    const queueOutput: Queue
    /** Each worker's kernel pipe, and the I/O thread's buffer of what it has read from it. */
    const pipes: seq<Buffer>
    const notices: seq<Buffer>

    constructor (threads: nat)
      requires threads > 0
      ensures Valid() && Holds(Init(threads)) && sessions == map[] && fresh(queueOutput)
      ensures forall i :: 0 <= i < |pipes| ==> fresh(queuesInput[i]) && fresh(pipes[i]) && fresh(notices[i])
    {
      var queues := NewQueues(threads);
      var kernel, read := NewPipes(threads);
      sessions, queuesInput, pipes, notices := map[], queues, kernel, read;
      queueOutput := new Queue();
      new;
      assert forall i :: 0 <= i < threads ==> pipes[i] in kernel + read && notices[i] in kernel + read;
      StartHolds();
    }

    lemma StartHolds()
      requires Valid() && sessions == map[] && queueOutput.items == []
      requires forall q <- queuesInput :: q.items == []
      requires forall i :: 0 <= i < |pipes| ==> pipes[i].data == [] && notices[i].data == []
      ensures Holds(Init(|queuesInput|))
    {
    }

    static method NewQueues(n: nat) returns (queues: seq<Queue>)
      ensures |queues| == n && Different(queues) && forall q <- queues :: fresh(q) && q.items == []
    {
      queues := [];
      while |queues| < n
        invariant |queues| <= n && Different(queues) && forall q <- queues :: fresh(q) && q.items == []
      {
        var q := new Queue();
        queues := queues + [q];
      }
    }

    static method NewPipes(n: nat) returns (kernel: seq<Buffer>, read: seq<Buffer>)
      ensures |kernel| == |read| == n && Different(kernel + read)
      ensures forall b <- kernel + read :: fresh(b) && b.data == []
    {
      kernel, read := [], [];
      while |kernel| < n
        invariant |kernel| == |read| <= n && Different(kernel + read)
        invariant forall b <- kernel + read :: fresh(b) && b.data == []
      {
        var k := new Buffer();
        var r := new Buffer();
        OneMorePair(kernel, read, k, r);
        assert forall b <- (kernel + [k]) + (read + [r]) :: b in kernel + read || b == k || b == r;
        kernel, read := kernel + [k], read + [r];
      }
    }

    static predicate Different<T(==)>(xs: seq<T>) {
      forall i, j :: 0 <= i < j < |xs| ==> xs[i] != xs[j]
    }

    static lemma OneMorePair<T>(a: seq<T>, b: seq<T>, x: T, y: T)
      requires Different(a + b) && x !in a + b && y !in a + b && x != y
      ensures Different((a + [x]) + (b + [y]))
    {
      var c, n := (a + [x]) + (b + [y]), |a|;
      assert forall i :: 0 <= i < n ==> c[i] == (a + b)[i];
      assert forall i :: n < i < |c| - 1 ==> c[i] == (a + b)[i - 1];
    }

    /** Queues and buffers are all different, and no two sessions share a buffer. */
    ghost predicate Valid()
      reads this, sessions.Values
    {
      && queuesInput != [] && queueOutput !in queuesInput && Different(queuesInput)
      && |pipes| == |notices| == |queuesInput| && Different(pipes + notices)
      && (forall f <- sessions :: SessionOk(sessions[f]))
      && (forall f <- sessions, g <- sessions | f != g :: SessionsApart(sessions[f], sessions[g]))
    }

    ghost predicate SessionOk(si: SessionInfo)
      reads si
    {
      si.Valid() && si.input != si.output && si.input !in pipes + notices && si.output !in pipes + notices
    }

    ghost predicate SessionsApart(a: SessionInfo, b: SessionInfo) {
      a != b && {a.input, a.output} !! {b.input, b.output}
    }

    /** The objects are the state of the transition system, but for the program counters of the
        workers and of the I/O thread, which stands between two callbacks. */
    ghost predicate Holds(s: State)
      requires Valid()
      reads this, sessions.Values, set f <- sessions :: sessions[f].input, set f <- sessions :: sessions[f].output
      reads queuesInput, queueOutput, pipes, notices
    {
      Shape(s) && s.io.Dispatching? && HoldsQueues(s) && HoldsPipes(s) && HoldsSessions(s)
    }

    ghost predicate HoldsQueues(s: State)
      reads queuesInput, queueOutput
    {
      && |s.inQ| == |queuesInput| && (forall i :: 0 <= i < |queuesInput| ==> queuesInput[i].items == s.inQ[i])
      && queueOutput.items == s.outQ
    }

    ghost predicate HoldsPipes(s: State)
      reads pipes, notices
    {
      && |s.pipes| == |s.notices| == |pipes| == |notices|
      && forall i :: 0 <= i < |pipes| ==> |pipes[i].data| == s.pipes[i] && |notices[i].data| == s.notices[i]
    }

    ghost predicate HoldsSessions(s: State)
      requires Valid()
      reads this, sessions.Values, set f <- sessions :: sessions[f].input, set f <- sessions :: sessions[f].output
    {
      sessions.Keys == s.conns.Keys && forall f <- sessions :: SessionOk(sessions[f]) && Reads(sessions[f], s.conns[f])
    }

    ghost predicate Reads(si: SessionInfo, c: Connection)
      requires si.Valid()
      reads si, si.input, si.output
    {
      si.View() == c.parser && si.output.data == c.sent
    }

    /** What belongs to a session belongs to nothing else. */
    lemma OwnBuffers(fd: nat)
      requires Valid() && fd in sessions
      ensures SessionOk(sessions[fd])
      ensures forall f <- sessions :: f != fd ==> SessionsApart(sessions[f], sessions[fd])
      ensures forall i :: 0 <= i < |pipes| ==>
                {pipes[i], notices[i]} !! {sessions[fd].input, sessions[fd].output}
    {
      var all, n := pipes + notices, |pipes|;
      assert forall j :: 0 <= j < n ==> all[j] == pipes[j] && all[n + j] == notices[j];
    }

    /** The read callback: exactly one run of the parser, whose bodies go in order to the input
        queue of the connection's shard, and nothing else changes. */
    method ReadCallback(fd: nat)
      requires Valid() && fd in sessions && |sessions[fd].input.data| < 0x8000_0000
      modifies sessions[fd], sessions[fd].input, queuesInput[fd % |queuesInput|]
      ensures Valid()
      ensures var r, i := Run(MAX_BODY, old(sessions[fd].View())), fd % |queuesInput|;
              && sessions[fd].View() == r.session
              && queuesInput[i].items == old(queuesInput[i].items) + Tagged(fd, r.bodies)
    {
      assert SessionOk(sessions[fd]);
      ReadLoop(sessions[fd], queuesInput[fd % |queuesInput|], fd);
    }

    /** Of the buffers and queues, a read event concerns those of this connection only. */
    twostate predicate OnlyRead(fd: nat)
      requires Valid() && fd in sessions
      reads *
    {
      && sessions == old(sessions) && unchanged(sessions[fd].output) && unchanged(queueOutput)
      && (forall f <- sessions :: f != fd ==> unchanged(sessions[f], sessions[f].input, sessions[f].output))
      && (forall j :: 0 <= j < |queuesInput| && j != fd % |queuesInput| ==> unchanged(queuesInput[j]))
      && (forall j :: 0 <= j < |pipes| ==> unchanged(pipes[j], notices[j]))
    }

    twostate lemma ReadHolds(m: Move)
      requires old(Valid()) && Valid() && old(Holds(m.before)) && m.at in sessions && OnlyRead(m.at)
      requires var Move(fd, s, t) := m;
               && Shape(t) && fd in t.conns && Reads(sessions[fd], t.conns[fd])
               && t.inQ == s.inQ[Shard(s, fd) := queuesInput[Shard(s, fd)].items]
               && t == s.(inQ := t.inQ, conns := t.conns) && t.conns.Keys == s.conns.Keys
               && forall f <- s.conns :: f != fd ==> t.conns[f] == s.conns[f]
      ensures Holds(m.after)
    {
      var Move(fd, s, t) := m;
      forall f | f in sessions ensures SessionOk(sessions[f]) && Reads(sessions[f], t.conns[f]) {
        assert old(Reads(sessions[f], s.conns[f]));
      }
    }

    method TakeIn(fd: nat, chunk: Bytes)
      requires Valid() && fd in sessions && |sessions[fd].input.data| + |chunk| < 0x8000_0000
      modifies sessions[fd], sessions[fd].input, queuesInput[fd % |queuesInput|]
      ensures Valid() && OnlyRead(fd)
      ensures var r, i := Feed(MAX_BODY, old(sessions[fd].View()), chunk), fd % |queuesInput|;
              && sessions[fd].View() == r.session
              && queuesInput[i].items == old(queuesInput[i].items) + Tagged(fd, r.bodies)
    {
      hide Run;
      OwnBuffers(fd);
      sessions[fd].input.Add(chunk);
      ReadCallback(fd);
    }

    /** A read event: the chunk is appended to the input buffer and the callback runs.  It is a run of
        the transition system: the receipt, then one Put for each body. */
    method ReadEvent(fd: nat, chunk: Bytes, ghost s: State) returns (ghost run: seq<Action>)
      requires Valid() && Holds(s) && Possible(s, Receive(fd, chunk))
      requires |sessions[fd].input.data| + |chunk| < 0x8000_0000
      modifies sessions[fd], sessions[fd].input, queuesInput[fd % |queuesInput|]
      ensures Valid() && Admissible(s, run) && Holds(After(s, run)) && After(s, run).workers == s.workers
      ensures Does(Readable(fd, chunk), run)
    {
      hide Run, Feed, Admissible, After, Next, Context.Valid, Does;
      run := ReceiveRun(s, fd, chunk);
      assert Reads(sessions[fd], s.conns[fd]);
      TakeIn(fd, chunk);
      hide Holds, HoldsPipes;
      ReadHolds(Move(fd, s, After(s, run)));
    }

    /** Hands one frame to the output buffer of its connection, if that is still there. */
    method Hand(e: Element)
      requires Valid()
      modifies set f | f in sessions :: sessions[f].output
      ensures forall f :: f in sessions ==>
                sessions[f].output.data == old(sessions[f].output.data) + (if e.fd == f then e.data else [])
    {
      if e.fd in sessions {
        assert forall f <- sessions :: f != e.fd ==> SessionsApart(sessions[f], sessions[e.fd]);
        sessions[e.fd].output.Add(e.data);
      }
    }

    /** The notify callback: drains the output queue, giving each live connection its own frames in
        order and dropping those of connections that are gone. */
    method NotifyCallback(i: nat)
      requires Valid() && i < |notices|
      modifies notices[i], queueOutput, set f | f in sessions :: sessions[f].output
      ensures Valid() && queueOutput.items == []
      ensures notices[i].data == if |old(notices[i].data)| < 4096 then [] else old(notices[i].data[4096..])
      ensures forall f :: f in sessions ==>
                sessions[f].output.data == old(sessions[f].output.data) + Concat(Select(old(queueOutput.items), f))
    {
      assert forall f <- sessions :: SessionOk(sessions[f]);
      assert notices[i] in pipes + notices;
      var _ := notices[i].Remove(NOTIFY_CHUNK);
      Drain();
    }

    /** Of the buffers and queues, a notify event concerns the pipe of this worker, the output queue and
        the output buffers only. */
    twostate predicate OnlyNotified(i: nat)
      requires Valid() && i < |pipes|
      reads *
    {
      && sessions == old(sessions) && (forall f <- sessions :: unchanged(sessions[f], sessions[f].input))
      && (forall j :: 0 <= j < |queuesInput| ==> unchanged(queuesInput[j]))
      && (forall j :: 0 <= j < |pipes| && j != i ==> unchanged(pipes[j], notices[j]))
    }

    twostate lemma NotifyHolds(m: Move)
      requires old(Valid()) && Valid() && old(Holds(m.before)) && m.at < |pipes| && OnlyNotified(m.at)
      requires var Move(i, s, t) := m;
               && Shape(t) && i < |s.pipes| && queueOutput.items == t.outQ
               && t == s.(pipes := s.pipes[i := |pipes[i].data|], notices := s.notices[i := |notices[i].data|],
                          outQ := t.outQ, conns := t.conns)
               && t.conns.Keys == s.conns.Keys
               && (forall f <- s.conns ::
                     && t.conns[f].sent == s.conns[f].sent + Concat(Select(s.outQ, f))
                     && t.conns[f].parser == s.conns[f].parser)
      requires forall f <- sessions ::
                 sessions[f].output.data == old(sessions[f].output.data) + Concat(Select(old(queueOutput.items), f))
      ensures Holds(m.after)
    {
      hide Concat, Select;
      var Move(i, s, t) := m;
      forall f | f in sessions ensures SessionOk(sessions[f]) && Reads(sessions[f], t.conns[f]) {
        assert old(Reads(sessions[f], s.conns[f]));
      }
    }

    method Notified(i: nat, k: nat)
      requires Valid() && i < |pipes| && k <= |pipes[i].data|
      modifies pipes[i], notices[i], queueOutput, set f | f in sessions :: sessions[f].output
      ensures Valid() && OnlyNotified(i) && queueOutput.items == []
      ensures |pipes[i].data| == |old(pipes[i].data)| - k
      ensures |notices[i].data| == Chunked(|old(notices[i].data)| + k)
      ensures forall f <- sessions ::
                sessions[f].output.data == old(sessions[f].output.data) + Concat(Select(old(queueOutput.items), f))
    {
      hide Concat, Select;
      PipesApart(i);
      forall f | f in sessions
        ensures SessionOk(sessions[f]) && forall g <- sessions :: sessions[f].input != sessions[g].output
      {
        OutputsOnly(f);
      }
      var d := pipes[i].Remove(k);
      notices[i].Add(d);
      NotifyCallback(i);
    }

    /** A notify event: `k` bytes come from the pipe into the I/O thread's buffer, and the callback
        runs.  It is a run of the transition system: the wake-up, then TryGets until one fails. */
    method NotifyEvent(i: nat, k: nat, ghost s: State) returns (ghost run: seq<Action>)
      requires Valid() && Holds(s) && Possible(s, Wake(i, k))
      modifies pipes[i], notices[i], queueOutput, set f | f in sessions :: sessions[f].output
      ensures Valid() && Admissible(s, run) && Holds(After(s, run)) && After(s, run).workers == s.workers
      ensures Does(Woken(i, k), run)
    {
      hide Run, Admissible, After, Concat, Select, Chunked, Context.Valid, Next, Does;
      run := WakeRun(s, i, k);
      ghost var t := After(s, run);
      assert |pipes[i].data| == s.pipes[i] && |notices[i].data| == s.notices[i] && queueOutput.items == s.outQ;
      Notified(i, k);
      hide Holds, OnlyNotified;
      NotifyHolds(Move(i, s, t));
    }

    /** No output buffer is an input buffer. */
    lemma OutputsOnly(f: nat)
      requires Valid() && f in sessions
      ensures SessionOk(sessions[f]) && forall g <- sessions :: sessions[f].input != sessions[g].output
    {
      forall g | g in sessions ensures sessions[f].input != sessions[g].output {
        assert SessionOk(sessions[g]) && (f != g ==> SessionsApart(sessions[f], sessions[g]));
      }
    }

    lemma PipesApart(i: nat)
      requires Valid() && i < |pipes|
      ensures forall j :: 0 <= j < |pipes| ==> pipes[i] != notices[j] && notices[i] != pipes[j]
      ensures forall j :: 0 <= j < |pipes| && j != i ==> pipes[i] != pipes[j] && notices[i] != notices[j]
      ensures forall f <- sessions :: {sessions[f].input, sessions[f].output} !! {pipes[i], notices[i]}
    {
      var all, n := pipes + notices, |pipes|;
      forall j | 0 <= j < n
        ensures pipes[i] != notices[j] && notices[i] != pipes[j]
        ensures j != i ==> pipes[i] != pipes[j] && notices[i] != notices[j]
      {
        assert all[j] == pipes[j] && all[n + j] == notices[j] && all[i] == pipes[i] && all[n + i] == notices[i];
      }
      assert pipes[i] in all && notices[i] in all;
      forall f | f in sessions ensures {sessions[f].input, sessions[f].output} !! {pipes[i], notices[i]} {
        assert SessionOk(sessions[f]);
      }
    }

    method Drain()
      requires Valid()
      modifies queueOutput, set f | f in sessions :: sessions[f].output
      ensures queueOutput.items == []
      ensures forall f :: f in sessions ==>
                sessions[f].output.data == old(sessions[f].output.data) + Concat(Select(old(queueOutput.items), f))
    {
      hide Concat, Select;
      NothingSelected();
      var next := queueOutput.TryGet();
      ghost var left := old(queueOutput.items);
      while next.Some?
        invariant left == (if next.Some? then [next.value] else []) + queueOutput.items
        invariant next.None? ==> left == []
        invariant forall f :: f in sessions ==>
                    sessions[f].output.data + Concat(Select(left, f))
                    == old(sessions[f].output.data) + Concat(Select(old(queueOutput.items), f))
        decreases |left|
      {
        HandFirst(next.value, left);
        left := left[1..];
        next := queueOutput.TryGet();
      }
    }

    /** Handing out the first of the elements that are left moves its frame from those to the buffer. */
    method HandFirst(e: Element, ghost left: seq<Element>)
      requires Valid() && left != [] && e == left[0]
      modifies set f | f in sessions :: sessions[f].output
      ensures forall f :: f in sessions ==>
                sessions[f].output.data + Concat(Select(left[1..], f))
                == old(sessions[f].output.data) + Concat(Select(left, f))
    {
      hide Concat, Select, Valid;
      Hand(e);
      forall f | f in sessions
        ensures sessions[f].output.data + Concat(Select(left[1..], f))
                == old(sessions[f].output.data) + Concat(Select(left, f))
      {
        FramesPop(left, f);
      }
    }

    /** Only the map of sessions changed; `at` is now missing there or has a session of its own. */
    twostate predicate OnlySessions(at: nat)
      reads *
    {
      && sessions - {at} == old(sessions) - {at} && (forall f <- old(sessions) :: unchanged(old(sessions)[f]))
      && (forall f <- old(sessions) :: unchanged(old(sessions)[f].input, old(sessions)[f].output))
      && (forall j :: 0 <= j < |queuesInput| ==> unchanged(queuesInput[j])) && unchanged(queueOutput)
      && (forall j :: 0 <= j < |pipes| && j < |notices| ==> unchanged(pipes[j], notices[j]))
    }

    twostate lemma StillThere(at: nat)
      requires OnlySessions(at)
      ensures forall f <- sessions :: f != at ==> f in old(sessions) && sessions[f] == old(sessions)[f]
    {
      forall f | f in sessions && f != at ensures f in old(sessions) && sessions[f] == old(sessions)[f] {
        assert f in sessions - {at} && (sessions - {at})[f] == sessions[f];
      }
    }

    /** A new session has buffers of its own. */
    twostate lemma StaysValid(at: nat)
      requires old(Valid()) && OnlySessions(at)
      requires at in sessions ==>
                 fresh(sessions[at]) && fresh({sessions[at].input, sessions[at].output}) && SessionOk(sessions[at])
      ensures Valid()
    {
      StillThere(at);
      forall f | f in sessions ensures SessionOk(sessions[f]) {
        if f != at { assert old(SessionOk(sessions[f])); }
      }
      forall f, g | f in sessions && g in sessions && f != g ensures SessionsApart(sessions[f], sessions[g]) {
        if f != at && g != at { assert SessionsApart(old(sessions)[f], old(sessions)[g]); }
      }
    }

    twostate lemma SessionsHold(m: Move)
      requires old(Valid()) && Valid() && old(Holds(m.before)) && OnlySessions(m.at)
      requires var Move(at, s, t) := m;
               && t == s.(conns := t.conns) && t.conns.Keys == sessions.Keys
               && (at in sessions ==> Reads(sessions[at], t.conns[at]))
               && forall f <- s.conns :: f != at ==> f in t.conns && t.conns[f] == s.conns[f]
      ensures Holds(m.after)
    {
      var Move(at, s, t) := m;
      StillThere(at);
      forall f | f in sessions ensures SessionOk(sessions[f]) && Reads(sessions[f], t.conns[f]) {
        if f != at { assert old(Reads(sessions[f], s.conns[f])); }
      }
    }

    /** The accept callback, for what `accept` returned: a negative number if it failed, otherwise a
        descriptor that is not open.  Inserts a fresh session. */
    method AcceptCallback(fd: int, ghost s: State)
      requires Valid() && Holds(s) && fd !in sessions
      modifies this`sessions
      ensures Valid() && Holds(if 0 <= fd <= FD_SETSIZE then Next(s, Accept(fd)) else s)
      ensures forall f <- old(sessions) :: f in sessions && sessions[f] == old(sessions[f])
      ensures forall f <- sessions :: f !in old(sessions) ==>
                f == fd && fresh(sessions[f]) && fresh(sessions[f].input) && fresh(sessions[f].output)
    {
      if fd < 0 {
        return;
      }
      if fd <= FD_SETSIZE {
        Insert(fd);
        hide Context.Valid, Run;
        SessionsHold(Move(fd, s, Next(s, Accept(fd))));
      }
    }

    method Insert(fd: nat)
      requires Valid() && fd !in sessions
      modifies this`sessions
      ensures Valid() && OnlySessions(fd) && sessions.Keys == old(sessions).Keys + {fd}
      ensures sessions[fd].View() == Fresh([]) && sessions[fd].output.data == []
      ensures fresh(sessions[fd]) && fresh(sessions[fd].input) && fresh(sessions[fd].output)
      ensures forall f <- old(sessions) :: f in sessions && sessions[f] == old(sessions[f])
    {
      var si := new SessionInfo();
      assert SessionOk(si);
      hide Context.Valid;
      sessions := sessions[fd := si];
      assert sessions - {fd} == old(sessions) - {fd};
      StaysValid(fd);
    }

    method ErrorCallback(fd: nat, ghost s: State)
      requires Valid() && Holds(s) && fd in sessions
      modifies this`sessions
      ensures Valid() && sessions == old(sessions) - {fd} && Holds(Next(s, Close(fd)))
    {
      hide Context.Valid, Run;
      sessions := sessions - {fd};
      StaysValid(fd);
      SessionsHold(Move(fd, s, Next(s, Close(fd))));
    }

    /** Of the buffers and queues, a worker's round concerns its input queue, its pipe and the output
        queue only. */
    twostate predicate OnlyWorked(i: nat)
      reads *
    {
      && sessions == old(sessions)
      && (forall f <- sessions :: unchanged(sessions[f], sessions[f].input, sessions[f].output))
      && (forall j :: 0 <= j < |queuesInput| && j != i ==> unchanged(queuesInput[j]))
      && (forall j :: 0 <= j < |pipes| && j != i ==> unchanged(pipes[j]))
      && (forall j :: 0 <= j < |notices| ==> unchanged(notices[j]))
    }

    twostate lemma WorkHolds(m: Move)
      requires old(Valid()) && old(Holds(m.before)) && m.at < |pipes| && OnlyWorked(m.at)
      requires var Move(i, s, t) := m;
               && |pipes| == |s.pipes| == |s.inQ| == |queuesInput|
               && t == s.(inQ := s.inQ[i := queuesInput[i].items], pipes := s.pipes[i := |pipes[i].data|],
                          outQ := queueOutput.items)
      ensures Valid() && Holds(m.after)
    {
      var Move(i, s, t) := m;
      forall f | f in sessions ensures SessionOk(sessions[f]) && Reads(sessions[f], t.conns[f]) {
        assert old(SessionOk(sessions[f])) && old(Reads(sessions[f], s.conns[f]));
      }
    }

    /** One round of the loop of worker `i`, started when its Get can proceed and ended when the pipe
        has room: the steps Get, Publish and Notify of the transition system. */
    method WorkerRound(i: nat, ghost s: State) returns (ghost run: seq<Action>)
      requires Valid() && Holds(s) && Possible(s, Get(i)) && s.pipes[i] < PIPE_CAPACITY
      modifies queuesInput[i], queueOutput, pipes[i]
      ensures Does(Worked(i), run) && Admissible(s, run)
      ensures Valid() && Holds(After(s, run)) && After(s, run).workers == s.workers
    {
      run := [Get(i), Publish(i), Notify(i)];
      WorkerRun(s, i);
      hide Admissible, After, Run, Frame;
      PipesApart(i);
      Reframe(queuesInput[i], queueOutput, pipes[i]);
      hide Context.Valid;
      assert OnlyWorked(i);
      WorkHolds(Move(i, s, After(s, run)));
    }

    /** All objects that a callback or a worker may write. */
    ghost function Repr(): set<object>
      reads this
    {
      {this, queueOutput} + Shared() + Own()
    }

    ghost function Shared(): set<object> {
      (set q <- queuesInput :: q as object) + (set b <- pipes :: b as object) + (set b <- notices :: b as object)
    }

    ghost function Own(): set<object>
      reads this
    {
      (set f <- sessions :: sessions[f] as object)
      + (set f <- sessions :: sessions[f].input as object) + (set f <- sessions :: sessions[f].output as object)
    }

    /** `CanHappen`, as the objects tell it. */
    predicate Ready(e: Event)
      reads this, sessions.Values, set f <- sessions :: sessions[f].input
      reads queuesInput, pipes
    {
      match e
      case Accepted(fd) => fd !in sessions
      case Readable(fd, chunk) => fd in sessions && chunk != [] && |sessions[fd].input.data| + |chunk| < 0x8000_0000
      case Broken(fd) => fd in sessions
      case Woken(i, k) => i < |pipes| && 0 < k <= |pipes[i].data|
      case Worked(i) =>
        i < |queuesInput| && i < |pipes| && queuesInput[i].items != [] && |pipes[i].data| < PIPE_CAPACITY
    }

    lemma ReadyExactly(e: Event, s: State)
      requires Valid() && Holds(s)
      ensures Ready(e) <==> CanHappen(s, e)
    {
      if e.Readable? && e.fd in sessions {
        assert Reads(sessions[e.fd], s.conns[e.fd]);
      }
    }

    ghost predicate AllWaiting(s: State) {
      forall w <- s.workers :: w.Waiting?
    }

    lemma ShapeHolds(s: State)
      requires Valid() && Holds(s)
      ensures Shape(s)
    {
    }

    lemma SentHolds(s: State, fd: nat)
      requires Valid() && Holds(s) && fd in s.conns
      ensures fd in sessions && sessions[fd].output.data == s.conns[fd].sent
    {
      assert fd in sessions && Reads(sessions[fd], s.conns[fd]);
    }

    lemma BetweenHolds(s: State)
      requires Valid() && Holds(s) && AllWaiting(s)
      ensures Between(s)
    {
    }

    lemma ReadyIsPossible(e: Event, s: State)
      requires Valid() && Holds(s) && AllWaiting(s) && CanHappen(s, e)
      ensures Shape(s)
      ensures match e
              case Accepted(fd) => fd !in sessions && (0 <= fd <= FD_SETSIZE ==> Possible(s, Accept(fd)))
              case Readable(fd, chunk) =>
                fd in sessions && Possible(s, Receive(fd, chunk))
                && |sessions[fd].input.data| + |chunk| < 0x8000_0000
              case Broken(fd) => fd in sessions && Possible(s, Close(fd))
              case Woken(i, k) => i < |pipes| && Possible(s, Wake(i, k))
              case Worked(i) =>
                i < |queuesInput| && i < |pipes| && Possible(s, Get(i)) && s.pipes[i] < PIPE_CAPACITY
    {
      if e.Readable? {
        assert Reads(sessions[e.fd], s.conns[e.fd]);
      }
    }

    lemma Footprint()
      requires Valid()
      ensures this in Repr() && queueOutput in Repr() && |queuesInput| == |pipes| == |notices| > 0
      ensures forall f <- sessions ::
                sessions[f] in Repr() && sessions[f].input in Repr() && sessions[f].output in Repr()
      ensures forall i :: 0 <= i < |pipes| ==> queuesInput[i] in Repr() && pipes[i] in Repr() && notices[i] in Repr()
    {
      SharedAt();
      assert |queuesInput| == |pipes| == |notices| > 0;
      hide Context.Valid, Shared;
    }

    lemma SharedAt()
      requires |queuesInput| == |pipes| == |notices|
      ensures forall i :: 0 <= i < |pipes| ==>
                queuesInput[i] in Shared() && pipes[i] in Shared() && notices[i] in Shared()
    {
      assert forall i :: 0 <= i < |pipes| ==>
               queuesInput[i] in queuesInput && pipes[i] in pipes && notices[i] in notices;
    }

    /** An event that opens no connection concerns no new object. */
    twostate lemma NothingNew()
      requires forall f <- sessions :: f in old(sessions) && sessions[f] == old(sessions)[f]
      ensures forall o <- Repr() :: o in old(Repr())
    {
    }

    twostate lemma OneNew()
      requires forall f <- sessions ::
                 (f in old(sessions) && sessions[f] == old(sessions)[f])
                 || (fresh(sessions[f]) && fresh(sessions[f].input) && fresh(sessions[f].output))
      ensures forall o <- Repr() :: o in old(Repr()) || fresh(o)
    {
    }

    method HandleAccept(fd: int, ghost s: State) returns (ghost run: seq<Action>, ghost t: State)
      requires Valid() && Holds(s) && fd !in sessions && (0 <= fd <= FD_SETSIZE ==> Possible(s, Accept(fd)))
      modifies this`sessions
      ensures Valid() && Holds(t) && t.workers == s.workers && PossibleRun(s, run, t) && Does(Accepted(fd), run)
      ensures forall o <- Repr() :: o in old(Repr()) || fresh(o)
    {
      hide Context.Valid, HoldsQueues, HoldsPipes, HoldsSessions, Repr;
      AcceptCallback(fd, s);
      OneNew();
      if 0 <= fd <= FD_SETSIZE {
        run, t := [Accept(fd)], Next(s, Accept(fd));
      } else {
        run, t := [], s;
      }
    }

    method HandleBroken(fd: nat, ghost s: State) returns (ghost run: seq<Action>, ghost t: State)
      requires Valid() && Holds(s) && fd in sessions && Possible(s, Close(fd))
      modifies this`sessions
      ensures Valid() && Holds(t) && t.workers == s.workers && PossibleRun(s, run, t) && Does(Broken(fd), run)
      ensures forall o <- Repr() :: o in old(Repr()) || fresh(o)
    {
      hide Context.Valid, HoldsQueues, HoldsPipes, HoldsSessions, Repr;
      ErrorCallback(fd, s);
      NothingNew();
      run, t := [Close(fd)], Next(s, Close(fd));
    }

    method Handle(e: Event, ghost s: State) returns (ghost run: seq<Action>, ghost t: State)
      requires Valid() && Holds(s) && AllWaiting(s) && CanHappen(s, e)
      modifies Repr()
      ensures Valid() && Holds(t) && AllWaiting(t) && PossibleRun(s, run, t) && Does(e, run)
      ensures forall o <- Repr() :: o in old(Repr()) || fresh(o)
    {
      hide Context.Valid, Holds, Repr, Run, Admissible, After, Next, Does, CanHappen;
      ReadyIsPossible(e, s);
      Footprint();
      match e
      case Accepted(fd) => run, t := HandleAccept(fd, s);
      case Readable(fd, chunk) =>
        run := ReadEvent(fd, chunk, s);
        t := After(s, run);
        AdmissibleIsPossible(s, run);
        NothingNew();
      case Broken(fd) =>
        run, t := HandleBroken(fd, s);
      case Woken(i, k) =>
        run := NotifyEvent(i, k, s);
        t := After(s, run);
        AdmissibleIsPossible(s, run);
        NothingNew();
      case Worked(i) =>
        run := WorkerRound(i, s);
        t := After(s, run);
        AdmissibleIsPossible(s, run);
        NothingNew();
    }

    /** Any sequence of events is a run of the transition system from one state of the objects to the
        next: the steps of all events one after the other, only those left out that cannot happen in the
        state that they meet. */
    method Serve(events: seq<Event>, ghost s: State)
      returns (ghost run: seq<Action>, ghost parts: seq<seq<Action>>, ghost states: seq<State>)
      requires Valid() && Holds(s) && AllWaiting(s)
      modifies Repr()
      ensures |parts| == |events| && |states| == |events| + 1 && states[0] == s
      ensures forall i :: 0 <= i < |events| ==> Happens(states[i], events[i], parts[i], states[i + 1])
      ensures forall i :: 0 <= i <= |events| ==> Between(states[i])
      ensures Valid() && Holds(states[|events|]) && AllWaiting(states[|events|])
      ensures run == Joined(parts) && PossibleRun(s, run, states[|events|])
    {
      hide Context.Valid, Holds, AllWaiting, CanHappen, Does, Repr, PossibleRun, Between;
      run, parts, states := [], [], [s];
      var i := 0;
      ShapeHolds(s);
      BetweenHolds(s);
      EmptyRun(s);
      while i < |events|
        invariant 0 <= i <= |events| && |parts| == i && |states| == i + 1 && states[0] == s
        invariant forall j :: 0 <= j < i ==> Happens(states[j], events[j], parts[j], states[j + 1])
        invariant forall j :: 0 <= j <= i ==> Between(states[j])
        invariant Valid() && Holds(states[i]) && AllWaiting(states[i])
        invariant run == Joined(parts) && PossibleRun(s, run, states[i])
        invariant forall o <- Repr() :: o in old(Repr()) || fresh(o)
      {
        ghost var more, t := [], states[i];
        ShapeHolds(t);
        ReadyExactly(events[i], t);
        if Ready(events[i]) {
          more, t := Handle(events[i], t);
          RunsJoin(s, run, states[i], more, t);
        } else {
          assert run + more == run;
        }
        BetweenHolds(t);
        assert (parts + [more])[..i] == parts;
        run, parts, states := run + more, parts + [more], states + [t];
        i := i + 1;
      }
    }
  }

  lemma {:induction false} AdmissibleIsPossible(s: State, run: seq<Action>)
    requires Shape(s) && Admissible(s, run)
    ensures PossibleRun(s, run, After(s, run))
    decreases |run|
  {
    if run != [] {
      AdmissibleIsPossible(Next(s, run[0]), run[1..]);
    }
  }

  lemma {:induction false} RunsJoin(s: State, run: seq<Action>, t: State, more: seq<Action>, u: State)
    requires Shape(s) && PossibleRun(s, run, t) && Shape(t) && PossibleRun(t, more, u)
    ensures PossibleRun(s, run + more, u)
    decreases |run|
  {
    if run == [] {
      assert run + more == more;
    } else {
      RunsJoin(Next(s, run[0]), run[1..], t, more, u);
      assert (run + more)[1..] == run[1..] + more;
    }
  }

  // ---- what an event comes to ----

  /** Between callbacks an event can happen whenever its first step can, as far as a buffer fits an `int`
      and a pipe has room; a failed accept always can. */
  lemma CanHappenExactly(s: State, e: Event)
    requires Between(s)
    ensures CanHappen(s, e) <==>
            match e
            case Accepted(fd) => if 0 <= fd <= 1024 then Possible(s, Accept(fd)) else fd !in s.conns
            case Readable(fd, chunk) =>
              Possible(s, Receive(fd, chunk)) && |s.conns[fd].parser.input + chunk| < 0x8000_0000
            case Broken(fd) => Possible(s, Close(fd))
            case Woken(i, k) => Possible(s, Wake(i, k))
            case Worked(i) => Possible(s, Get(i)) && s.pipes[i] < 65536
  {
    if e.Worked? && e.i < |s.workers| {
      assert s.workers[e.i] in s.workers;
    }
  }

  lemma AllOf(a: Action, s: State, run: seq<Action>, t: State)
    requires (forall b <- run :: b == a) && Shape(s) && PossibleRun(s, run, t) && s != t
    ensures run != [] && run[0] == a && Possible(s, a) && PossibleRun(Next(s, a), run[1..], t)
    ensures (forall b <- run[1..] :: b == a) && (run[1..] != [] ==> run[1..][0] == a && Possible(Next(s, a), a))
  {
    hide Next, Possible;
    assert run[0] in run;
    assert forall b <- run[1..] :: b in run;
    assert run[1..] != [] ==> run[1..][0] in run[1..];
  }

  lemma TaggedFirst(fd: nat, q: seq<Element>, bodies: seq<Bytes>)
    requires bodies != []
    ensures (q + [Element(fd, bodies[0])]) + Tagged(fd, bodies[1..]) == q + Tagged(fd, bodies)
  {
  }

  lemma NothingTagged(fd: nat, q: seq<Element>)
    ensures q + Tagged(fd, []) == q
  {
  }

  lemma {:induction false} PutsToTheEnd(s: State, run: seq<Action>, t: State)
    requires Shape(s) && s.io.Reading? && (forall a <- run :: a == PutNext)
    requires PossibleRun(s, run, t) && t.io.Dispatching?
    ensures var i := Shard(s, s.io.fd);
            t == s.(inQ := s.inQ[i := s.inQ[i] + Tagged(s.io.fd, s.io.pending)], io := Dispatching)
    decreases |run|
  {
    var fd, i, u := s.io.fd, Shard(s, s.io.fd), Next(s, PutNext);
    hide Tagged;
    AllOf(PutNext, s, run, t);
    if s.io.pending == [] {
      NothingTagged(fd, s.inQ[i]);
      assert run[1..] == [];
    } else {
      PutsToTheEnd(u, run[1..], t);
      TaggedFirst(fd, s.inQ[i], s.io.pending);
    }
  }

  lemma {:induction false} GetsToTheEnd(s: State, run: seq<Action>, t: State)
    requires Shape(s) && s.io.Draining? && (forall a <- run :: a == TryGet)
    requires PossibleRun(s, run, t) && t.io.Dispatching?
    ensures t == s.(outQ := [], io := Dispatching, conns := t.conns) && t.conns.Keys == s.conns.Keys
    ensures forall fd :: fd in s.conns ==>
              && t.conns[fd].sent == s.conns[fd].sent + Concat(Select(s.outQ, fd))
              && t.conns[fd].parser == s.conns[fd].parser
    decreases |run|
  {
    hide Concat, Select;
    AllOf(TryGet, s, run, t);
    if s.outQ == [] {
      NothingSelected();
      assert run[1..] == [];
    } else {
      GetsToTheEnd(Next(s, TryGet), run[1..], t);
      TryGetMoves(s);
    }
  }

  /** After a read event that happens, from one state between callbacks to another. */
  lemma AfterReadable(s: State, fd: nat, chunk: Bytes, run: seq<Action>, t: State)
    requires Between(s) && Between(t) && CanHappen(s, Readable(fd, chunk)) && Happens(s, Readable(fd, chunk), run, t)
    ensures var r, i := Feed(MAX_BODY, s.conns[fd].parser, chunk), Shard(s, fd);
            && fd in t.conns && t.conns[fd].parser == r.session && t.conns[fd].sent == s.conns[fd].sent
            && t == s.(inQ := s.inQ[i := s.inQ[i] + Tagged(fd, r.bodies)], conns := t.conns)
  {
    hide Run;
    PutsToTheEnd(Next(s, Receive(fd, chunk)), run[1..], t);
  }

  lemma AfterWorked(s: State, i: nat, run: seq<Action>, t: State)
    requires Between(s) && Between(t) && CanHappen(s, Worked(i)) && Happens(s, Worked(i), run, t)
    ensures var e := s.inQ[i][0];
            t == s.(inQ := s.inQ[i := s.inQ[i][1..]], pipes := s.pipes[i := s.pipes[i] + 1],
                    outQ := s.outQ + [Element(e.fd, Frame(e.data))])
  {
    hide Frame;
    var s1 := Next(s, Get(i));
    var s2 := Next(s1, Publish(i));
    var s3 := Next(s2, Notify(i));
    assert run[1..] == [Publish(i), Notify(i)] && run[1..][1..] == [Notify(i)] && run[1..][1..][1..] == [];
    assert PossibleRun(s1, run[1..], t) && PossibleRun(s2, run[1..][1..], t) && PossibleRun(s3, [], t);
    assert s3.workers == s.workers;
  }

  lemma AfterWoken(s: State, i: nat, k: nat, run: seq<Action>, t: State)
    requires Between(s) && Between(t) && CanHappen(s, Woken(i, k)) && Happens(s, Woken(i, k), run, t)
    ensures t.conns.Keys == s.conns.Keys && t.outQ == []
    ensures forall fd :: fd in s.conns ==> t.conns[fd].sent == s.conns[fd].sent + Concat(Select(s.outQ, fd))
  {
    hide Concat, Select;
    GetsToTheEnd(Next(s, Wake(i, k)), run[1..], t);
  }

  /** One frame, read at once, parsed by a new connection. */
  lemma FeedOneFrame(body: Bytes)
    requires 0 < |body| <= 1024000
    ensures Feed(MAX_BODY, Fresh([]), Frame(body)) == Outcome(Session(true, |body|, []), [body], false)
  {
    hide Run;
    var stream, n := Frame(body), |body|;
    DecodeEncode32(n, body);
    assert Arrive(Fresh([]), stream) == Session(true, 0, stream);
    RunOneFrame(MAX_BODY, 0, stream);
    assert stream[4..4 + n] == body && stream[4 + n..] == [];
    RunStalled(MAX_BODY, Session(true, n, []));
    PrependLast([body], Session(true, n, []), false);
  }

  /** A server with any number of workers, and a client that connects and sends one frame that the parser
      accepts: once a worker has taken a round and the I/O thread its notice, the client's output is that
      frame. */
  method EchoesOneFrame(threads: nat, fd: nat, body: Bytes) returns (c: Context)
    requires threads > 0 && fd <= 1024 && 0 < |body| <= 1024000
    ensures fd in c.sessions && c.sessions[fd].output.data == Frame(body)
  {
    hide Run, Feed, Frame, Context.Valid, Context.Holds, Happens, CanHappen, Joined;
    c := new Context(threads);
    var i := fd % threads;
    var events := [Accepted(fd), Readable(fd, Frame(body)), Worked(i), Woken(i, 1)];
    ghost var s := Init(threads);
    ghost var run, parts, states := c.Serve(events, s);
    EchoedInTheEnd(threads, fd, body, parts, states);
    c.SentHolds(states[4], fd);
  }

  lemma EchoedInTheEnd(threads: nat, fd: nat, body: Bytes, parts: seq<seq<Action>>, states: seq<State>)
    requires threads > 0 && fd <= 1024 && 0 < |body| <= 1024000
    requires |parts| == 4 && |states| == 5 && states[0] == Init(threads) && forall s <- states :: Between(s)
    requires Happens(states[0], Accepted(fd), parts[0], states[1])
    requires Happens(states[1], Readable(fd, Frame(body)), parts[1], states[2])
    requires Happens(states[2], Worked(fd % threads), parts[2], states[3])
    requires Happens(states[3], Woken(fd % threads, 1), parts[3], states[4])
    ensures fd in states[4].conns && states[4].conns[fd].sent == Frame(body)
  {
    hide Run, Feed, Frame, Happens, PossibleRun, Concat, Select;
    var i, frame := fd % threads, Frame(body);
    FrameLayout(body);
    FeedOneFrame(body);
    AfterAccepted(states[0], fd, parts[0], states[1]);
    AfterReadable(states[1], fd, frame, parts[1], states[2]);
    assert states[2].inQ[i] == [Element(fd, body)];
    AfterWorked(states[2], i, parts[2], states[3]);
    assert states[3].outQ == [Element(fd, frame)];
    AfterWoken(states[3], i, 1, parts[3], states[4]);
    OneSelected(fd, frame);
  }

  lemma OneSelected(fd: nat, data: Bytes)
    ensures Concat(Select([Element(fd, data)], fd)) == data
  {
    FramesPop([Element(fd, data)], fd);
    NothingSelected();
  }

  lemma AfterAccepted(s: State, fd: nat, run: seq<Action>, t: State)
    requires Between(s) && CanHappen(s, Accepted(fd)) && Happens(s, Accepted(fd), run, t)
    ensures t == if fd <= 1024 then s.(conns := s.conns[fd := Connection(Fresh([]), [], [], [], [])]) else s
  {
    if fd <= 1024 {
      assert run == [Accept(fd)] && run[1..] == [];
      assert PossibleRun(Next(s, Accept(fd)), run[1..], t);
    }
  }

  /** The body of the worker's loop: the body is copied behind its own length and goes to the output
      queue, and one byte to the pipe. */
  method Reframe(input: Queue, output: Queue, pipe: Buffer)
    requires input != output && input.items != []
    modifies input, output, pipe
    ensures var e := old(input.items[0]);
            && input.items == old(input.items[1..])
            && output.items == old(output.items) + [Element(e.fd, Frame(e.data))]
    ensures pipe.data == old(pipe.data) + ['a' as int]
  {
    var qe := input.Get();
    assert qe == old(input.items[0]) && input.items == old(input.items[1..]);
    var t := |qe.data|;
    var bd := new byte[t + 4](_ => 0);
    var length := BigEndian32(t);
    bd[0], bd[1], bd[2], bd[3] := length[0], length[1], length[2], length[3];
    forall i | 0 <= i < t {
      bd[4 + i] := qe.data[i];
    }
    assert bd[..] == length + qe.data;
    output.Put(Element(qe.fd, bd[..]));
    pipe.Add(['a' as int]);
  }

  lemma FirstStep(s: State, a: Action, rest: seq<Action>)
    requires Shape(s) && Possible(s, a) && Clean(s, a) && Admissible(Next(s, a), rest)
    ensures Admissible(s, [a] + rest) && After(s, [a] + rest) == After(Next(s, a), rest)
  {
    hide Next;
    assert ([a] + rest)[1..] == rest;
  }

  /** The steps of a read event, uninterrupted. */
  lemma ReceiveRun(s: State, fd: nat, chunk: Bytes) returns (run: seq<Action>)
    requires Shape(s) && Possible(s, Receive(fd, chunk))
    ensures Does(Readable(fd, chunk), run) && Admissible(s, run)
    ensures After(s, run).io.Dispatching?
    ensures var r, i := Feed(MAX_BODY, s.conns[fd].parser, chunk), Shard(s, fd);
            && After(s, run).inQ == s.inQ[i := s.inQ[i] + Tagged(fd, r.bodies)]
            && After(s, run) == s.(inQ := After(s, run).inQ, conns := After(s, run).conns)
            && After(s, run).conns.Keys == s.conns.Keys
            && (forall f <- s.conns :: f != fd ==> After(s, run).conns[f] == s.conns[f])
            && After(s, run).conns[fd].parser == r.session && After(s, run).conns[fd].sent == s.conns[fd].sent
  {
    hide Run;
    var t := Next(s, Receive(fd, chunk));
    var puts := Repeat(PutNext, |t.io.pending| + 1);
    run := [Receive(fd, chunk)] + puts;
    assert run[1..] == puts;
    PutsOfOneCallback(t);
    FirstStep(s, Receive(fd, chunk), puts);
    hide Admissible, After;
    AllRepeated(PutNext, |t.io.pending| + 1);
  }

  lemma {:induction false} AllRepeated(a: Action, n: nat)
    ensures forall b <- Repeat(a, n) :: b == a
  {
    if n > 0 {
      AllRepeated(a, n - 1);
    }
  }

  /** What is left in the I/O thread's buffer after one callback. */
  function Chunked(waiting: nat): nat {
    if waiting < NOTIFY_CHUNK then 0 else waiting - NOTIFY_CHUNK
  }

  /** The steps of a notify event, uninterrupted. */
  lemma WakeRun(s: State, i: nat, k: nat) returns (run: seq<Action>)
    requires Shape(s) && Possible(s, Wake(i, k))
    ensures Does(Woken(i, k), run) && Admissible(s, run)
    ensures var t := After(s, run);
            && t == s.(pipes := s.pipes[i := s.pipes[i] - k], notices := s.notices[i := Chunked(s.notices[i] + k)],
                       outQ := [], conns := t.conns)
            && t.conns.Keys == s.conns.Keys
            && forall f <- s.conns ::
                 && t.conns[f].sent == s.conns[f].sent + Concat(Select(s.outQ, f))
                 && t.conns[f].parser == s.conns[f].parser
  {
    var w := Next(s, Wake(i, k));
    var gets := Repeat(TryGet, |w.outQ| + 1);
    run := [Wake(i, k)] + gets;
    assert run[1..] == gets;
    AllRepeated(TryGet, |w.outQ| + 1);
    TryGetsOfOneCallback(w);
    FirstStep(s, Wake(i, k), gets);
    hide Admissible, After, Concat, Select, Repeat;
    assert After(s, run) == w.(outQ := [], io := Dispatching, conns := After(s, run).conns);
  }

  /** The steps of one round of a worker, uninterrupted. */
  lemma WorkerRun(s: State, i: nat)
    requires Shape(s) && Possible(s, Get(i)) && s.pipes[i] < PIPE_CAPACITY
    ensures var run, e := [Get(i), Publish(i), Notify(i)], s.inQ[i][0];
            && Admissible(s, run)
            && After(s, run) == s.(inQ := s.inQ[i := s.inQ[i][1..]], pipes := s.pipes[i := s.pipes[i] + 1],
                                   outQ := s.outQ + [Element(e.fd, Frame(e.data))])
  {
    hide Frame;
    var s1 := Next(s, Get(i));
    var s2 := Next(s1, Publish(i));
    var s3 := Next(s2, Notify(i));
    assert s3.workers == s.workers;
    assert Admissible(s3, []) && After(s3, []) == s3;
    hide Admissible, After, Next;
    FirstStep(s2, Notify(i), []);
    FirstStep(s1, Publish(i), [Notify(i)] + []);
    FirstStep(s, Get(i), [Publish(i)] + ([Notify(i)] + []));
    assert [Get(i)] + ([Publish(i)] + ([Notify(i)] + [])) == [Get(i), Publish(i), Notify(i)];
  }

  /** The reference server's two global maps. */
  class SharedMaps {
    var recvHeader: map<nat, int>
    var sessionInfo: map<nat, nat>
    var exited: bool

    function View(fd: nat, input: Bytes): Session
      reads this
    {
      Session(Lookup(recvHeader, fd, 0) != 0, Lookup(sessionInfo, fd, 0), input)
    }

    ghost predicate SameElsewhere(fd: nat, header: map<nat, int>, info: map<nat, nat>)
      reads this
    {
      recvHeader - {fd} == header - {fd} && sessionInfo - {fd} == info - {fd}
    }

    method SetHeader(fd: nat, flag: int)
      modifies this`recvHeader
      ensures recvHeader == old(recvHeader)[fd := flag]
      ensures SameElsewhere(fd, old(recvHeader), sessionInfo)
    {
      recvHeader := recvHeader[fd := flag];
    }

    method SetInfo(fd: nat, size: nat)
      modifies this`sessionInfo
      ensures sessionInfo == old(sessionInfo)[fd := size]
      ensures SameElsewhere(fd, recvHeader, old(sessionInfo))
    {
      sessionInfo := sessionInfo[fd := size];
    }

    /** The header branch of the loop; a larger header than allowed ends the process. */
    method TakeHeader(fd: nat, input: Buffer) returns (stop: bool)
      requires |input.data| >= 4 && !exited && View(fd, input.data).recvingHeader
      modifies this, input
      ensures Run(MAX_REFERENCE_BODY, old(View(fd, input.data))) ==
              if exited then Outcome(View(fd, input.data), [], true) else Run(MAX_REFERENCE_BODY, View(fd, input.data))
      ensures stop ==> exited || Stalled(View(fd, input.data))
      ensures exited ==> stop
      ensures |input.data| < |old(input.data)|
      ensures SameElsewhere(fd, old(recvHeader), old(sessionInfo))
    {
      RunHeader(MAX_REFERENCE_BODY, View(fd, input.data));
      var data := input.Remove(4);
      assert old(input.data) == data + input.data;
      SetHeader(fd, 0);
      var size := Unsigned32(data);
      if size > MAX_REFERENCE_BODY {
        exited := true;
        return true;
      }
      SetInfo(fd, size);
      stop := |input.data| < size;
    }

    /** The body branch of the loop: the body is answered with its frame. */
    method TakeBody(fd: nat, input: Buffer, output: Buffer, ghost sent: Bytes, ghost echoed: seq<Bytes>)
      returns (stop: bool, ghost body: Bytes)
      requires input != output && !Stalled(View(fd, input.data)) && !View(fd, input.data).recvingHeader
      requires output.data == sent + Frames(echoed)
      modifies this, input, output
      ensures Run(MAX_REFERENCE_BODY, old(View(fd, input.data))) ==
              Prepend([body], Run(MAX_REFERENCE_BODY, View(fd, input.data)))
      ensures stop ==> Stalled(View(fd, input.data))
      ensures output.data == sent + Frames(echoed + [body]) && exited == old(exited)
      ensures |input.data| <= |old(input.data)| && View(fd, input.data).recvingHeader
      ensures SameElsewhere(fd, old(recvHeader), old(sessionInfo))
    {
      hide Run, Prepend, BigEndian32, Frame, Frames;
      ghost var now := View(fd, input.data);
      RunBody(MAX_REFERENCE_BODY, now, []);
      if fd !in sessionInfo {
        SetInfo(fd, 0);
      }
      var size := sessionInfo[fd];
      var data := input.Remove(size);
      body := data;
      assert now.input[..size] == data && now.input[size..] == input.data;
      output.Add(Frame(data));
      FramesSnoc(echoed, data);
      SetHeader(fd, 1);
      stop := |input.data| < 4;
    }

    /** One round of the read loop: takes a header or a body, and tells whether the loop stops. */
    method Round(fd: nat, input: Buffer, output: Buffer, ghost sent: Bytes, ghost echoed: seq<Bytes>)
      returns (stop: bool, ghost taken: seq<Bytes>)
      requires input != output && input.data != [] && !exited && output.data == sent + Frames(echoed)
      modifies this, input, output
      ensures Run(MAX_REFERENCE_BODY, old(View(fd, input.data))) ==
              if stop then Outcome(View(fd, input.data), taken, exited)
              else Prepend(taken, Run(MAX_REFERENCE_BODY, View(fd, input.data)))
      ensures exited ==> stop
      ensures output.data == sent + Frames(echoed + taken)
      ensures |input.data| < |old(input.data)| || stop ||
              (|input.data| == |old(input.data)|
               && View(fd, input.data).recvingHeader && !old(View(fd, input.data)).recvingHeader)
      ensures SameElsewhere(fd, old(recvHeader), old(sessionInfo))
    {
      taken := [];
      assert echoed + [] == echoed;
      if Lookup(recvHeader, fd, 0) != 0 {
        if |input.data| >= 4 {
          stop := TakeHeader(fd, input);
        } else {
          stop := true;
        }
      } else {
        if |input.data| >= Lookup(sessionInfo, fd, 0) {
          ghost var body;
          stop, body := TakeBody(fd, input, output, sent, echoed);
          taken := [body];
        } else {
          stop := true;
        }
      }
    }

    method ReadLoop(fd: nat, input: Buffer, output: Buffer) returns (ghost echoed: seq<Bytes>)
      requires input != output && !exited
      modifies this, input, output
      ensures Run(MAX_REFERENCE_BODY, old(View(fd, input.data))) == Outcome(View(fd, input.data), echoed, exited)
      ensures output.data == old(output.data) + Frames(echoed)
      ensures SameElsewhere(fd, old(recvHeader), old(sessionInfo))
    {
      ghost var start := View(fd, input.data);
      echoed := [];
      var stop := false;
      while !stop && |input.data| > 0
        invariant exited ==> stop
        invariant Run(MAX_REFERENCE_BODY, start) == if stop then Outcome(View(fd, input.data), echoed, exited)
                                                    else Prepend(echoed, Run(MAX_REFERENCE_BODY, View(fd, input.data)))
        invariant output.data == old(output.data) + Frames(echoed)
        invariant SameElsewhere(fd, old(recvHeader), old(sessionInfo))
        decreases !stop, |input.data|, if View(fd, input.data).recvingHeader then 0 else 1
      {
        ghost var taken;
        stop, taken := Round(fd, input, output, old(output.data), echoed);
        PrependPrepend(echoed, taken, Run(MAX_REFERENCE_BODY, View(fd, input.data)));
        echoed := echoed + taken;
      }
      assert echoed + [] == echoed;
    }

    /** The reference server's read callback: one run of the parser on the entries of this
        descriptor, answered at once; no other descriptor's entries change. */
    method ReadCallback(fd: nat, input: Buffer, output: Buffer)
      requires input != output && !exited
      modifies this, input, output
      ensures var r := Run(MAX_REFERENCE_BODY, old(View(fd, input.data)));
              && exited == r.refused
              && output.data == old(output.data) + Frames(r.bodies)
              && View(fd, input.data) == r.session
      ensures SameElsewhere(fd, old(recvHeader), old(sessionInfo))
    {
      ghost var start := View(fd, input.data);
      if fd !in recvHeader {
        SetHeader(fd, 0);
      }
      assert View(fd, input.data) == start;
      ghost var _ := ReadLoop(fd, input, output);
    }

    // ---- the object is the state of the reference server's model ----

    /** While the process lives, the maps read the same as the model's on every descriptor. */
    ghost predicate Holds(r: Reference)
      reads this
    {
      exited == r.exited &&
      (!exited ==> forall f: nat :: SameEntries(r, f))
    }

    predicate SameEntries(r: Reference, f: nat)
      reads this
    {
      && (Lookup(recvHeader, f, 0) != 0 <==> Lookup(r.recvHeader, f, 0) != 0)
      && Lookup(sessionInfo, f, 0) == Lookup(r.sessionInfo, f, 0)
    }

    lemma HoldsElsewhere(fd: nat, header: map<nat, int>, info: map<nat, nat>, f: nat)
      requires SameElsewhere(fd, header, info) && f != fd
      ensures Lookup(recvHeader, f, 0) == Lookup(header, f, 0) && Lookup(sessionInfo, f, 0) == Lookup(info, f, 0)
    {
      assert f in recvHeader <==> f in recvHeader - {fd};
      assert f in header <==> f in header - {fd};
      assert f in sessionInfo <==> f in sessionInfo - {fd};
      assert f in info <==> f in info - {fd};
    }

    /** The accept callback, for what `accept` returned, resets one of the two maps only. */
    method AcceptCallback(fd: int, ghost r: Reference)
      requires Holds(r) && !exited
      modifies this`recvHeader
      ensures recvHeader == if 0 <= fd <= 1024 then old(recvHeader)[fd := 1] else old(recvHeader)
      ensures Holds(if 0 <= fd <= 1024 then React(r, Accept(fd), false) else r)
    {
      if fd < 0 {
        return;
      }
      if fd <= FD_SETSIZE {
        assert forall f: nat :: SameEntries(r, f);
        label before: recvHeader := recvHeader[fd := 1];
        forall f: nat ensures SameEntries(React(r, Accept(fd), false), f) {
          assert old@before(SameEntries(r, f));
        }
      }
    }

    /** The error callback, for two of the event's flags and whether the socket's error is a reset by
        the peer, which is looked at only if the first flag is clear and the second set.  It erases both
        entries of the descriptor then, and nothing in any other case. */
    method ErrorCallback(fd: nat, eof: bool, failed: bool, connReset: bool, ghost r: Reference)
      requires Holds(r) && !exited
      modifies this`recvHeader, this`sessionInfo
      ensures recvHeader == if !eof && failed && connReset then old(recvHeader) - {fd} else old(recvHeader)
      ensures sessionInfo == if !eof && failed && connReset then old(sessionInfo) - {fd} else old(sessionInfo)
      ensures Holds(React(r, Close(fd), !eof && failed && connReset))
    {
      label before: if eof {
      } else if failed {
        if connReset {
          recvHeader := recvHeader - {fd};
          sessionInfo := sessionInfo - {fd};
        }
      }
      ghost var r' := React(r, Close(fd), !eof && failed && connReset);
      forall f: nat ensures SameEntries(r', f) {
        assert old@before(SameEntries(r, f));
      }
    }

    /** A read event: the bytes are appended to the connection's buffer and the callback runs. */
    method ReadEvent(fd: nat, chunk: Bytes, input: Buffer, output: Buffer, ghost r: Reference)
      requires input != output && Holds(r) && !exited
      requires input.data == Lookup(r.input, fd, []) && output.data == Lookup(r.output, fd, [])
      modifies this, input, output
      ensures var r' := React(r, Receive(fd, chunk), false);
              && Holds(r')
              && (!exited ==> input.data == Lookup(r'.input, fd, []) && output.data == Lookup(r'.output, fd, []))
    {
      hide Run, Frames, SameElsewhere;
      ghost var header, info := recvHeader, sessionInfo;
      input.Add(chunk);
      assert View(fd, input.data) == Arrive(ReferenceServer.View(r, fd), chunk) by {
        assert SameEntries(r, fd);
      }
      label before: ReadCallback(fd, input, output);
      ghost var r' := React(r, Receive(fd, chunk), false);
      forall f: nat | !exited ensures SameEntries(r', f) {
        assert old@before(SameEntries(r, f));
        if f != fd {
          HoldsElsewhere(fd, header, info, f);
        }
      }
    }
  }
}
