/**
 The coroutine server as a transition system: connection handlers that call the services, the three
 connection pools that the services hold while they work, and the two caches they write.

 A handler is one coroutine.  Between two of its steps any others may run: every pool access, every
 backend call and every release is one step.
 */
module CoroutineServer {
  import opened Options

  datatype Pool = Db | Cache0 | Cache1

  datatype Service = Login | Uplocation | Logout

  /** The pools a service takes a connection from, in order; it returns them in reverse. */
  function Needs(v: Service): (ps: seq<Pool>)
    ensures |ps| >= 2
  {
    match v
    case Login => [Db, Cache0]
    case Uplocation => [Db, Cache0, Cache1]
    case Logout => [Cache0, Cache1]
  }

  /** `held` lists the pooled connections taken so far, in the order of `Needs`. */
  datatype Call =
    | Idle
    | Acquiring(service: Service, held: seq<int>)
    | Working(service: Service, held: seq<int>, step: nat)
    | Releasing(service: Service, held: seq<int>)

  /** One handler: the uid its client acts for, `context['uid']`, whether the session key is set,
      its service call, and whether the receive loop has been left by a break. */
  datatype Handler = Handler(
    uid: int, context: Option<int>, keyed: bool, call: Call, leaving: bool, closed: bool)

  /** A backend call succeeds, reports failure, or raises, possibly after it took effect. */
  datatype Result = Ok | Fails | Raises(applied: bool)

  datatype Action =
    | Connect(uid: int)
    | SetKey(i: nat)
    | Request(i: nat, service: Service)
    | Leave(i: nat)
    | Step(i: nat, result: Result)

  /** `cache0` and `cache1` are the uids that have a key there; `tainted` those for which a backend call
      raised in a way that left client and caches in disagreement. */
  datatype State = State(
    handlers: seq<Handler>,
    dbFree: seq<int>, cache0Free: seq<int>, cache1Free: seq<int>,
    cache0: set<int>, cache1: set<int>, tainted: set<int>)

  function Free(s: State, p: Pool): seq<int> {
    match p case Db => s.dbFree case Cache0 => s.cache0Free case Cache1 => s.cache1Free
  }

  function WithFree(s: State, p: Pool, free: seq<int>): State {
    match p
    case Db => s.(dbFree := free)
    case Cache0 => s.(cache0Free := free)
    case Cache1 => s.(cache1Free := free)
  }

  function Init(db: seq<int>, cache0: seq<int>, cache1: seq<int>): State {
    State([], db, cache0, cache1, {}, {}, {})
  }

  predicate WellFormed(h: Handler) {
    && (h.context == None || h.context == Some(h.uid))
    && (h.leaving && !h.closed ==> !h.call.Idle? && h.call.service == Logout)
    && (h.closed ==> h.call.Idle?)
    && match h.call
       case Idle => true
       case Acquiring(v, held) => |held| < |Needs(v)|
       case Working(v, held, k) => |held| == |Needs(v)| && k < (if v == Logout then 2 else 3)
       case Releasing(v, held) => 0 < |held| <= |Needs(v)|
  }

  /** The pool that an acquiring handler waits for. */
  function Wanted(h: Handler): Pool
    requires WellFormed(h) && h.call.Acquiring?
  {
    Needs(h.call.service)[|h.call.held|]
  }

  predicate Shape(s: State) {
    forall i :: 0 <= i < |s.handlers| ==> WellFormed(s.handlers[i])
  }

  predicate Open(s: State, i: nat) {
    i < |s.handlers| && !s.handlers[i].closed
  }

  predicate Possible(s: State, a: Action)
    requires Shape(s)
  {
    match a
    case Connect(uid) => forall i :: 0 <= i < |s.handlers| && s.handlers[i].uid == uid ==> s.handlers[i].closed
    case SetKey(i) => Open(s, i) && s.handlers[i].call.Idle? && !s.handlers[i].keyed
    case Request(i, _) => Open(s, i) && s.handlers[i].call.Idle? && s.handlers[i].keyed
    case Leave(i) => Open(s, i) && s.handlers[i].call.Idle?
    case Step(i, _) =>
      && Open(s, i) && !s.handlers[i].call.Idle?
      && (s.handlers[i].call.Acquiring? ==> Free(s, Wanted(s.handlers[i])) != [])
  }

  function Next(s: State, a: Action): State
    requires Shape(s) && Possible(s, a)
  {
    match a
    case Connect(uid) => s.(handlers := s.handlers + [Handler(uid, None, false, Idle, false, false)])
    case SetKey(i) => s.(handlers := s.handlers[i := s.handlers[i].(keyed := true)])
    case Request(i, v) => s.(handlers := s.handlers[i := s.handlers[i].(call := Acquiring(v, []))])
    case Leave(i) => s.(handlers := s.handlers[i := s.handlers[i].(call := Acquiring(Logout, []), leaving := true)])
    case Step(i, result) =>
      match s.handlers[i].call
      case Acquiring(_, _) => Acquire(s, i)
      case Working(_, _, _) => Work(s, i, result)
      case Releasing(_, _) => Release(s, i)
  }

  function SetCall(s: State, i: nat, call: Call): State
    requires i < |s.handlers|
  {
    s.(handlers := s.handlers[i := s.handlers[i].(call := call)])
  }

  /** `Get` of the next pool: takes the connection that has been free longest. */
  function Acquire(s: State, i: nat): State
    requires Shape(s) && Possible(s, Step(i, Ok)) && s.handlers[i].call.Acquiring?
  {
    var c := s.handlers[i].call;
    var p := Wanted(s.handlers[i]);
    var held := c.held + [Free(s, p)[0]];
    var t := WithFree(s, p, Free(s, p)[1..]);
    SetCall(t, i, if |held| == |Needs(c.service)| then Working(c.service, held, 0) else Acquiring(c.service, held))
  }

  /** `Release` of the connection taken last; the call is over when none is left. */
  function Release(s: State, i: nat): State
    requires Shape(s) && Possible(s, Step(i, Ok)) && s.handlers[i].call.Releasing?
  {
    var c := s.handlers[i].call;
    var k := |c.held| - 1;
    var p := Needs(c.service)[k];
    var t := WithFree(s, p, Free(s, p) + [c.held[k]]);
    if k > 0 then SetCall(t, i, Releasing(c.service, c.held[..k]))
    else t.(handlers := t.handlers[i := t.handlers[i].(call := Idle, closed := t.handlers[i].leaving)])
  }

  /** One backend call of a service body, or its end.  Every exception is caught, and the finally
      block releases. */
  function Work(s: State, i: nat, result: Result): State
    requires Shape(s) && Possible(s, Step(i, result)) && s.handlers[i].call.Working?
  {
    var h := s.handlers[i];
    var c := h.call;
    var k := h.uid;
    var on := SetCall(s, i, c.(step := c.step + 1));
    var end := SetCall(s, i, Releasing(c.service, c.held));
    var applied := result.Ok? || (result.Raises? && result.applied);
    match c.service
    case Login =>
      if c.step == 0 then (if result.Ok? then on else end)
      else if c.step == 1 then
        (if result.Ok? then on.(cache0 := s.cache0 + {k})
         else if applied then end.(cache0 := s.cache0 + {k}, tainted := Taint(s, k, h.context != Some(k)))
         else end)
      else end.(handlers := s.handlers[i := h.(context := Some(k), call := Releasing(c.service, c.held))])
    case Uplocation =>
      if c.step == 0 then (if result.Ok? && k in s.cache0 then on else end)
      else if c.step == 1 then (if result.Ok? then on else end)
      else if applied then end.(cache1 := s.cache1 + {k}) else end
    case Logout =>
      if h.context == None || k == 0 then end
      else if c.step == 0 then
        (if !result.Raises? then on.(cache0 := s.cache0 - {k})
         else if applied then end.(cache0 := s.cache0 - {k}, tainted := Taint(s, k, k in s.cache1))
         else end.(tainted := Taint(s, k, h.leaving && (k in s.cache0 || k in s.cache1))))
      else
        (if applied || result.Fails? then end.(cache1 := s.cache1 - {k})
         else end.(tainted := Taint(s, k, k in s.cache1)))
  }

  function Taint(s: State, k: int, disagree: bool): set<int> {
    if disagree then s.tainted + {k} else s.tainted
  }

  predicate OneHandlerStepped(s: State, t: State, i: nat)
    requires i < |s.handlers|
  {
    && |t.handlers| == |s.handlers|
    && WellFormed(t.handlers[i])
    && t.handlers == s.handlers[i := t.handlers[i]]
    && t.handlers[i].uid == s.handlers[i].uid
  }

  lemma AcquireOneHandler(s: State, i: nat)
    requires Shape(s) && Possible(s, Step(i, Ok)) && s.handlers[i].call.Acquiring?
    ensures OneHandlerStepped(s, Acquire(s, i), i)
  {
    assert WellFormed(s.handlers[i]);
  }

  lemma LoginOneHandler(s: State, i: nat, result: Result)
    requires Shape(s) && Possible(s, Step(i, result)) && s.handlers[i].call.Working?
    requires s.handlers[i].call.service == Login
    ensures OneHandlerStepped(s, Work(s, i, result), i)
  {
    assert WellFormed(s.handlers[i]);
  }

  lemma UplocationOneHandler(s: State, i: nat, result: Result)
    requires Shape(s) && Possible(s, Step(i, result)) && s.handlers[i].call.Working?
    requires s.handlers[i].call.service == Uplocation
    ensures OneHandlerStepped(s, Work(s, i, result), i)
  {
    assert WellFormed(s.handlers[i]);
  }

  lemma LogoutOneHandler(s: State, i: nat, result: Result)
    requires Shape(s) && Possible(s, Step(i, result)) && s.handlers[i].call.Working?
    requires s.handlers[i].call.service == Logout
    ensures OneHandlerStepped(s, Work(s, i, result), i)
  {
    assert WellFormed(s.handlers[i]);
  }

  lemma WorkOneHandler(s: State, i: nat, result: Result)
    requires Shape(s) && Possible(s, Step(i, result)) && s.handlers[i].call.Working?
    ensures OneHandlerStepped(s, Work(s, i, result), i)
  {
    hide Work, OneHandlerStepped, WellFormed;
    match s.handlers[i].call.service
    case Login => LoginOneHandler(s, i, result);
    case Uplocation => UplocationOneHandler(s, i, result);
    case Logout => LogoutOneHandler(s, i, result);
  }

  lemma ReleaseOneHandler(s: State, i: nat)
    requires Shape(s) && Possible(s, Step(i, Ok)) && s.handlers[i].call.Releasing?
    ensures OneHandlerStepped(s, Release(s, i), i)
  {
    assert WellFormed(s.handlers[i]);
  }

  /** A step changes its own handler only. */
  lemma StepsOneHandler(s: State, i: nat, result: Result)
    requires Shape(s) && Possible(s, Step(i, result))
    ensures OneHandlerStepped(s, Next(s, Step(i, result)), i)
  {
    hide Acquire, Work, Release, WellFormed;
    match s.handlers[i].call
    case Acquiring(_, _) => AcquireOneHandler(s, i);
    case Working(_, _, _) => WorkOneHandler(s, i, result);
    case Releasing(_, _) => ReleaseOneHandler(s, i);
  }

  lemma KeepsShape(s: State, a: Action)
    requires Shape(s) && Possible(s, a)
    ensures Shape(Next(s, a))
  {
    if a.Step? {
      StepsOneHandler(s, a.i, a.result);
    }
  }

  // ---- runs ----

  predicate Admissible(s: State, run: seq<Action>)
    requires Shape(s)
    decreases |run|
  {
    run == [] || (Possible(s, run[0]) && (KeepsShape(s, run[0]); Admissible(Next(s, run[0]), run[1..])))
  }

  function After(s: State, run: seq<Action>): (t: State)
    requires Shape(s) && Admissible(s, run)
    ensures Shape(t)
    decreases |run|
  {
    if run == [] then s else (KeepsShape(s, run[0]); After(Next(s, run[0]), run[1..]))
  }

  lemma {:induction false} Extend(first: State, run: seq<Action>, s: State, a: Action)
    returns (longer: seq<Action>, t: State)
    requires Shape(first) && Admissible(first, run) && After(first, run) == s && Possible(s, a)
    ensures t == Next(s, a) && longer == run + [a] && Admissible(first, longer) && After(first, longer) == t
    decreases |run|
  {
    hide Next, Possible, Shape;
    longer, t := run + [a], Next(s, a);
    KeepsShape(s, a);
    if run == [] {
      assert longer[1..] == [];
    } else {
      KeepsShape(first, run[0]);
      var tail, _ := Extend(Next(first, run[0]), run[1..], s, a);
      assert longer[1..] == tail && longer[0] == run[0];
    }
  }

  lemma Nothing(s: State)
    requires Shape(s)
    ensures Admissible(s, []) && After(s, []) == s
  {
  }
}
