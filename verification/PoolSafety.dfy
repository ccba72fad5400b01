/** The connection pools of the coroutine server: nothing is lost or shared, and no set of handlers
    can block for ever. */
module PoolSafety {
  import opened Options
  import opened CoroutineServer

  // ---- conservation ----

  /** How often a handler holds connection `x` of pool `p`. */
  function Holds(h: Handler, p: Pool, x: int): nat {
    match h.call
    case Idle => 0
    case Acquiring(v, held) => Among(Needs(v), held, p, x)
    case Working(v, held, _) => Among(Needs(v), held, p, x)
    case Releasing(v, held) => Among(Needs(v), held, p, x)
  }

  /** The connections `held` were taken from the pools `ps` in that order. */
  function Among(ps: seq<Pool>, held: seq<int>, p: Pool, x: int): nat {
    if held == [] || |held| > |ps| then 0 else
    var k := |held| - 1;
    Among(ps, held[..k], p, x) + if ps[k] == p && held[k] == x then 1 else 0
  }

  function AllHeld(hs: seq<Handler>, p: Pool, x: int): nat {
    if hs == [] then 0 else AllHeld(hs[..|hs| - 1], p, x) + Holds(hs[|hs| - 1], p, x)
  }

  lemma {:induction false} HeldChange(hs: seq<Handler>, i: nat, h: Handler, p: Pool, x: int)
    requires i < |hs|
    ensures AllHeld(hs[i := h], p, x) + Holds(hs[i], p, x) == AllHeld(hs, p, x) + Holds(h, p, x)
  {
    hide Holds;
    var k := |hs| - 1;
    if i == k {
      assert hs[i := h][..k] == hs[..k];
    } else {
      assert hs[i := h][..k] == hs[..k][i := h];
      HeldChange(hs[..k], i, h, p, x);
    }
  }

  function Count(free: seq<int>, x: int): nat {
    if free == [] then 0 else Count(free[..|free| - 1], x) + if free[|free| - 1] == x then 1 else 0
  }

  lemma {:induction false} CountIsMultiplicity(free: seq<int>, x: int)
    ensures Count(free, x) == multiset(free)[x]
  {
    if free != [] {
      var k := |free| - 1;
      CountIsMultiplicity(free[..k], x);
      assert free == free[..k] + [free[k]];
    }
  }

  /** How often connection `x` exists: free in its pool or held by a handler. */
  function Copies(s: State, p: Pool, x: int): nat {
    Count(Free(s, p), x) + AllHeld(s.handlers, p, x)
  }

  lemma AmongOneMore(ps: seq<Pool>, held: seq<int>, y: int, p: Pool, x: int)
    requires |held| < |ps|
    ensures Among(ps, held + [y], p, x) == Among(ps, held, p, x) + if ps[|held|] == p && y == x then 1 else 0
  {
    assert (held + [y])[..|held|] == held;
  }

  lemma OneMoreFree(free: seq<int>, y: int, x: int)
    ensures Count(free + [y], x) == Count(free, x) + if y == x then 1 else 0
  {
    assert (free + [y])[..|free|] == free;
  }

  lemma {:induction false} OneLessFree(free: seq<int>, x: int)
    requires free != []
    ensures Count(free, x) == Count(free[1..], x) + if free[0] == x then 1 else 0
  {
    var k := |free| - 1;
    if k > 0 {
      OneLessFree(free[..k], x);
      assert free[..k][1..] == free[1..][..k - 1];
    }
  }

  /** What a step does to handler `i` and to pool `p`, as far as connections go. */
  lemma AcquireMoves(s: State, i: nat, p: Pool, x: int)
    requires Shape(s) && Possible(s, Step(i, Ok)) && s.handlers[i].call.Acquiring?
    ensures WellFormed(s.handlers[i])
    ensures var t, w, c := Acquire(s, i), Wanted(s.handlers[i]), s.handlers[i].call;
            && t.handlers == s.handlers[i := t.handlers[i]]
            && Holds(t.handlers[i], p, x) == Among(Needs(c.service), c.held + [Free(s, w)[0]], p, x)
            && Holds(s.handlers[i], p, x) == Among(Needs(c.service), c.held, p, x)
            && Free(t, p) == if p == w then Free(s, p)[1..] else Free(s, p)
  {
    hide Among;
    assert WellFormed(s.handlers[i]);
  }

  lemma AcquireConserves(s: State, i: nat, p: Pool, x: int)
    requires Shape(s) && Possible(s, Step(i, Ok)) && s.handlers[i].call.Acquiring?
    ensures Copies(Acquire(s, i), p, x) == Copies(s, p, x)
  {
    AcquireMoves(s, i, p, x);
    var t, w, c := Acquire(s, i), Wanted(s.handlers[i]), s.handlers[i].call;
    hide AllHeld, Among, Acquire, Needs, Holds, Wanted, Shape, WellFormed, Possible, Free, Count;
    HeldChange(s.handlers, i, t.handlers[i], p, x);
    AmongOneMore(Needs(c.service), c.held, Free(s, w)[0], p, x);
    if p == w {
      OneLessFree(Free(s, p), x);
    }
  }

  lemma ReleaseMoves(s: State, i: nat, p: Pool, x: int)
    requires Shape(s) && Possible(s, Step(i, Ok)) && s.handlers[i].call.Releasing?
    ensures WellFormed(s.handlers[i])
    ensures var t, c := Release(s, i), s.handlers[i].call;
            var k := |c.held| - 1;
            && t.handlers == s.handlers[i := t.handlers[i]]
            && Holds(t.handlers[i], p, x) == Among(Needs(c.service), c.held[..k], p, x)
            && Holds(s.handlers[i], p, x) == Among(Needs(c.service), c.held, p, x)
            && Free(t, p) == if p == Needs(c.service)[k] then Free(s, p) + [c.held[k]] else Free(s, p)
  {
    assert WellFormed(s.handlers[i]);
  }

  lemma AmongLast(ps: seq<Pool>, held: seq<int>, p: Pool, x: int)
    requires 0 < |held| <= |ps|
    ensures var k := |held| - 1;
            Among(ps, held, p, x) == Among(ps, held[..k], p, x) + if ps[k] == p && held[k] == x then 1 else 0
  {
  }

  lemma ReleaseConserves(s: State, i: nat, p: Pool, x: int)
    requires Shape(s) && Possible(s, Step(i, Ok)) && s.handlers[i].call.Releasing?
    ensures Copies(Release(s, i), p, x) == Copies(s, p, x)
  {
    ReleaseMoves(s, i, p, x);
    assert 0 < |s.handlers[i].call.held| <= |Needs(s.handlers[i].call.service)|;
    var t, c := Release(s, i), s.handlers[i].call;
    hide AllHeld, Among, Release, Needs, Holds, Shape, WellFormed, Possible, Free, Count;
    HeldChange(s.handlers, i, t.handlers[i], p, x);
    AmongLast(Needs(c.service), c.held, p, x);
    OneMoreFree(Free(s, p), c.held[|c.held| - 1], x);
  }

  lemma WorkConserves(s: State, i: nat, result: Result, p: Pool, x: int)
    requires Shape(s) && Possible(s, Step(i, result)) && s.handlers[i].call.Working?
    ensures Copies(Work(s, i, result), p, x) == Copies(s, p, x)
  {
    hide AllHeld, Among, Count;
    var t := Work(s, i, result);
    WorkKeepsHeld(s, i, result);
    assert t.handlers == s.handlers[i := t.handlers[i]];
    HeldChange(s.handlers, i, t.handlers[i], p, x);
    assert Free(t, p) == Free(s, p);
  }

  lemma WorkKeepsHeld(s: State, i: nat, result: Result)
    requires Shape(s) && Possible(s, Step(i, result)) && s.handlers[i].call.Working?
    ensures var c, c' := s.handlers[i].call, Work(s, i, result).handlers[i].call;
            !c'.Idle? && !c'.Acquiring? && c'.service == c.service && c'.held == c.held
  {
  }

  lemma KeepsCopies(s: State, a: Action, p: Pool, x: int)
    requires Shape(s) && Possible(s, a)
    ensures Copies(Next(s, a), p, x) == Copies(s, p, x)
  {
    hide Acquire, Release, Work, Holds, Among;
    if a.Connect? {
      assert Next(s, a).handlers[..|s.handlers|] == s.handlers;
      assert Holds(Handler(a.uid, None, false, Idle, false, false), p, x) == 0 by { IdleHoldsNothing(a.uid, p, x); }
    } else if a.Step? {
      match s.handlers[a.i].call
      case Acquiring(_, _) => AcquireConserves(s, a.i, p, x);
      case Working(_, _, _) => WorkConserves(s, a.i, a.result, p, x);
      case Releasing(_, _) => ReleaseConserves(s, a.i, p, x);
    } else {
      HeldChange(s.handlers, a.i, Next(s, a).handlers[a.i], p, x);
      IdleStep(s, a, p, x);
    }
  }

  lemma IdleHoldsNothing(uid: int, p: Pool, x: int)
    ensures Holds(Handler(uid, None, false, Idle, false, false), p, x) == 0
  {
  }

  /** Setting the key, a request and leaving the loop move no connection. */
  lemma IdleStep(s: State, a: Action, p: Pool, x: int)
    requires Shape(s) && Possible(s, a) && !a.Connect? && !a.Step?
    ensures Holds(s.handlers[a.i], p, x) == Holds(Next(s, a).handlers[a.i], p, x) == 0
  {
  }

  lemma {:induction false} RunKeepsCopies(s: State, run: seq<Action>, p: Pool, x: int)
    requires Shape(s) && Admissible(s, run)
    ensures Copies(After(s, run), p, x) == Copies(s, p, x)
    decreases |run|
  {
    hide Copies, Next;
    if run != [] {
      KeepsCopies(s, run[0], p, x);
      KeepsShape(s, run[0]);
      RunKeepsCopies(Next(s, run[0]), run[1..], p, x);
    }
  }

  /** In every reachable state each connection of a pool is free or held exactly as often as it was
      put there by Init, so a connection that was put there once is never held by two handlers, nor
      held and free; and when no call is in progress all are free again, whatever backend calls
      failed or raised. */
  lemma PoolsAreConserved(db: seq<int>, c0: seq<int>, c1: seq<int>, run: seq<Action>, p: Pool, x: int)
    requires Admissible(Init(db, c0, c1), run)
    ensures var s, n := After(Init(db, c0, c1), run), multiset(Free(Init(db, c0, c1), p))[x];
            && multiset(Free(s, p))[x] + AllHeld(s.handlers, p, x) == n
            && (forall i, j :: 0 <= i < j < |s.handlers| ==>
                  multiset(Free(s, p))[x] + Holds(s.handlers[i], p, x) + Holds(s.handlers[j], p, x) <= n)
            && (AllIdle(s) ==> multiset(Free(s, p))[x] == n)
  {
    hide Holds, Next, Count;
    var s := After(Init(db, c0, c1), run);
    CountIsMultiplicity(Free(s, p), x);
    CountIsMultiplicity(Free(Init(db, c0, c1), p), x);
    RunKeepsCopies(Init(db, c0, c1), run, p, x);
    assert AllHeld([], p, x) == 0;
    forall i, j | 0 <= i < j < |s.handlers|
      ensures Holds(s.handlers[i], p, x) + Holds(s.handlers[j], p, x) <= AllHeld(s.handlers, p, x)
    {
      TwoHolders(s.handlers, i, j, p, x);
    }
    if AllIdle(s) {
      NothingHeld(s.handlers, p, x);
    }
  }

  ghost predicate AllIdle(s: State) {
    forall i :: 0 <= i < |s.handlers| ==> s.handlers[i].call.Idle?
  }

  lemma {:induction false} NothingHeld(hs: seq<Handler>, p: Pool, x: int)
    requires forall i :: 0 <= i < |hs| ==> hs[i].call.Idle?
    ensures AllHeld(hs, p, x) == 0
  {
    if hs != [] {
      NothingHeld(hs[..|hs| - 1], p, x);
    }
  }

  lemma {:induction false} OneHolder(hs: seq<Handler>, i: nat, p: Pool, x: int)
    requires i < |hs|
    ensures Holds(hs[i], p, x) <= AllHeld(hs, p, x)
  {
    hide Holds;
    if i < |hs| - 1 {
      OneHolder(hs[..|hs| - 1], i, p, x);
    }
  }

  lemma {:induction false} TwoHolders(hs: seq<Handler>, i: nat, j: nat, p: Pool, x: int)
    requires i < j < |hs|
    ensures Holds(hs[i], p, x) + Holds(hs[j], p, x) <= AllHeld(hs, p, x)
  {
    hide Holds;
    if j == |hs| - 1 {
      OneHolder(hs[..j], i, p, x);
    } else {
      TwoHolders(hs[..|hs| - 1], i, j, p, x);
    }
  }

  // ---- what each service holds ----

  /** In every reachable state, a service that works holds just one connection of each pool it needs, and
      none of the others: the login one of the database and one of cache0, the upload of a location one
      of the database and one of each cache, the logout one of each cache. */
  lemma WorksWith(db: seq<int>, c0: seq<int>, c1: seq<int>, run: seq<Action>, i: nat, p: Pool, x: int)
    requires Admissible(Init(db, c0, c1), run)
    requires i < |After(Init(db, c0, c1), run).handlers| && After(Init(db, c0, c1), run).handlers[i].call.Working?
    ensures var h := After(Init(db, c0, c1), run).handlers[i];
            var held := h.call.held;
            match h.call.service
            case Login => |held| == 2 && Holds(h, p, x) == multiset{(Db, held[0]), (Cache0, held[1])}[(p, x)]
            case Uplocation =>
              |held| == 3
              && Holds(h, p, x) == multiset{(Db, held[0]), (Cache0, held[1]), (Cache1, held[2])}[(p, x)]
            case Logout => |held| == 2 && Holds(h, p, x) == multiset{(Cache0, held[0]), (Cache1, held[1])}[(p, x)]
  {
    var h := After(Init(db, c0, c1), run).handlers[i];
    assert WellFormed(h);
    AmongAll(Needs(h.call.service), h.call.held, p, x);
  }

  lemma AmongAll(ps: seq<Pool>, held: seq<int>, p: Pool, x: int)
    requires 2 <= |ps| <= 3 && |held| == |ps|
    ensures Among(ps, held, p, x) ==
            multiset{(ps[0], held[0]), (ps[1], held[1])}[(p, x)]
            + if |ps| == 3 && (ps[2], held[2]) == (p, x) then 1 else 0
  {
    assert held[..2][..1] == held[..1] && held[..1][..0] == [];
    assert Among(ps, [], p, x) == 0;
    assert Among(ps, held[..1], p, x) == Among(ps, [], p, x) + if ps[0] == p && held[0] == x then 1 else 0;
    assert Among(ps, held[..2], p, x) == Among(ps, held[..1], p, x) + if ps[1] == p && held[1] == x then 1 else 0;
    assert |ps| == 2 ==> held[..2] == held;
    assert |ps| == 3 ==>
             Among(ps, held, p, x) == Among(ps, held[..2], p, x) + if ps[2] == p && held[2] == x then 1 else 0;
  }

  /** The pool that a handler waits for, by what it already holds. */
  lemma WaitsFor(h: Handler)
    requires WellFormed(h) && h.call.Acquiring?
    ensures match (h.call.service, |h.call.held|)
            case (Login, 0) => Wanted(h) == Db
            case (Login, 1) => Wanted(h) == Cache0
            case (Uplocation, 0) => Wanted(h) == Db
            case (Uplocation, 1) => Wanted(h) == Cache0
            case (Uplocation, 2) => Wanted(h) == Cache1
            case (Logout, 0) => Wanted(h) == Cache0
            case (Logout, 1) => Wanted(h) == Cache1
            case _ => false
  {
  }

  // ---- deadlock freedom ----

  function Rank(p: Pool): nat {
    match p case Db => 0 case Cache0 => 1 case Cache1 => 2
  }

  /** All services take their connections in the same order of pools. */
  lemma NeedsAreOrdered(v: Service, i: nat, j: nat)
    requires i < j < |Needs(v)|
    ensures Rank(Needs(v)[i]) < Rank(Needs(v)[j])
  {
  }

  predicate Blocked(s: State, i: nat)
    requires Shape(s) && i < |s.handlers|
  {
    s.handlers[i].call.Acquiring? && Free(s, Wanted(s.handlers[i])) == []
  }

  lemma {:induction false} SomeHolder(hs: seq<Handler>, p: Pool, x: int) returns (i: nat)
    requires AllHeld(hs, p, x) > 0
    ensures i < |hs| && Holds(hs[i], p, x) > 0
  {
    hide Holds;
    var k := |hs| - 1;
    if Holds(hs[k], p, x) > 0 {
      i := k;
    } else {
      i := SomeHolder(hs[..k], p, x);
    }
  }

  lemma {:induction false} TakenFrom(ps: seq<Pool>, held: seq<int>, p: Pool, x: int) returns (k: nat)
    requires Among(ps, held, p, x) > 0
    ensures k < |held| <= |ps| && ps[k] == p
  {
    k := |held| - 1;
    if ps[k] != p {
      k := TakenFrom(ps, held[..k], p, x);
    }
  }

  /** Whatever its backend call answers. */
  ghost predicate CanStep(s: State, i: nat)
    requires Shape(s)
  {
    forall result :: Possible(s, Step(i, result))
  }

  ghost predicate Stocked(s: State, p: Pool) {
    exists x :: Copies(s, p, x) > 0
  }

  /** Follows a blocked handler to one that holds what it wants; that one either can go on or waits
      for a pool that comes later in the order. */
  lemma {:induction false} FindEnabled(s: State, i: nat) returns (j: nat)
    requires Shape(s) && i < |s.handlers| && !s.handlers[i].call.Idle? && forall p :: Stocked(s, p)
    ensures CanStep(s, j)
    decreases if Blocked(s, i) then 3 - Rank(Wanted(s.handlers[i])) else 0
  {
    hide AllHeld, Among, Needs;
    assert WellFormed(s.handlers[i]);
    if Blocked(s, i) {
      var p := Wanted(s.handlers[i]);
      assert Stocked(s, p);
      var x :| Copies(s, p, x) > 0;
      var holder := SomeHolder(s.handlers, p, x);
      var h := s.handlers[holder];
      assert WellFormed(h);
      var k := TakenFrom(Needs(h.call.service), h.call.held, p, x);
      if Blocked(s, holder) {
        NeedsAreOrdered(h.call.service, k, |h.call.held|);
      }
      j := FindEnabled(s, holder);
    } else {
      j := i;
    }
  }

  /** With any number of handlers running any services, and every pool of size at least one: in every
      reachable state with an unfinished call some handler can take a step. */
  lemma NoDeadlock(db: seq<int>, c0: seq<int>, c1: seq<int>, run: seq<Action>)
    requires db != [] && c0 != [] && c1 != [] && Admissible(Init(db, c0, c1), run)
    requires !AllIdle(After(Init(db, c0, c1), run))
    ensures exists j :: CanStep(After(Init(db, c0, c1), run), j)
  {
    hide Next;
    var s := After(Init(db, c0, c1), run);
    forall p ensures Stocked(s, p) {
      var x := Free(Init(db, c0, c1), p)[0];
      RunKeepsCopies(Init(db, c0, c1), run, p, x);
      CountIsMultiplicity(Free(Init(db, c0, c1), p), x);
      assert x in multiset(Free(Init(db, c0, c1), p));
      assert Copies(s, p, x) > 0;
    }
    var i :| 0 <= i < |s.handlers| && !s.handlers[i].call.Idle?;
    var j := FindEnabled(s, i);
  }

  // ---- every call comes to its end ----

  function Remaining(c: Call): nat {
    match c
    case Idle => 0
    case Acquiring(v, held) => if |held| <= |Needs(v)| then 8 + |Needs(v)| - |held| else 0
    case Working(v, held, k) => if k <= 3 then 7 - k else 4
    case Releasing(v, held) => |held|
  }

  function AllWork(hs: seq<Handler>): nat {
    if hs == [] then 0 else AllWork(hs[..|hs| - 1]) + Remaining(hs[|hs| - 1].call)
  }

  lemma {:induction false} WorkChange(hs: seq<Handler>, i: nat, h: Handler)
    requires i < |hs|
    ensures AllWork(hs[i := h]) + Remaining(hs[i].call) == AllWork(hs) + Remaining(h.call)
  {
    var k := |hs| - 1;
    if i == k {
      assert hs[i := h][..k] == hs[..k];
    } else {
      assert hs[i := h][..k] == hs[..k][i := h];
      WorkChange(hs[..k], i, h);
    }
  }

  lemma StepsDescend(s: State, i: nat, result: Result)
    requires Shape(s) && Possible(s, Step(i, result))
    ensures AllWork(Next(s, Step(i, result)).handlers) < AllWork(s.handlers)
  {
    var t := Next(s, Step(i, result));
    StepsOneHandler(s, i, result);
    assert WellFormed(s.handlers[i]);
    assert Remaining(t.handlers[i].call) < Remaining(s.handlers[i].call);
    WorkChange(s.handlers, i, t.handlers[i]);
  }

  /** Without new requests the handlers take a bounded number of steps; by `NoDeadlock` they stop
      only when every call has returned. */
  lemma {:induction false} CallsFinish(s: State, run: seq<Action>)
    requires Shape(s) && Admissible(s, run) && forall a :: a in run ==> a.Step?
    ensures |run| + AllWork(After(s, run).handlers) <= AllWork(s.handlers)
    decreases |run|
  {
    if run != [] {
      assert run[0] in run;
      StepsDescend(s, run[0].i, run[0].result);
      KeepsShape(s, run[0]);
      CallsFinish(Next(s, run[0]), run[1..]);
    }
  }

  lemma StepAtWork(s: State, i: nat)
    requires Shape(s) && Possible(s, Step(i, Ok))
    ensures Shape(Next(s, Step(i, Ok))) && AllWork(Next(s, Step(i, Ok)).handlers) < AllWork(s.handlers)
  {
    StepsDescend(s, i, Ok);
    KeepsShape(s, Step(i, Ok));
  }

  /** From every reachable state some run of steps ends with all calls returned and all connections in
      their pools again. */
  lemma {:induction false} RunToRest(db: seq<int>, c0: seq<int>, c1: seq<int>, run: seq<Action>)
    returns (more: seq<Action>)
    requires db != [] && c0 != [] && c1 != [] && Admissible(Init(db, c0, c1), run)
    ensures Admissible(Init(db, c0, c1), run + more) && forall a :: a in more ==> a.Step?
    ensures var t := After(Init(db, c0, c1), run + more);
            AllIdle(t) && forall p :: multiset(Free(t, p)) == multiset(Free(Init(db, c0, c1), p))
    decreases AllWork(After(Init(db, c0, c1), run).handlers)
  {
    hide Next, Possible, AllWork, Admissible, After;
    var first, s := Init(db, c0, c1), After(Init(db, c0, c1), run);
    if AllIdle(s) {
      more := [];
      assert run + more == run;
      forall p ensures multiset(Free(s, p)) == multiset(Free(first, p)) {
        forall x ensures multiset(Free(s, p))[x] == multiset(Free(first, p))[x] {
          PoolsAreConserved(db, c0, c1, run, p, x);
        }
      }
    } else {
      NoDeadlock(db, c0, c1, run);
      var j :| CanStep(s, j);
      StepAtWork(s, j);
      var longer, t := Extend(first, run, s, Step(j, Ok));
      var rest := RunToRest(db, c0, c1, longer);
      more := [Step(j, Ok)] + rest;
      assert run + more == longer + rest;
    }
  }

  // ---- every service can be called ----

  lemma {:induction false} AcquiresAll(first: State, run: seq<Action>, s: State, i: nat)
    returns (longer: seq<Action>, t: State)
    requires Shape(first) && Admissible(first, run) && After(first, run) == s
    requires Open(s, i) && s.handlers[i].call.Acquiring?
    requires var c := s.handlers[i].call;
             forall k :: |c.held| <= k < |Needs(c.service)| ==> Free(s, Needs(c.service)[k]) != []
    ensures Admissible(first, longer) && After(first, longer) == t && i < |t.handlers|
    ensures t.handlers[i].uid == s.handlers[i].uid
    ensures t.handlers[i].call.Working? && t.handlers[i].call.service == s.handlers[i].call.service
    ensures t.handlers[i].call.step == 0 && run <= longer
    decreases |Needs(s.handlers[i].call.service)| - |s.handlers[i].call.held|
  {
    hide Admissible, After, Needs;
    assert WellFormed(s.handlers[i]);
    var c := s.handlers[i].call;
    longer, t := Extend(first, run, s, Step(i, Ok));
    if t.handlers[i].call.Acquiring? {
      forall k | |c.held| < k < |Needs(c.service)| ensures Free(t, Needs(c.service)[k]) != [] {
        NeedsAreOrdered(c.service, |c.held|, k);
      }
      longer, t := AcquiresAll(first, longer, t, i);
    }
  }

  lemma ClosedStays(s: State, i: nat, result: Result, j: nat)
    requires Shape(s) && Possible(s, Step(i, result)) && j < |s.handlers|
    ensures var t := Next(s, Step(i, result));
            |t.handlers| == |s.handlers| && t.handlers[j].uid == s.handlers[j].uid
            && (s.handlers[j].closed ==> t.handlers[j].closed)
  {
    StepsOneHandler(s, i, result);
  }

  predicate AllClosed(s: State, uid: int) {
    forall j :: 0 <= j < |s.handlers| && s.handlers[j].uid == uid ==> s.handlers[j].closed
  }

  lemma {:induction false} StepsKeepClosed(s: State, run: seq<Action>, uid: int)
    requires Shape(s) && Admissible(s, run) && (forall a :: a in run ==> a.Step?) && AllClosed(s, uid)
    ensures AllClosed(After(s, run), uid)
    decreases |run|
  {
    hide Next;
    if run != [] {
      var t := Next(s, run[0]);
      assert run[0] in run;
      forall j | 0 <= j < |t.handlers| && t.handlers[j].uid == uid ensures t.handlers[j].closed {
        StepsOneHandler(s, run[0].i, run[0].result);
        ClosedStays(s, run[0].i, run[0].result, j);
      }
      KeepsShape(s, run[0]);
      StepsKeepClosed(t, run[1..], uid);
    }
  }

  /** From every reachable state, whatever is in progress or failed before, a client that has no open
      connection can connect and get any service to work for it. */
  lemma EveryServiceRuns(db: seq<int>, c0: seq<int>, c1: seq<int>, run: seq<Action>, uid: int, v: Service)
    returns (more: seq<Action>, i: nat)
    requires db != [] && c0 != [] && c1 != [] && Admissible(Init(db, c0, c1), run)
    requires AllClosed(After(Init(db, c0, c1), run), uid)
    ensures Admissible(Init(db, c0, c1), run + more)
    ensures var t := After(Init(db, c0, c1), run + more);
            i < |t.handlers| && t.handlers[i].uid == uid && t.handlers[i].call.Working?
            && t.handlers[i].call.service == v && t.handlers[i].call.step == 0
  {
    hide Admissible, After, AllIdle;
    var first := Init(db, c0, c1);
    more := RunToRest(db, c0, c1, run);
    var s := After(first, run + more);
    RestIsFree(first, run, more, uid);
    i := |s.handlers|;
    var longer;
    longer, s := Extend(first, run + more, s, Connect(uid));
    longer, s := Extend(first, longer, s, SetKey(i));
    longer, s := Extend(first, longer, s, Request(i, v));
    assert run <= longer;
    forall p ensures Free(s, p) != [] {
      assert |multiset(Free(s, p))| == |multiset(Free(first, p))|;
    }
    longer, s := AcquiresAll(first, longer, s, i);
    more := longer[|run|..];
    assert run + more == longer;
  }

  lemma RestIsFree(first: State, run: seq<Action>, more: seq<Action>, uid: int)
    requires Shape(first) && Admissible(first, run) && AllClosed(After(first, run), uid)
    requires Admissible(first, run + more) && forall a :: a in more ==> a.Step?
    ensures Possible(After(first, run + more), Connect(uid))
  {
    AfterTwo(first, run, more);
    StepsKeepClosed(After(first, run), more, uid);
  }

  lemma {:induction false} AfterTwo(s: State, run: seq<Action>, more: seq<Action>)
    requires Shape(s) && Admissible(s, run + more)
    ensures Admissible(s, run) && Admissible(After(s, run), more)
    ensures After(s, run + more) == After(After(s, run), more)
    decreases |run|
  {
    hide Next, Possible;
    if run == [] {
      assert run + more == more;
    } else {
      assert (run + more)[1..] == run[1..] + more;
      KeepsShape(s, run[0]);
      AfterTwo(Next(s, run[0]), run[1..], more);
    }
  }
}
