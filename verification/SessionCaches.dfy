/** The two caches of the coroutine server: what they say about who is online. */
module SessionCaches {
  import opened Options
  import opened CoroutineServer

  /** What the caches may hold for uid `k` while its connection is in the given state. */
  predicate CachesAgree(h: Handler, online: bool, located: bool) {
    && (online ==> h.context == Some(h.uid) || (h.call.Working? && h.call.service == Login && h.call.step == 2))
    && (located ==> online || (h.call.Working? && h.call.service == Logout && h.call.step == 1))
    && (h.call.Working? ==>
          match h.call.service
          case Login => h.call.step == 2 ==> online
          case Uplocation => h.call.step > 0 ==> online
          case Logout => h.call.step == 1 ==> !online && h.context == Some(h.uid))
    && (h.call.Releasing? && h.leaving ==> !online && !located)
  }

  predicate Online(s: State, k: int) { k in s.cache0 }

  predicate Located(s: State, k: int) { k in s.cache1 }

  ghost predicate Inv(s: State) {
    && Shape(s)
    && (forall i: nat, j: nat :: i != j && Open(s, i) && Open(s, j) ==> s.handlers[i].uid != s.handlers[j].uid)
    && (forall i: nat :: Open(s, i) && Trusted(s, s.handlers[i].uid) ==>
          CachesAgree(s.handlers[i], Online(s, s.handlers[i].uid), Located(s, s.handlers[i].uid)))
    && (forall k :: Trusted(s, k) && (Online(s, k) || Located(s, k)) ==> HasHandler(s, k))
  }

  /** The uids of which the claims speak: no raising call has made client and caches disagree, which
      `TaintedExactly` makes precise.  Uid 0 counts as not logged in for the logout service. */
  predicate Trusted(s: State, k: int) {
    k != 0 && k !in s.tainted
  }

  ghost predicate HasHandler(s: State, k: int) {
    exists i: nat :: Open(s, i) && s.handlers[i].uid == k
  }

  /** A step of a handler keeps the caches in agreement with it. */
  lemma StepAgrees(s: State, i: nat, result: Result)
    requires Shape(s) && Possible(s, Step(i, result)) && Trusted(Next(s, Step(i, result)), s.handlers[i].uid)
    requires CachesAgree(s.handlers[i], Online(s, s.handlers[i].uid), Located(s, s.handlers[i].uid))
    ensures var t, k := Next(s, Step(i, result)), s.handlers[i].uid;
            && CachesAgree(t.handlers[i], Online(t, k), Located(t, k))
            && (t.handlers[i].closed ==> !Online(t, k) && !Located(t, k))
  {
    assert WellFormed(s.handlers[i]);
    match s.handlers[i].call
    case Acquiring(_, _) =>
    case Working(_, _, _) => WorkAgrees(s, i, result);
    case Releasing(_, _) =>
  }

  lemma WorkAgrees(s: State, i: nat, result: Result)
    requires Shape(s) && Possible(s, Step(i, result)) && s.handlers[i].call.Working?
    requires Trusted(Work(s, i, result), s.handlers[i].uid)
    requires CachesAgree(s.handlers[i], Online(s, s.handlers[i].uid), Located(s, s.handlers[i].uid))
    ensures var t, k := Work(s, i, result), s.handlers[i].uid;
            CachesAgree(t.handlers[i], Online(t, k), Located(t, k)) && !t.handlers[i].closed
  {
    assert WellFormed(s.handlers[i]);
  }

  /** A backend call makes client and caches disagree exactly if it raises in one of these ways: the
      login's write after it took effect, in a session that had not logged in; the first delete of a
      logout after it took effect, if there is a location, or without effect, if the connection is
      being left and there is a key; the second delete without effect, if there is a location. */
  lemma TaintedExactly(s: State, i: nat, result: Result)
    requires Shape(s) && Possible(s, Step(i, result)) && s.handlers[i].call.Working?
    requires Trusted(s, s.handlers[i].uid)
    requires CachesAgree(s.handlers[i], Online(s, s.handlers[i].uid), Located(s, s.handlers[i].uid))
    ensures var t, h, k := Work(s, i, result), s.handlers[i], s.handlers[i].uid;
            && (k in t.tainted <==> !CachesAgree(t.handlers[i], Online(t, k), Located(t, k)))
            && (k in t.tainted <==>
                  && result.Raises?
                  && match (h.call.service, h.call.step)
                     case (Login, 1) => result.applied && h.context != Some(k)
                     case (Logout, 0) =>
                       if result.applied then Located(s, k) else h.leaving && (Online(s, k) || Located(s, k))
                     case (Logout, 1) => !result.applied && Located(s, k)
                     case _ => false)
  {
    assert WellFormed(s.handlers[i]);
  }

  /** It touches no key but that of its own uid. */
  lemma StepTouchesOwnKeys(s: State, i: nat, result: Result, k: int)
    requires Shape(s) && Possible(s, Step(i, result)) && k != s.handlers[i].uid
    ensures var t := Next(s, Step(i, result));
            Online(t, k) == Online(s, k) && Located(t, k) == Located(s, k) && (k in t.tainted <==> k in s.tainted)
  {
  }

  lemma TaintStays(s: State, a: Action)
    requires Shape(s) && Possible(s, a)
    ensures s.tainted <= Next(s, a).tainted
  {
  }

  /** What a step does to the handlers: those that were open keep uid and, but for the stepping one,
      everything else. */
  lemma OthersStay(s: State, a: Action, i: nat)
    requires Shape(s) && Possible(s, a) && i < |s.handlers|
    ensures var t := Next(s, a);
            && i < |t.handlers| && t.handlers[i].uid == s.handlers[i].uid
            && (s.handlers[i].closed ==> t.handlers[i].closed)
            && (a.Connect? || a.i != i ==> t.handlers[i] == s.handlers[i])
  {
    if a.Step? {
      StepsOneHandler(s, a.i, a.result);
    }
  }

  lemma KeepsUnique(s: State, a: Action)
    requires Inv(s) && Possible(s, a)
    ensures var t := Next(s, a);
            forall i: nat, j: nat :: i != j && Open(t, i) && Open(t, j) ==> t.handlers[i].uid != t.handlers[j].uid
  {
    var t := Next(s, a);
    forall i: nat, j: nat | i < j && Open(t, i) && Open(t, j) ensures t.handlers[i].uid != t.handlers[j].uid {
      if a.Connect? && j == |s.handlers| {
        OthersStay(s, a, i);
      } else {
        assert |t.handlers| == |s.handlers| + (if a.Connect? then 1 else 0) by {
          if a.Step? { StepsOneHandler(s, a.i, a.result); }
        }
        OthersStay(s, a, i);
        OthersStay(s, a, j);
        assert Open(s, i) && Open(s, j);
      }
    }
  }

  /** The claims about one uid after a step, from those before it. */
  lemma KeepsOneUid(s: State, a: Action, k: int)
    requires Inv(s) && Possible(s, a) && Trusted(Next(s, a), k)
    ensures var t := Next(s, a);
            && (forall i: nat :: Open(t, i) && t.handlers[i].uid == k ==>
                  CachesAgree(t.handlers[i], Online(t, k), Located(t, k)))
            && (Online(t, k) || Located(t, k) ==> HasHandler(t, k))
  {
    var t := Next(s, a);
    TaintStays(s, a);
    if a.Step? && s.handlers[a.i].uid == k {
      StepAgrees(s, a.i, a.result);
      OthersStay(s, a, a.i);
      assert Open(t, a.i) || t.handlers[a.i].closed;
    } else {
      assert Online(t, k) == Online(s, k) && Located(t, k) == Located(s, k) by {
        if a.Step? { StepTouchesOwnKeys(s, a.i, a.result, k); }
      }
      if Online(s, k) || Located(s, k) {
        var i: nat :| Open(s, i) && s.handlers[i].uid == k;
        OthersStay(s, a, i);
        assert Open(t, i);
      }
    }
    forall i: nat | Open(t, i) && t.handlers[i].uid == k
      ensures CachesAgree(t.handlers[i], Online(t, k), Located(t, k))
    {
      HandlerAgrees(s, a, i);
    }
  }

  lemma HandlerAgrees(s: State, a: Action, i: nat)
    requires Inv(s) && Possible(s, a) && Open(Next(s, a), i) && Trusted(Next(s, a), Next(s, a).handlers[i].uid)
    ensures var t := Next(s, a);
            var k := t.handlers[i].uid;
            CachesAgree(t.handlers[i], Online(t, k), Located(t, k))
  {
    var t := Next(s, a);
    var k := t.handlers[i].uid;
    TaintStays(s, a);
    if a.Connect? && i == |s.handlers| {
      assert !HasHandler(s, k);
    } else {
      assert |t.handlers| == |s.handlers| + (if a.Connect? then 1 else 0) by {
        if a.Step? { StepsOneHandler(s, a.i, a.result); }
      }
      OthersStay(s, a, i);
      assert Open(s, i);
      if a.Step? {
        if a.i == i {
          StepAgrees(s, i, a.result);
        } else {
          StepTouchesOwnKeys(s, a.i, a.result, k);
        }
      }
    }
  }

  lemma KeepsInv(s: State, a: Action)
    requires Inv(s) && Possible(s, a)
    ensures Inv(Next(s, a))
  {
    hide CachesAgree, Next;
    var t := Next(s, a);
    KeepsShape(s, a);
    KeepsUnique(s, a);
    forall k | Trusted(t, k)
      ensures forall i: nat :: Open(t, i) && t.handlers[i].uid == k ==>
                CachesAgree(t.handlers[i], Online(t, k), Located(t, k))
      ensures Online(t, k) || Located(t, k) ==> HasHandler(t, k)
    {
      KeepsOneUid(s, a, k);
    }
  }

  lemma {:induction false} RunKeepsInv(s: State, run: seq<Action>)
    requires Inv(s) && Admissible(s, run)
    ensures Inv(After(s, run))
    decreases |run|
  {
    hide Next;
    if run != [] {
      KeepsInv(s, run[0]);
      KeepsShape(s, run[0]);
      RunKeepsInv(Next(s, run[0]), run[1..]);
    }
  }

  // ---- the results ----

  /** However the connections interleave: whenever no service call is in progress, every online uid
      belongs to a live connection that has logged in, and whoever has a location is online; and a
      connection whose handler has left the receive loop and finished has no key in either cache. */
  lemma CachesTellWhoIsConnected(db: seq<int>, c0: seq<int>, c1: seq<int>, run: seq<Action>, k: int)
    requires Admissible(Init(db, c0, c1), run) && Trusted(After(Init(db, c0, c1), run), k)
    ensures var s := After(Init(db, c0, c1), run);
            && (!HasHandler(s, k) ==> !Online(s, k) && !Located(s, k))
            && forall i: nat :: Open(s, i) && s.handlers[i].uid == k && s.handlers[i].call.Idle? ==>
                 (Online(s, k) ==> s.handlers[i].context == Some(k)) && (Located(s, k) ==> Online(s, k))
  {
    hide Next, Possible;
    RunKeepsInv(Init(db, c0, c1), run);
  }

  /** The only handler there has been, that of uid 0, with these connections free. */
  function Lone(h: Handler, db: seq<int>, c0: seq<int>, c1: seq<int>, online: set<int>): State {
    State([h], db, c0, c1, online, {}, {})
  }

  /** A pool whose first connection has been taken and returned. */
  function Turned(free: seq<int>): seq<int>
    requires free != []
  {
    free[1..] + [free[0]]
  }

  const NEWCOMER := Handler(0, None, false, Idle, false, false)
  const KEYED := Handler(0, None, true, Idle, false, false)
  const LOGGED_IN := Handler(0, Some(0), true, Idle, false, false)
  const GONE := Handler(0, Some(0), true, Idle, true, true)

  lemma StartLogin(db: seq<int>, c0: seq<int>, c1: seq<int>) returns (run: seq<Action>)
    requires db != [] && c0 != [] && c1 != []
    ensures Admissible(Init(db, c0, c1), run)
    ensures After(Init(db, c0, c1), run)
            == Lone(KEYED.(call := Working(Login, [db[0], c0[0]], 0)), db[1..], c0[1..], c1, {})
  {
    hide Admissible, After;
    var first := Init(db, c0, c1);
    var s := first;
    run := [];
    assert Admissible(first, run) && After(first, run) == s by { Nothing(first); }
    run, s := Extend(first, run, s, Connect(0));
    assert s == Lone(NEWCOMER, db, c0, c1, {});
    run, s := Extend(first, run, s, SetKey(0));
    assert s == Lone(KEYED, db, c0, c1, {});
    run, s := Extend(first, run, s, Request(0, Login));
    assert s == Lone(KEYED.(call := Acquiring(Login, [])), db, c0, c1, {});
    assert [] + [db[0]] == [db[0]] && [db[0]] + [c0[0]] == [db[0], c0[0]];
    run, s := Extend(first, run, s, Step(0, Ok));
    assert s == Lone(KEYED.(call := Acquiring(Login, [db[0]])), db[1..], c0, c1, {});
    run, s := Extend(first, run, s, Step(0, Ok));
  }

  lemma WorkLogin(first: State, before: seq<Action>, held: seq<int>, db: seq<int>, c0: seq<int>, c1: seq<int>)
    returns (run: seq<Action>)
    requires Shape(first) && Admissible(first, before) && |held| == 2
    requires After(first, before) == Lone(KEYED.(call := Working(Login, held, 0)), db, c0, c1, {})
    ensures Admissible(first, run)
    ensures After(first, run) == Lone(LOGGED_IN.(call := Releasing(Login, held)), db, c0, c1, {0})
  {
    hide Admissible, After;
    run := before;
    var s := After(first, before);
    run, s := Extend(first, run, s, Step(0, Ok));
    assert s == Lone(KEYED.(call := Working(Login, held, 1)), db, c0, c1, {});
    run, s := Extend(first, run, s, Step(0, Ok));
    assert s == Lone(KEYED.(call := Working(Login, held, 2)), db, c0, c1, {0});
    run, s := Extend(first, run, s, Step(0, Ok));
    assert s == Lone(LOGGED_IN.(call := Releasing(Login, held)), db, c0, c1, {0});
  }

  lemma LogInZero(db: seq<int>, c0: seq<int>, c1: seq<int>) returns (run: seq<Action>)
    requires db != [] && c0 != [] && c1 != []
    ensures Admissible(Init(db, c0, c1), run)
    ensures After(Init(db, c0, c1), run) == Lone(LOGGED_IN, Turned(db), Turned(c0), c1, {0})
  {
    hide Admissible, After;
    var first, held := Init(db, c0, c1), [db[0], c0[0]];
    run := StartLogin(db, c0, c1);
    run := WorkLogin(first, run, held, db[1..], c0[1..], c1);
    var s := After(first, run);
    assert held[..1] == [db[0]];
    run, s := Extend(first, run, s, Step(0, Ok));
    assert s == Lone(LOGGED_IN.(call := Releasing(Login, [db[0]])), db[1..], Turned(c0), c1, {0});
    run, s := Extend(first, run, s, Step(0, Ok));
    assert s == Lone(LOGGED_IN, Turned(db), Turned(c0), c1, {0});
  }

  lemma StartLogout(first: State, before: seq<Action>, db: seq<int>, c0: seq<int>, c1: seq<int>)
    returns (run: seq<Action>)
    requires Shape(first) && Admissible(first, before) && c0 != [] && c1 != []
    requires After(first, before) == Lone(LOGGED_IN, db, c0, c1, {0})
    ensures Admissible(first, run)
    ensures After(first, run)
            == Lone(LOGGED_IN.(call := Working(Logout, [c0[0], c1[0]], 0), leaving := true), db, c0[1..], c1[1..], {0})
  {
    hide Admissible, After;
    run := before;
    var s := After(first, before);
    run, s := Extend(first, run, s, Leave(0));
    assert s == Lone(LOGGED_IN.(call := Acquiring(Logout, []), leaving := true), db, c0, c1, {0});
    assert [] + [c0[0]] == [c0[0]] && [c0[0]] + [c1[0]] == [c0[0], c1[0]];
    run, s := Extend(first, run, s, Step(0, Ok));
    assert s == Lone(LOGGED_IN.(call := Acquiring(Logout, [c0[0]]), leaving := true), db, c0[1..], c1, {0});
    run, s := Extend(first, run, s, Step(0, Ok));
  }

  /** Its logout finds uid 0 not logged in and deletes nothing. */
  lemma StrandZero(db: seq<int>, c0: seq<int>, c1: seq<int>) returns (run: seq<Action>)
    requires db != [] && c0 != [] && c1 != []
    ensures Admissible(Init(db, c0, c1), run)
    ensures var s := After(Init(db, c0, c1), run); s.handlers == [GONE] && s.cache0 == {0} && s.tainted == {}
  {
    hide Admissible, After;
    var first, held := Init(db, c0, c1), [Turned(c0)[0], c1[0]];
    run := LogInZero(db, c0, c1);
    run := StartLogout(first, run, Turned(db), Turned(c0), c1);
    var s := After(first, run);
    run, s := Extend(first, run, s, Step(0, Ok));
    assert s.handlers == [LOGGED_IN.(call := Releasing(Logout, held), leaving := true)];
    assert s.cache0 == {0} && s.tainted == {};
    assert held[..1] == [held[0]];
    run, s := Extend(first, run, s, Step(0, Ok));
    assert s.handlers == [LOGGED_IN.(call := Releasing(Logout, [held[0]]), leaving := true)];
    assert s.cache0 == {0} && s.tainted == {};
    run, s := Extend(first, run, s, Step(0, Ok));
    assert s.handlers == [GONE];
  }

  /** After this run uid `k` is online, but nobody is connected for it, and no raising call made client
      and caches disagree. */
  ghost predicate Strands(db: seq<int>, c0: seq<int>, c1: seq<int>, run: seq<Action>, k: int) {
    && Admissible(Init(db, c0, c1), run) && k in After(Init(db, c0, c1), run).cache0
    && !HasHandler(After(Init(db, c0, c1), run), k) && k !in After(Init(db, c0, c1), run).tainted
  }

  /** Whatever the pools, as long as none is empty: the logout service takes uid 0 for not logged in,
      and 0 is the only uid whose online key can survive its connection although no raising call made
      client and caches disagree. */
  lemma OnlyZeroIsStranded(db: seq<int>, c0: seq<int>, c1: seq<int>, k: int)
    requires db != [] && c0 != [] && c1 != []
    ensures k == 0 <==> exists run :: Strands(db, c0, c1, run, k)
  {
    hide Next, Possible;
    if k == 0 {
      var run := StrandZero(db, c0, c1);
      assert Strands(db, c0, c1, run, 0);
    } else {
      forall run ensures !Strands(db, c0, c1, run, k) {
        if Strands(db, c0, c1, run, k) {
          CachesTellWhoIsConnected(db, c0, c1, run, k);
          assert false;
        }
      }
    }
  }
}
