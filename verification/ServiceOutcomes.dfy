/** What a whole service call does to the caches and the session, as a table of the answers of its
    backend calls. */
module ServiceOutcomes {
  import opened Options
  import opened CoroutineServer
  import SessionCaches

  /** The steps of handler `i` through the body of its service, with the answers it gets. */
  function WorkThrough(s: State, i: nat, answers: seq<Result>): (t: State)
    requires Shape(s) && Open(s, i)
    ensures Shape(t) && Open(t, i)
    decreases |answers|
  {
    if answers == [] || !s.handlers[i].call.Working? then s else
    (WorkStaysOpen(s, i, answers[0]);
     WorkThrough(Work(s, i, answers[0]), i, answers[1..]))
  }

  lemma WorkStaysOpen(s: State, i: nat, answer: Result)
    requires Shape(s) && Open(s, i) && s.handlers[i].call.Working?
    ensures Shape(Work(s, i, answer)) && Open(Work(s, i, answer), i)
  {
    WorkOneHandler(s, i, answer);
  }

  lemma ThreeAnswers(s: State, i: nat, a: Result, b: Result, c: Result)
    requires Shape(s) && Open(s, i)
    ensures WorkThrough(s, i, [a, b, c]) == WorkThrough(WorkThrough(WorkThrough(s, i, [a]), i, [b]), i, [c])
  {
    assert [a, b, c][1..] == [b, c] && [b, c][1..] == [c] && [a][1..] == [] && [b][1..] == [];
  }

  predicate Applied(answer: Result) {
    answer.Ok? || (answer.Raises? && answer.applied)
  }

  lemma OneAnswer(s: State, i: nat, a: Result)
    requires Shape(s) && Open(s, i)
    ensures WorkThrough(s, i, [a]) == if s.handlers[i].call.Working? then Work(s, i, a) else s
  {
    assert [a][1..] == [];
    if s.handlers[i].call.Working? {
      WorkStaysOpen(s, i, a);
      assert WorkThrough(Work(s, i, a), i, []) == Work(s, i, a);
    }
  }

  /** A service has done its work: it gives back all it took, and only its own key may differ. */
  predicate Done(s: State, t: State, i: nat)
    requires i < |s.handlers| && !s.handlers[i].call.Idle?
  {
    var c, k := s.handlers[i].call, s.handlers[i].uid;
    && i < |t.handlers| && t.handlers[i].uid == k && t.handlers[i].call == Releasing(c.service, c.held)
    && t.cache0 - {k} == s.cache0 - {k} && t.cache1 - {k} == s.cache1 - {k}
  }

  /** Login, after the query and the write to cache0: the connection knows its uid exactly if both
      succeeded, and the uid is online exactly if it was, or the query succeeded and the write took
      effect. */
  lemma LoginOutcome(s: State, i: nat, query: Result, write: Result, end: Result)
    requires Shape(s) && Open(s, i) && s.handlers[i].call.Working?
    requires s.handlers[i].call.service == Login && s.handlers[i].call.step == 0
    ensures var t, k := WorkThrough(s, i, [query, write, end]), s.handlers[i].uid;
            && Done(s, t, i) && t.cache1 == s.cache1
            && t.handlers[i].context == (if query.Ok? && write.Ok? then Some(k) else s.handlers[i].context)
            && (k in t.cache0 <==> k in s.cache0 || (query.Ok? && Applied(write)))
  {
    hide WorkThrough;
    ThreeAnswers(s, i, query, write, end);
    OneAnswer(s, i, query);
    var t := WorkThrough(s, i, [query]);
    OneAnswer(t, i, write);
    var u := WorkThrough(t, i, [write]);
    OneAnswer(u, i, end);
  }

  /** Upload of a location, after the look-up in cache0, the update of the table and the write to
      cache1: the uid is located exactly if it was, or it was online, look-up and update succeeded
      and the write took effect. */
  lemma UplocationOutcome(s: State, i: nat, lookUp: Result, update: Result, write: Result)
    requires Shape(s) && Open(s, i) && s.handlers[i].call.Working?
    requires s.handlers[i].call.service == Uplocation && s.handlers[i].call.step == 0
    ensures var t, k := WorkThrough(s, i, [lookUp, update, write]), s.handlers[i].uid;
            && Done(s, t, i) && t.cache0 == s.cache0 && t.handlers[i].context == s.handlers[i].context
            && (k in t.cache1 <==> k in s.cache1 || (lookUp.Ok? && k in s.cache0 && update.Ok? && Applied(write)))
  {
    hide WorkThrough;
    ThreeAnswers(s, i, lookUp, update, write);
    OneAnswer(s, i, lookUp);
    var t := WorkThrough(s, i, [lookUp]);
    OneAnswer(t, i, update);
    var u := WorkThrough(t, i, [update]);
    OneAnswer(u, i, write);
  }

  /** Logout: a connection that has logged in as a uid other than 0 loses its keys, cache0 first; a
      delete that raises before it took effect leaves its own key, and if it is the first also that
      of cache1.  Any other connection keeps what there is. */
  lemma LogoutOutcome(s: State, i: nat, first: Result, second: Result, unused: Result)
    requires Shape(s) && Open(s, i) && s.handlers[i].call.Working?
    requires s.handlers[i].call.service == Logout && s.handlers[i].call.step == 0
    ensures var t, k := WorkThrough(s, i, [first, second, unused]), s.handlers[i].uid;
            var known := s.handlers[i].context == Some(k) && k != 0;
            && Done(s, t, i) && t.handlers[i].context == s.handlers[i].context
            && (k in t.cache0 <==> k in s.cache0 && (!known || first == Raises(false)))
            && (k in t.cache1 <==> k in s.cache1 && (!known || first.Raises? || second == Raises(false)))
  {
    hide WorkThrough;
    assert WellFormed(s.handlers[i]);
    ThreeAnswers(s, i, first, second, unused);
    OneAnswer(s, i, first);
    var t := WorkThrough(s, i, [first]);
    OneAnswer(t, i, second);
    var u := WorkThrough(t, i, [second]);
    OneAnswer(u, i, unused);
  }

  // ---- with any steps of other handlers in between ----

  /** What concerns handler `i` alone: itself and the keys of its uid. */
  function Local(s: State, i: nat): (l: State)
    requires Shape(s) && Open(s, i)
    ensures Shape(l) && Open(l, 0)
  {
    var k := s.handlers[i].uid;
    State([s.handlers[i]], [], [], [], s.cache0 * {k}, s.cache1 * {k}, s.tainted * {k})
  }

  lemma LocalWork(s: State, i: nat, answer: Result)
    requires Shape(s) && Open(s, i) && s.handlers[i].call.Working?
    ensures Open(Work(s, i, answer), i) && Shape(Work(s, i, answer))
    ensures Local(Work(s, i, answer), i) == Work(Local(s, i), 0, answer)
  {
    WorkStaysOpen(s, i, answer);
    assert WellFormed(s.handlers[i]);
    var t, u, k := Work(s, i, answer), Work(Local(s, i), 0, answer), s.handlers[i].uid;
    assert [s.handlers[i]][0 := t.handlers[i]] == [t.handlers[i]];
    assert u.handlers == [t.handlers[i]];
    assert t.cache0 * {k} == u.cache0 && t.cache1 * {k} == u.cache1 && t.tainted * {k} == u.tainted;
  }

  /** The answers that handler `i` gets in a run. */
  function Answers(run: seq<Action>, i: nat): seq<Result> {
    if run == [] then []
    else (if run[0].Step? && run[0].i == i then [run[0].result] else []) + Answers(run[1..], i)
  }

  /** The run covers no more than the work of the service of handler `i`: it neither begins nor ends a
      call of that handler, nor returns its connections. */
  predicate OnlyWorks(s: State, run: seq<Action>, i: nat)
    requires Shape(s) && Admissible(s, run)
    decreases |run|
  {
    run == [] ||
    (Open(s, i) && !s.handlers[i].call.Idle?
     && (run[0].Step? && run[0].i == i ==> s.handlers[i].call.Working?)
     && (KeepsShape(s, run[0]); OnlyWorks(Next(s, run[0]), run[1..], i)))
  }

  /** The state after the first `k` steps of a run. */
  function StateAt(s: State, run: seq<Action>, k: nat): (t: State)
    requires Shape(s) && Admissible(s, run) && k <= |run|
    ensures Shape(t)
    decreases k
  {
    if k == 0 then s else (KeepsShape(s, run[0]); StateAt(Next(s, run[0]), run[1..], k - 1))
  }

  /** That is every run at each step of which the service is at work, whatever the others do. */
  lemma {:induction false} CoversAllWork(s: State, run: seq<Action>, i: nat)
    requires Shape(s) && Admissible(s, run)
    requires forall k :: 0 <= k < |run| ==>
               i < |StateAt(s, run, k).handlers| && StateAt(s, run, k).handlers[i].call.Working?
    ensures OnlyWorks(s, run, i)
    decreases |run|
  {
    hide Next, Possible;
    if run != [] {
      assert StateAt(s, run, 0) == s && WellFormed(s.handlers[i]);
      KeepsShape(s, run[0]);
      var t, rest := Next(s, run[0]), run[1..];
      forall k | 0 <= k < |rest|
        ensures i < |StateAt(t, rest, k).handlers| && StateAt(t, rest, k).handlers[i].call.Working?
      {
        assert StateAt(s, run, k + 1) == StateAt(t, rest, k);
      }
      CoversAllWork(t, rest, i);
    }
  }

  lemma OthersLeaveLocal(s: State, a: Action, i: nat)
    requires SessionCaches.Inv(s) && Possible(s, a) && Open(s, i) && !s.handlers[i].call.Idle?
    requires !(a.Step? && a.i == i)
    ensures Shape(Next(s, a)) && Open(Next(s, a), i) && Local(Next(s, a), i) == Local(s, i)
  {
    KeepsShape(s, a);
    SessionCaches.OthersStay(s, a, i);
    var t, k := Next(s, a), s.handlers[i].uid;
    if a.Step? {
      assert s.handlers[a.i].uid != k;
      SessionCaches.StepTouchesOwnKeys(s, a.i, a.result, k);
    }
    assert t.cache0 * {k} == s.cache0 * {k} && t.cache1 * {k} == s.cache1 * {k} && t.tainted * {k} == s.tainted * {k};
  }

  /** However the run interleaves, a service does what it would do alone with the same answers. */
  lemma {:induction false} Interleaved(s: State, run: seq<Action>, i: nat)
    requires SessionCaches.Inv(s) && Open(s, i) && Admissible(s, run) && OnlyWorks(s, run, i)
    ensures Open(After(s, run), i)
    ensures Local(After(s, run), i) == WorkThrough(Local(s, i), 0, Answers(run, i))
    decreases |run|
  {
    assert Shape(s);
    hide Work, Local, SessionCaches.Inv, Possible;
    if run != [] {
      var a, rest := run[0], run[1..];
      assert Possible(s, a);
      SessionCaches.KeepsInv(s, a);
      KeepsShape(s, a);
      if a.Step? && a.i == i {
        LocalWork(s, i, a.result);
        assert Answers(run, i)[1..] == Answers(rest, i);
        LocalCall(s, i);
      } else {
        OthersLeaveLocal(s, a, i);
        assert Answers(run, i) == Answers(rest, i);
      }
      Interleaved(Next(s, a), rest, i);
    }
  }

  lemma LocalCall(s: State, i: nat)
    requires Shape(s) && Open(s, i)
    ensures Local(s, i).handlers == [s.handlers[i]]
  {
  }

  /** The answer number `j`, if the service asked that often. */
  function Answer(answers: seq<Result>, j: nat): Result {
    if j < |answers| then answers[j] else Fails
  }

  lemma {:induction false} DoneStaysDone(s: State, i: nat, answers: seq<Result>, more: seq<Result>)
    requires Shape(s) && Open(s, i) && !WorkThrough(s, i, answers).handlers[i].call.Working?
    ensures WorkThrough(s, i, answers + more) == WorkThrough(s, i, answers)
    decreases |answers|
  {
    hide Work;
    if answers != [] && s.handlers[i].call.Working? {
      WorkStaysOpen(s, i, answers[0]);
      assert (answers + more)[1..] == answers[1..] + more;
      DoneStaysDone(Work(s, i, answers[0]), i, answers[1..], more);
    }
  }

  function FirstThree(answers: seq<Result>): seq<Result> {
    [Answer(answers, 0), Answer(answers, 1), Answer(answers, 2)]
  }

  lemma FirstThreeSplit(answers: seq<Result>)
    ensures if |answers| <= 3 then FirstThree(answers) == answers + FirstThree(answers)[|answers|..]
            else answers == FirstThree(answers) + answers[3..]
  {
  }

  lemma ThreeSuffice(s: State, i: nat, answers: seq<Result>)
    requires Shape(s) && Open(s, i) && !WorkThrough(s, i, answers).handlers[i].call.Working?
    requires !WorkThrough(s, i, FirstThree(answers)).handlers[i].call.Working?
    ensures WorkThrough(s, i, answers) == WorkThrough(s, i, FirstThree(answers))
  {
    FirstThreeSplit(answers);
    hide WorkThrough, FirstThree;
    if |answers| <= 3 {
      DoneStaysDone(s, i, answers, FirstThree(answers)[|answers|..]);
    } else {
      DoneStaysDone(s, i, FirstThree(answers), answers[3..]);
    }
  }

  /** A service call among those of others, from its first backend call to its last. */
  predicate Call(s: State, run: seq<Action>, i: nat, v: Service)
    requires Shape(s)
  {
    && Open(s, i) && s.handlers[i].call.Working? && s.handlers[i].call.service == v && s.handlers[i].call.step == 0
    && Admissible(s, run) && OnlyWorks(s, run, i)
    && i < |After(s, run).handlers| && !After(s, run).handlers[i].call.Working?
  }

  lemma InMap(s: State, i: nat)
    requires Shape(s) && Open(s, i)
    ensures var l, k := Local(s, i), s.handlers[i].uid;
            && l.handlers == [s.handlers[i]]
            && (k in l.cache0 <==> k in s.cache0) && (k in l.cache1 <==> k in s.cache1)
  {
  }

  /** The table of `LoginOutcome`, whatever other handlers do meanwhile. */
  lemma LoginCall(s: State, run: seq<Action>, i: nat)
    requires SessionCaches.Inv(s) && Call(s, run, i, Login)
    ensures var t, h, k := After(s, run), s.handlers[i], s.handlers[i].uid;
            var query, write := Answer(Answers(run, i), 0), Answer(Answers(run, i), 1);
            && t.handlers[i].call == Releasing(Login, h.call.held)
            && t.handlers[i].context == (if query.Ok? && write.Ok? then Some(k) else h.context)
            && (k in t.cache0 <==> k in s.cache0 || (query.Ok? && Applied(write)))
            && (k in t.cache1 <==> k in s.cache1)
  {
    assert Shape(s);
    hide Local, WorkThrough, OnlyWorks, Admissible, After, SessionCaches.Inv;
    var answers := Answers(run, i);
    Interleaved(s, run, i);
    InMap(s, i);
    InMap(After(s, run), i);
    LoginOutcome(Local(s, i), 0, Answer(answers, 0), Answer(answers, 1), Answer(answers, 2));
    ThreeSuffice(Local(s, i), 0, answers);
    var l := Local(After(s, run), i);
    assert l.handlers[0] == After(s, run).handlers[i] && Local(s, i).handlers[0] == s.handlers[i];
  }

  /** The table of `UplocationOutcome`, whatever other handlers do meanwhile. */
  lemma UplocationCall(s: State, run: seq<Action>, i: nat)
    requires SessionCaches.Inv(s) && Call(s, run, i, Uplocation)
    ensures var t, h, k := After(s, run), s.handlers[i], s.handlers[i].uid;
            var answers := Answers(run, i);
            var lookUp, update, write := Answer(answers, 0), Answer(answers, 1), Answer(answers, 2);
            && t.handlers[i].call == Releasing(Uplocation, h.call.held) && t.handlers[i].context == h.context
            && (k in t.cache0 <==> k in s.cache0)
            && (k in t.cache1 <==> k in s.cache1 || (lookUp.Ok? && k in s.cache0 && update.Ok? && Applied(write)))
  {
    assert Shape(s);
    hide Local, WorkThrough, OnlyWorks, Admissible, After, SessionCaches.Inv;
    var answers := Answers(run, i);
    Interleaved(s, run, i);
    InMap(s, i);
    InMap(After(s, run), i);
    UplocationOutcome(Local(s, i), 0, Answer(answers, 0), Answer(answers, 1), Answer(answers, 2));
    ThreeSuffice(Local(s, i), 0, answers);
    var l := Local(After(s, run), i);
    assert l.handlers[0] == After(s, run).handlers[i] && Local(s, i).handlers[0] == s.handlers[i];
  }

  /** The table of `LogoutOutcome`, whatever other handlers do meanwhile. */
  lemma LogoutCall(s: State, run: seq<Action>, i: nat)
    requires SessionCaches.Inv(s) && Call(s, run, i, Logout)
    ensures var t, h, k := After(s, run), s.handlers[i], s.handlers[i].uid;
            var known := h.context == Some(k) && k != 0;
            var first, second := Answer(Answers(run, i), 0), Answer(Answers(run, i), 1);
            && t.handlers[i].call == Releasing(Logout, h.call.held) && t.handlers[i].context == h.context
            && (k in t.cache0 <==> k in s.cache0 && (!known || first == Raises(false)))
            && (k in t.cache1 <==> k in s.cache1 && (!known || first.Raises? || second == Raises(false)))
  {
    assert Shape(s);
    hide Local, WorkThrough, OnlyWorks, Admissible, After, SessionCaches.Inv;
    var answers := Answers(run, i);
    Interleaved(s, run, i);
    InMap(s, i);
    InMap(After(s, run), i);
    LogoutOutcome(Local(s, i), 0, Answer(answers, 0), Answer(answers, 1), Answer(answers, 2));
    ThreeSuffice(Local(s, i), 0, answers);
    var l := Local(After(s, run), i);
    assert l.handlers[0] == After(s, run).handlers[i] && Local(s, i).handlers[0] == s.handlers[i];
  }
}
