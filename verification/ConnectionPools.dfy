/** The two connection pools of the coroutine server as the objects that the services share. */
module ConnectionPools {
  import opened Options
  import opened CoroutineServer

  /** A connection, known by the order in which it was opened; commits and rollbacks in order. */
  class Backend {
    var count: nat
    var ended: seq<(nat, bool)>

    constructor ()
      ensures count == 0 && ended == []
    {
      count, ended := 0, [];
    }

    method Connect() returns (conn: nat)
      modifies this
      ensures conn == old(count) && count == old(count) + 1 && ended == old(ended)
    {
      conn, count := count, count + 1;
    }

    method End(conn: nat, commit: bool)
      modifies this
      ensures count == old(count) && ended == old(ended) + [(conn, commit)]
    {
      ended := ended + [(conn, commit)];
    }
  }

  function Size(n: int): nat {
    if n < 0 then 0 else n
  }

  predicate Distinct(conns: seq<nat>) {
    forall i, j :: 0 <= i < j < |conns| ==> conns[i] != conns[j]
  }

  lemma DistinctAppend(a: seq<nat>, m: nat, b: seq<nat>)
    requires (forall c <- a :: c < m) && Distinct(a) && forall i :: 0 <= i < |b| ==> b[i] == m + i
    ensures (forall c <- a + b :: c < m + |b|) && Distinct(a + b)
  {
    forall i, j | 0 <= i < j < |a + b| ensures (a + b)[i] != (a + b)[j] {
      assert i < |a| ==> a[i] in a;
    }
  }

  class SimpleDBPool {
    var dbFree: seq<nat>
    var inited: bool
    const backend: Backend

    constructor (backend: Backend)
      ensures dbFree == [] && !inited && this.backend == backend
    {
      dbFree, inited, this.backend := [], false, backend;
    }

    /** All connections are opened first, then put one by one; a second call adds to the first. */
    method Init(size: int)
      requires (forall c <- dbFree :: c < backend.count) && Distinct(dbFree)
      modifies this, backend
      ensures inited && backend.count == old(backend.count) + Size(size) && backend.ended == old(backend.ended)
      ensures |dbFree| == |old(dbFree)| + Size(size) && old(dbFree) <= dbFree
      ensures (forall c <- dbFree :: c < backend.count) && Distinct(dbFree)
    {
      var conns: seq<nat> := [];
      while |conns| < size
        invariant |conns| <= Size(size) && backend.count == old(backend.count) + |conns|
        invariant backend.ended == old(backend.ended) && dbFree == old(dbFree)
        invariant forall i :: 0 <= i < |conns| ==> conns[i] == old(backend.count) + i
      {
        var conn := backend.Connect();
        conns := conns + [conn];
      }
      for i := 0 to |conns|
        invariant dbFree == old(dbFree) + conns[..i]
        invariant backend.count == old(backend.count) + |conns| && backend.ended == old(backend.ended)
      {
        dbFree := dbFree + [conns[i]];
      }
      assert conns[..|conns|] == conns;
      DistinctAppend(old(dbFree), old(backend.count), conns);
      inited := true;
    }

    /** None before Init.  Otherwise the call waits while no connection is free. */
    method Get() returns (conn: Option<nat>)
      requires inited ==> dbFree != []
      modifies `dbFree
      ensures conn.Some? == inited
      ensures old(dbFree) == (if conn.Some? then [conn.value] else []) + dbFree
    {
      if !inited {
        return None;
      }
      conn, dbFree := Some(dbFree[0]), dbFree[1..];
    }

    /** Ends the transaction before anyone else can take the connection. */
    method Release(conn: nat, commit: bool)
      modifies `dbFree, backend
      ensures dbFree == old(dbFree) + (if inited then [conn] else [])
      ensures backend.count == old(backend.count)
      ensures backend.ended == old(backend.ended) + (if inited then [(conn, commit)] else [])
    {
      if !inited {
        return;
      }
      backend.End(conn, commit);
      dbFree := dbFree + [conn];
    }
  }

  /** Each cache of `done` has as many connections as configured, opened between `from` and `to`, and
      no connection is in its queue twice or in the queue of another one. */
  ghost predicate Filled(free: map<string, seq<nat>>, sizes: map<string, int>, done: set<string>, from: nat, to: nat) {
    && done <= free.Keys * sizes.Keys && from <= to
    && (forall id <- done :: |free[id]| == Size(sizes[id]) && Distinct(free[id]))
    && (forall id <- done, c | c in free[id] :: from <= c < to)
    && (forall a <- done, b <- done, c | a != b && c in free[a] :: c !in free[b])
  }

  /** The queues of `done` are there; those of other caches are as they were. */
  ghost predicate Replaced(was: map<string, seq<nat>>, free: map<string, seq<nat>>, done: set<string>) {
    free.Keys == was.Keys + done && forall id <- was :: id !in done ==> free[id] == was[id]
  }

  lemma StartFilled(free: map<string, seq<nat>>, sizes: map<string, int>, from: nat)
    ensures Filled(free, sizes, {}, from, from) && Replaced(free, free, {})
  {
  }

  lemma FillOne(was: map<string, seq<nat>>, free: map<string, seq<nat>>, sizes: map<string, int>, done: set<string>,
                from: nat, middle: nat, id: string, conns: seq<nat>)
    requires Filled(free, sizes, done, from, middle) && Replaced(was, free, done) && id in sizes && id !in done
    requires |conns| == Size(sizes[id]) && forall i :: 0 <= i < |conns| ==> conns[i] == middle + i
    ensures Filled(free[id := conns], sizes, done + {id}, from, middle + |conns|)
    ensures Replaced(was, free[id := conns], done + {id})
  {
  }

  /** What `Get` of a cache pool comes to: a connection, the None before Init, or an exception. */
  datatype Got = Conn(conn: nat) | NotInited | KeyError

  class SimpleCachePool {
    var cacheFree: map<string, seq<nat>>
    var inited: bool
    const backend: Backend

    constructor (backend: Backend)
      ensures cacheFree == map[] && !inited && this.backend == backend
    {
      cacheFree, inited, this.backend := map[], false, backend;
    }

    /** Each cache gets a new queue with as many new connections as its configuration says. */
    method Init(sizes: map<string, int>)
      modifies this, backend
      ensures inited && backend.ended == old(backend.ended)
      ensures Replaced(old(cacheFree), cacheFree, sizes.Keys)
      ensures Filled(cacheFree, sizes, sizes.Keys, old(backend.count), backend.count)
    {
      hide Filled, Replaced;
      var todo := sizes.Keys;
      ghost var done: set<string> := {};
      StartFilled(cacheFree, sizes, backend.count);
      while todo != {}
        invariant todo !! done && todo + done == sizes.Keys && backend.ended == old(backend.ended)
        invariant Replaced(old(cacheFree), cacheFree, done)
        invariant Filled(cacheFree, sizes, done, old(backend.count), backend.count)
        decreases todo
      {
        var id :| id in todo;
        ghost var before, middle := cacheFree, backend.count;
        ghost var conns := FillQueue(id, sizes[id]);
        FillOne(old(cacheFree), before, sizes, done, old(backend.count), middle, id, conns);
        todo, done := todo - {id}, done + {id};
      }
      assert done == sizes.Keys;
      inited := true;
    }

    method FillQueue(id: string, n: int) returns (ghost conns: seq<nat>)
      modifies this, backend
      ensures cacheFree == old(cacheFree)[id := conns] && inited == old(inited)
      ensures |conns| == Size(n) && backend.count == old(backend.count) + |conns| && backend.ended == old(backend.ended)
      ensures forall i :: 0 <= i < |conns| ==> conns[i] == old(backend.count) + i
    {
      cacheFree := cacheFree[id := []];
      var list := OpenAll(n);
      for i := 0 to |list|
        invariant cacheFree == old(cacheFree)[id := list[..i]] && inited == old(inited)
        invariant backend.count == old(backend.count) + |list| && backend.ended == old(backend.ended)
      {
        assert list[..i] + [list[i]] == list[..i + 1];
        cacheFree := cacheFree[id := cacheFree[id] + [list[i]]];
      }
      assert list[..|list|] == list;
      conns := list;
    }

    /** The list of new connections. */
    method OpenAll(n: int) returns (conns: seq<nat>)
      modifies backend
      ensures |conns| == Size(n) && backend.count == old(backend.count) + Size(n) && backend.ended == old(backend.ended)
      ensures forall i :: 0 <= i < |conns| ==> conns[i] == old(backend.count) + i
    {
      conns := [];
      while |conns| < n
        invariant |conns| <= Size(n) && backend.count == old(backend.count) + |conns|
        invariant backend.ended == old(backend.ended)
        invariant forall i :: 0 <= i < |conns| ==> conns[i] == old(backend.count) + i
      {
        var conn := backend.Connect();
        conns := conns + [conn];
      }
    }

    /** The call waits while no connection of that cache is free. */
    method Get(id: string) returns (got: Got)
      requires inited && id in cacheFree ==> cacheFree[id] != []
      modifies `cacheFree
      ensures got == NotInited <==> !inited
      ensures got == KeyError <==> inited && id !in old(cacheFree)
      ensures !got.Conn? ==> cacheFree == old(cacheFree)
      ensures got.Conn? ==>
                && id in cacheFree && id in old(cacheFree) && cacheFree == old(cacheFree)[id := cacheFree[id]]
                && [got.conn] + cacheFree[id] == old(cacheFree)[id]
    {
      if !inited {
        return NotInited;
      }
      if id !in cacheFree {
        return KeyError;
      }
      got := Conn(cacheFree[id][0]);
      cacheFree := cacheFree[id := cacheFree[id][1..]];
    }

    /** Raises a KeyError for a cache that was not configured; does nothing before Init. */
    method Release(id: string, conn: nat) returns (raised: bool)
      modifies `cacheFree
      ensures raised <==> inited && id !in old(cacheFree)
      ensures cacheFree == if inited && !raised then old(cacheFree)[id := old(cacheFree)[id] + [conn]]
                           else old(cacheFree)
    {
      if !inited {
        return false;
      }
      if id !in cacheFree {
        return true;
      }
      cacheFree := cacheFree[id := cacheFree[id] + [conn]];
      raised := false;
    }
  }

  // ---- the objects are the state of the transition system ----

  const CACHE0 := "pyscache0"
  const CACHE1 := "pyscache1"

  /** The free connections that the transition system speaks of. */
  ghost predicate Holds(db: SimpleDBPool, caches: SimpleCachePool, s: State)
    reads db, caches
  {
    && db.inited && caches.inited && CACHE0 in caches.cacheFree && CACHE1 in caches.cacheFree
    && db.dbFree == s.dbFree
    && caches.cacheFree[CACHE0] == s.cache0Free && caches.cacheFree[CACHE1] == s.cache1Free
  }

  function CacheOf(p: Pool): string
    requires p != Db
  {
    if p == Cache0 then CACHE0 else CACHE1
  }

  /** The next `Get` of a service that handler `i` runs. */
  method GetNext(db: SimpleDBPool, caches: SimpleCachePool, ghost s: State, i: nat, h: Handler)
    returns (conn: Option<nat>, ghost t: State)
    requires Shape(s) && Possible(s, Step(i, Ok)) && h == s.handlers[i] && h.call.Acquiring? && Holds(db, caches, s)
    requires WellFormed(h)
    modifies db, caches
    ensures t == Next(s, Step(i, Ok)) && Holds(db, caches, t)
    ensures conn.Some? &&
            match (h.call.service, |h.call.held|)
            case (Logout, 0) => old(caches.cacheFree["pyscache0"]) == [conn.value] + caches.cacheFree["pyscache0"]
            case (Logout, 1) => old(caches.cacheFree["pyscache1"]) == [conn.value] + caches.cacheFree["pyscache1"]
            case (_, 0) => old(db.dbFree) == [conn.value] + db.dbFree
            case (_, 1) => old(caches.cacheFree["pyscache0"]) == [conn.value] + caches.cacheFree["pyscache0"]
            case (Uplocation, 2) => old(caches.cacheFree["pyscache1"]) == [conn.value] + caches.cacheFree["pyscache1"]
            case _ => false
    ensures !t.handlers[i].call.Idle? && t.handlers[i].call.held == h.call.held + [conn.value]
  {
    t := Next(s, Step(i, Ok));
    var p := Wanted(h);
    if p == Db {
      conn := db.Get();
    } else {
      var got := caches.Get(CacheOf(p));
      conn := Some(got.conn);
    }
  }

  /** The next `Release` in the finally block of a service. */
  method ReleaseLast(db: SimpleDBPool, caches: SimpleCachePool, ghost s: State, i: nat, h: Handler, conn: nat)
    returns (ghost t: State)
    requires Shape(s) && Possible(s, Step(i, Ok)) && h == s.handlers[i] && h.call.Releasing? && Holds(db, caches, s)
    requires WellFormed(h) && conn == h.call.held[|h.call.held| - 1]
    modifies db, caches, db.backend
    ensures t == Next(s, Step(i, Ok)) && Holds(db, caches, t)
    ensures db.backend.ended == old(db.backend.ended)
                                + (if h.call.service != Logout && |h.call.held| == 1 then [(conn, true)] else [])
  {
    t := Next(s, Step(i, Ok));
    var p := Needs(h.call.service)[|h.call.held| - 1];
    if p == Db {
      db.Release(conn, true);
    } else {
      var raised := caches.Release(CacheOf(p), conn);
      assert !raised;
    }
  }
}
