/**
 Programs over any number of messages: whatever sequence of operations callers perform through their
 pointers, the messages behave as independent values, and no string is lost.
 */
module MessagePrograms {
  import opened Bytes
  import opened Options
  import opened Messages
  import opened CodedStreams
  import opened MessageObjects
  import opened FocusObjects
  import opened MessageArena
  import Wire

  // ---- what the operations mean on values ----

  /** A message of the nested type: standing alone, or got from an outer one by `mutable_ui`. */
  datatype Place = Alone(i: nat) | Inside(i: nat, j: nat)

  datatype InfoOp =
    SetUserid(id: nat) | ClearUserid | SetUsername(name: Bytes) | WriteUsername(name: Bytes) | ClearUsername | ClearInfo

  datatype TypeOp = SetMsgtype(msgtype: Bytes) | WriteMsgtype(msgtype: Bytes) | ClearMsgtype

  datatype Op =
    | NewInfo
    | NewOuter
    | OnInfo(at: Place, infoOp: InfoOp)
    | MergeInfo(at: Place, source: Place)
    | CopyInfo(at: Place, source: Place)
    | SwapInfo(at: Place, other: Place)
    | ParseInfo(at: Place, bytes: Bytes)
    | ReleaseUsername(at: Place)
    | SetAllocatedUsername(at: Place, string: Option<nat>)
    | DestroyInfo(info: nat)
    | OnType(f: nat, typeOp: TypeOp)
    | AddUi(f: nat)
    | ClearUi(f: nat)
    | ClearOuter(f: nat)
    | MergeOuter(f: nat, g: nat)
    | CopyOuter(f: nat, g: nat)
    | SwapOuter(f: nat, g: nat)
    | ParseOuter(f: nat, bytes: Bytes)
    | ReleaseMsgtype(f: nat)
    | SetAllocatedMsgtype(f: nat, string: Option<nat>)
    | DestroyOuter(f: nat)
    | Make(value: Bytes)
    | Write(k: nat, value: Bytes)
    | Discard(k: nat)

  /** The values of the messages, and of the strings that callers own. */
  datatype Store = Store(infos: seq<UserInfo>, outers: seq<FocusTm>, strings: seq<Bytes>)

  predicate In(s: Store, at: Place) {
    match at
    case Alone(i) => i < |s.infos|
    case Inside(i, j) => i < |s.outers| && j < |s.outers[i].ui|
  }

  function Get(s: Store, at: Place): UserInfo
    requires In(s, at)
  {
    match at
    case Alone(i) => s.infos[i]
    case Inside(i, j) => s.outers[i].ui[j]
  }

  function Put(s: Store, at: Place, u: UserInfo): (t: Store)
    requires In(s, at)
    ensures t.strings == s.strings
  {
    match at
    case Alone(i) => s.(infos := s.infos[i := u])
    case Inside(i, j) => s.(outers := s.outers[i := s.outers[i].(ui := s.outers[i].ui[j := u])])
  }

  function PutOuter(s: Store, i: nat, f: FocusTm): Store
    requires i < |s.outers|
  {
    s.(outers := s.outers[i := f])
  }

  function Without<T>(s: seq<T>, i: nat): seq<T>
    requires i < |s|
  {
    s[..i] + s[i + 1..]
  }

  function AfterInfoOp(op: InfoOp, u: UserInfo): UserInfo {
    match op
    case SetUserid(id) => u.(userid := Some(id))
    case ClearUserid => u.(userid := None)
    case SetUsername(name) => u.(username := Some(name))
    case WriteUsername(name) => u.(username := Some(name))
    case ClearUsername => u.(username := None)
    case ClearInfo => NO_USER
  }

  function AfterTypeOp(op: TypeOp, f: FocusTm): FocusTm {
    match op
    case SetMsgtype(value) => f.(msgtype := Some(value))
    case WriteMsgtype(value) => f.(msgtype := Some(value))
    case ClearMsgtype => f.(msgtype := None)
  }

  /** The messages and strings that the operation names are there, and it is allowed on them. */
  predicate Possible(s: Store, op: Op) {
    match op
    case NewInfo => true
    case NewOuter => true
    case OnInfo(at, infoOp) => In(s, at) && (infoOp.SetUserid? ==> infoOp.id < Wire.U32)
    case MergeInfo(at, source) => In(s, at) && In(s, source) && at != source
    case CopyInfo(at, source) => In(s, at) && In(s, source)
    case SwapInfo(at, other) => In(s, at) && In(s, other)
    case ParseInfo(at, bytes) => In(s, at)
    case ReleaseUsername(at) => In(s, at)
    case SetAllocatedUsername(at, k) => In(s, at) && (k.Some? ==> k.value < |s.strings|)
    case DestroyInfo(i) => i < |s.infos|
    case OnType(f, typeOp) => f < |s.outers|
    case AddUi(f) => f < |s.outers|
    case ClearUi(f) => f < |s.outers|
    case ClearOuter(f) => f < |s.outers|
    case MergeOuter(f, g) => f < |s.outers| && g < |s.outers| && f != g
    case CopyOuter(f, g) => f < |s.outers| && g < |s.outers|
    case SwapOuter(f, g) => f < |s.outers| && g < |s.outers|
    case ParseOuter(f, bytes) => f < |s.outers|
    case ReleaseMsgtype(f) => f < |s.outers|
    case SetAllocatedMsgtype(f, k) => f < |s.outers| && (k.Some? ==> k.value < |s.strings|)
    case DestroyOuter(f) => f < |s.outers|
    case Make(value) => true
    case Write(k, value) => k < |s.strings|
    case Discard(k) => k < |s.strings|
  }

  /** What an operation can name: a message of the nested type, an outer one, or a caller's string. */
  datatype Name = InfoName(at: Place) | OuterName(f: nat) | StringName(k: nat)

  predicate Exists(s: Store, n: Option<Name>) {
    match n
    case None => true
    case Some(InfoName(at)) => In(s, at)
    case Some(OuterName(f)) => f < |s.outers|
    case Some(StringName(k)) => k < |s.strings|
  }

  /** The one or two things that an operation names. */
  function Names(op: Op): (Option<Name>, Option<Name>) {
    match op
    case NewInfo => (None, None)
    case NewOuter => (None, None)
    case OnInfo(at, _) => (Some(InfoName(at)), None)
    case MergeInfo(at, b) => (Some(InfoName(at)), Some(InfoName(b)))
    case CopyInfo(at, b) => (Some(InfoName(at)), Some(InfoName(b)))
    case SwapInfo(at, b) => (Some(InfoName(at)), Some(InfoName(b)))
    case ParseInfo(at, _) => (Some(InfoName(at)), None)
    case ReleaseUsername(at) => (Some(InfoName(at)), None)
    case SetAllocatedUsername(at, k) => (Some(InfoName(at)), if k.Some? then Some(StringName(k.value)) else None)
    case DestroyInfo(i) => (Some(InfoName(Alone(i))), None)
    case MergeOuter(f, g) => (Some(OuterName(f)), Some(OuterName(g)))
    case CopyOuter(f, g) => (Some(OuterName(f)), Some(OuterName(g)))
    case SwapOuter(f, g) => (Some(OuterName(f)), Some(OuterName(g)))
    case SetAllocatedMsgtype(f, k) => (Some(OuterName(f)), if k.Some? then Some(StringName(k.value)) else None)
    case Make(_) => (None, None)
    case Write(k, _) => (Some(StringName(k)), None)
    case Discard(k) => (Some(StringName(k)), None)
    case _ => (Some(OuterName(op.f)), None)
  }

  /** An operation is refused exactly if it names something that is not there, if the number does not fit
      its field, or if a message is to be merged into itself. */
  lemma RefusedExactly(s: Store, op: Op)
    ensures !Possible(s, op) <==>
            || !Exists(s, Names(op).0)
            || !Exists(s, Names(op).1)
            || (op.OnInfo? && op.infoOp.SetUserid? && op.infoOp.id >= 0x1_0000_0000)
            || (op.MergeInfo? && op.at == op.source)
            || (op.MergeOuter? && op.f == op.g)
  {
  }

  /** What the accessors do, field by field. */
  lemma AccessorFields(op: InfoOp, u: UserInfo, typeOp: TypeOp, f: FocusTm)
    ensures var v := AfterInfoOp(op, u);
            && v.userid == (if op.SetUserid? then Some(op.id) else if op.ClearUserid? || op.ClearInfo? then None
                            else u.userid)
            && v.username == (if op.SetUsername? || op.WriteUsername? then Some(op.name)
                              else if op.ClearUsername? || op.ClearInfo? then None else u.username)
            && v.unknown == (if op.ClearInfo? then [] else u.unknown)
    ensures AfterTypeOp(typeOp, f).msgtype == (if typeOp.ClearMsgtype? then None else Some(typeOp.msgtype))
    ensures AfterTypeOp(typeOp, f).(msgtype := f.msgtype) == f
  {
  }

  /** A released string goes to the end of the caller's; a field that is not set may still have one,
      which is empty. */
  predicate Released(before: seq<Bytes>, field: Option<Bytes>, after: seq<Bytes>) {
    match field
    case Some(value) => after == before + [value]
    case None => after == before || after == before + [[]]
  }

  function Given(field: Option<nat>, strings: seq<Bytes>): Option<Bytes>
    requires field.Some? ==> field.value < |strings|
  {
    if field.None? then None else Some(strings[field.value])
  }

  function Left(field: Option<nat>, strings: seq<Bytes>): seq<Bytes>
    requires field.Some? ==> field.value < |strings|
  {
    if field.None? then strings else Without(strings, field.value)
  }

  /** What an operation does if messages are values: exactly the message named changes.  After a parse
      that failed its value is not said. */
  predicate Step(s: Store, op: Op, t: Store) {
    if !Possible(s, op) then t == s else
    match op
    case NewInfo => t == s.(infos := s.infos + [NO_USER])
    case NewOuter => t == s.(outers := s.outers + [NO_FOCUS])
    case OnInfo(at, infoOp) => t == Put(s, at, AfterInfoOp(infoOp, Get(s, at)))
    case MergeInfo(at, source) => t == Put(s, at, MergeUser(Get(s, at), Get(s, source)))
    case CopyInfo(at, source) => t == Put(s, at, Get(s, source))
    case SwapInfo(at, other) => t == PutTwo(s, at, Get(s, other), other, Get(s, at))
    case ParseInfo(at, bytes) =>
      (match Parse(ApplyUser, Get(s, at), bytes)
       case Failed => In(t, at) && t == Put(s, at, Get(t, at))
       case Stopped(u, _) => t == Put(s, at, u))
    case ReleaseUsername(at) =>
      t.(strings := s.strings) == Put(s, at, Get(s, at).(username := None))
      && Released(s.strings, Get(s, at).username, t.strings)
    case SetAllocatedUsername(at, k) =>
      t == Put(s, at, Get(s, at).(username := Given(k, s.strings))).(strings := Left(k, s.strings))
    case DestroyInfo(i) => t == s.(infos := Without(s.infos, i))
    case OnType(f, typeOp) => t == PutOuter(s, f, AfterTypeOp(typeOp, s.outers[f]))
    case AddUi(f) => t == PutOuter(s, f, s.outers[f].(ui := s.outers[f].ui + [NO_USER]))
    case ClearUi(f) => t == PutOuter(s, f, s.outers[f].(ui := []))
    case ClearOuter(f) => t == PutOuter(s, f, NO_FOCUS)
    case MergeOuter(f, g) => t == PutOuter(s, f, MergeFocus(s.outers[f], s.outers[g]))
    case CopyOuter(f, g) => t == PutOuter(s, f, s.outers[g])
    case SwapOuter(f, g) => t == PutOuter(PutOuter(s, f, s.outers[g]), g, s.outers[f])
    case ParseOuter(f, bytes) =>
      (match Parse(ApplyFocus, s.outers[f], bytes)
       case Failed => f < |t.outers| && t == PutOuter(s, f, t.outers[f])
       case Stopped(v, _) => t == PutOuter(s, f, v))
    case ReleaseMsgtype(f) =>
      t.(strings := s.strings) == PutOuter(s, f, s.outers[f].(msgtype := None))
      && Released(s.strings, s.outers[f].msgtype, t.strings)
    case SetAllocatedMsgtype(f, k) =>
      t == PutOuter(s, f, s.outers[f].(msgtype := Given(k, s.strings))).(strings := Left(k, s.strings))
    case DestroyOuter(f) => t == s.(outers := Without(s.outers, f))
    case Make(value) => t == s.(strings := s.strings + [value])
    case Write(k, value) => t == s.(strings := s.strings[k := value])
    case Discard(k) => t == s.(strings := Without(s.strings, k))
  }

  /** They differ at most in what the messages of the nested type stand for. */
  predicate SameShape(s: Store, t: Store) {
    && |s.infos| == |t.infos| && |s.outers| == |t.outers| && s.strings == t.strings
    && forall k :: 0 <= k < |s.outers| ==>
         s.outers[k].msgtype == t.outers[k].msgtype && s.outers[k].unknown == t.outers[k].unknown
         && |s.outers[k].ui| == |t.outers[k].ui|
  }

  lemma SamePlaces(s: Store, t: Store)
    requires SameShape(s, t) && forall at :: In(s, at) ==> Get(s, at) == Get(t, at)
    ensures s == t
  {
    forall k | 0 <= k < |s.infos| ensures s.infos[k] == t.infos[k] {
      assert In(s, Alone(k));
    }
    forall k | 0 <= k < |s.outers| ensures s.outers[k] == t.outers[k] {
      forall l | 0 <= l < |s.outers[k].ui| ensures s.outers[k].ui[l] == t.outers[k].ui[l] {
        assert In(s, Inside(k, l));
      }
    }
  }

  lemma PutGet(s: Store, at: Place, u: UserInfo)
    requires In(s, at)
    ensures SameShape(s, Put(s, at, u))
    ensures forall b :: In(s, b) ==> Get(Put(s, at, u), b) == if b == at then u else Get(s, b)
  {
  }

  function PutTwo(s: Store, at: Place, u: UserInfo, b: Place, v: UserInfo): Store
    requires In(s, at) && In(s, b)
  {
    PutGet(s, at, u);
    Put(Put(s, at, u), b, v)
  }

  lemma PutTwoGet(s: Store, at: Place, u: UserInfo, b: Place, v: UserInfo)
    requires In(s, at) && In(s, b)
    ensures SameShape(s, PutTwo(s, at, u, b, v))
    ensures forall c :: In(s, c) ==>
              Get(PutTwo(s, at, u, b, v), c) == if c == b then v else if c == at then u else Get(s, c)
  {
    PutGet(s, at, u);
    PutGet(Put(s, at, u), b, v);
    hide Get, Put;
  }

  /** The values and the strings owned at some moment of a run. */
  datatype Moment = Moment(contents: Store, strings: set<CppString>)

  // ---- the objects ----

  ghost predicate Distinct<T>(s: seq<T>) {
    forall i, j :: 0 <= i < j < |s| ==> s[i] != s[j]
  }

  class Program {
    const arena: Arena
    /** The messages that stand alone, the outer ones, and the strings that callers own. */
    var infos: seq<Userinfo>
    var outers: seq<Focustm>
    var strings: seq<CppString>

    ghost predicate Valid()
      reads *
    {
      arena.Valid() && Roster()
    }

    /** The pointers of the program are those of the arena, each once. */
    ghost predicate Roster()
      reads this, arena`infos, arena`outers, arena`spare, arena`loose, arena`parent
    {
      MessagesOk() && StringsOk()
    }

    ghost predicate MessagesOk()
      reads this`infos, this`outers, arena`infos, arena`outers, arena`spare, arena`parent
    {
      && Distinct(infos) && Distinct(outers)
      && (forall m <- infos :: arena.InUse(m) && m !in arena.parent)
      && (forall m <- arena.infos :: m in infos || m in arena.parent)
      && (forall f <- outers :: f in arena.outers) && (forall f <- arena.outers :: f in outers)
    }

    ghost predicate StringsOk()
      reads this`strings, arena`loose
    {
      Distinct(strings) && (forall p <- strings :: p in arena.loose) && (forall p <- arena.loose :: p in strings)
    }

    function Contents(): (s: Store)
      reads *
      ensures |s.infos| == |infos| && |s.outers| == |outers| && |s.strings| == |strings|
    {
      Store(seq(|infos|, i requires 0 <= i < |infos| reads * => infos[i].Value()),
            seq(|outers|, i requires 0 <= i < |outers| reads * => outers[i].Value()),
            seq(|strings|, i requires 0 <= i < |strings| reads * => strings[i].chars))
    }

    predicate Here(at: Place)
      reads this, outers
    {
      match at
      case Alone(i) => i < |infos|
      case Inside(i, j) => i < |outers| && j < |outers[i].ui_|
    }

    function At(at: Place): Userinfo
      requires Here(at)
      reads this, outers
    {
      match at
      case Alone(i) => infos[i]
      case Inside(i, j) => outers[i].ui_[j]
    }

    constructor ()
      ensures Valid() && Contents() == Store([], [], []) && fresh(arena) && fresh(arena.Repr())
    {
      arena := new Arena();
      infos, outers, strings := [], [], [];
    }

    // ---- where a message is, and what changes with it ----

    /** The message at this place is at no other. */
    ghost predicate Located(at: Place)
      reads *
    {
      && Here(at)
      && (forall k :: 0 <= k < |infos| && infos[k] == At(at) ==> at == Alone(k))
      && (forall k, l :: 0 <= k < |outers| && 0 <= l < |outers[k].ui_| && outers[k].ui_[l] == At(at) ==>
            at == Inside(k, l))
    }

    lemma Locate(at: Place)
      requires Valid() && In(Contents(), at)
      ensures Located(at) && arena.InUse(At(at))
    {
      if at.Inside? {
        NestedIn(at.i);
      }
      assert arena.InUse(At(at)) && (at.Alone? <==> At(at) !in arena.parent);
      forall k, l | 0 <= k < |outers| && 0 <= l < |outers[k].ui_| && outers[k].ui_[l] == At(at)
        ensures at == Inside(k, l)
      {
        NestedIn(k);
      }
    }

    ghost predicate NestedAreIn(k: nat)
      requires k < |outers|
      reads this, outers, arena
    {
      var us := outers[k].ui_;
      && (forall u <- us :: arena.InUse(u) && u in arena.parent && arena.parent[u] == outers[k])
      && (forall i, j :: 0 <= i < j < |us| ==> us[i] != us[j])
    }

    lemma NestedIn(k: nat)
      requires Valid() && k < |outers|
      ensures NestedAreIn(k)
    {
      assert arena.OuterIn(outers[k]);
      var us, all := outers[k].ui_, outers[k].Nested();
      assert forall i :: 0 <= i < |us| ==> us[i] == all[i];
    }

    /** All pointers of the program, also those by way of an outer message, are known to the arena. */
    ghost predicate Pointers()
      reads *
    {
      && (forall k :: 0 <= k < |infos| ==> infos[k] in arena.infos && infos[k] !in arena.parent)
      && (forall k :: 0 <= k < |outers| ==> outers[k] in arena.outers)
      && (forall k :: 0 <= k < |strings| ==> strings[k] in arena.loose)
      && (forall k, l :: 0 <= k < |outers| && 0 <= l < |outers[k].ui_| ==>
            outers[k].ui_[l] in arena.infos && outers[k].ui_[l] in arena.parent
            && arena.parent[outers[k].ui_[l]] == outers[k])
    }

    lemma PointersOk()
      requires Valid()
      ensures Pointers()
    {
      forall k, l | 0 <= k < |outers| && 0 <= l < |outers[k].ui_|
        ensures outers[k].ui_[l] in arena.infos && outers[k].ui_[l] in arena.parent
        ensures arena.parent[outers[k].ui_[l]] == outers[k]
      {
        NestedIn(k);
        assert outers[k].ui_[l] in outers[k].ui_;
      }
      assert forall k :: 0 <= k < |infos| ==> infos[k] in infos;
      assert forall k :: 0 <= k < |outers| ==> outers[k] in outers;
      assert forall k :: 0 <= k < |strings| ==> strings[k] in strings;
      hide Arena.Valid;
    }

    twostate predicate SameTables()
      reads this
    {
      infos == old(infos) && outers == old(outers) && strings == old(strings)
    }

    /** An operation on messages of the nested type changes nothing but their values. */
    twostate lemma OnlyInfos(objs: set<Owner>)
      requires old(Pointers()) && SameTables() && arena.Untouched(objs) && forall o <- objs :: o.Info?
      ensures SameShape(old(Contents()), Contents())
      ensures forall at :: In(Contents(), at) ==>
                At(at) == old(At(at)) && (Info(At(at)) !in objs ==> Get(Contents(), at) == Get(old(Contents()), at))
    {
      assert forall k :: 0 <= k < |outers| ==> unchanged(outers[k]) && unchanged(outers[k].msgtype_);
      forall at | In(Contents(), at) && Info(At(at)) !in objs ensures At(at).Value() == old(At(at)).Value() {
        assert arena.InfoUntouched(At(at));
      }
      assert forall k :: 0 <= k < |strings| ==> strings[k].chars == old(strings[k].chars);
    }

    /** The value at its place is all that changes. */
    twostate lemma OneInfo(at: Place)
      requires old(Pointers() && Located(at)) && SameTables() && arena.Untouched({Info(old(At(at)))})
      ensures Contents() == Put(old(Contents()), at, old(At(at)).Value())
    {
      OnlyInfos({Info(old(At(at)))});
      var s, u := old(Contents()), old(At(at)).Value();
      PutGet(s, at, u);
      hide Arena.Untouched, Pointers, Put;
      forall b | In(Contents(), b) ensures Get(Contents(), b) == Get(Put(s, at, u), b) {
        assert Info(old(At(b))) == Info(old(At(at))) ==> b == at;
      }
      SamePlaces(Contents(), Put(s, at, u));
    }

    twostate lemma TwoInfos(c: (Place, Place))
      requires old(Pointers() && Located(c.0) && Located(c.1)) && SameTables()
      requires arena.Untouched({Info(old(At(c.0))), Info(old(At(c.1)))})
      ensures Contents() == PutTwo(old(Contents()), c.0, old(At(c.0)).Value(), c.1, old(At(c.1)).Value())
    {
      hide Arena.Untouched, Pointers, PutTwo, Get;
      OnlyInfos({Info(old(At(c.0))), Info(old(At(c.1)))});
      var s, u, v := old(Contents()), old(At(c.0)).Value(), old(At(c.1)).Value();
      PutTwoGet(s, c.0, u, c.1, v);
      forall b | In(Contents(), b) ensures Get(Contents(), b) == Get(PutTwo(s, c.0, u, c.1, v), b) {
        GetAt(b);
        assert Info(old(At(b))) == Info(old(At(c.0))) ==> b == c.0;
        assert Info(old(At(b))) == Info(old(At(c.1))) ==> b == c.1;
      }
      SamePlaces(Contents(), PutTwo(s, c.0, u, c.1, v));
    }

    ghost predicate NestedHere(i: nat)
      requires i < |outers|
      reads this, outers, arena
    {
      forall u <- outers[i].Nested() :: u in arena.parent && arena.parent[u] == outers[i]
    }

    /** An operation on one outer message, and on some of its nested ones, changes exactly its value. */
    twostate lemma OneOuter(c: (nat, seq<Userinfo>))
      requires old(Found(c.0)) && SameTables()
      requires arena.Untouched(Arena.Touched(Change(outers[c.0], c.1)))
      requires forall u <- c.1 :: u in old(outers[c.0].Nested())
      ensures Contents() == PutOuter(old(Contents()), c.0, outers[c.0].Value())
      ensures forall k :: 0 <= k < |infos| ==> arena.InfoUntouched(infos[k])
    {
      var objs := Arena.Touched(Change(outers[c.0], c.1));
      forall k | 0 <= k < |infos| ensures arena.InfoUntouched(infos[k]) {
        assert Info(infos[k]) !in objs;
      }
      forall k | 0 <= k < |outers| && k != c.0 ensures outers[k].Value() == old(outers[k].Value()) {
        assert Outer(outers[k]) !in objs;
        assert forall l :: 0 <= l < |outers[k].ui_| ==> Info(outers[k].ui_[l]) !in objs;
        assert Arena.NoneNested(outers[k], objs);
      }
    }

    /** New nested messages do not matter to the tables. */
    twostate lemma RosterKept(i: nat)
      requires i < |outers| && old(Roster()) && SameTables()
      requires arena.outers == old(arena.outers) && arena.loose == old(arena.loose)
      requires forall k :: 0 <= k < |infos| ==> arena.InfoUntouched(infos[k])
      requires arena.infos == old(arena.infos) + Objects(outers[i].Nested())
      requires arena.parent == Arena.SettledParent(old(arena.parent), outers[i])
      ensures Roster()
    {
    }

    lemma InfoFootprint(at: Place)
      requires Valid() && Located(at) && arena.InUse(At(at))
      ensures At(at).Owned() <= arena.owner.Keys
    {
      arena.OwnerOf(At(at));
    }

    lemma OuterFootprint(i: nat)
      requires Valid() && i < |outers|
      ensures outers[i] in arena.outers && outers[i].Owned() <= arena.owner.Keys
      ensures Objects(outers[i].Nested()) <= arena.infos
      ensures outers[i].Inner(outers[i].ui_) + outers[i].Inner(outers[i].spare) <= arena.owner.Keys
      ensures outers[i].Inner(outers[i].Nested()) <= arena.owner.Keys
    {
      assert outers[i] in outers;
      arena.OuterOwnerOf(outers[i]);
      outers[i].Both(outers[i].ui_, outers[i].spare);
    }

    lemma StringAt(k: nat)
      requires k < |strings|
      ensures Contents().strings[k] == strings[k].chars
    {
    }

    lemma GetAt(at: Place)
      requires Here(at)
      ensures In(Contents(), at) && Get(Contents(), at) == At(at).Value()
    {
    }

    // ---- operations on messages of the nested type ----

    lemma Find(at: Place)
      requires Valid() && In(Contents(), at)
      ensures Pointers() && Here(at) && Located(at) && arena.InUse(At(at)) && At(at).Owned() <= arena.owner.Keys
      ensures Get(Contents(), at) == At(at).Value()
    {
      Locate(at);
      GetAt(at);
      PointersOk();
      InfoFootprint(at);
      hide *;
    }

    method DoInfo(at: Place, op: InfoOp)
      requires Valid() && In(Contents(), at) && (op.SetUserid? ==> op.id < Wire.U32)
      modifies arena.Repr()
      ensures Valid() && arena.Accounted()
      ensures Contents() == Put(old(Contents()), at, AfterInfoOp(op, Get(old(Contents()), at)))
    {
      hide Arena.Valid, Arena.Untouched, Arena.Accounted, Contents, Located, Pointers, Roster, Put, Get, In;
      Find(at);
      ApplyInfoOp(At(at), op);
      OneInfo(at);
    }

    method ApplyInfoOp(m: Userinfo, op: InfoOp)
      requires arena.Valid() && arena.InUse(m) && (op.SetUserid? ==> op.id < Wire.U32)
      modifies arena`owner, m, m.Owned()
      ensures arena.Valid() && m.Value() == AfterInfoOp(op, old(m.Value()))
      ensures arena.Untouched({Info(m)}) && arena.Accounted()
    {
      hide Arena.Valid, Arena.Untouched, Arena.Accounted;
      match op
      case SetUserid(id) => arena.SetUserid(m, id);
      case ClearUserid => arena.ClearUserid(m);
      case SetUsername(name) => arena.SetUsername(m, name);
      case WriteUsername(name) => arena.WriteMutableUsername(m, name);
      case ClearUsername => arena.ClearUsername(m);
      case ClearInfo => arena.ClearInfo(m);
    }

    method DoMergeInfo(at: Place, source: Place)
      requires Valid() && In(Contents(), at) && In(Contents(), source) && at != source
      modifies arena.Repr()
      ensures Valid() && arena.Accounted()
      ensures Contents() ==
              Put(old(Contents()), at, MergeUser(Get(old(Contents()), at), Get(old(Contents()), source)))
    {
      hide Arena.Valid, Arena.Untouched, Arena.Accounted, Contents, Located, Pointers, Roster, Put, Get, In, MergeUser;
      Find(at);
      Find(source);
      Elsewhere(at, source);
      arena.MergeInfo(At(at), At(source));
      OneInfo(at);
    }

    lemma Elsewhere(at: Place, b: Place)
      requires Located(at) && Located(b) && at != b
      ensures At(at) != At(b)
    {
    }

    method DoCopyInfo(at: Place, source: Place)
      requires Valid() && In(Contents(), at) && In(Contents(), source)
      modifies arena.Repr()
      ensures Valid() && arena.Accounted()
      ensures Contents() == Put(old(Contents()), at, Get(old(Contents()), source))
    {
      hide Arena.Valid, Arena.Untouched, Arena.Accounted, Contents, Located, Pointers, Roster, Put, Get, In;
      Find(at);
      Find(source);
      arena.CopyInfo(At(at), At(source));
      OneInfo(at);
    }

    method DoParseInfo(at: Place, bytes: Bytes) returns (ok: bool)
      requires Valid() && In(Contents(), at)
      modifies arena.Repr()
      ensures Valid() && arena.Accounted()
      ensures match Parse(ApplyUser, Get(old(Contents()), at), bytes)
              case Failed => !ok && In(Contents(), at) && Contents() == Put(old(Contents()), at, Get(Contents(), at))
              case Stopped(u, _) => ok && Contents() == Put(old(Contents()), at, u)
    {
      hide Arena.Valid, Roster, Put, Get, In, Parse;
      var input := new CodedInput(bytes);
      assert Contents() == old(Contents());
      ok := ParseInfoFrom(at, input);
    }

    method ParseInfoFrom(at: Place, input: CodedInput) returns (ok: bool)
      requires Valid() && In(Contents(), at)
      modifies arena.Repr(), input
      ensures Valid() && arena.Accounted()
      ensures match Parse(ApplyUser, Get(old(Contents()), at), old(input.buf))
              case Failed => !ok && In(Contents(), at) && Contents() == Put(old(Contents()), at, Get(Contents(), at))
              case Stopped(u, _) => ok && Contents() == Put(old(Contents()), at, u)
    {
      hide Arena.Valid, Arena.Untouched, Arena.Accounted, Contents, Located, Pointers, Roster, Put, Get, In, Parse;
      Find(at);
      ok := arena.ParseInfo(At(at), input);
      OneInfo(at);
      SomeValue(old(Contents()), at, old(At(at)).Value());
    }

    lemma SomeValue(s: Store, at: Place, u: UserInfo)
      requires In(s, at)
      ensures In(Put(s, at, u), at) && Get(Put(s, at, u), at) == u
    {
    }

    method DoSwapInfo(at: Place, other: Place)
      requires Valid() && In(Contents(), at) && In(Contents(), other)
      modifies arena.Repr()
      ensures Valid() && arena.Accounted()
      ensures Contents() ==
              PutTwo(old(Contents()), at, Get(old(Contents()), other), other, Get(old(Contents()), at))
    {
      hide Arena.Valid, Arena.Untouched, Arena.Accounted, Contents, Located, Pointers, Roster, PutTwo, Get, In;
      Find(at);
      Find(other);
      arena.SwapInfo(At(at), At(other));
      TwoInfos((at, other));
    }

    // ---- operations on outer messages ----

    ghost predicate Found(i: nat)
      reads *
    {
      && i < |outers| && Roster() && Pointers() && NestedHere(i) && Contents().outers[i] == outers[i].Value()
    }

    lemma FindOuter(i: nat)
      requires Valid() && i < |outers|
      ensures Found(i) && forall u <- outers[i].ui_ + outers[i].spare :: u in outers[i].Nested()
      ensures outers[i] in arena.outers && outers[i].Owned() <= arena.owner.Keys
      ensures Objects(outers[i].ui_) + Objects(outers[i].spare) <= arena.infos
      ensures outers[i].Inner(outers[i].ui_) + outers[i].Inner(outers[i].spare) <= arena.owner.Keys
      ensures outers[i].Inner(outers[i].Nested()) <= arena.owner.Keys
    {
      PointersOk();
      OuterFootprint(i);
      arena.OuterOwnerOf(outers[i]);
    }

    /** After an operation on an outer message and the nested ones `c.1`, the tables are right and only
        its value has changed. */
    twostate lemma OuterDone(c: (nat, seq<Userinfo>))
      requires old(Found(c.0)) && SameTables() && arena.Untouched(Arena.Touched(Change(outers[c.0], c.1)))
      requires forall u <- c.1 :: u in old(outers[c.0].Nested())
      requires arena.outers == old(arena.outers) && arena.loose == old(arena.loose)
      requires arena.infos == old(arena.infos) + Objects(outers[c.0].Nested())
      requires arena.parent == Arena.SettledParent(old(arena.parent), outers[c.0])
      ensures Roster() && Contents() == PutOuter(old(Contents()), c.0, outers[c.0].Value())
    {
      hide Contents, Arena.Untouched, PutOuter;
      OneOuter(c);
      RosterKept(c.0);
    }

    method DoMergeOuter(i: nat, j: nat)
      requires Valid() && i < |outers| && j < |outers| && i != j
      modifies arena.Repr()
      ensures Valid() && arena.Accounted()
      ensures Contents() ==
              PutOuter(old(Contents()), i, MergeFocus(old(Contents()).outers[i], old(Contents()).outers[j]))
    {
      hide Arena.Valid, Arena.Untouched, Arena.Accounted, Contents, Found, Roster, PutOuter, MergeFocus, Arena.Infos,
        Focustm.Nested, Arena.SettledParent, Objects;
      FindOuter(i);
      FindOuter(j);
      ghost var c := (i, outers[i].spare);
      ValuesAt(i, j);
      arena.MergeOuter(outers[i], outers[j]);
      OuterDone(c);
    }

    lemma ValuesAt(i: nat, j: nat)
      requires Found(i) && Found(j)
      ensures Contents().outers[i] == outers[i].Value() && Contents().outers[j] == outers[j].Value()
      ensures i != j ==> outers[i] != outers[j]
    {
    }

    twostate lemma TypeDone(i: nat)
      requires old(Found(i)) && SameTables() && arena.Untouched({Outer(outers[i])})
      ensures Contents() == PutOuter(old(Contents()), i, outers[i].Value())
    {
      hide Contents, Arena.Untouched, PutOuter, Arena.Touched;
      arena.TouchedNone(outers[i]);
      OneOuter((i, []));
    }

    method DoType(i: nat, op: TypeOp)
      requires Valid() && i < |outers|
      modifies arena.Repr()
      ensures Valid() && arena.Accounted()
      ensures Contents() == PutOuter(old(Contents()), i, AfterTypeOp(op, old(Contents()).outers[i]))
    {
      hide Arena.Valid, Arena.Untouched, Arena.Accounted, Contents, Found, Roster, PutOuter;
      FindOuter(i);
      ValuesAt(i, i);
      ApplyTypeOp(outers[i], op);
      TypeDone(i);
    }

    method ApplyTypeOp(f: Focustm, op: TypeOp)
      requires arena.Valid() && f in arena.outers
      modifies arena`owner, f, f.Owned()
      ensures arena.Valid() && f.Value() == AfterTypeOp(op, old(f.Value()))
      ensures arena.Untouched({Outer(f)}) && arena.Accounted()
    {
      hide Arena.Valid, Arena.Untouched, Arena.Accounted, Focustm.Value;
      match op
      case SetMsgtype(value) => arena.SetMsgtype(f, value);
      case WriteMsgtype(value) => arena.WriteMutableMsgtype(f, value);
      case ClearMsgtype => arena.ClearMsgtype(f);
    }

    method DoAddUi(i: nat)
      requires Valid() && i < |outers|
      modifies arena.Repr()
      ensures Valid() && arena.Accounted()
      ensures Contents() ==
              PutOuter(old(Contents()), i, old(Contents()).outers[i].(ui := old(Contents()).outers[i].ui + [NO_USER]))
    {
      hide Arena.Valid, Arena.Untouched, Arena.Accounted, Contents, Found, Roster, PutOuter, Arena.Infos, Arena.Touched,
        Focustm.Nested, Arena.SettledParent, Objects, Focustm.Value;
      FindOuter(i);
      ValuesAt(i, i);
      var u := arena.AddUi(outers[i]);
      arena.TouchedNone(outers[i]);
      OuterDone((i, []));
    }

    method DoClearUi(i: nat)
      requires Valid() && i < |outers|
      modifies arena.Repr()
      ensures Valid() && arena.Accounted()
      ensures Contents() == PutOuter(old(Contents()), i, old(Contents()).outers[i].(ui := []))
    {
      hide Arena.Valid, Arena.Untouched, Arena.Accounted, Contents, Found, Roster, PutOuter, Arena.Infos,
        Focustm.Nested, Arena.SettledParent, Objects, Focustm.Value;
      FindOuter(i);
      ValuesAt(i, i);
      ghost var c := (i, outers[i].ui_);
      arena.ClearUi(outers[i]);
      OuterDone(c);
    }

    method DoClearOuter(i: nat)
      requires Valid() && i < |outers|
      modifies arena.Repr()
      ensures Valid() && arena.Accounted()
      ensures Contents() == PutOuter(old(Contents()), i, NO_FOCUS)
    {
      hide Arena.Valid, Arena.Untouched, Arena.Accounted, Contents, Found, Roster, PutOuter, Arena.Infos,
        Focustm.Nested, Arena.SettledParent, Objects, Focustm.Value;
      FindOuter(i);
      ghost var c := (i, outers[i].ui_);
      arena.ClearOuter(outers[i]);
      OuterDone(c);
    }

    method DoCopyOuter(i: nat, j: nat)
      requires Valid() && i < |outers| && j < |outers|
      modifies arena.Repr()
      ensures Valid() && arena.Accounted()
      ensures Contents() == PutOuter(old(Contents()), i, old(Contents()).outers[j])
    {
      hide Arena.Valid, Arena.Untouched, Arena.Accounted, Contents, Found, Roster, PutOuter, Arena.Infos, Arena.Touched,
        Focustm.Nested, Arena.SettledParent, Objects, Focustm.Value;
      FindOuter(i);
      FindOuter(j);
      ValuesAt(i, j);
      if i == j {
        arena.CopyOuter(outers[i], outers[i]);
        arena.TouchedNone(outers[i]);
        OuterDone((i, []));
      } else {
        CopyFromOther(i, j);
      }
    }

    method CopyFromOther(i: nat, j: nat)
      requires Valid() && i < |outers| && j < |outers| && i != j
      modifies arena.Repr()
      ensures Valid() && arena.Accounted()
      ensures Contents() == PutOuter(old(Contents()), i, old(Contents()).outers[j])
    {
      hide Arena.Valid, Arena.Untouched, Arena.Accounted, Contents, Found, Roster, PutOuter, Arena.Infos,
        Focustm.Nested, Arena.SettledParent, Objects, Focustm.Value;
      FindOuter(i);
      FindOuter(j);
      ValuesAt(i, j);
      ghost var c := (i, outers[i].Nested());
      arena.CopyOuter(outers[i], outers[j]);
      OuterDone(c);
    }

    method DoParseOuter(i: nat, bytes: Bytes) returns (ok: bool)
      requires Valid() && i < |outers|
      modifies arena.Repr()
      ensures Valid() && arena.Accounted()
      ensures match Parse(ApplyFocus, old(Contents()).outers[i], bytes)
              case Failed =>
                !ok && i < |Contents().outers| && Contents() == PutOuter(old(Contents()), i, Contents().outers[i])
              case Stopped(f, _) => ok && Contents() == PutOuter(old(Contents()), i, f)
    {
      hide Arena.Valid, Roster, Parse, Focustm.Value, PutOuter;
      var input := new CodedInput(bytes);
      assert Contents() == old(Contents());
      ok := ParseOuterFrom(i, input);
    }

    method ParseOuterFrom(i: nat, input: CodedInput) returns (ok: bool)
      requires Valid() && i < |outers|
      modifies arena.Repr(), input
      ensures Valid() && arena.Accounted()
      ensures match Parse(ApplyFocus, old(Contents()).outers[i], old(input.buf))
              case Failed =>
                !ok && i < |Contents().outers| && Contents() == PutOuter(old(Contents()), i, Contents().outers[i])
              case Stopped(f, _) => ok && Contents() == PutOuter(old(Contents()), i, f)
    {
      hide Arena.Valid, Arena.Untouched, Arena.Accounted, Contents, Found, Roster, PutOuter, Arena.Infos,
        Focustm.Nested, Arena.SettledParent, Objects, Focustm.Value, Parse;
      FindOuter(i);
      ValuesAt(i, i);
      ghost var c := (i, outers[i].spare);
      ok := arena.ParseOuter(outers[i], input);
      OuterDone(c);
      SomeOuter(old(Contents()), i, outers[i].Value());
    }

    lemma SomeOuter(s: Store, i: nat, f: FocusTm)
      requires i < |s.outers|
      ensures i < |PutOuter(s, i, f).outers| && PutOuter(s, i, f).outers[i] == f
    {
    }

    method DoSwapOuter(i: nat, j: nat)
      requires Valid() && i < |outers| && j < |outers|
      modifies arena.Repr()
      ensures Valid() && arena.Accounted()
      ensures Contents() ==
              PutOuter(PutOuter(old(Contents()), i, old(Contents()).outers[j]), j, old(Contents()).outers[i])
    {
      hide Arena.Valid, Arena.Untouched, Arena.Accounted, Contents, Found, PutOuter, Focustm.Value,
        Arena.ExchangedParent;
      FindOuter(i);
      FindOuter(j);
      ValuesAt(i, j);
      ghost var c := (i, j);
      arena.SwapOuter(outers[i], outers[j]);
      SwapDone(c);
    }

    twostate lemma SwapDone(c: (nat, nat))
      requires old(Found(c.0) && Found(c.1)) && SameTables()
      requires arena.Untouched({Outer(outers[c.0]), Outer(outers[c.1])})
      requires arena.infos == old(arena.infos) && arena.spare == old(arena.spare)
      requires arena.outers == old(arena.outers) && arena.loose == old(arena.loose)
      requires arena.parent == Arena.ExchangedParent(old(arena.parent), outers[c.0], outers[c.1])
      ensures Roster()
      ensures Contents() ==
              PutOuter(PutOuter(old(Contents()), c.0, outers[c.0].Value()), c.1, outers[c.1].Value())
    {
      var objs := {Outer(outers[c.0]), Outer(outers[c.1])};
      forall k | 0 <= k < |infos| ensures infos[k].Value() == old(infos[k].Value()) {
        assert arena.InfoUntouched(infos[k]);
      }
      forall k | 0 <= k < |outers| && k != c.0 && k != c.1 ensures outers[k].Value() == old(outers[k].Value()) {
        assert Outer(outers[k]) !in objs && Arena.NoneNested(outers[k], objs);
      }
    }

    // ---- operations that change the tables ----

    twostate lemma NothingTouched()
      requires old(Pointers()) && SameTables() && arena.InfosUntouched({}) && arena.OutersUntouched({})
      requires forall k :: 0 <= k < |strings| ==> strings[k].chars == old(strings[k].chars)
      ensures Contents() == old(Contents())
    {
      forall k | 0 <= k < |infos| ensures infos[k].Value() == old(infos[k].Value()) {
        assert arena.InfoUntouched(infos[k]);
      }
      forall k | 0 <= k < |outers| ensures outers[k].Value() == old(outers[k].Value()) {
        assert Arena.NoneNested(outers[k], {});
      }
    }

    method DoNewInfo()
      requires Valid()
      modifies this`infos, arena.Repr()
      ensures Valid() && arena.Accounted()
      ensures Contents() == old(Contents()).(infos := old(Contents()).infos + [NO_USER])
    {
      hide Arena.Valid, Contents, StringsOk, Pointers, Arena.InfosUntouched, Arena.OutersUntouched;
      PointersOk();
      var m := arena.NewInfo();
      NothingTouched();
      AddInfo(m);
    }

    method AddInfo(m: Userinfo)
      modifies this`infos
      ensures infos == old(infos) + [m]
      ensures Contents() == old(Contents()).(infos := old(Contents()).infos + [m.Value()])
    {
      infos := infos + [m];
      assert forall k :: 0 <= k < |old(infos)| ==> old(infos)[k].Value() == old(infos[k].Value());
      assert forall k :: 0 <= k < |old(outers)| ==> old(outers)[k].Value() == old(outers[k].Value());
    }

    method DoNewOuter()
      requires Valid()
      modifies this`outers, arena.Repr()
      ensures Valid() && arena.Accounted()
      ensures Contents() == old(Contents()).(outers := old(Contents()).outers + [NO_FOCUS])
    {
      hide Arena.Valid, Contents, StringsOk, Pointers, Arena.InfosUntouched, Arena.OutersUntouched;
      PointersOk();
      var f := arena.NewOuter();
      NothingTouched();
      AddOuter(f);
    }

    method AddOuter(f: Focustm)
      modifies this`outers
      ensures outers == old(outers) + [f]
      ensures Contents() == old(Contents()).(outers := old(Contents()).outers + [f.Value()])
    {
      outers := outers + [f];
      assert forall k :: 0 <= k < |old(infos)| ==> old(infos)[k].Value() == old(infos[k].Value());
      assert forall k :: 0 <= k < |old(outers)| ==> old(outers)[k].Value() == old(outers[k].Value());
    }

    method DoMake(value: Bytes)
      requires Valid()
      modifies this`strings, arena.Repr()
      ensures Valid() && arena.Accounted()
      ensures Contents() == old(Contents()).(strings := old(Contents()).strings + [value])
    {
      hide Arena.Valid, Contents, MessagesOk, Pointers, Arena.InfosUntouched, Arena.OutersUntouched;
      PointersOk();
      var p := arena.Make(value);
      NothingTouched();
      AddString(p);
    }

    method AddString(p: CppString)
      modifies this`strings
      ensures strings == old(strings) + [p]
      ensures Contents() == old(Contents()).(strings := old(Contents()).strings + [p.chars])
    {
      strings := strings + [p];
      assert forall k :: 0 <= k < |old(infos)| ==> old(infos)[k].Value() == old(infos[k].Value());
      assert forall k :: 0 <= k < |old(outers)| ==> old(outers)[k].Value() == old(outers[k].Value());
    }

    method DoWrite(k: nat, value: Bytes)
      requires Valid() && k < |strings|
      modifies arena.Repr()
      ensures Valid() && arena.Accounted()
      ensures Contents() == old(Contents()).(strings := old(Contents()).strings[k := value])
    {
      PointersOk();
      hide Arena.Valid, Arena.Accounted, Pointers, Arena.InfosUntouched, Arena.OutersUntouched;
      arena.WriteOwn(strings[k], value);
    }

    method DoDiscard(k: nat)
      requires Valid() && k < |strings|
      modifies this`strings, arena.Repr()
      ensures Valid() && arena.Accounted()
      ensures Contents() == old(Contents()).(strings := Without(old(Contents()).strings, k))
    {
      hide Arena.Valid, Contents, MessagesOk, Pointers, Arena.InfosUntouched, Arena.OutersUntouched;
      PointersOk();
      arena.Discard(strings[k]);
      NothingTouched();
      RemoveString(k);
    }

    method RemoveString(k: nat)
      requires k < |strings| && Distinct(strings)
      modifies this`strings
      ensures strings == Without(old(strings), k) && Distinct(strings)
      ensures forall p :: p in strings <==> p in old(strings) && p != old(strings)[k]
      ensures Contents() == old(Contents()).(strings := Without(old(Contents()).strings, k))
    {
      WithoutOne(strings, k);
      strings := strings[..k] + strings[k + 1..];
      assert forall k :: 0 <= k < |infos| ==> infos[k].Value() == old(infos[k].Value());
      assert forall k :: 0 <= k < |outers| ==> outers[k].Value() == old(outers[k].Value());
    }

    method RemoveInfo(i: nat)
      requires i < |infos| && Distinct(infos)
      modifies this`infos
      ensures infos == Without(old(infos), i) && Distinct(infos)
      ensures forall m :: m in infos <==> m in old(infos) && m != old(infos)[i]
      ensures Contents() == old(Contents()).(infos := Without(old(Contents()).infos, i))
    {
      WithoutOne(infos, i);
      assert forall k :: 0 <= k < |infos| ==> infos[k].Value() == old(infos[k].Value());
      infos := infos[..i] + infos[i + 1..];
      assert forall k :: 0 <= k < |outers| ==> outers[k].Value() == old(outers[k].Value());
    }

    method RemoveOuter(i: nat)
      requires i < |outers| && Distinct(outers)
      modifies this`outers
      ensures outers == Without(old(outers), i) && Distinct(outers)
      ensures forall f :: f in outers <==> f in old(outers) && f != old(outers)[i]
      ensures Contents() == old(Contents()).(outers := Without(old(Contents()).outers, i))
    {
      WithoutOne(outers, i);
      outers := outers[..i] + outers[i + 1..];
      assert forall k :: 0 <= k < |infos| ==> infos[k].Value() == old(infos[k].Value());
      assert forall k :: 0 <= k < |old(outers)| ==> old(outers)[k].Value() == old(outers[k].Value());
    }

    /** The other messages are where they were. */
    twostate lemma OthersStand(objs: set<Owner>)
      requires old(Roster()) && SameTables() && arena.InfosUntouched(objs)
      ensures forall m <- infos :: Info(m) !in objs ==> arena.InUse(m) && m !in arena.parent
      ensures forall m <- old(arena.infos) :: Info(m) !in objs ==> m in infos || m in arena.parent
    {
      forall m <- old(arena.infos) ensures Info(m) !in objs ==> arena.InfoUntouched(m) {
      }
    }

    method DoDestroyInfo(i: nat)
      requires Valid() && i < |infos|
      modifies this`infos, arena.Repr()
      ensures Valid() && arena.Accounted()
      ensures Contents() == old(Contents()).(infos := Without(old(Contents()).infos, i))
    {
      hide Arena.Valid, Contents, StringsOk, Pointers, Located, Arena.InfosUntouched, Arena.OutersUntouched;
      Find(Alone(i));
      var m := infos[i];
      arena.DestroyInfo(m);
      OneInfo(Alone(i));
      OthersStand({Info(m)});
      RemoveInfo(i);
    }

    method DoDestroyOuter(i: nat)
      requires Valid() && i < |outers|
      modifies this`outers, arena.Repr()
      ensures Valid() && arena.Accounted()
      ensures Contents() == old(Contents()).(outers := Without(old(Contents()).outers, i))
    {
      hide Arena.Valid, Contents, StringsOk;
      assert Distinct(outers) && forall f <- arena.outers :: f in outers;
      DestroyAt(i);
      RemoveOuter(i);
    }

    method DestroyAt(i: nat)
      requires Valid() && i < |outers|
      modifies arena.Repr()
      ensures arena.Valid() && arena.Accounted() && StringsOk() && arena.outers == old(arena.outers) - {outers[i]}
      ensures forall m <- infos :: arena.InUse(m) && m !in arena.parent
      ensures forall m <- arena.infos :: m in infos || m in arena.parent
      ensures exists f :: Contents() == PutOuter(old(Contents()), i, f)
    {
      hide Arena.Valid, Contents, Found, MessagesOk, StringsOk, Arena.InfosUntouched, Arena.OutersUntouched,
        Arena.Infos, Focustm.Value, Focustm.Nested, Focustm.Inner, Objects, PutOuter;
      FindOuter(i);
      var f := outers[i];
      ghost var us := f.Nested();
      Standing(i);
      arena.DestroyOuter(f);
      OneOuter((i, us));
      OthersStand({Outer(f)} + Arena.Infos(us));
    }

    /** No message that stands alone is nested. */
    lemma Standing(i: nat)
      requires Found(i)
      ensures forall m <- infos :: Info(m) !in {Outer(outers[i])} + Arena.Infos(outers[i].Nested())
      ensures forall m <- arena.infos ::
                m !in Objects(outers[i].Nested()) ==> Info(m) !in {Outer(outers[i])} + Arena.Infos(outers[i].Nested())
    {
    }

    // ---- strings that change hands ----

    method DoReleaseUsername(at: Place)
      requires Valid() && In(Contents(), at)
      modifies this`strings, arena.Repr()
      ensures Valid() && arena.Accounted()
      ensures Contents().(strings := old(Contents()).strings) ==
              Put(old(Contents()), at, Get(old(Contents()), at).(username := None))
      ensures Released(old(Contents()).strings, Get(old(Contents()), at).username, Contents().strings)
    {
      hide Arena.Valid, Contents, MessagesOk, Pointers, Here, Located, Arena.InfosUntouched, Arena.OutersUntouched,
        Put, Get, In;
      Find(at);
      arena.OwnerOf(At(at));
      var p := arena.ReleaseUsername(At(at));
      OneInfo(at);
      ghost var mid := Contents();
      if p != null {
        AddString(p);
      }
    }

    method DoSetAllocatedUsername(at: Place, k: Option<nat>)
      requires Valid() && In(Contents(), at) && (k.Some? ==> k.value < |strings|)
      modifies this`strings, arena.Repr()
      ensures Valid() && arena.Accounted()
      ensures Contents() ==
              Put(old(Contents()), at, Get(old(Contents()), at).(username := Given(k, old(Contents()).strings)))
                .(strings := Left(k, old(Contents()).strings))
    {
      hide Arena.Valid, Contents, MessagesOk, Pointers, Here, Located, Arena.InfosUntouched, Arena.OutersUntouched,
        Put, Get, In;
      Find(at);
      if k.None? {
        arena.SetAllocatedUsername(At(at), null);
        OneInfo(at);
      } else {
        StringAt(k.value);
        arena.SetAllocatedUsername(At(at), strings[k.value]);
        OneInfo(at);
        RemoveString(k.value);
      }
    }

    lemma TypeOf(i: nat)
      requires Valid() && i < |outers|
      ensures match outers[i].Value().msgtype
              case None => outers[i].msgtype_.chars == []
              case Some(value) => outers[i].msgtype_ != arena.kEmpty && outers[i].msgtype_.chars == value
    {
      assert outers[i] in outers;
      assert arena.OuterIn(outers[i]);
    }

    method DoReleaseMsgtype(i: nat)
      requires Valid() && i < |outers|
      modifies this`strings, arena.Repr()
      ensures Valid() && arena.Accounted()
      ensures Contents().(strings := old(Contents()).strings) ==
              PutOuter(old(Contents()), i, old(Contents()).outers[i].(msgtype := None))
      ensures Released(old(Contents()).strings, old(Contents()).outers[i].msgtype, Contents().strings)
    {
      hide Arena.Valid, Contents, Found, MessagesOk, Arena.InfosUntouched, Arena.OutersUntouched, Focustm.Nested,
        Focustm.Value;
      FindOuter(i);
      ValuesAt(i, i);
      TypeOf(i);
      var p := arena.ReleaseMsgtype(outers[i]);
      TypeDone(i);
      if p != null {
        AddString(p);
      }
    }

    method DoSetAllocatedMsgtype(i: nat, k: Option<nat>)
      requires Valid() && i < |outers| && (k.Some? ==> k.value < |strings|)
      modifies this`strings, arena.Repr()
      ensures Valid() && arena.Accounted()
      ensures Contents() ==
              PutOuter(old(Contents()), i, old(Contents()).outers[i].(msgtype := Given(k, old(Contents()).strings)))
                .(strings := Left(k, old(Contents()).strings))
    {
      hide Arena.Valid, Contents, Found, MessagesOk, Arena.InfosUntouched, Arena.OutersUntouched, Focustm.Nested,
        Focustm.Value;
      FindOuter(i);
      ValuesAt(i, i);
      if k.None? {
        arena.SetAllocatedMsgtype(outers[i], null);
        TypeDone(i);
      } else {
        StringAt(k.value);
        arena.SetAllocatedMsgtype(outers[i], strings[k.value]);
        TypeDone(i);
        RemoveString(k.value);
      }
    }

    // ---- programs ----

    method DoWithInfos(op: Op)
      requires Valid() && Possible(Contents(), op)
      requires op.NewInfo? || op.OnInfo? || op.MergeInfo? || op.CopyInfo? || op.SwapInfo?
               || op.ParseInfo? || op.DestroyInfo?
      modifies this, arena.Repr()
      ensures Valid() && Step(old(Contents()), op, Contents()) && arena.Accounted()
    {
      hide Arena.Valid, Roster, Contents, Put, Get, PutTwo, PutOuter, Released, Given, Left, Without, Parse;
      hide AfterInfoOp, AfterTypeOp, MergeUser, MergeFocus, Arena.Accounted;
      match op
      case NewInfo => DoNewInfo();
      case OnInfo(at, infoOp) => DoInfo(at, infoOp);
      case MergeInfo(at, source) => DoMergeInfo(at, source);
      case CopyInfo(at, source) => DoCopyInfo(at, source);
      case SwapInfo(at, other) => DoSwapInfo(at, other);
      case ParseInfo(at, bytes) => var _ := DoParseInfo(at, bytes);
      case DestroyInfo(i) => DoDestroyInfo(i);
    }

    method DoWithOuters(op: Op)
      requires Valid() && Possible(Contents(), op)
      requires op.NewOuter? || op.OnType? || op.AddUi? || op.ClearUi? || op.ClearOuter?
               || op.MergeOuter? || op.CopyOuter? || op.SwapOuter? || op.ParseOuter? || op.DestroyOuter?
      modifies this, arena.Repr()
      ensures Valid() && Step(old(Contents()), op, Contents()) && arena.Accounted()
    {
      hide Arena.Valid, Roster, Contents, Put, Get, PutTwo, PutOuter, Released, Given, Left, Without, Parse;
      hide AfterInfoOp, AfterTypeOp, MergeUser, MergeFocus, Arena.Accounted;
      match op
      case NewOuter => DoNewOuter();
      case OnType(f, typeOp) => DoType(f, typeOp);
      case AddUi(f) => DoAddUi(f);
      case ClearUi(f) => DoClearUi(f);
      case ClearOuter(f) => DoClearOuter(f);
      case MergeOuter(f, g) => DoMergeOuter(f, g);
      case CopyOuter(f, g) => DoCopyOuter(f, g);
      case SwapOuter(f, g) => DoSwapOuter(f, g);
      case ParseOuter(f, bytes) => var _ := DoParseOuter(f, bytes);
      case DestroyOuter(f) => DoDestroyOuter(f);
    }

    method DoWithStrings(op: Op)
      requires Valid() && Possible(Contents(), op)
      requires op.ReleaseUsername? || op.SetAllocatedUsername? || op.ReleaseMsgtype?
               || op.SetAllocatedMsgtype? || op.Make? || op.Write? || op.Discard?
      modifies this, arena.Repr()
      ensures Valid() && Step(old(Contents()), op, Contents()) && arena.Accounted()
    {
      hide Arena.Valid, Roster, Contents, Put, Get, PutTwo, PutOuter, Released, Given, Left, Without, Parse;
      hide AfterInfoOp, AfterTypeOp, MergeUser, MergeFocus, Arena.Accounted;
      match op
      case ReleaseUsername(at) => DoReleaseUsername(at);
      case SetAllocatedUsername(at, k) => DoSetAllocatedUsername(at, k);
      case ReleaseMsgtype(f) => DoReleaseMsgtype(f);
      case SetAllocatedMsgtype(f, k) => DoSetAllocatedMsgtype(f, k);
      case Make(value) => DoMake(value);
      case Write(k, value) => DoWrite(k, value);
      case Discard(k) => DoDiscard(k);
    }

    /** Performs an operation, unless it names something that is not there. */
    method Do(op: Op)
      requires Valid()
      modifies this, arena.Repr()
      ensures Valid() && Step(old(Contents()), op, Contents()) && arena.Accounted()
    {
      if !Possible(Contents(), op) {
        NothingLost();
        return;
      }
      hide *;
      match op
      case ReleaseUsername(_) => DoWithStrings(op);
      case SetAllocatedUsername(_, _) => DoWithStrings(op);
      case ReleaseMsgtype(_) => DoWithStrings(op);
      case SetAllocatedMsgtype(_, _) => DoWithStrings(op);
      case Make(_) => DoWithStrings(op);
      case Write(_, _) => DoWithStrings(op);
      case Discard(_) => DoWithStrings(op);
      case NewInfo => DoWithInfos(op);
      case OnInfo(_, _) => DoWithInfos(op);
      case MergeInfo(_, _) => DoWithInfos(op);
      case CopyInfo(_, _) => DoWithInfos(op);
      case SwapInfo(_, _) => DoWithInfos(op);
      case ParseInfo(_, _) => DoWithInfos(op);
      case DestroyInfo(_) => DoWithInfos(op);
      case _ => DoWithOuters(op);
    }

    twostate lemma NothingLost()
      requires unchanged(arena)
      ensures arena.Accounted()
    {
    }

    /** The strings that some message or caller owns. */
    ghost function InUse(): set<CppString>
      reads this, arena
    {
      arena.owner.Keys + arena.loose
    }

    lemma Live()
      requires Valid()
      ensures forall p <- InUse() :: !p.freed && p in arena.Repr()
    {
      forall p | p in arena.owner ensures !p.freed {
        assert arena.Points(p);
        match arena.owner[p]
        case Info(u) => assert arena.InfoIn(u);
        case Outer(f) => assert arena.OuterIn(f);
      }
    }

    /** Without messages and without strings of its own, a program owns no string. */
    lemma NothingLeft()
      requires Valid() && infos == [] && outers == [] && strings == []
      ensures InUse() == {}
    {
      assert arena.outers == {};
      assert forall u <- arena.parent :: arena.Linked(u);
      assert arena.infos == {};
      assert forall p <- arena.owner :: arena.Points(p);
    }

    ghost predicate NoneLost(trace: seq<Moment>)
      reads *
    {
      forall k, p :: 0 <= k < |trace| && p in trace[k].strings ==> p in InUse() || p.freed
    }

    /** Whatever operations are performed, in whatever order and on whichever messages: each changes what
        it says and nothing else, as if messages were values.  No string is lost on the way; a program
        that destroys its messages and strings in the end has freed every string it ever had. */
    method Run(ops: seq<Op>) returns (ghost trace: seq<Moment>)
      requires Valid()
      modifies this, arena.Repr()
      ensures Valid() && |trace| == |ops| + 1
      ensures trace[0] == Moment(old(Contents()), old(InUse())) && trace[|ops|] == Moment(Contents(), InUse())
      ensures forall k :: 0 <= k < |ops| ==> Step(trace[k].contents, ops[k], trace[k + 1].contents)
      ensures NoneLost(trace)
      ensures infos == [] && outers == [] && strings == [] ==>
                forall k, p :: 0 <= k < |trace| && p in trace[k].strings ==> p.freed
    {
      hide Arena.Valid, Roster, Contents, Step, InUse;
      trace := [Moment(Contents(), InUse())];
      var i := 0;
      while i < |ops|
        invariant 0 <= i <= |ops| && Valid() && |trace| == i + 1
        invariant trace[0] == Moment(old(Contents()), old(InUse())) && trace[i] == Moment(Contents(), InUse())
        invariant forall k :: 0 <= k < i ==> Step(trace[k].contents, ops[k], trace[k + 1].contents)
        invariant forall o <- arena.Repr() :: o in old(arena.Repr()) || fresh(o)
        invariant NoneLost(trace)
      {
        DoNext(ops[i], trace);
        trace := trace + [Moment(Contents(), InUse())];
        i := i + 1;
      }
      if infos == [] && outers == [] && strings == [] {
        NothingLeft();
      }
    }

    method DoNext(op: Op, ghost trace: seq<Moment>)
      requires Valid() && NoneLost(trace)
      modifies this, arena.Repr()
      ensures Valid() && Step(old(Contents()), op, Contents()) && NoneLost(trace)
      ensures forall o <- arena.Repr() :: o in old(arena.Repr()) || fresh(o)
      ensures forall p <- old(InUse()) :: p in InUse() || p.freed
    {
      Live();
      hide Arena.Valid, Roster, Contents, Step;
      Do(op);
    }
  }

  lemma WithoutOne<T>(s: seq<T>, i: nat)
    requires i < |s| && Distinct(s)
    ensures Distinct(Without(s, i))
    ensures forall x :: x in Without(s, i) <==> x in s && x != s[i]
  {
    var t := Without(s, i);
    assert forall k :: 0 <= k < |s| && k != i ==> s[k] == t[if k < i then k else k - 1];
  }
}
