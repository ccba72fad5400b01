/**
 The two generated messages on values: what parsing, serializing and merging mean.

 `Parse` is the plain loop that reads a tag and dispatches on field number and wire type.  A field
 that is not recognised by both is kept as an unknown record.
 */
module Messages {
  import opened Bytes
  import opened Options
  import opened Wire

  datatype UserInfo = UserInfo(userid: Option<nat>, username: Option<Bytes>, unknown: seq<Record>)

  datatype FocusTm = FocusTm(msgtype: Option<Bytes>, ui: seq<UserInfo>, unknown: seq<Record>)

  const NO_USER := UserInfo(None, None, [])
  const NO_FOCUS := FocusTm(None, [], [])

  // ---- parsing ----

  /** `Stopped` is a parse that returned true; only a `complete` one consumed the entire message. */
  datatype Parsed<M> = Failed | Stopped(message: M, complete: bool)

  function Parse<M>(apply: (M, Record) -> Option<M>, m: M, b: Bytes): Parsed<M>
    decreases |b|
  {
    match ReadRecord(b)
    case End => Stopped(m, true)
    case BadTag => Stopped(m, false)
    case EndGroup => Stopped(m, false)
    case Malformed => Failed
    case Next(r, rest) =>
      match apply(m, r)
      case None => Failed
      case Some(m') => Parse(apply, m', rest)
  }

  function ApplyUser(m: UserInfo, r: Record): (o: Option<UserInfo>)
    ensures o.Some?
  {
    if r.number == 1 && r.payload.VarintValue? then Some(m.(userid := Some(r.payload.v % U32)))
    else if r.number == 2 && r.payload.Delimited? then Some(m.(username := Some(r.payload.data)))
    else Some(m.(unknown := m.unknown + [r]))
  }

  function ApplyFocus(m: FocusTm, r: Record): Option<FocusTm> {
    if r.number == 1 && r.payload.Delimited? then Some(m.(msgtype := Some(r.payload.data)))
    else if r.number == 2 && r.payload.Delimited? then
      match Parse(ApplyUser, NO_USER, r.payload.data)
      case Stopped(u, true) => Some(m.(ui := m.ui + [u]))
      case _ => None
    else Some(m.(unknown := m.unknown + [r]))
  }

  /** One round of the loop after its tag has been read. */
  lemma ParseField<M>(apply: (M, Record) -> Option<M>, m: M, b: Bytes, tag: nat, rest: Bytes)
    requires b != [] && ReadTag(b) == Got(tag, rest)
    ensures Parse(apply, m, b) ==
            if tag % 8 == 4 then Stopped(m, false) else
            match ReadPayload(tag % 8, rest)
            case Bad => Failed
            case Got(payload, rest') =>
              (match apply(m, Record(tag / 8, payload)) case None => Failed case Some(m') => Parse(apply, m', rest'))
  {
  }

  lemma ParseEnd<M>(apply: (M, Record) -> Option<M>, m: M)
    ensures Parse(apply, m, []) == Stopped(m, true)
  {
  }

  /** Reading a `uint32` field: the upper bits of a longer varint are dropped. */
  lemma ReadUint32(m: UserInfo, b: Bytes)
    ensures ReadPayload(0, b).Bad? <==> ReadVarint(b, MAX_VARINT_BYTES).Bad?
    ensures match ReadVarint(b, MAX_VARINT_BYTES)
            case Bad => true
            case Got(n, rest) =>
              && ReadPayload(0, b) == Got(VarintValue(n % U64), rest)
              && ApplyUser(m, Record(1, VarintValue(n % U64))) == Some(m.(userid := Some(n % U32)))
  {
    hide ReadVarint;
    match ReadVarint(b, MAX_VARINT_BYTES)
    case Bad =>
    case Got(n, _) => LowBits(n);
  }

  lemma LowBits(n: nat)
    ensures n % U64 % U32 == n % U32
  {
    var q, r := n / U64, n % U64;
    UniqueRemainder(n, U32 * q + r / U32, r % U32);
  }

  lemma UniqueRemainder(n: nat, k: nat, r: nat)
    requires n == U32 * k + r && r < U32
    ensures n % U32 == r
  {
    assert U32 * (n / U32 - k) == r - n % U32;
  }

  // ---- serializing ----

  function UseridBytes(u: UserInfo): Bytes {
    if u.userid.Some? then EncodeRecord(Record(1, VarintValue(u.userid.value))) else []
  }

  function UsernameBytes(u: UserInfo): Bytes {
    if u.username.Some? then EncodeRecord(Record(2, Delimited(u.username.value))) else []
  }

  function EncodeUser(u: UserInfo): Bytes {
    UseridBytes(u) + UsernameBytes(u) + EncodeAll(u.unknown)
  }

  /** Tag and length in front of a nested message. */
  function NestedHeader(size: nat): Bytes {
    Varint(2 * 8 + 2) + Varint(size)
  }

  function EncodeNested(u: UserInfo): Bytes {
    NestedHeader(|EncodeUser(u)|) + EncodeUser(u)
  }

  /** The first `n` nested messages, as a loop over them writes them. */
  function NestedBytes(us: seq<UserInfo>, n: nat): Bytes
    requires n <= |us|
  {
    if n == 0 then [] else NestedBytes(us, n - 1) + EncodeNested(us[n - 1])
  }

  function MsgtypeBytes(f: FocusTm): Bytes {
    if f.msgtype.Some? then EncodeRecord(Record(1, Delimited(f.msgtype.value))) else []
  }

  function EncodeFocus(f: FocusTm): Bytes {
    MsgtypeBytes(f) + NestedBytes(f.ui, |f.ui|) + EncodeAll(f.unknown)
  }

  lemma MsgtypeSize(f: FocusTm)
    ensures |MsgtypeBytes(f)| ==
            if f.msgtype.Some? then 1 + (VarintSize(|f.msgtype.value|) + |f.msgtype.value|) else 0
  {
  }

  lemma {:induction false} NestedBytesGrow(us: seq<UserInfo>, n: nat)
    requires n <= |us|
    ensures NestedBytes(us, n) <= NestedBytes(us, |us|)
    decreases |us| - n
  {
    hide EncodeNested;
    if n < |us| {
      NestedBytesGrow(us, n + 1);
    }
  }

  // ---- the records that a serialized message consists of ----

  function UserRecords(u: UserInfo): seq<Record> {
    (if u.userid.Some? then [Record(1, VarintValue(u.userid.value))] else [])
    + (if u.username.Some? then [Record(2, Delimited(u.username.value))] else [])
    + u.unknown
  }

  function NestedRecords(us: seq<UserInfo>): (rs: seq<Record>)
    ensures |rs| == |us|
  {
    seq(|us|, i requires 0 <= i < |us| => Record(2, Delimited(EncodeUser(us[i]))))
  }

  function FocusRecords(f: FocusTm): seq<Record> {
    (if f.msgtype.Some? then [Record(1, Delimited(f.msgtype.value))] else [])
    + NestedRecords(f.ui)
    + f.unknown
  }

  lemma EncodeUserRecords(u: UserInfo)
    ensures EncodeUser(u) == EncodeAll(UserRecords(u))
  {
    var id := if u.userid.Some? then [Record(1, VarintValue(u.userid.value))] else [];
    var name := if u.username.Some? then [Record(2, Delimited(u.username.value))] else [];
    EncodeAllAppend(id + name, u.unknown);
    EncodeAllAppend(id, name);
    EncodeOne(Record(1, VarintValue(if u.userid.Some? then u.userid.value else 0)));
    EncodeOne(Record(2, Delimited(if u.username.Some? then u.username.value else [])));
  }

  lemma EncodeNestedRecord(u: UserInfo)
    ensures EncodeNested(u) == EncodeAll([Record(2, Delimited(EncodeUser(u)))])
  {
    var contents := EncodeUser(u);
    var r := Record(2, Delimited(contents));
    assert EncodeRecord(r) == Varint(18) + (Varint(|contents|) + contents);
    assert Varint(18) + (Varint(|contents|) + contents) == (Varint(18) + Varint(|contents|)) + contents;
    EncodeOne(r);
  }

  lemma EncodeNone()
    ensures EncodeAll([]) == []
  {
  }

  lemma {:induction false} EncodeNestedRecords(us: seq<UserInfo>, n: nat)
    requires n <= |us|
    ensures NestedBytes(us, n) == EncodeAll(NestedRecords(us)[..n])
  {
    hide EncodeUser, EncodeNested, EncodeAll;
    if n == 0 {
      assert EncodeAll([]) == [] by { EncodeNone(); }
    } else {
      var before, last := NestedRecords(us)[..n - 1], NestedRecords(us)[n - 1];
      EncodeNestedRecords(us, n - 1);
      EncodeNestedRecord(us[n - 1]);
      assert NestedRecords(us)[..n] == before + [last];
      EncodeAllAppend(before, [last]);
    }
  }

  lemma EncodeFocusRecords(f: FocusTm)
    ensures EncodeFocus(f) == EncodeAll(FocusRecords(f))
  {
    var mtype := if f.msgtype.Some? then [Record(1, Delimited(f.msgtype.value))] else [];
    EncodeNestedRecords(f.ui, |f.ui|);
    assert NestedRecords(f.ui)[..|f.ui|] == NestedRecords(f.ui);
    EncodeAllAppend(mtype + NestedRecords(f.ui), f.unknown);
    EncodeAllAppend(mtype, NestedRecords(f.ui));
    EncodeOne(Record(1, Delimited(if f.msgtype.Some? then f.msgtype.value else [])));
  }

  // ---- what is in a serialized message, as a reader that knows no message would see it ----

  /** The records that can be read one after the other, and the bytes where that ends. */
  function ReadRecords(b: Bytes): (seq<Record>, Bytes)
    decreases |b|
  {
    match ReadRecord(b)
    case Next(r, rest) => ([r] + ReadRecords(rest).0, ReadRecords(rest).1)
    case _ => ([], b)
  }

  lemma {:induction false} ReadRecordsWritten(rs: seq<Record>)
    requires forall r :: r in rs ==> ValidRecord(r)
    ensures ReadRecords(EncodeAll(rs)) == (rs, [])
  {
    hide ReadRecord;
    if rs == [] {
      assert EncodeAll([]) == [];
      NothingToRead();
    } else {
      ReadWrittenRecord(rs[0], EncodeAll(rs[1..]));
      ReadRecordsWritten(rs[1..]);
      assert rs == [rs[0]] + rs[1..];
    }
  }

  lemma NothingToRead()
    ensures ReadRecord([]) == End
  {
  }

  /** The set fields come first, in the order of their numbers, the userid as a varint under number 1
      and the username as bytes under number 2; the unknown records follow as they are. */
  lemma UserFields(u: UserInfo)
    requires ValidUser(u)
    ensures var id := if u.userid.Some? then [Record(1, VarintValue(u.userid.value))] else [];
            var name := if u.username.Some? then [Record(2, Delimited(u.username.value))] else [];
            ReadRecords(EncodeUser(u)) == (id + name + u.unknown, [])
  {
    EncodeUserRecords(u);
    ReadRecordsWritten(UserRecords(u)) by {
      forall r | r in UserRecords(u) ensures ValidRecord(r) {}
    }
    hide EncodeUser, EncodeAll, ReadRecords;
  }

  /** The type comes first, as bytes under number 1, then each nested message in order, as its own
      serialization under number 2, and then the unknown records. */
  lemma FocusFields(f: FocusTm)
    requires ValidFocus(f)
    ensures var mtype := if f.msgtype.Some? then [Record(1, Delimited(f.msgtype.value))] else [];
            var nested := seq(|f.ui|, i requires 0 <= i < |f.ui| => Record(2, Delimited(EncodeUser(f.ui[i]))));
            ReadRecords(EncodeFocus(f)) == (mtype + nested + f.unknown, [])
  {
    hide EncodeUser, EncodeFocus, EncodeAll, ReadRecords, ValidFocus;
    EncodeFocusRecords(f);
    FocusRecordsValid(f);
    ReadRecordsWritten(FocusRecords(f));
    assert NestedRecords(f.ui) == seq(|f.ui|, i requires 0 <= i < |f.ui| => Record(2, Delimited(EncodeUser(f.ui[i]))));
  }

  lemma FocusRecordsValid(f: FocusTm)
    requires ValidFocus(f)
    ensures forall r :: r in FocusRecords(f) ==> ValidRecord(r)
  {
    hide EncodeUser;
  }

  /** What the parser makes of any input: it applies the records in order, and what stops them decides.
      Only the end of the input makes the message complete; a group end and a zero or unreadable tag
      stop the parser without failure, anything else that is not a record fails it. */
  lemma {:induction false} ParseReadsRecords<M>(apply: (M, Record) -> Option<M>, m: M, b: Bytes)
    ensures var (rs, rest) := ReadRecords(b);
            Parse(apply, m, b) ==
            match ApplyAll(apply, m, rs)
            case None => Failed
            case Some(m') => if ReadRecord(rest).Malformed? then Failed else Stopped(m', rest == [])
    decreases |b|
  {
    match ReadRecord(b)
    case Next(r, rest) =>
      assert ([r] + ReadRecords(rest).0)[1..] == ReadRecords(rest).0;
      match apply(m, r) {
        case None =>
        case Some(m') => ParseReadsRecords(apply, m', rest);
      }
    case _ =>
  }

  // ---- merging ----

  function Last<T>(old_: Option<T>, new_: Option<T>): Option<T> {
    if new_.Some? then new_ else old_
  }

  function MergeUser(to: UserInfo, from: UserInfo): UserInfo {
    UserInfo(Last(to.userid, from.userid), Last(to.username, from.username), to.unknown + from.unknown)
  }

  function MergeFocus(to: FocusTm, from: FocusTm): FocusTm {
    FocusTm(Last(to.msgtype, from.msgtype), to.ui + from.ui, to.unknown + from.unknown)
  }

  // ---- messages that the types of the fields can hold ----

  predicate ValidUser(u: UserInfo) {
    && (u.userid.Some? ==> u.userid.value < U32)
    && (u.username.Some? ==> |u.username.value| < MAX_LENGTH)
    && forall r :: r in u.unknown ==> ValidRecord(r) && !UserField(r)
  }

  predicate UserField(r: Record) {
    (r.number == 1 && r.payload.VarintValue?) || (r.number == 2 && r.payload.Delimited?)
  }

  predicate ValidFocus(f: FocusTm) {
    && (f.msgtype.Some? ==> |f.msgtype.value| < MAX_LENGTH)
    && (forall u :: u in f.ui ==> ValidUser(u) && |EncodeUser(u)| < MAX_LENGTH)
    && forall r :: r in f.unknown ==> ValidRecord(r) && !FocusField(r)
  }

  predicate FocusField(r: Record) {
    (r.number == 1 || r.number == 2) && r.payload.Delimited?
  }

  // ---- the loop over concatenated input ----

  /** Parsing `a + b` is parsing `b` into the result of parsing `a`, whenever `a` is consumed to
      its end. */
  lemma {:induction false} ParseConcat<M>(apply: (M, Record) -> Option<M>, m: M, a: Bytes, b: Bytes)
    requires Parse(apply, m, a).Stopped? && Parse(apply, m, a).complete
    ensures Parse(apply, m, a + b) == Parse(apply, Parse(apply, m, a).message, b)
    decreases |a|
  {
    if a == [] {
      assert a + b == b;
    } else {
      ReadRecordMore(a, b);
      var step := ReadRecord(a);
      ParseConcat(apply, apply(m, step.record).value, step.rest, b);
    }
  }

  /** All the records applied one after the other. */
  function ApplyAll<M>(apply: (M, Record) -> Option<M>, m: M, rs: seq<Record>): Option<M> {
    if rs == [] then Some(m)
    else match apply(m, rs[0])
      case None => None
      case Some(m') => ApplyAll(apply, m', rs[1..])
  }

  lemma ApplyFirst<M>(apply: (M, Record) -> Option<M>, m: M, next: M, r: Record, rs: seq<Record>)
    requires apply(m, r) == Some(next)
    ensures ApplyAll(apply, m, [r] + rs) == ApplyAll(apply, next, rs)
  {
    assert ([r] + rs)[1..] == rs;
  }

  lemma {:induction false} ApplyAllAppend<M>(apply: (M, Record) -> Option<M>, m: M, a: seq<Record>, b: seq<Record>)
    requires ApplyAll(apply, m, a).Some?
    ensures ApplyAll(apply, m, a + b) == ApplyAll(apply, ApplyAll(apply, m, a).value, b)
  {
    if a == [] {
      assert a + b == b;
    } else {
      assert (a + b)[1..] == a[1..] + b;
      ApplyAllAppend(apply, apply(m, a[0]).value, a[1..], b);
    }
  }

  lemma {:induction false} ParseWritten<M>(apply: (M, Record) -> Option<M>, m: M, rs: seq<Record>)
    requires forall r :: r in rs ==> ValidRecord(r)
    requires ApplyAll(apply, m, rs).Some?
    ensures Parse(apply, m, EncodeAll(rs)) == Stopped(ApplyAll(apply, m, rs).value, true)
  {
    if rs != [] {
      ReadWrittenRecord(rs[0], EncodeAll(rs[1..]));
      ParseWritten(apply, apply(m, rs[0]).value, rs[1..]);
    }
  }

  // ---- writing a message and parsing it into another merges it ----

  lemma {:induction false} ApplyUnknownUser(m: UserInfo, rs: seq<Record>)
    requires forall r :: r in rs ==> !UserField(r)
    ensures ApplyAll(ApplyUser, m, rs) == Some(m.(unknown := m.unknown + rs))
    decreases |rs|
  {
    if rs == [] {
      assert m.unknown + [] == m.unknown;
    } else {
      var next := m.(unknown := m.unknown + [rs[0]]);
      assert rs[0] in rs && ApplyUser(m, rs[0]) == Some(next);
      ApplyUnknownUser(next, rs[1..]);
      assert next.unknown + rs[1..] == m.unknown + rs;
    }
  }

  lemma {:induction false} ApplyUnknownFocus(m: FocusTm, rs: seq<Record>)
    requires forall r :: r in rs ==> !FocusField(r)
    ensures ApplyAll(ApplyFocus, m, rs) == Some(m.(unknown := m.unknown + rs))
    decreases |rs|
  {
    if rs == [] {
      assert m.unknown + [] == m.unknown;
    } else {
      var next := m.(unknown := m.unknown + [rs[0]]);
      assert rs[0] in rs && ApplyFocus(m, rs[0]) == Some(next);
      ApplyUnknownFocus(next, rs[1..]);
      assert next.unknown + rs[1..] == m.unknown + rs;
    }
  }

  lemma ApplyUserRecords(m: UserInfo, u: UserInfo)
    requires ValidUser(u)
    ensures ApplyAll(ApplyUser, m, UserRecords(u)) == Some(MergeUser(m, u))
  {
    var id := if u.userid.Some? then [Record(1, VarintValue(u.userid.value))] else [];
    var name := if u.username.Some? then [Record(2, Delimited(u.username.value))] else [];
    var m1 := m.(userid := Last(m.userid, u.userid));
    var m2 := m1.(username := Last(m.username, u.username));
    assert ApplyAll(ApplyUser, m, id) == Some(m1);
    assert ApplyAll(ApplyUser, m1, name) == Some(m2);
    ApplyAllAppend(ApplyUser, m, id, name);
    ApplyUnknownUser(m2, u.unknown);
    ApplyAllAppend(ApplyUser, m, id + name, u.unknown);
  }

  lemma ParseEncodedUser(m: UserInfo, u: UserInfo)
    requires ValidUser(u)
    ensures Parse(ApplyUser, m, EncodeUser(u)) == Stopped(MergeUser(m, u), true)
  {
    ApplyUserRecords(m, u);
    EncodeUserRecords(u);
    forall r | r in UserRecords(u) ensures ValidRecord(r) {}
    ParseWritten(ApplyUser, m, UserRecords(u));
  }

  lemma ApplyOneNested(m: FocusTm, u: UserInfo)
    requires ValidUser(u)
    ensures ApplyFocus(m, Record(2, Delimited(EncodeUser(u)))) == Some(m.(ui := m.ui + [u]))
  {
    ParseEncodedUser(NO_USER, u);
    assert MergeUser(NO_USER, u) == u;
  }

  lemma {:induction false} ApplyNested(m: FocusTm, us: seq<UserInfo>)
    requires forall u :: u in us ==> ValidUser(u)
    ensures ApplyAll(ApplyFocus, m, NestedRecords(us)) == Some(m.(ui := m.ui + us))
    decreases |us|
  {
    hide EncodeUser, ApplyFocus;
    if us == [] {
      assert m.ui + [] == m.ui;
    } else {
      var next, first := m.(ui := m.ui + [us[0]]), Record(2, Delimited(EncodeUser(us[0])));
      assert next.(ui := next.ui + us[1..]) == m.(ui := m.ui + us);
      assert NestedRecords(us) == [first] + NestedRecords(us[1..]);
      ApplyNested(next, us[1..]);
      assert ApplyAll(ApplyFocus, m, NestedRecords(us)) == ApplyAll(ApplyFocus, next, NestedRecords(us[1..])) by {
        ApplyOneNested(m, us[0]);
        ApplyFirst(ApplyFocus, m, next, first, NestedRecords(us[1..]));
      }
    }
  }

  lemma ApplyFocusRecords(m: FocusTm, f: FocusTm)
    requires ValidFocus(f)
    ensures ApplyAll(ApplyFocus, m, FocusRecords(f)) == Some(MergeFocus(m, f))
  {
    var mtype := if f.msgtype.Some? then [Record(1, Delimited(f.msgtype.value))] else [];
    var m1 := m.(msgtype := Last(m.msgtype, f.msgtype));
    assert ApplyAll(ApplyFocus, m, mtype) == Some(m1);
    ApplyNested(m1, f.ui);
    ApplyAllAppend(ApplyFocus, m, mtype, NestedRecords(f.ui));
    ApplyUnknownFocus(m1.(ui := m.ui + f.ui), f.unknown);
    ApplyAllAppend(ApplyFocus, m, mtype + NestedRecords(f.ui), f.unknown);
  }

  lemma ParseEncodedFocus(m: FocusTm, f: FocusTm)
    requires ValidFocus(f)
    ensures Parse(ApplyFocus, m, EncodeFocus(f)) == Stopped(MergeFocus(m, f), true)
  {
    ApplyFocusRecords(m, f);
    EncodeFocusRecords(f);
    forall r | r in FocusRecords(f) ensures ValidRecord(r) {}
    ParseWritten(ApplyFocus, m, FocusRecords(f));
  }

  /** Parsing a serialized message returns it: values, presence and unknown fields in order. */
  lemma RoundTrip(f: FocusTm)
    requires ValidFocus(f)
    ensures Parse(ApplyFocus, NO_FOCUS, EncodeFocus(f)) == Stopped(f, true)
  {
    hide Parse, EncodeFocus;
    ParseEncodedFocus(NO_FOCUS, f);
    assert MergeFocus(NO_FOCUS, f) == f;
  }

  /** Concatenating two serialized messages is merging them. */
  lemma ConcatIsMerge(f: FocusTm, g: FocusTm)
    requires ValidFocus(f) && ValidFocus(g)
    ensures Parse(ApplyFocus, NO_FOCUS, EncodeFocus(f) + EncodeFocus(g)) == Stopped(MergeFocus(f, g), true)
  {
    RoundTrip(f);
    ParseConcat(ApplyFocus, NO_FOCUS, EncodeFocus(f), EncodeFocus(g));
    ParseEncodedFocus(f, g);
  }

  // ---- whatever was accepted can be written and read again ----

  lemma ApplyUserValid(m: UserInfo, r: Record)
    requires ValidUser(m) && ValidRecord(r)
    ensures ValidUser(ApplyUser(m, r).value)
    ensures |EncodeUser(ApplyUser(m, r).value)| <= |EncodeUser(m)| + |EncodeRecord(r)|
  {
    hide EncodeUser, EncodeAll;
    var m' := ApplyUser(m, r).value;
    UserSize(m);
    UserSize(m');
    if r.number == 1 && r.payload.VarintValue? {
      SizeMonotone(r.payload.v % U32, r.payload.v);
      hide Varint;
    } else if !UserField(r) {
      hide EncodeRecord;
      EncodeAllAppend(m.unknown, [r]);
      EncodeOne(r);
    }
  }

  lemma UserSize(u: UserInfo)
    ensures |EncodeUser(u)| ==
            (if u.userid.Some? then 1 + VarintSize(u.userid.value) else 0)
            + (if u.username.Some? then 1 + VarintSize(|u.username.value|) + |u.username.value| else 0)
            + |EncodeAll(u.unknown)|
  {
  }

  lemma {:induction false} ParseUserValid(m: UserInfo, b: Bytes)
    requires ValidUser(m) && |b| < MAX_LENGTH
    requires Parse(ApplyUser, m, b).Stopped?
    ensures var u := Parse(ApplyUser, m, b).message;
            ValidUser(u) && |EncodeUser(u)| <= |EncodeUser(m)| + |b|
    decreases |b|
  {
    var step := ReadRecord(b);
    if step.Next? {
      ReadRecordValid(b);
      ApplyUserValid(m, step.record);
      ParseUserValid(ApplyUser(m, step.record).value, step.rest);
    }
  }

  lemma ApplyFocusValid(m: FocusTm, r: Record)
    requires ValidFocus(m) && ValidRecord(r) && ApplyFocus(m, r).Some?
    ensures ValidFocus(ApplyFocus(m, r).value)
  {
    if r.number == 2 && r.payload.Delimited? {
      ParseUserValid(NO_USER, r.payload.data);
      assert EncodeUser(NO_USER) == [];
    }
  }

  lemma {:induction false} ParseFocusValid(m: FocusTm, b: Bytes)
    requires ValidFocus(m) && |b| < MAX_LENGTH
    requires Parse(ApplyFocus, m, b).Stopped?
    ensures ValidFocus(Parse(ApplyFocus, m, b).message)
    decreases |b|
  {
    var step := ReadRecord(b);
    if step.Next? {
      ReadRecordValid(b);
      ApplyFocusValid(m, step.record);
      ParseFocusValid(ApplyFocus(m, step.record).value, step.rest);
    }
  }

  /** Any accepted input, however encoded, stands for a message that serializes and parses back to
      itself: nothing the parser took in is lost by writing it out. */
  lemma AcceptedInputIsStable(b: Bytes)
    requires |b| < 0x8000_0000 && Parse(ApplyFocus, NO_FOCUS, b).Stopped?
    ensures var f := Parse(ApplyFocus, NO_FOCUS, b).message;
            Parse(ApplyFocus, NO_FOCUS, EncodeFocus(f)) == Stopped(f, true)
  {
    ParseFocusValid(NO_FOCUS, b);
    RoundTrip(Parse(ApplyFocus, NO_FOCUS, b).message);
  }

  /** The messages of this size that the laws above are about are exactly those that some input
      stands for. */
  lemma ValidExactlyIfParsed(f: FocusTm)
    requires |EncodeFocus(f)| < 0x8000_0000
    ensures ValidFocus(f) <==>
            exists b: Bytes :: |b| < 0x8000_0000 && Parse(ApplyFocus, NO_FOCUS, b) == Stopped(f, true)
  {
    hide Parse, EncodeFocus, EncodeUser;
    if ValidFocus(f) {
      RoundTrip(f);
    }
    if b: Bytes :| |b| < 0x8000_0000 && Parse(ApplyFocus, NO_FOCUS, b) == Stopped(f, true) {
      ParseFocusValid(NO_FOCUS, b);
    }
  }
}
