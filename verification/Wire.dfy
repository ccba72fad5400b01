/**
 The primitives of the Protocol Buffers wire format that the generated code calls, after the
 Protocol Buffers Encoding specification (sections "Base 128 Varints", "Message Structure" and
 "Length-Delimited Records").  Groups are not part of this model.
 */
module Wire {
  import opened Bytes

  const U32 := 0x1_0000_0000
  const U64 := 0x1_0000_0000_0000_0000
  const MAX_LENGTH := 0x8000_0000
  const MAX_VARINT_BYTES := 10

  datatype Scan<+T> = Bad | Got(value: T, rest: Bytes)

  // ---- varints ----

  function Varint(n: nat): (b: Bytes)
    ensures |b| == VarintSize(n)
  {
    if n < 128 then [n] else [n % 128 + 128] + Varint(n / 128)
  }

  function VarintSize(n: nat): (k: nat)
    ensures k > 0
  {
    if n < 128 then 1 else 1 + VarintSize(n / 128)
  }

  function ReadVarint(b: Bytes, room: nat): (r: Scan<nat>)
    ensures r.Got? ==> |r.rest| < |b|
  {
    if room == 0 || b == [] then Bad
    else if b[0] < 128 then Got(b[0], b[1..])
    else match ReadVarint(b[1..], room - 1)
      case Bad => Bad
      case Got(v, rest) => Got(128 * v + (b[0] - 128), rest)
  }

  lemma {:induction false} ReadWrittenVarint(n: nat, room: nat, rest: Bytes)
    requires VarintSize(n) <= room
    ensures ReadVarint(Varint(n) + rest, room) == Got(n, rest)
  {
    if n < 128 {
      assert ([n] + rest)[1..] == rest;
    } else {
      assert (Varint(n) + rest)[1..] == Varint(n / 128) + rest;
      ReadWrittenVarint(n / 128, room - 1, rest);
    }
  }

  lemma {:induction false} ReadVarintMore(b: Bytes, room: nat, more: Bytes)
    requires ReadVarint(b, room).Got?
    ensures ReadVarint(b + more, room) == Got(ReadVarint(b, room).value, ReadVarint(b, room).rest + more)
  {
    assert (b + more)[1..] == b[1..] + more;
    if b[0] >= 128 {
      ReadVarintMore(b[1..], room - 1, more);
    }
  }

  lemma {:induction false} SizeMonotone(m: nat, n: nat)
    requires m <= n
    ensures VarintSize(m) <= VarintSize(n)
  {
    if m >= 128 {
      SizeMonotone(m / 128, n / 128);
    }
  }

  /** The minimal encoding of a value is never longer than the bytes it was read from. */
  lemma {:induction false} ReadVarintSize(b: Bytes, room: nat)
    requires ReadVarint(b, room).Got?
    ensures VarintSize(ReadVarint(b, room).value) + |ReadVarint(b, room).rest| <= |b|
    ensures VarintSize(ReadVarint(b, room).value) <= room
  {
    if b[0] >= 128 {
      ReadVarintSize(b[1..], room - 1);
      var v := ReadVarint(b[1..], room - 1).value;
      assert (128 * v + (b[0] - 128)) / 128 == v;
    }
  }

  /** The bound 128^k on values that take at most k bytes. */
  function Pow128(k: nat): (p: nat)
    ensures p > 0
  {
    if k == 0 then 1 else 128 * Pow128(k - 1)
  }

  // ---- the format of varints, without reference to how they are written or read ----

  /** What the lower seven bits of the byte at index `i` stand for. */
  function Group(x: byte, i: nat): nat {
    x % 128 * Pow128(i)
  }

  function Groups(b: Bytes): nat {
    if b == [] then 0 else Groups(b[..|b| - 1]) + Group(b[|b| - 1], |b| - 1)
  }

  /** Exactly the last byte has its upper bit clear. */
  predicate OneVarint(b: Bytes) {
    b != [] && forall i :: 0 <= i < |b| ==> (b[i] < 128 <==> i == |b| - 1)
  }

  lemma NextGroup(x: byte, i: nat)
    ensures Group(x, i + 1) == 128 * Group(x, i) && Group(x, 0) == x % 128
  {
  }

  lemma {:induction false} GroupsOfFirst(x: byte, b: Bytes)
    ensures Groups([x] + b) == x % 128 + 128 * Groups(b)
  {
    hide Group;
    var c, i := [x] + b, |b|;
    if b == [] {
      assert c[..0] == [];
      assert Groups(c[..0]) == 0;
      NextGroup(x, 0);
    } else {
      assert c[..i] == [x] + b[..i - 1];
      GroupsOfFirst(x, b[..i - 1]);
      NextGroup(b[i - 1], i - 1);
    }
  }

  /** A number is written as its digits to the base 128, the least significant first, without leading
      zeros, and every byte but the last has its upper bit set. */
  lemma {:induction false} VarintFormat(n: nat)
    ensures OneVarint(Varint(n)) && Groups(Varint(n)) == n
    ensures n > 0 ==> Varint(n)[|Varint(n)| - 1] != 0
  {
    hide Groups;
    if n < 128 {
      OneByte(n);
    } else {
      VarintFormat(n / 128);
      GroupsOfFirst(n % 128 + 128, Varint(n / 128));
    }
  }

  lemma {:induction false} VarintDigits(n: nat, i: nat)
    requires i < |Varint(n)|
    ensures Varint(n)[i] % 128 == n / Pow128(i) % 128
  {
    if i > 0 {
      VarintDigits(n / 128, i - 1);
      DivideTwice(n, Pow128(i - 1));
    }
  }

  lemma OneByte(x: byte)
    ensures Groups([x]) == x % 128
  {
    assert [x] == [x] + [];
    assert Groups([]) == 0;
    GroupsOfFirst(x, []);
  }

  lemma DivideTwice(n: nat, d: nat)
    requires d > 0
    ensures n / 128 / d == n / (128 * d)
  {
    var m := n / 128;
    var q, s := m / d, m % d;
    assert m == d * q + s;
    assert 128 * (d * q) == (128 * d) * q;
    SameQuotient(n, 128 * d, q, 128 * s + n % 128);
  }

  lemma SameQuotient(n: int, d: int, q: int, r: int)
    requires d > 0 && n == d * q + r && 0 <= r < d
    ensures n / d == q
  {
    var x := n / d - q;
    assert d * x == d * (n / d) - d * q;
    assert x >= 1 ==> d * x >= d;
    assert x <= -1 ==> d * x <= -d;
  }

  /** Reading takes the bytes up to the first with its upper bit clear, as long as there are no more
      than `room`, and gives the number that they stand for, leading zeros or not. */
  lemma {:induction false} ReadVarintFormat(b: Bytes, room: nat)
    ensures match ReadVarint(b, room)
            case Bad => forall i :: 0 <= i < |b| && i < room ==> b[i] >= 128
            case Got(n, rest) =>
              var k := |b| - |rest|;
              k <= room && rest == b[k..] && OneVarint(b[..k]) && n == Groups(b[..k])
  {
    hide Groups;
    if room == 0 || b == [] {
    } else if b[0] < 128 {
      assert b[..1] == [b[0]];
      OneByte(b[0]);
    } else {
      ReadVarintFormat(b[1..], room - 1);
      match ReadVarint(b[1..], room - 1)
      case Bad => assert forall i :: 1 <= i < |b| ==> b[i] == b[1..][i - 1];
      case Got(v, rest) =>
        var k := |b| - |rest|;
        var tail := b[1..][..k - 1];
        assert b[..k] == [b[0]] + tail;
        GroupsOfFirst(b[0], tail);
        LongerVarint(b[0], tail);
    }
  }

  lemma LongerVarint(x: byte, tail: Bytes)
    requires x >= 128 && OneVarint(tail)
    ensures OneVarint([x] + tail)
  {
    var b := [x] + tail;
    assert forall i :: 1 <= i < |b| ==> b[i] == tail[i - 1];
  }

  lemma {:induction false} SizeBound(n: nat, k: nat)
    requires k > 0 && n < Pow128(k)
    ensures VarintSize(n) <= k
  {
    if n >= 128 {
      SizeBound(n / 128, k - 1);
    }
  }

  lemma SizeBounds(n: nat)
    ensures n < U32 ==> VarintSize(n) <= 5
    ensures n < U64 ==> VarintSize(n) <= MAX_VARINT_BYTES
  {
    assert Pow128(5) == 128 * (128 * (128 * (128 * 128)));
    assert Pow128(10) == 128 * (128 * (128 * (128 * (128 * Pow128(5)))));
    if n < U32 {
      SizeBound(n, 5);
    }
    if n < U64 {
      SizeBound(n, 10);
    }
  }

  // ---- records ----

  datatype Payload =
    | VarintValue(v: nat)
    | Fixed64(raw: Bytes)
    | Delimited(data: Bytes)
    | Fixed32(raw: Bytes)

  /** One record of a message; an unknown field is kept as the record it was read from. */
  datatype Record = Record(number: nat, payload: Payload)

  function WireType(p: Payload): nat {
    match p
    case VarintValue(_) => 0
    case Fixed64(_) => 1
    case Delimited(_) => 2
    case Fixed32(_) => 5
  }

  function Tag(r: Record): nat {
    r.number * 8 + WireType(r.payload)
  }

  /** What a 64-bit varint, a fixed field and an `int` length can hold, under a 32-bit tag.  The tag
      zero ends a message, so the one record that would have it cannot be written. */
  predicate ValidRecord(r: Record) {
    && 0 < Tag(r) < U32
    && match r.payload
       case VarintValue(v) => v < U64
       case Fixed64(raw) => |raw| == 8
       case Delimited(data) => |data| < MAX_LENGTH
       case Fixed32(raw) => |raw| == 4
  }

  function EncodePayload(p: Payload): Bytes {
    match p
    case VarintValue(v) => Varint(v)
    case Fixed64(raw) => raw
    case Delimited(data) => Varint(|data|) + data
    case Fixed32(raw) => raw
  }

  function EncodeRecord(r: Record): Bytes {
    Varint(Tag(r)) + EncodePayload(r.payload)
  }

  function EncodeAll(rs: seq<Record>): Bytes {
    if rs == [] then [] else EncodeRecord(rs[0]) + EncodeAll(rs[1..])
  }

  lemma {:induction false} EncodeAllAppend(a: seq<Record>, b: seq<Record>)
    ensures EncodeAll(a + b) == EncodeAll(a) + EncodeAll(b)
  {
    if a == [] {
      assert a + b == b;
    } else {
      assert (a + b)[1..] == a[1..] + b;
      EncodeAllAppend(a[1..], b);
    }
  }

  lemma EncodeOne(r: Record)
    ensures EncodeAll([r]) == EncodeRecord(r)
  {
    assert EncodeAll([r]) == EncodeRecord(r) + EncodeAll([]);
  }

  /** The outcome of reading one record.  `BadTag` is the zero that ReadTag returns for a zero or
      malformed tag; only `End` is a legitimate end of the message. */
  datatype Reading =
    | End
    | BadTag
    | EndGroup
    | Malformed
    | Next(record: Record, rest: Bytes)

  function ReadTag(b: Bytes): (r: Scan<nat>)
    ensures r.Got? ==> |r.rest| < |b| && 0 < r.value < U32
  {
    match ReadVarint(b, MAX_VARINT_BYTES)
    case Bad => Bad
    case Got(v, rest) => if v % U32 == 0 then Bad else Got(v % U32, rest)
  }

  function Take(b: Bytes, n: nat): (r: Scan<Bytes>)
    ensures r.Got? ==> r.value + r.rest == b && |r.value| == n
  {
    if |b| < n then Bad else Got(b[..n], b[n..])
  }

  /** A length is a 32-bit varint; a record must fit in what is left of its message. */
  function ReadDelimited(b: Bytes): (r: Scan<Bytes>)
    ensures r.Got? ==> |r.rest| < |b|
  {
    match ReadVarint(b, MAX_VARINT_BYTES)
    case Bad => Bad
    case Got(n, rest) => Take(rest, n % U32)
  }

  function ReadPayload(wireType: nat, b: Bytes): (r: Scan<Payload>)
    ensures r.Got? ==> |r.rest| < |b| && WireType(r.value) == wireType
  {
    if wireType == 0 then
      match ReadVarint(b, MAX_VARINT_BYTES) case Bad => Bad case Got(v, rest) => Got(VarintValue(v % U64), rest)
    else if wireType == 1 then
      match Take(b, 8) case Bad => Bad case Got(raw, rest) => Got(Fixed64(raw), rest)
    else if wireType == 2 then
      match ReadDelimited(b) case Bad => Bad case Got(data, rest) => Got(Delimited(data), rest)
    else if wireType == 5 then
      match Take(b, 4) case Bad => Bad case Got(raw, rest) => Got(Fixed32(raw), rest)
    else
      Bad
  }

  function ReadRecord(b: Bytes): (r: Reading)
    ensures r.Next? ==> |r.rest| < |b|
  {
    if b == [] then End else
    match ReadTag(b)
    case Bad => BadTag
    case Got(tag, rest) =>
      if tag % 8 == 4 then EndGroup else
      match ReadPayload(tag % 8, rest)
      case Bad => Malformed
      case Got(payload, rest') => Next(Record(tag / 8, payload), rest')
  }

  // ---- the format of records ----

  lemma OneEnd(b: Bytes, j: nat, k: nat)
    requires j <= |b| && k <= |b| && OneVarint(b[..j]) && OneVarint(b[..k])
    ensures j == k
  {
    assert b[..j][j - 1] == b[j - 1] && b[..k][k - 1] == b[k - 1];
  }

  /** The varint at the front of the input is the only one there, if there is one. */
  lemma FirstVarint(b: Bytes)
    ensures match ReadVarint(b, MAX_VARINT_BYTES)
            case Bad => forall k :: 0 < k <= |b| && k <= 10 ==> !OneVarint(b[..k])
            case Got(n, rest) =>
              var k := |b| - |rest|;
              && k <= 10 && rest == b[k..] && OneVarint(b[..k]) && n == Groups(b[..k])
              && forall j :: 0 < j <= |b| && OneVarint(b[..j]) ==> j == k
  {
    hide Groups;
    ReadVarintFormat(b, MAX_VARINT_BYTES);
    match ReadVarint(b, MAX_VARINT_BYTES)
    case Bad => assert forall k :: 0 < k <= |b| ==> b[..k][k - 1] == b[k - 1];
    case Got(n, rest) =>
      forall j | 0 < j <= |b| && OneVarint(b[..j]) ensures j == |b| - |rest| {
        OneEnd(b, j, |b| - |rest|);
      }
  }

  /** A record is a varint of its number times eight plus its wire type, and then its value: a varint,
      eight bytes, a varint of the length and that many bytes, or four bytes. */
  lemma RecordFormat(r: Record) returns (tag: Bytes, value: Bytes)
    ensures EncodeRecord(r) == tag + value && OneVarint(tag)
    ensures match r.payload
            case VarintValue(v) => Groups(tag) == 8 * r.number && OneVarint(value) && Groups(value) == v
            case Fixed64(raw) => Groups(tag) == 8 * r.number + 1 && value == raw
            case Delimited(data) =>
              && Groups(tag) == 8 * r.number + 2
              && exists n :: 0 < n <= |value| && OneVarint(value[..n])
                   && Groups(value[..n]) == |data| && value[n..] == data
            case Fixed32(raw) => Groups(tag) == 8 * r.number + 5 && value == raw
  {
    tag, value := Varint(Tag(r)), EncodePayload(r.payload);
    VarintFormat(Tag(r));
    match r.payload
    case VarintValue(v) => VarintFormat(v);
    case Delimited(data) =>
      VarintFormat(|data|);
      var n := VarintSize(|data|);
      assert value[..n] == Varint(|data|) && value[n..] == data;
    case Fixed64(_) =>
    case Fixed32(_) =>
  }

  /** What follows a tag is read by its wire type, and only if it is all there: a varint of at most ten
      bytes, of which 64 bits count, eight bytes, a varint of which 32 bits count and as many bytes, or
      four bytes. */
  lemma ReadPayloadFormat(wireType: nat, b: Bytes)
    ensures match ReadPayload(wireType, b)
            case Bad =>
              (wireType == 0 ==> forall k :: 0 < k <= |b| && k <= 10 ==> !OneVarint(b[..k]))
              && (wireType == 1 ==> |b| < 8) && (wireType == 5 ==> |b| < 4)
              && (wireType == 2 ==>
                    forall k :: 0 < k <= |b| && k <= 10 && OneVarint(b[..k]) ==>
                                  |b| - k < Groups(b[..k]) % 0x1_0000_0000)
            case Got(p, rest) =>
              var k := |b| - |rest|;
              && rest == b[k..]
              && match p
                 case VarintValue(v) =>
                   wireType == 0 && k <= 10 && OneVarint(b[..k]) && v == Groups(b[..k]) % 0x1_0000_0000_0000_0000
                 case Fixed64(raw) => wireType == 1 && k == 8 && raw == b[..k]
                 case Delimited(data) =>
                   && wireType == 2 && |data| < k
                   && var n := k - |data|;
                      n <= 10 && OneVarint(b[..n]) && |data| == Groups(b[..n]) % 0x1_0000_0000 && data == b[n..k]
                 case Fixed32(raw) => wireType == 5 && k == 4 && raw == b[..k]
  {
    hide Groups, OneVarint, ReadVarint;
    FirstVarint(b);
  }

  /** Whatever is read as a record has that format, but that numbers may have leading zeros and upper
      bits, which are dropped; and there are four other ways that reading can go. */
  lemma ReadRecordFormat(b: Bytes)
    ensures ReadRecord(b).End? <==> b == []
    ensures ReadRecord(b).BadTag? <==>
              && b != []
              && forall k :: 0 < k <= |b| && k <= 10 && OneVarint(b[..k]) ==> Groups(b[..k]) % 0x1_0000_0000 == 0
    ensures ReadRecord(b).EndGroup? <==>
              exists k :: 0 < k <= |b| && k <= 10 && OneVarint(b[..k]) && Groups(b[..k]) % 0x1_0000_0000 % 8 == 4
    ensures ReadRecord(b).Malformed? ==>
              exists k :: 0 < k <= |b| && k <= 10 && OneVarint(b[..k])
                && Groups(b[..k]) % 0x1_0000_0000 % 8 != 4
                && ReadPayload(Groups(b[..k]) % 0x1_0000_0000 % 8, b[k..]).Bad?
    ensures ReadRecord(b).Next? ==>
              var r, rest := ReadRecord(b).record, ReadRecord(b).rest;
              exists k :: 0 < k <= |b| && k <= 10 && OneVarint(b[..k])
                && r.number == Groups(b[..k]) % 0x1_0000_0000 / 8
                && ReadPayload(Groups(b[..k]) % 0x1_0000_0000 % 8, b[k..]) == Got(r.payload, rest)
  {
    hide Groups, OneVarint, ReadVarint, ReadPayload;
    FirstVarint(b);
  }

  // ---- reading what was written ----

  lemma ReadWrittenPayload(p: Payload, rest: Bytes)
    requires ValidRecord(Record(1, p))
    ensures ReadPayload(WireType(p), EncodePayload(p) + rest) == Got(p, rest)
  {
    hide Varint, ReadVarint;
    match p
    case VarintValue(v) =>
      SizeBounds(v);
      ReadWrittenVarint(v, MAX_VARINT_BYTES, rest);
    case Delimited(data) =>
      SizeBounds(|data|);
      ReadWrittenVarint(|data|, MAX_VARINT_BYTES, data + rest);
      assert (Varint(|data|) + data) + rest == Varint(|data|) + (data + rest);
      assert (data + rest)[..|data|] == data && (data + rest)[|data|..] == rest;
    case Fixed64(raw) =>
      assert (raw + rest)[..8] == raw && (raw + rest)[8..] == rest;
    case Fixed32(raw) =>
      assert (raw + rest)[..4] == raw && (raw + rest)[4..] == rest;
  }

  lemma ReadWrittenRecord(r: Record, rest: Bytes)
    requires ValidRecord(r)
    ensures ReadRecord(EncodeRecord(r) + rest) == Next(r, rest)
  {
    hide EncodePayload, ReadPayload, Varint, ReadVarint;
    var payload := EncodePayload(r.payload) + rest;
    assert EncodeRecord(r) + rest == Varint(Tag(r)) + payload;
    SizeBounds(Tag(r));
    ReadWrittenVarint(Tag(r), MAX_VARINT_BYTES, payload);
    ReadWrittenPayload(r.payload, rest);
  }

  // ---- more input after a record does not change it ----

  lemma ReadPayloadMore(wireType: nat, b: Bytes, more: Bytes)
    requires ReadPayload(wireType, b).Got?
    ensures ReadPayload(wireType, b + more) ==
            Got(ReadPayload(wireType, b).value, ReadPayload(wireType, b).rest + more)
  {
    if wireType == 0 {
      ReadVarintMore(b, MAX_VARINT_BYTES, more);
    } else if wireType == 2 {
      ReadVarintMore(b, MAX_VARINT_BYTES, more);
      var n, rest := ReadVarint(b, MAX_VARINT_BYTES).value % U32, ReadVarint(b, MAX_VARINT_BYTES).rest;
      assert (rest + more)[..n] == rest[..n] && (rest + more)[n..] == rest[n..] + more;
    } else {
      var n := if wireType == 1 then 8 else 4;
      assert (b + more)[..n] == b[..n] && (b + more)[n..] == b[n..] + more;
    }
  }

  lemma ReadRecordMore(b: Bytes, more: Bytes)
    requires ReadRecord(b).Next?
    ensures ReadRecord(b + more) == Next(ReadRecord(b).record, ReadRecord(b).rest + more)
  {
    ReadVarintMore(b, MAX_VARINT_BYTES, more);
    var tag, rest := ReadTag(b).value, ReadTag(b).rest;
    ReadPayloadMore(tag % 8, rest, more);
  }

  // ---- what was read can be written, and takes no more room ----

  lemma ReadPayloadValid(wireType: nat, b: Bytes)
    requires ReadPayload(wireType, b).Got? && |b| < MAX_LENGTH
    ensures var p := ReadPayload(wireType, b).value;
            && ValidRecord(Record(1, p))
            && |EncodePayload(p)| + |ReadPayload(wireType, b).rest| <= |b|
  {
    if wireType == 0 || wireType == 2 {
      var v := ReadVarint(b, MAX_VARINT_BYTES).value;
      ReadVarintSize(b, MAX_VARINT_BYTES);
      SizeMonotone(v % U64, v);
      SizeMonotone(v % U32, v);
    }
  }

  lemma ReadRecordValid(b: Bytes)
    requires ReadRecord(b).Next? && |b| < MAX_LENGTH
    ensures ValidRecord(ReadRecord(b).record)
    ensures |EncodeRecord(ReadRecord(b).record)| + |ReadRecord(b).rest| <= |b|
  {
    var v := ReadVarint(b, MAX_VARINT_BYTES).value;
    ReadVarintSize(b, MAX_VARINT_BYTES);
    SizeMonotone(v % U32, v);
    ReadPayloadValid(ReadTag(b).value % 8, ReadTag(b).rest);
    assert Tag(ReadRecord(b).record) == v % U32;
  }

  // ---- sizes, as the generated code computes them before writing ----

  function PayloadSize(p: Payload): nat {
    match p
    case VarintValue(v) => VarintSize(v)
    case Fixed64(raw) => |raw|
    case Delimited(data) => VarintSize(|data|) + |data|
    case Fixed32(raw) => |raw|
  }

  function UnknownSize(rs: seq<Record>): nat {
    if rs == [] then 0 else VarintSize(Tag(rs[0])) + PayloadSize(rs[0].payload) + UnknownSize(rs[1..])
  }

  lemma {:induction false} UnknownSizeExact(rs: seq<Record>)
    ensures UnknownSize(rs) == |EncodeAll(rs)|
  {
    if rs != [] {
      UnknownSizeExact(rs[1..]);
    }
  }
}
