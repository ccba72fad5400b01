/** The coded streams that the generated code reads from and writes to, with the operations it
    calls.  Their behaviour is given by the wire-format primitives. */
module CodedStreams {
  import opened Bytes
  import opened Options
  import opened Wire

  class CodedInput {
    /** The bytes before the current limit, and those beyond it. */
    var buf: Bytes
    var beyond: Bytes
    /** Whether the last tag read was the legitimate end of the message. */
    var legitimateEnd: bool

    constructor (bytes: Bytes)
      ensures buf == bytes && beyond == []
    {
      buf, beyond, legitimateEnd := bytes, [], false;
    }

    /** Zero at the end of the message and for a zero or malformed tag. */
    method NextTag() returns (tag: nat)
      modifies this
      ensures beyond == old(beyond) && legitimateEnd == (old(buf) == [])
      ensures if old(buf) == [] || ReadTag(old(buf)).Bad? then tag == 0
              else Got(tag, buf) == ReadTag(old(buf))
      ensures legitimateEnd ==> buf == []
    {
      legitimateEnd := buf == [];
      tag := 0;
      if buf != [] {
        match ReadTag(buf)
        case Bad =>
        case Got(t, rest) => tag, buf := t, rest;
      }
    }

    method NextVarint32() returns (v: Option<nat>)
      modifies this
      ensures beyond == old(beyond) && legitimateEnd == old(legitimateEnd)
      ensures match ReadVarint(old(buf), MAX_VARINT_BYTES)
              case Bad => v.None?
              case Got(n, rest) => v == Some(n % U32) && buf == rest
    {
      match ReadVarint(buf, MAX_VARINT_BYTES)
      case Bad => v := None;
      case Got(n, rest) => v, buf := Some(n % U32), rest;
    }

    method NextString() returns (s: Option<Bytes>)
      modifies this
      ensures beyond == old(beyond) && legitimateEnd == old(legitimateEnd)
      ensures match ReadDelimited(old(buf))
              case Bad => s.None?
              case Got(data, rest) => s == Some(data) && buf == rest
    {
      match ReadDelimited(buf)
      case Bad => s := None;
      case Got(data, rest) => s, buf := Some(data), rest;
    }

    /** Reads the field that follows `tag`, to be kept as unknown. */
    method SkipField(tag: nat) returns (r: Option<Record>)
      modifies this
      ensures beyond == old(beyond) && legitimateEnd == old(legitimateEnd)
      ensures match ReadPayload(tag % 8, old(buf))
              case Bad => r.None?
              case Got(payload, rest) => r == Some(Record(tag / 8, payload)) && buf == rest
    {
      match ReadPayload(tag % 8, buf)
      case Bad => r := None;
      case Got(payload, rest) => r, buf := Some(Record(tag / 8, payload)), rest;
    }

    /** Takes the next byte if it is the one-byte tag expected.  May answer false although it is, when
        the byte is not in the stream's current buffer; a tag that is there in a longer encoding is
        not recognised. */
    method ExpectTag(tag: nat) returns (there: bool)
      requires tag < 128
      modifies this
      ensures beyond == old(beyond) && legitimateEnd == old(legitimateEnd)
      ensures old(buf) == if there then [tag] + buf else buf
    {
      var buffered: bool := *;
      there := buffered && buf != [] && buf[0] == tag;
      if there {
        buf := buf[1..];
      }
    }

    /** May answer false at the end, when the stream would have to be asked. */
    method ExpectAtEnd() returns (atEnd: bool)
      modifies this
      ensures buf == old(buf) && beyond == old(beyond)
      ensures atEnd ==> buf == []
      ensures legitimateEnd == (atEnd || old(legitimateEnd))
    {
      var known: bool := *;
      atEnd := known && buf == [];
      legitimateEnd := atEnd || legitimateEnd;
    }

    method PushLimit(n: nat) returns (outer: nat)
      requires n <= |buf|
      modifies this
      ensures buf == old(buf[..n]) && beyond == old(buf[n..]) + old(beyond) && outer == |old(beyond)|
    {
      outer := |beyond|;
      buf, beyond := buf[..n], buf[n..] + beyond;
    }

    method PopLimit(outer: nat)
      requires outer <= |beyond|
      modifies this
      ensures buf == old(buf) + old(beyond[..|beyond| - outer]) && beyond == old(beyond[|beyond| - outer..])
      ensures !legitimateEnd
    {
      buf, beyond := buf + beyond[..|beyond| - outer], beyond[|beyond| - outer..];
      legitimateEnd := false;
    }
  }

  class CodedOutput {
    var out: Bytes
    /** Whether the stream can hand out its buffer for direct writing. */
    const direct: bool

    constructor (direct: bool)
      ensures out == []
    {
      out := [];
      this.direct := direct;
    }

    method WriteRaw(b: Bytes)
      modifies this
      ensures out == old(out) + b
    {
      out := out + b;
    }
  }

  lemma Join3(before: Bytes, a: Bytes, b: Bytes, c: Bytes)
    ensures before + a + b + c == before + (a + b + c)
  {
  }

  /** `b` has been written at `at`, and the rest left as it was. */
  ghost predicate Written(after: Bytes, before: Bytes, at: nat, b: Bytes)
    requires at + |b| <= |before|
  {
    after == before[..at] + b + before[at + |b|..]
  }

  lemma WrittenThen(before: Bytes, mid: Bytes, after: Bytes, at: nat, a: Bytes, b: Bytes)
    requires at + |a| + |b| <= |before| && Written(mid, before, at, a) && Written(after, mid, at + |a|, b)
    ensures at + |a + b| <= |before| && Written(after, before, at, a + b)
  {
    assert mid[..at + |a|] == before[..at] + a;
    assert mid[at + |a| + |b|..] == before[at + |a| + |b|..];
  }

  /** Copies `b` to the array and returns the position behind it; `a` is what this writer has
      already put from `start` on. */
  method WriteToArray(b: Bytes, target: array<byte>, at: nat, ghost before: Bytes, ghost start: nat, ghost a: Bytes)
    returns (end: nat)
    requires at + |b| <= target.Length == |before|
    requires at == start + |a| && Written(target[..], before, start, a)
    modifies target
    ensures end == start + |a + b|
    ensures Written(target[..], before, start, a + b)
  {
    end := at + |b|;
    ghost var mid := target[..];
    forall i | 0 <= i < |b| {
      target[at + i] := b[i];
    }
    assert Written(target[..], mid, at, b);
    WrittenThen(before, mid, target[..], start, a, b);
  }
}
