/**
 The generated message classes as objects: fields, presence bits and owned strings that the
 accessors, the parser and the serializers change in place.

 A string field points to the shared empty string until it is first set.  `freed` records a
 `delete`; it is never read by the code.
 */
module MessageObjects {
  import opened Bytes
  import opened Options
  import opened Wire
  import opened Messages
  import opened CodedStreams

  class CppString {
    var chars: Bytes
    ghost var freed: bool

    constructor ()
      ensures chars == [] && !freed
    {
      chars, freed := [], false;
    }

    ghost method Delete()
      requires !freed
      modifies this`freed
      ensures freed
    {
      freed := true;
    }
  }

  /** How a round of a parser's loop ends. */
  datatype Round = Continue(taken: bool) | Return | Fail

  /** The tag of field 2 with a length-delimited value. */
  const TAG_2 := 18

  /** What the plain loop would still see: a tag that the fast path has taken counts as unread. */
  function Ahead(taken: bool, buf: Bytes): Bytes {
    if taken then [TAG_2] + buf else buf
  }

  lemma TakenTag(buf: Bytes)
    ensures ReadTag(Ahead(true, buf)) == Got(TAG_2, buf)
  {
    assert Ahead(true, buf)[1..] == buf;
  }

  class Userinfo {
    const kEmpty: CppString
    var userid_: nat
    var username_: CppString
    var hasUserid: bool
    var hasUsername: bool
    var unknown: seq<Record>
    var cachedSize: nat

    /** An unset presence bit implies the default value, a set one a string of its own, and no string in
        use has been freed. */
    ghost predicate Valid()
      reads this, kEmpty, username_
    {
      && kEmpty.chars == [] && !kEmpty.freed && !username_.freed
      && userid_ < U32
      && (!hasUserid ==> userid_ == 0)
      && (if hasUsername then username_ != kEmpty else username_.chars == [])
    }

    function Value(): UserInfo
      reads this, username_
    {
      UserInfo(if hasUserid then Some(userid_) else None,
               if hasUsername then Some(username_.chars) else None,
               unknown)
    }

    /** The string this message has to free: never the shared empty one. */
    function Owned(): (s: set<CppString>)
      reads this
      ensures kEmpty !in s
    {
      if username_ == kEmpty then {} else {username_}
    }

    constructor (kEmpty: CppString)
      requires kEmpty.chars == [] && !kEmpty.freed
      ensures this.kEmpty == kEmpty && Valid() && Value() == NO_USER && Owned() == {}
    {
      this.kEmpty := kEmpty;
      cachedSize, userid_, username_ := 0, 0, kEmpty;
      hasUserid, hasUsername, unknown := false, false, [];
    }

    method Destroy()
      requires Valid()
      modifies Owned()
      ensures forall p :: p in Owned() ==> p.freed
    {
      if username_ != kEmpty {
        username_.Delete();
      }
    }

    method SetUserid(value: nat)
      requires Valid() && value < U32
      modifies this`userid_, this`hasUserid
      ensures Valid() && Value() == old(Value()).(userid := Some(value))
    {
      hasUserid, userid_ := true, value;
    }

    method ClearUserid()
      requires Valid()
      modifies this`userid_, this`hasUserid
      ensures Valid() && Value() == old(Value()).(userid := None)
    {
      userid_, hasUserid := 0, false;
    }

    /** Makes the field present and gives the caller its string to write. */
    method MutableUsername() returns (p: CppString)
      requires Valid()
      modifies this`username_, this`hasUsername
      ensures Valid() && p == username_ && p != kEmpty
      ensures p.chars == old(username_.chars) && Value() == old(Value()).(username := Some(p.chars))
      ensures if old(username_) == kEmpty then fresh(p) else p == old(username_)
    {
      hasUsername := true;
      if username_ == kEmpty {
        username_ := new CppString();
      }
      p := username_;
    }

    method SetUsername(value: Bytes)
      requires Valid()
      modifies this`username_, this`hasUsername, Owned()
      ensures Valid() && username_ != kEmpty && Value() == old(Value()).(username := Some(value))
      ensures if old(username_) == kEmpty then fresh(username_) else username_ == old(username_)
    {
      hasUsername := true;
      if username_ == kEmpty {
        username_ := new CppString();
      }
      username_.chars := value;
    }

    /** Keeps the string for reuse, but empties it. */
    method ClearUsername()
      requires Valid()
      modifies this`hasUsername, Owned()
      ensures Valid() && username_ == old(username_) && Value() == old(Value()).(username := None)
    {
      if username_ != kEmpty {
        username_.chars := [];
      }
      hasUsername := false;
    }

    /** Hands the string over to the caller; null if there was none. */
    method ReleaseUsername() returns (p: CppString?)
      requires Valid()
      modifies this`username_, this`hasUsername
      ensures Valid() && username_ == kEmpty && Value() == old(Value()).(username := None)
      ensures p == if old(username_) == kEmpty then null else old(username_)
    {
      hasUsername := false;
      if username_ == kEmpty {
        p := null;
      } else {
        p := username_;
        username_ := kEmpty;
      }
    }

    /** Takes over a string of the caller's, or none; the former string is freed. */
    method SetAllocatedUsername(p: CppString?)
      requires Valid() && (p != null ==> !p.freed && p != kEmpty && p != username_)
      modifies this`username_, this`hasUsername, Owned()
      ensures Valid() && username_ == (if p == null then kEmpty else p)
      ensures Value() == old(Value()).(username := if p == null then None else Some(p.chars))
      ensures forall q :: q in old(Owned()) ==> q.freed
    {
      if username_ != kEmpty {
        username_.Delete();
      }
      if p != null {
        hasUsername, username_ := true, p;
      } else {
        hasUsername, username_ := false, kEmpty;
      }
    }

    method Clear()
      requires Valid()
      modifies this, Owned()
      ensures Valid() && Value() == NO_USER && username_ == old(username_) && cachedSize == old(cachedSize)
    {
      if hasUserid || hasUsername {
        userid_ := 0;
        if hasUsername {
          if username_ != kEmpty {
            username_.chars := [];
          }
        }
      }
      hasUserid, hasUsername := false, false;
      unknown := [];
    }

    method MergeFrom(from: Userinfo)
      requires Valid() && from != this && from.Valid() && from.kEmpty == kEmpty && from.Owned() !! Owned()
      modifies this, Owned()
      ensures Valid() && from.Valid() && from.Value() == old(from.Value())
      ensures Value() == MergeUser(old(Value()), from.Value())
      ensures username_ == old(username_) || (old(username_) == kEmpty && fresh(username_))
      ensures cachedSize == old(cachedSize)
    {
      if from.hasUserid || from.hasUsername {
        if from.hasUserid {
          SetUserid(from.userid_);
        }
        if from.hasUsername {
          SetUsername(from.username_.chars);
        }
      }
      unknown := unknown + from.unknown;
    }

    method CopyFrom(from: Userinfo)
      requires Valid() && from.Valid() && from.kEmpty == kEmpty && (from != this ==> from.Owned() !! Owned())
      modifies this, Owned()
      ensures Valid() && from.Valid() && Value() == from.Value() == old(from.Value())
      ensures username_ == old(username_) || (old(username_) == kEmpty && fresh(username_))
    {
      if from == this {
        return;
      }
      Clear();
      MergeFrom(from);
      assert MergeUser(NO_USER, from.Value()) == from.Value();
    }

    method Swap(other: Userinfo)
      requires Valid() && other.Valid() && other.kEmpty == kEmpty
      modifies this, other
      ensures Valid() && other.Valid()
      ensures Value() == old(other.Value()) && other.Value() == old(Value())
      ensures username_ == old(other.username_) && other.username_ == old(username_)
      ensures cachedSize == old(other.cachedSize) && other.cachedSize == old(cachedSize)
    {
      if other != this {
        userid_, other.userid_ := other.userid_, userid_;
        username_, other.username_ := other.username_, username_;
        hasUserid, other.hasUserid := other.hasUserid, hasUserid;
        hasUsername, other.hasUsername := other.hasUsername, hasUsername;
        unknown, other.unknown := other.unknown, unknown;
        cachedSize, other.cachedSize := other.cachedSize, cachedSize;
      }
    }

    method ReadUserid(input: CodedInput) returns (ok: bool)
      requires Valid()
      modifies this`userid_, this`hasUserid, input
      ensures Valid() && input.beyond == old(input.beyond) && input.legitimateEnd == old(input.legitimateEnd)
      ensures match ReadPayload(0, old(input.buf))
              case Bad => !ok
              case Got(p, rest) => ok && input.buf == rest && Some(Value()) == ApplyUser(old(Value()), Record(1, p))
    {
      ReadUint32(Value(), input.buf);
      var v := input.NextVarint32();
      ok := v.Some?;
      if ok {
        SetUserid(v.value);
      }
    }

    method ReadUsername(input: CodedInput) returns (ok: bool)
      requires Valid()
      modifies this`username_, this`hasUsername, Owned(), input
      ensures Valid() && input.beyond == old(input.beyond) && input.legitimateEnd == old(input.legitimateEnd)
      ensures match ReadPayload(2, old(input.buf))
              case Bad => !ok
              case Got(p, rest) => ok && input.buf == rest && Some(Value()) == ApplyUser(old(Value()), Record(2, p))
      ensures username_ == old(username_) || (old(username_) == kEmpty && fresh(username_))
    {
      var p := MutableUsername();
      var s := input.NextString();
      ok := s.Some?;
      if ok {
        p.chars := s.value;
      }
    }

    method KeepUnknown(input: CodedInput, tag: nat) returns (ok: bool)
      requires Valid() && !(tag / 8 == 1 && tag % 8 == 0) && !(tag / 8 == 2 && tag % 8 == 2)
      modifies this`unknown, input
      ensures Valid() && input.beyond == old(input.beyond) && input.legitimateEnd == old(input.legitimateEnd)
      ensures match ReadPayload(tag % 8, old(input.buf))
              case Bad => !ok
              case Got(p, rest) =>
                ok && input.buf == rest && Some(Value()) == ApplyUser(old(Value()), Record(tag / 8, p))
    {
      var r := input.SkipField(tag);
      ok := r.Some?;
      if ok {
        unknown := unknown + [r.value];
      }
    }

    /** The switch on the tag just read, with `ahead` the bytes from that tag on.  The fast path
        looks for the username's tag right after the userid, and for the end right after the
        username. */
    method Dispatch(input: CodedInput, tag: nat, ghost ahead: Bytes) returns (next: Round)
      requires Valid() && !input.legitimateEnd && ahead != [] && ReadTag(ahead) == Got(tag, input.buf)
      modifies this, Owned(), input
      ensures Valid() && input.beyond == old(input.beyond) && cachedSize == old(cachedSize)
      ensures username_ == old(username_) || (old(username_) == kEmpty && fresh(username_))
      ensures Parse(ApplyUser, old(Value()), ahead) ==
              match next
              case Fail => Failed
              case Return => Stopped(Value(), input.legitimateEnd)
              case Continue(taken) => Parse(ApplyUser, Value(), Ahead(taken, input.buf))
      ensures next.Return? && input.legitimateEnd ==> input.buf == []
      ensures next.Continue? ==> !input.legitimateEnd && |Ahead(next.taken, input.buf)| < |ahead|
    {
      ParseField(ApplyUser, Value(), ahead, tag, input.buf);
      if tag / 8 == 1 && tag % 8 == 0 {
        var ok := ReadUserid(input);
        if !ok {
          return Fail;
        }
        var there := input.ExpectTag(TAG_2);
        return Continue(there);
      } else if tag / 8 == 2 && tag % 8 == 2 {
        var ok := ReadUsername(input);
        if !ok {
          return Fail;
        }
        var atEnd := input.ExpectAtEnd();
        return if atEnd then Return else Continue(false);
      } else {
        if tag % 8 == 4 {
          return Return;
        }
        var ok := KeepUnknown(input, tag);
        return if ok then Continue(false) else Fail;
      }
    }

    /** One round of the parser's loop; `taken` tells that the fast path has taken the tag. */
    method ParseRound(input: CodedInput, taken: bool) returns (next: Round)
      requires Valid() && (taken ==> !input.legitimateEnd)
      modifies this, Owned(), input
      ensures Valid() && input.beyond == old(input.beyond) && cachedSize == old(cachedSize)
      ensures username_ == old(username_) || (old(username_) == kEmpty && fresh(username_))
      ensures Parse(ApplyUser, old(Value()), old(Ahead(taken, input.buf))) ==
              match next
              case Fail => Failed
              case Return => Stopped(Value(), input.legitimateEnd)
              case Continue(taken') => Parse(ApplyUser, Value(), Ahead(taken', input.buf))
      ensures next.Return? && input.legitimateEnd ==> input.buf == []
      ensures next.Continue? ==> !input.legitimateEnd && |Ahead(next.taken, input.buf)| < |old(Ahead(taken, input.buf))|
    {
      var tag: nat := TAG_2;
      ghost var ahead := Ahead(taken, input.buf);
      if taken {
        TakenTag(input.buf);
      } else {
        tag := input.NextTag();
        if tag == 0 {
          return Return;
        }
      }
      next := Dispatch(input, tag, ahead);
    }

    /** The generated parser accepts the same bytes and builds the same message as the plain loop. */
    method MergePartialFromCodedStream(input: CodedInput) returns (ok: bool)
      requires Valid()
      modifies this, Owned(), input
      ensures Valid() && input.beyond == old(input.beyond) && cachedSize == old(cachedSize)
      ensures username_ == old(username_) || (old(username_) == kEmpty && fresh(username_))
      ensures match Parse(ApplyUser, old(Value()), old(input.buf))
              case Failed => !ok
              case Stopped(u, complete) =>
                ok && Value() == u && input.legitimateEnd == complete && (complete ==> input.buf == [])
    {
      var next := Continue(false);
      while next.Continue?
        invariant Valid() && input.beyond == old(input.beyond) && cachedSize == old(cachedSize)
        invariant username_ == old(username_) || (old(username_) == kEmpty && fresh(username_))
        invariant Parse(ApplyUser, old(Value()), old(input.buf)) ==
                  match next
                  case Fail => Failed
                  case Return => Stopped(Value(), input.legitimateEnd)
                  case Continue(taken) => Parse(ApplyUser, Value(), Ahead(taken, input.buf))
        invariant next.Return? && input.legitimateEnd ==> input.buf == []
        invariant next.Continue? && next.taken ==> !input.legitimateEnd
        decreases next.Continue?, if next.Continue? then |Ahead(next.taken, input.buf)| else 0
      {
        next := ParseRound(input, next.taken);
      }
      ok := next.Return?;
    }

    /** Computes the encoded size and caches it. */
    method ByteSize() returns (size: nat)
      requires Valid()
      modifies this`cachedSize
      ensures size == cachedSize == |EncodeUser(Value())|
    {
      size := 0;
      if hasUserid || hasUsername {
        if hasUserid {
          size := size + 1 + VarintSize(userid_);
        }
        if hasUsername {
          size := size + 1 + (VarintSize(|username_.chars|) + |username_.chars|);
        }
      }
      if unknown != [] {
        size := size + UnknownSize(unknown);
      }
      UserSize(Value());
      UnknownSizeExact(unknown);
      cachedSize := size;
    }

    method SerializeWithCachedSizes(output: CodedOutput)
      requires Valid()
      modifies output
      ensures output.out == old(output.out) + EncodeUser(Value())
    {
      ghost var id, name, rest := UseridBytes(Value()), UsernameBytes(Value()), EncodeAll(unknown);
      ghost var before := output.out;
      if hasUserid {
        output.WriteRaw(EncodeRecord(Record(1, VarintValue(userid_))));
      }
      assert output.out == before + id;
      if hasUsername {
        output.WriteRaw(EncodeRecord(Record(2, Delimited(username_.chars))));
      }
      assert output.out == before + id + name;
      if unknown != [] {
        output.WriteRaw(EncodeAll(unknown));
      }
      assert output.out == before + id + name + rest;
      Join3(before, id, name, rest);
    }

    method SerializeWithCachedSizesToArray(target: array<byte>, at: nat) returns (end: nat)
      requires Valid() && at + |EncodeUser(Value())| <= target.Length
      modifies target
      ensures end == at + |EncodeUser(Value())|
      ensures Written(target[..], old(target[..]), at, EncodeUser(Value()))
    {
      ghost var before := target[..];
      ghost var id, name := UseridBytes(Value()), UsernameBytes(Value());
      assert Written(target[..], before, at, []);
      end := at;
      if hasUserid {
        end := WriteToArray(EncodeRecord(Record(1, VarintValue(userid_))), target, end, before, at, []);
      }
      assert end == at + |id| && [] + id == id && Written(target[..], before, at, id);
      if hasUsername {
        end := WriteToArray(EncodeRecord(Record(2, Delimited(username_.chars))), target, end, before, at, id);
      }
      assert end == at + |id + name| && Written(target[..], before, at, id + name) by {
        assert name == [] ==> id + name == id;
      }
      if unknown != [] {
        end := WriteToArray(EncodeAll(unknown), target, end, before, at, id + name);
      }
      assert unknown == [] ==> EncodeUser(Value()) == id + name;
    }
  }
}
