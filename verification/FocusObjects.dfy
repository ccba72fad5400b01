/** The outer message as an object that holds the nested ones. */
module FocusObjects {
  import opened Bytes
  import opened Options
  import opened Wire
  import opened Messages
  import opened CodedStreams
  import opened MessageObjects

  function Strings(us: seq<Userinfo>): set<CppString>
    reads us
  {
    set u | u in us :: u.username_
  }

  function Values(us: seq<Userinfo>): (vs: seq<UserInfo>)
    reads us, Strings(us)
    ensures |vs| == |us|
  {
    seq(|us|, i requires 0 <= i < |us| reads us, Strings(us) => us[i].Value())
  }

  /** Nested messages of one outer message: different objects that share no string but the empty one. */
  ghost predicate AllValid(kEmpty: CppString, us: seq<Userinfo>)
    reads kEmpty, us, Strings(us)
  {
    && (forall i :: 0 <= i < |us| ==> us[i].kEmpty == kEmpty && us[i].Valid())
    && (forall i, j :: 0 <= i < j < |us| ==>
          us[i] != us[j] && (us[i].username_ != us[j].username_ || us[i].username_ == kEmpty))
  }

  ghost predicate AllCleared(us: seq<Userinfo>)
    reads us, Strings(us)
  {
    forall u <- us :: u.Value() == NO_USER
  }

  /** The nested messages in use and those kept for reuse. */
  ghost predicate NestedOk(kEmpty: CppString, us: seq<Userinfo>, spare: seq<Userinfo>)
    reads kEmpty, us, Strings(us), spare, Strings(spare)
  {
    AllValid(kEmpty, us + spare) && AllCleared(spare)
  }

  function Objects(us: seq<Userinfo>): set<Userinfo> {
    set u | u in us
  }

  class Focustm {
    const kEmpty: CppString
    var msgtype_: CppString
    var hasMsgtype: bool
    /** The nested messages in use, and the cleared ones that the repeated field keeps for reuse. */
    var ui_: seq<Userinfo>
    var spare: seq<Userinfo>
    var unknown: seq<Record>
    var cachedSize: nat

    /** All nested messages that the repeated field has allocated. */
    function Nested(): seq<Userinfo>
      reads this`ui_, this`spare
    {
      ui_ + spare
    }

    /** As for the nested message; moreover the nested messages are different objects, no string is
        owned twice, and the messages kept for reuse are empty. */
    ghost predicate Valid()
      reads this, kEmpty, msgtype_, ui_, Strings(ui_), spare, Strings(spare)
    {
      MsgtypeValid() && Strings(ui_) !! Owned() && Strings(spare) !! Owned() && NestedOk(kEmpty, ui_, spare)
    }

    /** The part of it that does not concern the nested messages. */
    ghost predicate MsgtypeValid()
      reads this, kEmpty, msgtype_
    {
      && kEmpty.chars == [] && !kEmpty.freed && !msgtype_.freed
      && (if hasMsgtype then msgtype_ != kEmpty else msgtype_.chars == [])
    }

    /** The strings that nested messages own. */
    function Inner(us: seq<Userinfo>): (s: set<CppString>)
      reads us
      ensures s <= Strings(us) && kEmpty !in s
    {
      Strings(us) - {kEmpty}
    }

    /** Nested messages were added only.  They come from those kept for reuse while there are any, and
        are new objects from then on; their strings are those they had or new ones. */
    twostate predicate Grown()
      reads this`ui_, this`spare, ui_, spare
    {
      && old(ui_) <= ui_ && Objects(spare) <= old(Objects(spare)) && Inner(spare) <= old(Inner(spare)) && Extended()
    }

    twostate lemma SameNested()
      requires ui_ == old(ui_) && spare == old(spare) && forall u <- Nested() :: u.username_ == old(u.username_)
      ensures Grown()
    {
      SameInner(ui_);
      SameInner(spare);
    }

    /** No nested message and none of their strings was dropped, and those that were not there before
        are new. */
    twostate predicate Extended()
      reads this`ui_, this`spare, ui_, spare
    {
      && old(Nested()) <= Nested() && old(Inner(ui_) + Inner(spare)) <= Inner(ui_) + Inner(spare)
      && (forall u <- Objects(ui_) + Objects(spare) :: u in old(Objects(ui_) + Objects(spare)) || fresh(u))
      && (forall p <- Inner(ui_) + Inner(spare) :: p in old(Inner(ui_) + Inner(spare)) || fresh(p))
    }

    function Value(): FocusTm
      reads this, msgtype_, ui_, Strings(ui_)
    {
      FocusTm(if hasMsgtype then Some(msgtype_.chars) else None, Values(ui_), unknown)
    }

    /** Every nested message's cached size is the length of its encoding. */
    ghost predicate SizesCached()
      reads this, ui_, Strings(ui_)
    {
      forall i :: 0 <= i < |ui_| ==> ui_[i].cachedSize == |EncodeUser(ui_[i].Value())|
    }

    function Owned(): (s: set<CppString>)
      reads this
      ensures kEmpty !in s
    {
      if msgtype_ == kEmpty then {} else {msgtype_}
    }

    constructor (kEmpty: CppString)
      requires kEmpty.chars == [] && !kEmpty.freed
      ensures this.kEmpty == kEmpty && Valid() && Value() == NO_FOCUS && ui_ == [] && spare == [] && Owned() == {}
    {
      this.kEmpty := kEmpty;
      msgtype_, hasMsgtype := kEmpty, false;
      ui_, spare, unknown, cachedSize := [], [], [], 0;
    }

    method SetMsgtype(value: Bytes)
      requires Valid()
      modifies this`msgtype_, this`hasMsgtype, Owned()
      ensures Valid() && Value() == old(Value()).(msgtype := Some(value))
      ensures msgtype_ == old(msgtype_) || (old(msgtype_) == kEmpty && fresh(msgtype_))
    {
      hide NestedOk, Values, Objects, Inner, Nested;
      hasMsgtype := true;
      if msgtype_ == kEmpty {
        msgtype_ := new CppString();
      }
      msgtype_.chars := value;
      assert Values(ui_) == old(Values(ui_));
    }

    /** Keeps the string for reuse, but empties it. */
    method ClearMsgtype()
      requires Valid()
      modifies this`hasMsgtype, Owned()
      ensures Valid() && msgtype_ == old(msgtype_) && Value() == old(Value()).(msgtype := None)
    {
      hide NestedOk, Values, Objects, Inner, Nested;
      if msgtype_ != kEmpty {
        msgtype_.chars := [];
      }
      hasMsgtype := false;
      assert Values(ui_) == old(Values(ui_));
    }

    /** Makes the field present and gives the caller its string to write. */
    method MutableMsgtype() returns (p: CppString)
      requires Valid()
      modifies this`msgtype_, this`hasMsgtype
      ensures Valid() && p == msgtype_ && p != kEmpty
      ensures p.chars == old(msgtype_.chars) && Value() == old(Value()).(msgtype := Some(p.chars))
      ensures if old(msgtype_) == kEmpty then fresh(p) else p == old(msgtype_)
    {
      hide NestedOk, Values, Objects, Inner, Nested;
      hasMsgtype := true;
      if msgtype_ == kEmpty {
        msgtype_ := new CppString();
      }
      p := msgtype_;
      assert Values(ui_) == old(Values(ui_));
    }

    /** `mutable_msgtype` followed by a write through the pointer it gave. */
    method WriteMsgtype(value: Bytes)
      requires Valid()
      modifies this`msgtype_, this`hasMsgtype, Owned()
      ensures Valid() && Value() == old(Value()).(msgtype := Some(value))
      ensures msgtype_ == old(msgtype_) || (old(msgtype_) == kEmpty && fresh(msgtype_))
    {
      hide NestedOk, Values, Objects, Inner, Nested;
      var p := MutableMsgtype();
      p.chars := value;
      assert Values(ui_) == old(Values(ui_));
    }

    /** Hands the string over to the caller; null if there was none. */
    method ReleaseMsgtype() returns (p: CppString?)
      requires Valid()
      modifies this`msgtype_, this`hasMsgtype
      ensures Valid() && msgtype_ == kEmpty && Value() == old(Value()).(msgtype := None)
      ensures p == if old(msgtype_) == kEmpty then null else old(msgtype_)
      ensures p != null ==> !p.freed
    {
      hide NestedOk, Values, Objects, Inner, Nested;
      hasMsgtype := false;
      if msgtype_ == kEmpty {
        p := null;
      } else {
        p := msgtype_;
        msgtype_ := kEmpty;
      }
    }

    /** Takes over a string of the caller's, or none; the former string is freed. */
    method SetAllocatedMsgtype(p: CppString?)
      requires Valid() && (p != null ==> !p.freed && p != kEmpty && p != msgtype_ && p !in Strings(Nested()))
      modifies this`msgtype_, this`hasMsgtype, Owned()
      ensures Valid() && msgtype_ == (if p == null then kEmpty else p)
      ensures Value() == old(Value()).(msgtype := if p == null then None else Some(p.chars))
      ensures forall q :: q in old(Owned()) ==> q.freed
    {
      hide NestedOk, Values, Objects, Inner;
      if msgtype_ != kEmpty {
        msgtype_.Delete();
      }
      if p != null {
        hasMsgtype, msgtype_ := true, p;
      } else {
        hasMsgtype, msgtype_ := false, kEmpty;
      }
      assert Values(ui_) == old(Values(ui_));
    }

    lemma Both(us: seq<Userinfo>, vs: seq<Userinfo>)
      ensures Objects(us + vs) == Objects(us) + Objects(vs) && Inner(us + vs) == Inner(us) + Inner(vs)
    {
      assert forall u :: u in us + vs <==> u in us || u in vs;
    }

    twostate lemma SameInner(us: seq<Userinfo>)
      requires forall u <- us :: u.username_ == old(u.username_)
      ensures Inner(us) == old(Inner(us))
    {
      assert Strings(us) == old(Strings(us));
    }

    lemma Separate(us: seq<Userinfo>, vs: seq<Userinfo>)
      requires AllValid(kEmpty, us + vs)
      ensures forall v <- vs :: v !in Objects(us) && v.username_ !in Inner(us)
      ensures forall u <- us :: u !in Objects(vs) && u.username_ !in Inner(vs)
    {
      var all := us + vs;
      assert (forall i :: 0 <= i < |us| ==> us[i] == all[i]) && forall i :: 0 <= i < |vs| ==> vs[i] == all[|us| + i];
    }

    /** No nested message is in use any more; all of them are kept, in order. */
    twostate predicate KeptForReuse()
      reads this`ui_, this`spare, spare
    {
      && ui_ == [] && spare == old(Nested())
      && Objects(spare) == old(Objects(ui_) + Objects(spare)) && Inner(spare) == old(Inner(ui_) + Inner(spare))
    }

    /** Empties messages that lie among others. */
    method ClearNested(us: seq<Userinfo>, ghost all: seq<Userinfo>)
      requires us <= all && AllValid(kEmpty, all) && kEmpty.chars == [] && !kEmpty.freed
      modifies Objects(us), Inner(us)
      ensures AllValid(kEmpty, all) && AllCleared(us) && forall u <- us :: u.username_ == old(u.username_)
    {
      assert forall u <- all :: u.kEmpty == kEmpty;
      hide AllValid, AllCleared, Objects, Inner;
      var i := 0;
      NoneCleared(us);
      while i < |us|
        invariant 0 <= i <= |us| && AllValid(kEmpty, all) && AllCleared(us[..i])
        invariant forall u <- us :: u.username_ == old(u.username_)
        invariant Inner(us) == old(Inner(us))
      {
        assert us[i] == all[i];
        Inside(us, i);
        ClearOne(us, i, all);
        SameInner(us);
        i := i + 1;
      }
      assert us[..i] == us;
    }

    method ClearOne(us: seq<Userinfo>, i: nat, ghost all: seq<Userinfo>)
      requires us <= all && i < |us| && AllValid(kEmpty, all) && AllCleared(us[..i])
      modifies us[i], us[i].Owned()
      ensures AllValid(kEmpty, all) && AllCleared(us[..i + 1]) && us[i].username_ == old(us[i].username_)
    {
      var u := us[i];
      assert u == all[i];
      u.Clear();
      forall j | 0 <= j < i ensures us[j].Value() == NO_USER {
        assert us[j] == us[..i][j] == all[j];
      }
    }

    lemma OneNew(u: Userinfo)
      requires u.username_ == kEmpty
      ensures Inner([u]) == {} && Objects([u]) == {u}
    {
    }

    lemma Inside(us: seq<Userinfo>, i: nat)
      requires i < |us| && us[i].kEmpty == kEmpty
      ensures us[i] in Objects(us) && us[i].Owned() <= Inner(us)
    {
      assert us[i].username_ in Strings(us);
    }

    method ClearUi()
      requires Valid()
      modifies this`ui_, this`spare, Objects(ui_), Inner(ui_)
      ensures Valid() && Value() == old(Value()).(ui := [])
      ensures KeptForReuse() && Extended()
    {
      hide *;
      ClearRepeated();
    }

    /** Empties the nested messages and keeps them, with their strings, for reuse. */
    method ClearRepeated()
      requires Valid()
      modifies this`ui_, this`spare, Objects(ui_), Inner(ui_)
      ensures Valid() && Value() == old(Value()).(ui := []) && msgtype_.chars == old(msgtype_.chars)
      ensures KeptForReuse() && Extended()
    {
      Nothing();
      hide AllValid, AllCleared, Values, Objects, Inner;
      ClearUsed();
      Both(ui_, spare);
      SpareToo(ui_, spare);
      spare, ui_ := Nested(), [];
    }

    method ClearUsed()
      requires Valid()
      modifies Objects(ui_), Inner(ui_)
      ensures MsgtypeValid() && Strings(ui_) !! Owned() && Strings(spare) !! Owned()
      ensures AllValid(kEmpty, Nested()) && AllCleared(ui_) && AllCleared(spare)
      ensures Inner(ui_) == old(Inner(ui_)) && Inner(spare) == old(Inner(spare))
      ensures msgtype_.chars == old(msgtype_.chars)
    {
      Separate(ui_, spare);
      hide AllValid, AllCleared, Values, Objects, Inner;
      ClearNested(ui_, Nested());
      SameInner(ui_);
    }

    /** Frees the string of the type and those of all nested messages, each once. */
    method Destroy()
      requires Valid()
      modifies Owned(), Inner(Nested())
      ensures forall p :: p in Owned() + Inner(Nested()) ==> p.freed
    {
      if msgtype_ != kEmpty {
        msgtype_.Delete();
      }
      DestroyNested(kEmpty, Nested());
    }

    /** `add_ui`: an empty nested message at the end, which the caller may fill.  It is one kept for
        reuse, with the string it had, or a new one if there is none. */
    method AddUi() returns (u: Userinfo)
      requires Valid()
      modifies this`ui_, this`spare
      ensures Valid() && u.kEmpty == kEmpty && u.Valid() && u.Value() == NO_USER
      ensures ui_ == old(ui_) + [u] && Grown()
      ensures if old(spare) == [] then fresh(u) && u.Owned() == {} && spare == []
              else u == old(spare)[0] && spare == old(spare)[1..]
      ensures (fresh(u) || u in old(Objects(spare))) && u.Owned() <= old(Inner(spare))
      ensures Value() == old(Value()).(ui := old(Value()).ui + [NO_USER])
    {
      hide NestedOk, Values, Objects, Inner;
      if spare == [] {
        u := AddNew();
      } else {
        u := Reuse();
      }
    }

    /** One more message, which is empty or not. */
    lemma OneMoreOk(us: seq<Userinfo>, u: Userinfo)
      requires NestedOk(kEmpty, us, []) && u.Valid() && u.kEmpty == kEmpty && u.Owned() == {} && u !in us
      ensures NestedOk(kEmpty, us + [u], [])
    {
      assert us + [] == us && us + [u] + [] == us + [u];
    }

    lemma SpareToo(us: seq<Userinfo>, vs: seq<Userinfo>)
      requires AllValid(kEmpty, us + vs) && AllCleared(us) && AllCleared(vs)
      ensures NestedOk(kEmpty, [], us + vs)
    {
      assert [] + (us + vs) == us + vs;
    }

    lemma OneUsedOk(us: seq<Userinfo>, vs: seq<Userinfo>)
      requires NestedOk(kEmpty, us, vs) && vs != []
      ensures NestedOk(kEmpty, us + [vs[0]], vs[1..])
      ensures vs[0].kEmpty == kEmpty && vs[0].Valid() && vs[0].Value() == NO_USER
    {
      assert us + vs == (us + [vs[0]]) + vs[1..] && vs[0] == (us + vs)[|us|];
    }

    method AddNew() returns (u: Userinfo)
      requires Valid() && spare == []
      modifies this`ui_
      ensures Valid() && fresh(u) && u.kEmpty == kEmpty && u.Valid() && u.Owned() == {} && u.Value() == NO_USER
      ensures ui_ == old(ui_) + [u] && Inner(ui_) == old(Inner(ui_)) && Objects(ui_) == old(Objects(ui_)) + {u}
      ensures Value() == old(Value()).(ui := old(Value()).ui + [NO_USER])
    {
      hide NestedOk, Values, Objects, Inner, Nested;
      ghost var before := Value();
      u := new Userinfo(kEmpty);
      assert Value() == before;
      OneMoreOk(ui_, u);
      ui_ := ui_ + [u];
      OneMoreValue(old(ui_), u);
      Both(old(ui_), [u]);
      OneNew(u);
    }

    method Reuse() returns (u: Userinfo)
      requires Valid() && spare != []
      modifies this`ui_, this`spare
      ensures Valid() && u == old(spare)[0] && u.kEmpty == kEmpty && u.Valid() && u.Value() == NO_USER
      ensures ui_ == old(ui_) + [u] && spare == old(spare)[1..] && Nested() == old(Nested())
      ensures Objects(spare) <= old(Objects(spare)) && Inner(spare) <= old(Inner(spare))
      ensures Inner(ui_) + Inner(spare) == old(Inner(ui_) + Inner(spare))
      ensures Objects(ui_) + Objects(spare) == old(Objects(ui_) + Objects(spare))
      ensures u in old(Objects(spare)) && u.Owned() <= old(Inner(spare))
      ensures Value() == old(Value()).(ui := old(Value()).ui + [NO_USER])
    {
      hide NestedOk, Values, Objects, Inner;
      u := spare[0];
      OneUsedOk(ui_, spare);
      Inside(spare, 0);
      Both(ui_, [u]);
      Both([u], spare[1..]);
      assert [u] + spare[1..] == spare;
      OneMoreValue(ui_, u);
      ui_, spare := ui_ + [u], spare[1..];
      assert Nested() == old(Nested());
    }

    // ---- merging and copying ----

    /** Keeps the string of the type and the nested messages for reuse. */
    method Clear()
      requires Valid()
      modifies this, Owned(), Objects(ui_), Inner(ui_)
      ensures Valid() && Value() == NO_FOCUS && msgtype_ == old(msgtype_) && cachedSize == old(cachedSize)
      ensures KeptForReuse() && Extended()
    {
      hide NestedOk, Values, Objects, Inner, Nested, Focustm.Valid, Focustm.Value;
      ClearMsgtypeIfSet();
      ClearRepeated();
      ClearRest();
    }

    /** Clears the presence bits and the unknown fields. */
    method ClearRest()
      requires Valid() && msgtype_.chars == []
      modifies this`hasMsgtype, this`unknown
      ensures Valid() && Value() == old(Value()).(msgtype := None, unknown := [])
    {
      hide NestedOk, Values;
      hasMsgtype, unknown := false, [];
      assert Values(ui_) == old(Values(ui_));
    }

    method ClearMsgtypeIfSet()
      requires Valid()
      modifies Owned()
      ensures Valid() && Value().(msgtype := None) == old(Value()).(msgtype := None) && msgtype_.chars == []
    {
      hide NestedOk, Values, Objects, Inner, Nested;
      if hasMsgtype {
        if msgtype_ != kEmpty {
          msgtype_.chars := [];
        }
      }
      assert Values(ui_) == old(Values(ui_));
    }

    /** The nested message added last was filled, and nothing else happened. */
    twostate predicate OnlyLast()
      reads *
    {
      && old(Valid()) && old(ui_) != [] && unchanged(this) && unchanged(kEmpty) && unchanged(msgtype_)
      && (forall u <- Nested() :: u != ui_[|ui_| - 1] ==> unchanged(u) && unchanged(u.username_))
      && var u := ui_[|ui_| - 1];
         u.Valid() && (u.username_ == old(u.username_) || (old(u.username_) == kEmpty && fresh(u.username_)))
    }

    twostate lemma FilledOk()
      requires OnlyLast()
      ensures NestedOk(kEmpty, ui_, spare)
    {
      var n, us := |ui_| - 1, Nested();
      assert us[n] == ui_[n] && old(AllValid(kEmpty, us) && AllCleared(spare));
      forall i | 0 <= i < |us| && i != n ensures us[i] != us[n] && unchanged(us[i]) && unchanged(us[i].username_) {
        assert us[i] in us;
      }
      forall u | u in spare ensures u.Value() == NO_USER {
        var i :| 0 <= i < |spare| && spare[i] == u;
        assert us[|ui_| + i] == u;
      }
    }

    twostate lemma WasApart()
      requires OnlyLast()
      ensures forall i :: 0 <= i < |ui_| - 1 ==> ui_[i] != ui_[|ui_| - 1]
      ensures forall u <- spare :: u != ui_[|ui_| - 1]
    {
      assert old(AllValid(kEmpty, Nested()));
      assert forall i :: 0 <= i < |ui_| ==> ui_[i] == Nested()[i];
      assert forall i :: 0 <= i < |spare| ==> spare[i] == Nested()[|ui_| + i];
    }

    twostate lemma FilledGrows()
      requires OnlyLast()
      ensures Grown()
    {
      WasApart();
    }

    twostate lemma FilledValue()
      requires OnlyLast()
      ensures Values(ui_) == old(Values(ui_))[..|ui_| - 1] + [ui_[|ui_| - 1].Value()]
    {
      WasApart();
      assert forall i :: 0 <= i < |ui_| ==> ui_[i] in Nested();
    }

    twostate lemma Filled()
      requires OnlyLast()
      ensures Valid() && Grown()
      ensures Value() == old(Value()).(ui := old(Value()).ui[..|ui_| - 1] + [ui_[|ui_| - 1].Value()])
    {
      FilledOk();
      FilledGrows();
      FilledValue();
      hide NestedOk, Values, Objects, Inner, Nested;
    }

    /** Appends a copy of one nested message. */
    method AddCopy(v: Userinfo)
      requires Valid() && v.Valid() && v.kEmpty == kEmpty && v !in Objects(spare) && v.username_ !in Inner(spare)
      modifies this`ui_, this`spare, Objects(spare), Inner(spare)
      ensures Valid() && Grown() && v.Valid() && v.Value() == old(v.Value())
      ensures Value() == old(Value()).(ui := old(Value()).ui + [v.Value()])
    {
      hide NestedOk, Values, Objects, Inner, Nested;
      var u := AddUi();
      FillLast(v);
    }

    method FillLast(v: Userinfo)
      requires Valid() && ui_ != [] && ui_[|ui_| - 1].Value() == NO_USER
      requires v.Valid() && v.kEmpty == kEmpty && v != ui_[|ui_| - 1] && v.username_ !in ui_[|ui_| - 1].Owned()
      modifies ui_[|ui_| - 1], ui_[|ui_| - 1].Owned()
      ensures Valid() && Grown() && v.Valid() && v.Value() == old(v.Value())
      ensures Value() == old(Value()).(ui := old(Value()).ui[..|ui_| - 1] + [v.Value()])
    {
      ghost var n := |ui_| - 1;
      assert Nested()[n] == ui_[n];
      ui_[|ui_| - 1].MergeFrom(v);
      Filled();
      assert MergeUser(NO_USER, v.Value()) == v.Value();
    }

    /** Appends copies of nested messages. */
    method MergeUi(us: seq<Userinfo>, ghost values: seq<UserInfo>)
      requires Valid() && Represent(us, values) && forall u :: u in us ==> u.kEmpty == kEmpty
      requires forall u <- us :: u !in Objects(spare) && u.username_ !in Inner(spare)
      modifies this`ui_, this`spare, Objects(spare), Inner(spare)
      ensures Valid() && Value() == old(Value()).(ui := old(Value()).ui + values)
      ensures Grown()
    {
      hide NestedOk, Values, Objects, Inner, Nested, Focustm.Valid, Focustm.Value;
      ghost var value := Value();
      var i := 0;
      NothingAdded(value, values);
      while i < |us|
        invariant 0 <= i <= |us| && Valid() && Value() == value.(ui := value.ui + values[..i])
        invariant Grown()
      {
        AddCopy(us[i]);
        OneAdded(value, values, i);
        i := i + 1;
      }
      assert values[..i] == values;
    }

    lemma Represents()
      requires Valid()
      ensures Represent(ui_, Value().ui) && (forall u :: u in ui_ ==> u.kEmpty == kEmpty)
      ensures forall i, j :: 0 <= i < j < |ui_| ==> ui_[i] != ui_[j]
    {
      assert forall i :: 0 <= i < |ui_| ==> ui_[i] == Nested()[i];
    }

    /** Nothing that an operation on this message may write belongs to the other one. */
    ghost predicate Apart(from: Focustm)
      reads this, ui_, spare, from, from.ui_, from.spare
    {
      ApartInType(from) && Outside(from.ui_) && Outside(from.spare) && from.msgtype_ !in Inner(ui_) + Inner(spare)
    }

    ghost predicate ApartInType(from: Focustm)
      reads this, from, from.ui_, from.spare
    {
      Owned() !! {from.msgtype_} + Strings(from.ui_) + Strings(from.spare)
    }

    ghost predicate Outside(us: seq<Userinfo>)
      reads this, ui_, spare, us
    {
      forall u <- us :: u !in Objects(ui_) && u !in Objects(spare) && u.username_ !in Inner(ui_) + Inner(spare)
    }

    method MergeMsgtype(from: Focustm)
      requires Valid() && from != this && from.Valid() && from.kEmpty == kEmpty && ApartInType(from)
      modifies this`msgtype_, this`hasMsgtype, Owned()
      ensures Valid() && from.Valid() && from.Value() == old(from.Value()) && unknown == old(unknown)
      ensures msgtype_ == old(msgtype_) || (old(msgtype_) == kEmpty && fresh(msgtype_))
      ensures Value() == old(Value()).(msgtype := Last(old(Value()).msgtype, from.Value().msgtype))
    {
      hide NestedOk, Values, Objects, Inner, Nested;
      if from.hasMsgtype {
        ghost var other := from.Value();
        SetMsgtype(from.msgtype_.chars);
        assert Values(from.ui_) == other.ui;
      }
    }

    method MergeFrom(from: Focustm)
      requires Valid() && from != this && from.Valid() && from.kEmpty == kEmpty && Apart(from)
      modifies this, Owned(), Objects(spare), Inner(spare)
      ensures Valid() && from.Valid() && from.Value() == old(from.Value())
      ensures Value() == MergeFocus(old(Value()), old(from.Value()))
      ensures Grown() && (msgtype_ == old(msgtype_) || (old(msgtype_) == kEmpty && fresh(msgtype_)))
    {
      hide NestedOk, Values, Objects, Inner, Nested, Grown, Focustm.Valid, Focustm.Value;
      ghost var value, other := Value(), from.Value();
      MergeNested(from);
      MergeMsgtype(from);
      MergeUnknown(from);
    }

    method MergeNested(from: Focustm)
      requires Valid() && from != this && from.Valid() && from.kEmpty == kEmpty && Apart(from)
      modifies this`ui_, this`spare, Objects(spare), Inner(spare)
      ensures Valid() && from.Valid() && from.Value() == old(from.Value())
      ensures Strings(from.ui_) == old(Strings(from.ui_)) && Strings(from.spare) == old(Strings(from.spare))
      ensures Value() == old(Value()).(ui := old(Value()).ui + old(from.Value()).ui)
      ensures Grown()
    {
      from.Represents();
      ApartFromSpare(from);
      hide Apart, NestedOk, Values, Objects, Inner, Nested, Grown, Represent, Focustm.Valid, Focustm.Value;
      MergeUi(from.ui_, from.Value().ui);
      from.SameAsBefore();
    }

    lemma ApartFromSpare(from: Focustm)
      requires Apart(from)
      ensures from.msgtype_ !in Inner(spare)
      ensures forall i :: 0 <= i < |from.ui_| ==>
                from.ui_[i] !in Objects(spare) && from.ui_[i].username_ !in Inner(spare)
      ensures forall i :: 0 <= i < |from.spare| ==> from.spare[i] !in Objects(spare)
      ensures Strings(from.ui_) !! Inner(spare) && Strings(from.spare) !! Inner(spare)
    {
      hide Objects, Inner;
    }

    /** This message was left alone. */
    twostate predicate LeftAlone()
      reads *
    {
      && unchanged(this) && unchanged(kEmpty) && unchanged(msgtype_)
      && unchanged(ui_) && unchanged(spare) && unchanged(old(Strings(ui_))) && unchanged(old(Strings(spare)))
    }

    twostate lemma SameAsBefore()
      requires old(Valid()) && LeftAlone()
      ensures Valid() && Value() == old(Value())
      ensures Strings(ui_) == old(Strings(ui_)) && Strings(spare) == old(Strings(spare))
    {
      hide NestedOk, Values;
      assert Strings(ui_) == old(Strings(ui_)) && Strings(spare) == old(Strings(spare));
    }

    method MergeUnknown(from: Focustm)
      requires Valid() && from != this && from.Valid()
      modifies this`unknown
      ensures Valid() && from.Valid() && from.Value() == old(from.Value())
      ensures Value() == old(Value()).(unknown := old(Value()).unknown + from.Value().unknown)
    {
      hide NestedOk, Values, Objects, Inner, Nested;
      ghost var nested, other := Values(ui_), Values(from.ui_);
      unknown := unknown + from.unknown;
      assert Values(ui_) == nested && Values(from.ui_) == other;
    }

    method CopyFrom(from: Focustm)
      requires Valid() && from.Valid() && from.kEmpty == kEmpty && (from != this ==> Apart(from))
      modifies this, Owned(), Objects(ui_), Objects(spare), Inner(ui_), Inner(spare)
      ensures Valid() && from.Valid() && Value() == from.Value() == old(from.Value())
      ensures msgtype_ == old(msgtype_) || (old(msgtype_) == kEmpty && fresh(msgtype_))
      ensures Extended() && Objects(spare) <= old(Objects(ui_) + Objects(spare)) && (from == this ==> LeftAlone())
    {
      if from == this {
        return;
      }
      hide NestedOk, Values, Objects, Inner, Nested, Apart, Focustm.Valid, Focustm.Value, MergeFocus;
      ghost var other := from.Value();
      ClearApart(from);
      MergeFrom(from);
      MergedIntoNothing(other);
    }

    method ClearApart(from: Focustm)
      requires Valid() && from.Valid() && from.kEmpty == kEmpty && from != this && Apart(from)
      modifies this, Owned(), Objects(ui_), Objects(spare), Inner(ui_), Inner(spare)
      ensures Valid() && Value() == NO_FOCUS && msgtype_ == old(msgtype_)
      ensures KeptForReuse() && Extended()
      ensures from.Valid() && from.Value() == old(from.Value()) && Apart(from)
    {
      Nothing();
      Both(ui_, spare);
      hide NestedOk, Values, Objects, Inner, Nested, Focustm.Valid, Focustm.Value;
      Clear();
      from.SameAsBefore();
    }

    lemma Nothing()
      ensures Objects([]) == {} && Inner([]) == {}
    {
    }

    /** This message has now what the other one had. */
    twostate lemma TakesOver(other: Focustm)
      requires old(other.Valid()) && kEmpty == other.kEmpty && unchanged(kEmpty)
      requires msgtype_ == old(other.msgtype_) && hasMsgtype == old(other.hasMsgtype) && unchanged(msgtype_)
      requires ui_ == old(other.ui_) && spare == old(other.spare) && unknown == old(other.unknown)
      requires unchanged(ui_) && unchanged(old(Strings(other.ui_)))
      requires unchanged(spare) && unchanged(old(Strings(other.spare)))
      ensures Valid() && Value() == old(other.Value())
    {
      hide NestedOk, Values, Objects, Inner, Nested;
      assert Strings(spare) == old(Strings(other.spare));
      assert Strings(ui_) == old(Strings(other.ui_));
    }

    method Swap(other: Focustm)
      requires Valid() && other.Valid() && other.kEmpty == kEmpty
      modifies this, other
      ensures Valid() && other.Valid()
      ensures Value() == old(other.Value()) && other.Value() == old(Value())
      ensures msgtype_ == old(other.msgtype_) && other.msgtype_ == old(msgtype_)
      ensures ui_ == old(other.ui_) && other.ui_ == old(ui_) && spare == old(other.spare) && other.spare == old(spare)
      ensures cachedSize == old(other.cachedSize) && other.cachedSize == old(cachedSize)
    {
      if other != this {
        SwapFields(other);
        TakesOver(other);
        other.TakesOver(this);
      }
    }

    method SwapFields(other: Focustm)
      requires other != this
      modifies this, other
      ensures msgtype_ == old(other.msgtype_) && other.msgtype_ == old(msgtype_)
      ensures hasMsgtype == old(other.hasMsgtype) && other.hasMsgtype == old(hasMsgtype)
      ensures ui_ == old(other.ui_) && other.ui_ == old(ui_) && spare == old(other.spare) && other.spare == old(spare)
      ensures unknown == old(other.unknown) && other.unknown == old(unknown)
      ensures cachedSize == old(other.cachedSize) && other.cachedSize == old(cachedSize)
    {
      msgtype_, other.msgtype_ := other.msgtype_, msgtype_;
      ui_, other.ui_ := other.ui_, ui_;
      spare, other.spare := other.spare, spare;
      hasMsgtype, other.hasMsgtype := other.hasMsgtype, hasMsgtype;
      unknown, other.unknown := other.unknown, unknown;
      cachedSize, other.cachedSize := other.cachedSize, cachedSize;
    }

    // ---- parsing ----

    method ReadMsgtype(input: CodedInput) returns (ok: bool)
      requires Valid()
      modifies this`msgtype_, this`hasMsgtype, Owned(), input
      ensures Valid() && input.beyond == old(input.beyond) && input.legitimateEnd == old(input.legitimateEnd)
      ensures match ReadPayload(2, old(input.buf))
              case Bad => !ok
              case Got(p, rest) => ok && input.buf == rest && Some(Value()) == ApplyFocus(old(Value()), Record(1, p))
      ensures msgtype_ == old(msgtype_) || (old(msgtype_) == kEmpty && fresh(msgtype_))
    {
      hide NestedOk, Values, Objects, Inner, Parse, EncodeUser, ReadVarint, ReadDelimited;
      var p := MutableMsgtype();
      ghost var nested := Values(ui_);
      var s := input.NextString();
      assert Values(ui_) == nested;
      ok := s.Some?;
      if ok {
        Fill(p, s.value);
      }
    }

    method Fill(p: CppString, value: Bytes)
      requires Valid() && p == msgtype_ != kEmpty && hasMsgtype
      modifies p`chars
      ensures Valid() && Value() == old(Value()).(msgtype := Some(value))
    {
      hide NestedOk, Values;
      p.chars := value;
      assert Values(ui_) == old(Values(ui_));
    }

    method ReadUi(input: CodedInput) returns (ok: bool)
      requires Valid()
      modifies this`ui_, this`spare, Objects(spare), Inner(spare), input
      ensures Valid() && Grown()
      ensures match ReadPayload(2, old(input.buf))
              case Bad => !ok
              case Got(p, rest) =>
                (match ApplyFocus(old(Value()), Record(2, p))
                 case None => !ok
                 case Some(m) => ok && input.buf == rest && Value() == m)
      ensures ok ==> input.beyond == old(input.beyond) && !input.legitimateEnd
    {
      hide Parse, EncodeUser, ReadVarint, NestedOk, Values, Objects, Inner;
      var u := AddUi();
      ok := ReadLast(input);
    }

    /** Reads into the nested message added last. */
    method ReadLast(input: CodedInput) returns (ok: bool)
      requires Valid() && ui_ != [] && ui_[|ui_| - 1].Value() == NO_USER
      modifies ui_[|ui_| - 1], ui_[|ui_| - 1].Owned(), input
      ensures Valid() && Grown()
      ensures Value() == old(Value()).(ui := old(Value()).ui[..|ui_| - 1] + [ui_[|ui_| - 1].Value()])
      ensures match ReadPayload(2, old(input.buf))
              case Bad => !ok
              case Got(p, rest) =>
                (match Parse(ApplyUser, NO_USER, p.data)
                 case Stopped(v, true) => ok && input.buf == rest && ui_[|ui_| - 1].Value() == v
                 case _ => !ok)
      ensures ok ==> input.beyond == old(input.beyond) && !input.legitimateEnd
    {
      hide Parse, EncodeUser, ReadVarint, Values, Objects, Inner;
      ghost var n := |ui_| - 1;
      assert Nested()[n] == ui_[n];
      ok := ReadMessage(ui_[|ui_| - 1], input);
      Filled();
    }

    method KeepUnknown(input: CodedInput, tag: nat) returns (ok: bool)
      requires Valid() && !(tag / 8 == 1 && tag % 8 == 2) && !(tag / 8 == 2 && tag % 8 == 2)
      modifies this`unknown, input
      ensures Valid() && input.beyond == old(input.beyond) && input.legitimateEnd == old(input.legitimateEnd)
      ensures match ReadPayload(tag % 8, old(input.buf))
              case Bad => !ok
              case Got(p, rest) =>
                ok && input.buf == rest && Some(Value()) == ApplyFocus(old(Value()), Record(tag / 8, p))
    {
      hide AllValid, Values, ReadVarint, Parse;
      ghost var before := Value();
      var r := input.SkipField(tag);
      ok := r.Some?;
      if ok {
        unknown := unknown + [r.value];
        assert Value() == before.(unknown := before.unknown + [r.value]);
      }
    }

    /** A round of the loop that began with `was` and the bytes `ahead`, beginning with a tag. */
    ghost predicate Advanced(was: FocusTm, ahead: Bytes, input: CodedInput, next: Round)
      reads this, msgtype_, ui_, Strings(ui_), input
    {
      && Parse(ApplyFocus, was, ahead) ==
         (match next
          case Fail => Failed
          case Return => Stopped(Value(), input.legitimateEnd)
          case Continue(taken) => Parse(ApplyFocus, Value(), Ahead(taken, input.buf)))
      && (next.Continue? ==> !input.legitimateEnd && |Ahead(next.taken, input.buf)| < |ahead|)
    }

    /** The switch on the tag just read.  The fast path looks for another nested message right after
        the type and after each nested message, and then for the end. */
    method Dispatch(input: CodedInput, tag: nat, ghost ahead: Bytes) returns (next: Round)
      requires Valid() && !input.legitimateEnd && ahead != [] && ReadTag(ahead) == Got(tag, input.buf)
      modifies this, Owned(), Objects(spare), Inner(spare), input
      ensures Valid() && Grown() && Advanced(old(Value()), ahead, input, next)
      ensures msgtype_ == old(msgtype_) || (old(msgtype_) == kEmpty && fresh(msgtype_))
    {
      hide Parse, ReadTag, ReadPayload, ApplyFocus, EncodeUser, ReadVarint, NestedOk, Values, Objects, Inner, Grown;
      if tag / 8 == 1 && tag % 8 == 2 {
        next := CaseMsgtype(input, ahead);
      } else if tag / 8 == 2 && tag % 8 == 2 {
        next := CaseUi(input, ahead);
      } else {
        ParseField(ApplyFocus, Value(), ahead, tag, input.buf);
        SameNested();
        if tag % 8 == 4 {
          return Return;
        }
        var ok := KeepUnknown(input, tag);
        SameNested();
        next := if ok then Continue(false) else Fail;
      }
    }

    method CaseMsgtype(input: CodedInput, ghost ahead: Bytes) returns (next: Round)
      requires Valid() && !input.legitimateEnd && ahead != [] && ReadTag(ahead) == Got(10, input.buf)
      modifies this`msgtype_, this`hasMsgtype, Owned(), input
      ensures Valid() && Grown() && Advanced(old(Value()), ahead, input, next)
      ensures msgtype_ == old(msgtype_) || (old(msgtype_) == kEmpty && fresh(msgtype_))
    {
      hide Parse, ReadTag, ReadPayload, ApplyFocus, EncodeUser, ReadVarint, NestedOk, Values, Objects, Inner, Grown;
      ParseField(ApplyFocus, Value(), ahead, 10, input.buf);
      var ok := ReadMsgtype(input);
      SameNested();
      if !ok {
        return Fail;
      }
      ghost var read := Value();
      var there := input.ExpectTag(TAG_2);
      assert Value() == read;
      next := Continue(there);
    }

    method CaseUi(input: CodedInput, ghost ahead: Bytes) returns (next: Round)
      requires Valid() && !input.legitimateEnd && ahead != [] && ReadTag(ahead) == Got(TAG_2, input.buf)
      modifies this`ui_, this`spare, Objects(spare), Inner(spare), input
      ensures Valid() && Grown() && Advanced(old(Value()), ahead, input, next)
    {
      hide Parse, ReadTag, ReadPayload, ApplyFocus, EncodeUser, ReadVarint, NestedOk, Values, Objects, Inner, Grown;
      ParseField(ApplyFocus, Value(), ahead, TAG_2, input.buf);
      var ok := ReadUi(input);
      if !ok {
        return Fail;
      }
      ghost var read := Value();
      var there := input.ExpectTag(TAG_2);
      assert Value() == read;
      if there {
        return Continue(true);
      }
      var atEnd := input.ExpectAtEnd();
      assert Value() == read;
      ParseEnd(ApplyFocus, read);
      next := if atEnd then Return else Continue(false);
    }

    method ParseRound(input: CodedInput, taken: bool) returns (next: Round)
      requires Valid() && (taken ==> !input.legitimateEnd)
      modifies this, Owned(), Objects(spare), Inner(spare), input
      ensures Valid() && Grown() && Advanced(old(Value()), old(Ahead(taken, input.buf)), input, next)
      ensures msgtype_ == old(msgtype_) || (old(msgtype_) == kEmpty && fresh(msgtype_))
    {
      hide NestedOk, Values, Objects, Inner;
      var tag: nat := TAG_2;
      ghost var ahead, before := Ahead(taken, input.buf), Value();
      if taken {
        TakenTag(input.buf);
      } else {
        tag := input.NextTag();
        assert Value() == before;
        SameNested();
        if tag == 0 {
          return Return;
        }
      }
      next := Dispatch(input, tag, ahead);
    }

    /** The generated parser accepts the same bytes and builds the same message as the plain loop. */
    method MergePartialFromCodedStream(input: CodedInput) returns (ok: bool)
      requires Valid()
      modifies this, Owned(), Objects(spare), Inner(spare), input
      ensures Valid() && Grown()
      ensures msgtype_ == old(msgtype_) || (old(msgtype_) == kEmpty && fresh(msgtype_))
      ensures match Parse(ApplyFocus, old(Value()), old(input.buf))
              case Failed => !ok
              case Stopped(f, complete) => ok && Value() == f && input.legitimateEnd == complete
    {
      var next := Continue(false);
      while next.Continue?
        invariant Valid() && Grown()
        invariant msgtype_ == old(msgtype_) || (old(msgtype_) == kEmpty && fresh(msgtype_))
        invariant Parse(ApplyFocus, old(Value()), old(input.buf)) ==
                  match next
                  case Fail => Failed
                  case Return => Stopped(Value(), input.legitimateEnd)
                  case Continue(taken) => Parse(ApplyFocus, Value(), Ahead(taken, input.buf))
        invariant next.Continue? && next.taken ==> !input.legitimateEnd
        decreases next.Continue?, if next.Continue? then |Ahead(next.taken, input.buf)| else 0
      {
        next := ParseRound(input, next.taken);
      }
      ok := next.Return?;
    }

    // ---- serializing ----

    /** Storing cached sizes does not touch what the message stands for. */
    twostate lemma CachedSizesDoNotMatter()
      requires old(Valid()) && unchanged(this`msgtype_, this`hasMsgtype, this`ui_, this`spare, this`unknown)
      requires unchanged(kEmpty) && unchanged(msgtype_)
      requires forall u :: u in Nested() ==>
                 unchanged(u`userid_, u`username_, u`hasUserid, u`hasUsername, u`unknown) && unchanged(u.username_)
      ensures Valid() && Value() == old(Value())
    {
      hide EncodeUser, EncodeNested;
      assert old(AllValid(kEmpty, Nested()));
      forall i | 0 <= i < |Nested()| ensures Nested()[i].Valid() && Nested()[i].Value() == old(Nested()[i].Value()) {
        assert Nested()[i] in Nested();
      }
      assert forall i :: 0 <= i < |ui_| ==> ui_[i] == Nested()[i];
      assert forall i :: 0 <= i < |spare| ==> spare[i] == Nested()[|ui_| + i];
      assert Values(ui_) == old(Values(ui_));
    }

    /** Computes the encoded size, and leaves the right cached size in every nested message. */
    method ByteSize() returns (size: nat)
      requires Valid()
      modifies this`cachedSize, ui_`cachedSize
      ensures Valid() && Value() == old(Value())
      ensures size == cachedSize == |EncodeFocus(old(Value()))|
      ensures SizesCached()
    {
      hide EncodeUser, EncodeNested, EncodeRecord, MsgtypeBytes, NestedBytes, VarintSize, UnknownSize, Tag, PayloadSize;
      ghost var value := Value();
      size := 0;
      if hasMsgtype {
        size := size + 1 + (VarintSize(|msgtype_.chars|) + |msgtype_.chars|);
      }
      MsgtypeSize(value);
      size := size + |ui_|;
      Represents();
      var nested := ByteSizeOfNested(ui_, value.ui);
      size := size + nested;
      if unknown != [] {
        size := size + UnknownSize(unknown);
      }
      UnknownSizeExact(unknown);
      cachedSize := size;
      CachedSizesDoNotMatter();
    }

    method SerializeWithCachedSizes(output: CodedOutput)
      requires Valid() && SizesCached()
      modifies output
      ensures output.out == old(output.out) + old(EncodeFocus(Value()))
    {
      Represents();
      hide EncodeUser, EncodeNested, EncodeRecord, NestedOk, Nested, Focustm.Valid;
      ghost var value := Value();
      ghost var head, nested, rest := MsgtypeBytes(value), NestedBytes(value.ui, |value.ui|), EncodeAll(unknown);
      ghost var before := output.out;
      if hasMsgtype {
        output.WriteRaw(EncodeRecord(Record(1, Delimited(msgtype_.chars))));
      }
      assert output.out == before + head;
      WriteNested(ui_, output, value.ui);
      if unknown != [] {
        output.WriteRaw(EncodeAll(unknown));
      }
      assert output.out == before + head + nested + rest;
      Join3(before, head, nested, rest);
    }

    method SerializeWithCachedSizesToArray(target: array<byte>, at: nat) returns (end: nat)
      requires Valid() && SizesCached() && at + |EncodeFocus(Value())| <= target.Length
      modifies target
      ensures end == at + |old(EncodeFocus(Value()))|
      ensures Written(target[..], old(target[..]), at, old(EncodeFocus(Value())))
    {
      ghost var value := Value();
      Represents();
      assert Ready(ui_, value.ui);
      hide EncodeUser, EncodeNested, EncodeRecord, EncodeAll, NestedOk, Nested, Focustm.Valid, Ready, Represent,
        SizesCached, MsgtypeBytes, NestedBytes, Written;
      ghost var head, nested := MsgtypeBytes(value), NestedBytes(value.ui, |value.ui|);
      ghost var before := target[..];
      end := WriteMsgtypeToArray(target, at);
      end := WriteNestedToArray(ui_, target, end, before, at, head, value.ui);
      if unknown != [] {
        end := WriteToArray(EncodeAll(unknown), target, end, before, at, head + nested);
      } else {
        NoUnknown(value);
      }
    }

    method WriteMsgtypeToArray(target: array<byte>, at: nat) returns (end: nat)
      requires MsgtypeValid() && at + |MsgtypeBytes(Value())| <= target.Length
      modifies target
      ensures end == at + |old(MsgtypeBytes(Value()))|
      ensures Written(target[..], old(target[..]), at, old(MsgtypeBytes(Value())))
    {
      hide EncodeRecord, Values;
      ghost var before := target[..];
      assert Written(target[..], before, at, []);
      end := at;
      if hasMsgtype {
        end := WriteToArray(EncodeRecord(Record(1, Delimited(msgtype_.chars))), target, end, before, at, []);
        assert [] + MsgtypeBytes(Value()) == MsgtypeBytes(Value());
      }
    }
  }

  lemma NoUnknown(f: FocusTm)
    requires f.unknown == []
    ensures EncodeFocus(f) == MsgtypeBytes(f) + NestedBytes(f.ui, |f.ui|)
  {
  }

  lemma OneMoreValue(us: seq<Userinfo>, u: Userinfo)
    ensures Values(us + [u]) == Values(us) + [u.Value()]
  {
  }

  lemma NoneCleared(us: seq<Userinfo>)
    ensures AllCleared(us[..0])
  {
  }

  method DestroyNested(kEmpty: CppString, us: seq<Userinfo>)
    requires AllValid(kEmpty, us)
    modifies Strings(us) - {kEmpty}
    ensures forall p :: p in Strings(us) - {kEmpty} ==> p.freed
  {
    var i := 0;
    while i < |us|
      invariant 0 <= i <= |us|
      invariant forall j :: 0 <= j < i ==> us[j].username_ == kEmpty || us[j].username_.freed
      invariant forall j :: i <= j < |us| ==> us[j].Valid()
    {
      us[i].Destroy();
      i := i + 1;
    }
  }

  /** What the repeated field does for each message that it takes over from another one. */
  method CopyOf(v: Userinfo) returns (u: Userinfo)
    requires v.Valid()
    ensures fresh(u) && u.Valid() && u.kEmpty == v.kEmpty && u.Value() == v.Value() && fresh(u.Owned())
  {
    u := new Userinfo(v.kEmpty);
    u.MergeFrom(v);
    assert MergeUser(NO_USER, v.Value()) == v.Value();
  }

  /** The objects stand for these values. */
  ghost predicate Represent(us: seq<Userinfo>, values: seq<UserInfo>)
    reads us, Strings(us), (set u | u in us :: u.kEmpty)
  {
    |us| == |values| && forall i :: 0 <= i < |us| ==> us[i].Valid() && us[i].Value() == values[i]
  }

  /** The loop of `ByteSize` over the nested messages; their tags are counted before it. */
  method ByteSizeOfNested(us: seq<Userinfo>, ghost values: seq<UserInfo>) returns (size: nat)
    requires Represent(us, values) && forall i, j :: 0 <= i < j < |us| ==> us[i] != us[j]
    modifies us`cachedSize
    ensures Represent(us, values)
    ensures forall i :: 0 <= i < |us| ==> us[i].cachedSize == |EncodeUser(values[i])|
    ensures size + |us| == |NestedBytes(values, |values|)|
  {
    hide EncodeUser, EncodeNested, Varint;
    size := 0;
    var i := 0;
    while i < |us|
      invariant 0 <= i <= |us| && Represent(us, values)
      invariant forall j :: 0 <= j < i ==> us[j].cachedSize == |EncodeUser(values[j])|
      invariant size + i == |NestedBytes(values, i)|
    {
      var nested := CacheSizeOf(us[i], us, i, values);
      NestedSize(values[i]);
      size := size + (VarintSize(nested) + nested);
      i := i + 1;
    }
  }

  lemma NothingAdded(f: FocusTm, us: seq<UserInfo>)
    ensures f.(ui := f.ui + us[..0]) == f
  {
  }

  lemma OneAdded(f: FocusTm, us: seq<UserInfo>, i: nat)
    requires i < |us|
    ensures f.ui + us[..i] + [us[i]] == f.ui + us[..i + 1]
  {
  }

  lemma MergedIntoNothing(f: FocusTm)
    ensures MergeFocus(NO_FOCUS, f) == f
  {
  }

  lemma NestedSize(u: UserInfo)
    ensures |EncodeNested(u)| == 1 + VarintSize(|EncodeUser(u)|) + |EncodeUser(u)|
  {
    hide EncodeUser;
  }

  method CacheSizeOf(u: Userinfo, ghost us: seq<Userinfo>, ghost i: nat, ghost values: seq<UserInfo>)
    returns (size: nat)
    requires Represent(us, values) && i < |us| && u == us[i]
    modifies u`cachedSize
    ensures Represent(us, values) && size == u.cachedSize == |EncodeUser(values[i])|
  {
    hide EncodeUser;
    size := u.ByteSize();
  }

  method WriteNested(us: seq<Userinfo>, output: CodedOutput, ghost values: seq<UserInfo>)
    requires Represent(us, values)
    requires forall i :: 0 <= i < |us| ==> us[i].cachedSize == |EncodeUser(values[i])|
    modifies output
    ensures output.out == old(output.out) + NestedBytes(values, |values|)
  {
    hide EncodeUser, EncodeNested, EncodeRecord;
    var i := 0;
    while i < |us|
      invariant 0 <= i <= |us| && Represent(us, values)
      invariant output.out == old(output.out) + NestedBytes(values, i)
    {
      WriteMessageMaybeToArray(us[i], output);
      i := i + 1;
    }
  }

  /** The objects stand for these values, and their sizes are cached. */
  ghost predicate Ready(us: seq<Userinfo>, values: seq<UserInfo>)
    reads us, Strings(us), (set u | u in us :: u.kEmpty)
  {
    Represent(us, values) && forall i :: 0 <= i < |us| ==> us[i].cachedSize == |EncodeUser(values[i])|
  }

  method WriteNestedToArray(us: seq<Userinfo>, target: array<byte>, at: nat, ghost before: Bytes, ghost start: nat,
                            ghost a: Bytes, ghost values: seq<UserInfo>)
    returns (end: nat)
    requires Ready(us, values) && |us| == |values|
    requires at == start + |a| && at + |NestedBytes(values, |values|)| <= target.Length == |before|
    requires Written(target[..], before, start, a)
    modifies target
    ensures end == start + |a + NestedBytes(values, |values|)|
    ensures Written(target[..], before, start, a + NestedBytes(values, |values|))
  {
    hide EncodeNested, Written, Ready;
    end := at;
    assert a + [] == a;
    var i := 0;
    while i < |us|
      invariant 0 <= i <= |us| && Ready(us, values)
      invariant NestedBytes(values, i) <= NestedBytes(values, |values|)
      invariant end == start + |a + NestedBytes(values, i)|
      invariant Written(target[..], before, start, a + NestedBytes(values, i))
    {
      ghost var done, next := NestedBytes(values, i), EncodeNested(values[i]);
      NestedBytesGrow(values, i + 1);
      end := WriteOneToArray(us[i], us, i, values, target, end, before, start, a + done);
      assert (a + done) + next == a + (done + next);
      i := i + 1;
    }
  }

  method WriteOneToArray(u: Userinfo, ghost us: seq<Userinfo>, ghost i: nat, ghost values: seq<UserInfo>,
                         target: array<byte>, at: nat, ghost before: Bytes, ghost start: nat, ghost a: Bytes)
    returns (end: nat)
    requires Ready(us, values) && i < |us| && u == us[i]
    requires target.Length == |before| && at + |EncodeNested(values[i])| <= target.Length
    requires at == start + |a| && Written(target[..], before, start, a)
    modifies target
    ensures Ready(us, values) && end == start + |a + EncodeNested(values[i])|
    ensures Written(target[..], before, start, a + EncodeNested(values[i]))
  {
    hide EncodeUser, EncodeNested, Written;
    end := WriteMessageToArray(u, target, at, before, start, a);
  }

  /** The stream's own buffer, with the message serialized into it. */
  method FilledBuffer(u: Userinfo) returns (buffer: array<byte>)
    requires u.Valid() && u.cachedSize == |EncodeUser(u.Value())|
    ensures fresh(buffer) && buffer[..] == EncodeUser(u.Value())
  {
    hide EncodeUser;
    ghost var contents := EncodeUser(u.Value());
    buffer := new byte[u.cachedSize](_ => 0);
    var _ := u.SerializeWithCachedSizesToArray(buffer, 0);
    assert buffer[..] == contents;
  }

  /** Writes tag, cached size and contents, directly into the stream's buffer if it has one. */
  method WriteMessageMaybeToArray(u: Userinfo, output: CodedOutput)
    requires u.Valid() && u.cachedSize == |EncodeUser(u.Value())|
    modifies output
    ensures output.out == old(output.out) + EncodeNested(u.Value())
  {
    hide EncodeUser, Varint;
    ghost var before, contents := output.out, EncodeUser(u.Value());
    output.WriteRaw(NestedHeader(u.cachedSize));
    if output.direct {
      var buffer := FilledBuffer(u);
      output.WriteRaw(buffer[..]);
    } else {
      u.SerializeWithCachedSizes(output);
    }
    assert output.out == before + (NestedHeader(|contents|) + contents);
  }

  method WriteMessageToArray(u: Userinfo, target: array<byte>, at: nat, ghost before: Bytes, ghost start: nat,
                             ghost a: Bytes)
    returns (end: nat)
    requires u.Valid() && u.cachedSize == |EncodeUser(u.Value())|
    requires target.Length == |before| && at + |EncodeNested(u.Value())| <= target.Length
    requires at == start + |a| && Written(target[..], before, start, a)
    modifies target
    ensures end == start + |a + EncodeNested(u.Value())|
    ensures Written(target[..], before, start, a + EncodeNested(u.Value()))
  {
    hide EncodeUser, Varint;
    ghost var value := u.Value();
    ghost var header, contents := NestedHeader(u.cachedSize), EncodeUser(value);
    end := WriteToArray(NestedHeader(u.cachedSize), target, at, before, start, a);
    ghost var mid := target[..];
    end := u.SerializeWithCachedSizesToArray(target, end);
    WrittenThen(before, mid, target[..], start, a + header, contents);
    assert (a + header) + contents == a + (header + contents);
  }

  /** Reads a nested message, under a limit of its own; it must end there. */
  method ReadMessage(u: Userinfo, input: CodedInput) returns (ok: bool)
    requires u.Valid() && u.Value() == NO_USER
    modifies u, u.Owned(), input
    ensures u.Valid() && (u.username_ == old(u.username_) || (old(u.username_) == u.kEmpty && fresh(u.username_)))
    ensures match ReadPayload(2, old(input.buf))
            case Bad => !ok
            case Got(p, rest) =>
              (match Parse(ApplyUser, NO_USER, p.data)
               case Stopped(v, true) => ok && input.buf == rest && u.Value() == v
               case _ => !ok)
    ensures ok ==> input.beyond == old(input.beyond) && !input.legitimateEnd
  {
    ok := false;
    var length := input.NextVarint32();
    if length.None? || length.value > |input.buf| {
      return;
    }
    ghost var rest := input.buf[length.value..];
    var outer := input.PushLimit(length.value);
    ok := u.MergePartialFromCodedStream(input);
    ok := ok && input.legitimateEnd;
    if ok {
      input.PopLimit(outer);
      assert input.buf == rest && input.beyond == old(input.beyond);
    }
  }
}
