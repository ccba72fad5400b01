/**
 Any number of messages of both types that share one empty string, together with the strings their
 callers hold, under every sequence of the generated mutators, parsers and destructors.
 */
module MessageArena {
  import opened Bytes
  import opened Options
  import opened Messages
  import opened CodedStreams
  import opened MessageObjects
  import opened FocusObjects

  datatype Owner = Info(u: Userinfo) | Outer(f: Focustm)

  /** An operation on an outer message that writes no nested messages but `us` and new ones. */
  datatype Change = Change(f: Focustm, us: seq<Userinfo>)

  class Arena {
    const kEmpty: CppString
    /** All nested-type messages, standing alone or inside an outer one, and all outer messages. */
    ghost var infos: set<Userinfo>
    ghost var outers: set<Focustm>
    /** Those that an outer message only keeps for reuse; no caller uses a pointer to one. */
    ghost var spare: set<Userinfo>
    /** Strings handed to callers by `release`, or made by them, and not given back. */
    ghost var loose: set<CppString>
    /** The one message that owns each string allocated and neither freed nor loose. */
    ghost var owner: map<CppString, Owner>
    /** The outer message that each nested one lies in, unless it stands alone. */
    ghost var parent: map<Userinfo, Focustm>

    // ---- the heap invariant ----

    ghost predicate StringsOk()
      reads this, kEmpty, loose
    {
      && kEmpty.chars == [] && !kEmpty.freed && kEmpty !in loose && kEmpty !in owner && owner.Keys !! loose
      && forall p <- loose :: !p.freed
    }

    ghost predicate InfoIn(m: Userinfo)
      reads this, m, m.kEmpty, m.username_
    {
      && m.kEmpty == kEmpty && m.Valid() && (m in spare ==> m.Value() == NO_USER)
      && (m.username_ == kEmpty || (m.username_ in owner && owner[m.username_] == Info(m)))
    }

    ghost predicate OuterIn(f: Focustm)
      reads this, f, f.kEmpty, f.msgtype_
    {
      && f.kEmpty == kEmpty && f.MsgtypeValid()
      && (f.msgtype_ == kEmpty || (f.msgtype_ in owner && owner[f.msgtype_] == Outer(f)))
      && (forall u <- f.ui_ :: u in infos && u in parent && parent[u] == f && u !in spare)
      && (forall u <- f.spare :: u in infos && u in parent && parent[u] == f && u in spare)
      && (forall i, j :: 0 <= i < j < |f.Nested()| ==> f.Nested()[i] != f.Nested()[j])
    }

    ghost predicate Points(p: CppString)
      requires p in owner
      reads this, infos, outers
    {
      match owner[p]
      case Info(u) => u in infos && u.username_ == p
      case Outer(f) => f in outers && f.msgtype_ == p
    }

    ghost predicate Linked(u: Userinfo)
      requires u in parent
      reads this, outers
    {
      u in infos && parent[u] in outers && u in parent[u].Nested()
    }

    /** Every message is valid; the empty string is unchanged and never freed; every other string in
        use is live and has exactly one owner, a message or a caller; every nested message lies in at
        most one outer message, once, in use or kept for reuse. */
    ghost predicate Valid()
      reads this, kEmpty, infos, outers, loose
      reads set m <- infos :: m.kEmpty
      reads set m <- infos :: m.username_
      reads set f <- outers :: f.kEmpty
      reads set f <- outers :: f.msgtype_
    {
      && StringsOk() && spare <= parent.Keys
      && (forall m <- infos :: InfoIn(m))
      && (forall f <- outers :: OuterIn(f))
      && (forall p <- owner :: Points(p))
      && (forall u <- parent :: Linked(u))
    }

    /** A message that a caller may operate on. */
    ghost predicate InUse(m: Userinfo)
      reads this`infos, this`spare
    {
      m in infos && m !in spare
    }

    /** All that an operation on the arena may write. */
    ghost function Repr(): set<object>
      reads this
    {
      {this} + infos + outers + owner.Keys + loose
    }

    constructor ()
      ensures Valid() && fresh(kEmpty) && infos == {} && outers == {} && loose == {} && owner == map[]
    {
      kEmpty := new CppString();
      infos, outers, spare, loose, owner, parent := {}, {}, {}, {}, map[], map[];
    }

    // ---- what the invariant gives the methods of the messages ----

    lemma OwnerOf(m: Userinfo)
      requires Valid() && m in infos
      ensures m.Valid() && m.kEmpty == kEmpty
      ensures forall p <- m.Owned() :: p in owner && owner[p] == Info(m) && p !in loose
      ensures kEmpty !in loose && (forall p <- loose :: !p.freed && p !in owner)
    {
      assert InfoIn(m);
    }

    lemma Separate(m: Userinfo, n: Userinfo)
      requires Valid() && m in infos && n in infos && m != n
      ensures m.Owned() !! n.Owned()
    {
      OwnerOf(m);
      OwnerOf(n);
    }

    lemma OuterOwnerOf(f: Focustm)
      requires Valid() && f in outers
      ensures f.Valid() && f.kEmpty == kEmpty
      ensures forall p <- f.Owned() :: p in owner && owner[p] == Outer(f) && p !in loose
      ensures forall u <- f.Nested() :: u in infos && u in parent && parent[u] == f
      ensures forall p <- f.Inner(f.ui_) + f.Inner(f.spare) ::
                p in owner && owner[p] in Infos(f.Nested()) && p !in loose
      ensures kEmpty !in loose && forall p <- loose :: !p.freed && p !in owner && p !in Strings(f.Nested())
    {
      assert OuterIn(f);
      NestedOwned(f);
      var us := f.Nested();
      forall i | 0 <= i < |us| ensures us[i].Valid() && us[i].kEmpty == kEmpty {
        OwnerOf(us[i]);
      }
      forall i, j | 0 <= i < j < |us| ensures us[i].username_ != us[j].username_ || us[i].username_ == kEmpty {
        Separate(us[i], us[j]);
      }
      forall u <- f.spare ensures u.Value() == NO_USER {
        assert InfoIn(u);
      }
      hide Valid, InfoIn, OuterIn, Points, Linked;
      assert NestedOk(kEmpty, f.ui_, f.spare);
    }

    lemma NestedOwned(f: Focustm)
      requires Valid() && f in outers
      ensures forall u <- f.Nested() :: u in infos && u in parent && parent[u] == f
      ensures forall u <- f.Nested() ::
                || u.username_ == kEmpty
                || (u.username_ in owner && owner[u.username_] == Info(u) && u.username_ !in loose)
      ensures forall u <- f.Nested() :: u.username_ !in f.Owned()
    {
      assert OuterIn(f);
      forall u <- f.Nested() ensures u in infos && u in parent && parent[u] == f {
        assert u in f.ui_ || u in f.spare;
      }
      forall u <- f.Nested()
        ensures u.username_ == kEmpty
                || (u.username_ in owner && owner[u.username_] == Info(u) && u.username_ !in loose)
      {
        OwnerOf(u);
      }
    }

    /** No two messages own the same string, so one can be merged into the other. */
    lemma OutersApart(f: Focustm, g: Focustm)
      requires Valid() && f in outers && g in outers && f != g
      ensures f.Apart(g)
    {
      OuterOwnerOf(f);
      OuterOwnerOf(g);
      NestedOwned(g);
      hide Valid, Focustm.Valid, OuterIn;
    }

    // ---- what an operation leaves alone ----

    /** Whatever concerns none of `objs` is as it was. */
    twostate predicate OthersSame(objs: set<Owner>)
      reads *
    {
      && unchanged(kEmpty)
      && (forall m <- old(infos) :: Info(m) !in objs ==>
            m in infos && unchanged(m) && (m in spare ==> m in old(spare)) && (m in parent <==> m in old(parent)))
      && (forall f <- old(outers) :: Outer(f) !in objs ==> f in outers && unchanged(f))
      && (forall p <- old(owner) :: old(owner)[p] !in objs ==>
            p in owner && owner[p] == old(owner)[p] && unchanged(p))
      && (forall u <- old(parent) :: Outer(old(parent)[u]) !in objs ==>
            u in infos && u in parent && parent[u] == old(parent)[u] && (u in spare <==> u in old(spare)))
    }

    /** Whatever is new or concerns `objs` satisfies the invariant. */
    twostate predicate ChangesOk(objs: set<Owner>)
      reads this, infos, outers
      reads set m <- infos :: m.kEmpty
      reads set m <- infos :: m.username_
      reads set f <- outers :: f.kEmpty
      reads set f <- outers :: f.msgtype_
    {
      && spare <= parent.Keys
      && (forall m <- infos :: (m in old(infos) && Info(m) !in objs) || InfoIn(m))
      && (forall f <- outers :: (f in old(outers) && Outer(f) !in objs) || OuterIn(f))
      && (forall p <- owner :: (p in old(owner) && old(owner)[p] !in objs) || Points(p))
      && (forall u <- parent :: (u in old(parent) && Outer(old(parent)[u]) !in objs) || Linked(u))
    }

    twostate lemma KeepsInfos(objs: set<Owner>)
      requires old(Valid()) && OthersSame(objs)
      ensures forall m <- old(infos) :: Info(m) !in objs ==> InfoIn(m)
    {
      forall m | m in old(infos) && Info(m) !in objs ensures InfoIn(m) {
        assert old(InfoIn(m));
      }
    }

    twostate lemma KeepsOuters(objs: set<Owner>)
      requires old(Valid()) && OthersSame(objs)
      ensures forall f <- old(outers) :: Outer(f) !in objs ==> OuterIn(f)
    {
      forall f | f in old(outers) && Outer(f) !in objs ensures OuterIn(f) {
        assert old(OuterIn(f));
      }
    }

    twostate lemma KeepsPoints(objs: set<Owner>)
      requires old(Valid()) && OthersSame(objs)
      ensures forall p <- old(owner) :: old(owner)[p] !in objs ==> p in owner && Points(p)
    {
      forall p | p in old(owner) && old(owner)[p] !in objs ensures p in owner && Points(p) {
        assert old(Points(p));
      }
    }

    twostate lemma KeepsLinked(objs: set<Owner>)
      requires old(Valid()) && OthersSame(objs)
      ensures forall u <- old(parent) :: Outer(old(parent)[u]) !in objs ==> u in parent && Linked(u)
    {
      forall u | u in old(parent) && Outer(old(parent)[u]) !in objs ensures u in parent && Linked(u) {
        assert old(Linked(u));
      }
    }

    /** An operation on `objs` that does right by them keeps the invariant. */
    twostate lemma KeepsValid(objs: set<Owner>)
      requires old(Valid()) && OthersSame(objs) && ChangesOk(objs) && StringsOk()
      ensures Valid()
    {
      hide OthersSame, InfoIn, OuterIn, Points, Linked, StringsOk;
      KeepsInfos(objs);
      KeepsOuters(objs);
      KeepsPoints(objs);
      KeepsLinked(objs);
    }

    /** Every other message is still in the arena, in its place, as an object, with its string and with
        its value, and so are the strings of the callers. */
    twostate predicate Untouched(objs: set<Owner>)
      reads *
    {
      && InfosUntouched(objs) && OutersUntouched(objs)
      && (forall u <- old(parent) :: Outer(old(parent)[u]) !in objs ==> u in parent && parent[u] == old(parent)[u])
      && (forall p <- old(loose) :: p.chars == old(p.chars))
    }

    twostate predicate InfosUntouched(objs: set<Owner>)
      reads *
    {
      forall m <- old(infos) :: Info(m) !in objs ==> InfoUntouched(m)
    }

    twostate predicate InfoUntouched(m: Userinfo)
      reads *
    {
      && m in infos && unchanged(m) && unchanged(m.username_) && m.Value() == old(m.Value())
      && (m in spare ==> m in old(spare)) && (m in parent <==> m in old(parent))
    }

    twostate predicate OutersUntouched(objs: set<Owner>)
      reads *
    {
      forall f <- old(outers) :: Outer(f) !in objs ==>
        f in outers && unchanged(f) && unchanged(f.msgtype_) && (NoneNested(f, objs) ==> f.Value() == old(f.Value()))
    }

    static predicate NoneNested(f: Focustm, objs: set<Owner>)
      reads f
    {
      forall u <- f.ui_ :: Info(u) !in objs
    }

    twostate lemma LeavesInfos(objs: set<Owner>)
      requires old(Valid()) && OthersSame(objs)
      ensures InfosUntouched(objs)
    {
      forall m | m in old(infos) && Info(m) !in objs ensures InfoUntouched(m) {
        assert old(InfoIn(m));
      }
    }

    /** The messages, apart from the strings of the callers. */
    twostate lemma Leaves(objs: set<Owner>)
      requires old(Valid()) && OthersSame(objs)
      requires forall p <- old(loose) :: p.chars == old(p.chars)
      ensures Untouched(objs)
    {
      LeavesInfos(objs);
      LeavesOuters(objs);
      hide Valid, InfosUntouched, OutersUntouched;
    }

    twostate lemma LeavesOuters(objs: set<Owner>)
      requires old(Valid()) && OthersSame(objs)
      ensures OutersUntouched(objs)
    {
      LeavesInfos(objs);
      forall f | f in old(outers) && Outer(f) !in objs ensures unchanged(f.msgtype_) {
        assert old(OuterIn(f));
      }
      forall f | f in old(outers) && Outer(f) !in objs && NoneNested(f, objs) ensures f.Value() == old(f.Value()) {
        assert old(OuterIn(f));
        hide OthersSame, Valid, InfoIn, OuterIn;
        assert forall u <- f.ui_ :: InfoUntouched(u);
        forall i | 0 <= i < |f.ui_| ensures f.ui_[i].Value() == old(f.ui_[i].Value()) {
          assert f.ui_[i] in f.ui_;
        }
        assert Values(f.ui_) == old(Values(f.ui_));
      }
    }

    /** What is in the arena was there before or is new, and no string was lost. */
    twostate predicate Accounted()
      reads *
    {
      && (forall o <- Repr() :: o in old(Repr()) || fresh(o))
      && (forall p <- old(owner) :: p in owner || p in loose || p.freed)
      && (forall p <- old(loose) :: p in owner || p in loose || p.freed)
    }

    // ---- keeping the books ----

    static ghost function Without(owner: map<CppString, Owner>, objs: set<Owner>): map<CppString, Owner> {
      map p | p in owner && owner[p] !in objs :: owner[p]
    }

    static ghost function With(owner: map<CppString, Owner>, p: CppString, kEmpty: CppString, obj: Owner)
      : map<CppString, Owner>
    {
      if p == kEmpty then owner else owner[p := obj]
    }

    /** The message owns the string it points to now, and no other. */
    ghost method Reown(m: Userinfo)
      modifies this`owner
      ensures owner == With(Without(old(owner), {Info(m)}), m.username_, kEmpty, Info(m))
    {
      owner := With(Without(owner, {Info(m)}), m.username_, kEmpty, Info(m));
    }

    /** The string of a message that was operated on: the one it had, the empty one, a new one, or one
        that a caller gave it.  The former string is its string, a caller's, or freed. */
    twostate predicate Exchanges(was: CppString, new now: CppString)
      reads this, was
    {
      && (now == was || now == kEmpty || fresh(now) || now in old(loose))
      && (was == kEmpty || was == now || was in loose || was.freed)
      && loose <= old(loose) + {was} && (forall p <- old(loose) :: p in loose || p == now)
      && now !in loose && kEmpty !in loose
    }

    /** Only one nested message was operated on. */
    twostate predicate OnlyInfo(m: Userinfo)
      requires m in old(infos)
      reads *
    {
      && infos == old(infos) && outers == old(outers) && parent == old(parent) && spare == old(spare)
      && m !in spare && m.Valid() && Exchanges(old(m.username_), m.username_)
      && owner == With(Without(old(owner), {Info(m)}), m.username_, kEmpty, Info(m))
      && unchanged(kEmpty) && (forall p <- loose :: !p.freed) && (forall p <- old(loose) :: unchanged(p))
      && (forall n <- infos :: n != m ==> unchanged(n)) && (forall f <- outers :: unchanged(f))
      && (forall p <- old(owner) :: old(owner)[p] != Info(m) ==> unchanged(p))
    }

    twostate lemma InfoOthersSame(m: Userinfo)
      requires old(Valid()) && m in old(infos) && OnlyInfo(m)
      ensures OthersSame({Info(m)})
    {
      hide InfoIn, OuterIn, Linked;
      OwnersStay(m);
    }

    twostate lemma OwnersStay(m: Userinfo)
      requires old(Valid()) && m in old(infos) && OnlyInfo(m)
      ensures forall p <- old(owner) :: old(owner)[p] != Info(m) ==> p in owner && owner[p] == old(owner)[p]
      ensures old(forall u <- parent :: u in infos)
    {
      forall p | p in old(owner) && old(owner)[p] != Info(m) ensures p in owner && owner[p] == old(owner)[p] {
        assert old(Points(p));
        assert old(InfoIn(m));
      }
      assert old(forall u <- parent :: Linked(u));
    }

    twostate lemma InfoChangesOk(m: Userinfo)
      requires old(Valid()) && m in old(infos) && OnlyInfo(m)
      ensures ChangesOk({Info(m)}) && StringsOk()
    {
      hide OuterIn, Linked;
      assert old(InfoIn(m));
      assert InfoIn(m);
    }

    twostate lemma InfoAccounted(m: Userinfo)
      requires old(Valid()) && m in old(infos) && OnlyInfo(m)
      ensures Accounted()
    {
      assert old(InfoIn(m));
      forall p | p in old(owner) ensures p in owner || p in loose || p.freed {
        assert old(Points(p));
      }
      hide InfoIn, OuterIn, Points, Linked;
    }

    twostate lemma InfoChanged(m: Userinfo)
      requires old(Valid()) && m in old(infos) && OnlyInfo(m)
      ensures Valid() && Untouched({Info(m)}) && Accounted()
    {
      InfoAccounted(m);
      hide OthersSame, ChangesOk, StringsOk, Untouched, Valid, Accounted;
      assert forall p <- old(loose) :: p.chars == old(p.chars);
      hide OnlyInfo;
      InfoOthersSame(m);
      InfoChangesOk(m);
      KeepsValid({Info(m)});
      Leaves({Info(m)});
    }

    /** All that was in the arena is as it was, but for the strings of the callers. */
    twostate predicate AllSame()
      reads *
    {
      && spare == old(spare) && owner == old(owner) && parent == old(parent)
      && old(infos) <= infos && old(outers) <= outers
      && unchanged(kEmpty) && (forall m <- old(infos) :: unchanged(m)) && (forall f <- old(outers) :: unchanged(f))
      && forall p <- owner :: unchanged(p)
    }

    twostate lemma AllSameOk()
      requires old(Valid()) && AllSame()
      ensures OthersSame({}) && spare <= parent.Keys
      ensures (forall p <- owner :: Points(p)) && forall u <- parent :: Linked(u)
    {
      assert (forall u <- old(parent) :: old(Linked(u))) && forall p <- owner :: old(Points(p));
      hide InfoIn, OuterIn;
    }

    /** Messages that are in order may join. */
    twostate lemma Joined()
      requires old(Valid()) && AllSame() && StringsOk()
      requires forall m <- infos :: m in old(infos) || InfoIn(m)
      requires forall f <- outers :: f in old(outers) || OuterIn(f)
      ensures Valid() && InfosUntouched({}) && OutersUntouched({}) && parent == old(parent)
    {
      AllSameOk();
      LeavesInfos({});
      LeavesOuters({});
      hide Valid, OthersSame, InfoIn, OuterIn, Points, Linked, InfosUntouched, OutersUntouched, StringsOk;
      KeepsValid({});
    }

    // ---- operations on nested-type messages, also on one inside an outer message by `mutable_ui` ----

    method NewInfo() returns (m: Userinfo)
      requires Valid()
      modifies this`infos
      ensures Valid() && fresh(m) && m !in parent && InUse(m) && m.Owned() == {} && m.Value() == NO_USER
      ensures infos == old(infos) + {m} && Untouched({}) && Accounted()
    {
      assert StringsOk();
      hide Valid, InfosUntouched, OutersUntouched;
      m := new Userinfo(kEmpty);
      infos := infos + {m};
      Joined();
    }

    method SetUserid(m: Userinfo, value: nat)
      requires Valid() && InUse(m) && value < Wire.U32
      modifies this`owner, m`userid_, m`hasUserid
      ensures Valid() && m.Value() == old(m.Value()).(userid := Some(value)) && Untouched({Info(m)}) && Accounted()
    {
      hide Valid, Untouched, Accounted;
      OwnerOf(m);
      m.SetUserid(value);
      Reown(m);
      InfoChanged(m);
    }

    method ClearUserid(m: Userinfo)
      requires Valid() && InUse(m)
      modifies this`owner, m`userid_, m`hasUserid
      ensures Valid() && m.Value() == old(m.Value()).(userid := None) && Untouched({Info(m)}) && Accounted()
    {
      hide Valid, Untouched, Accounted;
      OwnerOf(m);
      m.ClearUserid();
      Reown(m);
      InfoChanged(m);
    }

    method SetUsername(m: Userinfo, value: Bytes)
      requires Valid() && InUse(m)
      modifies this`owner, m`username_, m`hasUsername, m.Owned()
      ensures Valid() && m.Value() == old(m.Value()).(username := Some(value)) && Untouched({Info(m)}) && Accounted()
      ensures if old(m.username_) == kEmpty then fresh(m.username_) else m.username_ == old(m.username_)
    {
      hide Valid, Untouched, Accounted;
      OwnerOf(m);
      m.SetUsername(value);
      Reown(m);
      InfoChanged(m);
    }

    method ClearUsername(m: Userinfo)
      requires Valid() && InUse(m)
      modifies this`owner, m`hasUsername, m.Owned()
      ensures Valid() && m.Value() == old(m.Value()).(username := None) && Untouched({Info(m)}) && Accounted()
    {
      hide Valid, Untouched, Accounted;
      OwnerOf(m);
      m.ClearUsername();
      Reown(m);
      InfoChanged(m);
    }

    /** `mutable_username` followed by a write through the pointer it gave. */
    method WriteMutableUsername(m: Userinfo, value: Bytes)
      requires Valid() && InUse(m)
      modifies this`owner, m`username_, m`hasUsername, m.Owned()
      ensures Valid() && m.Value() == old(m.Value()).(username := Some(value)) && Untouched({Info(m)}) && Accounted()
      ensures if old(m.username_) == kEmpty then fresh(m.username_) else m.username_ == old(m.username_)
    {
      hide Valid, Untouched, Accounted;
      OwnerOf(m);
      var p := m.MutableUsername();
      p.chars := value;
      Reown(m);
      InfoChanged(m);
    }

    method ReleaseUsername(m: Userinfo) returns (p: CppString?)
      requires Valid() && InUse(m)
      modifies this`loose, this`owner, m`username_, m`hasUsername
      ensures Valid() && m.Value() == old(m.Value()).(username := None) && Untouched({Info(m)}) && Accounted()
      ensures m.username_ == kEmpty && p == (if old(m.username_) == kEmpty then null else old(m.username_))
      ensures loose == old(loose) + (if p == null then {} else {p})
      ensures p != null ==> p.chars == old(m.username_.chars) && p !in old(loose)
    {
      hide Valid, Untouched, Accounted;
      OwnerOf(m);
      p := m.ReleaseUsername();
      if p != null {
        loose := loose + {p};
      }
      Reown(m);
      InfoChanged(m);
    }

    method SetAllocatedUsername(m: Userinfo, p: CppString?)
      requires Valid() && InUse(m) && (p != null ==> p in loose)
      modifies this`loose, this`owner, m`username_, m`hasUsername, m.Owned()
      ensures Valid() && Untouched({Info(m)}) && Accounted() && m.username_ == (if p == null then kEmpty else p)
      ensures m.Value() == old(m.Value()).(username := if p == null then None else Some(p.chars))
      ensures loose == old(loose) - (if p == null then {} else {p})
      ensures forall q <- old(m.Owned()) :: q.freed
    {
      hide Valid, Untouched, Accounted;
      OwnerOf(m);
      m.SetAllocatedUsername(p);
      if p != null {
        loose := loose - {p};
      }
      Reown(m);
      InfoChanged(m);
    }

    method ClearInfo(m: Userinfo)
      requires Valid() && InUse(m)
      modifies this`owner, m, m.Owned()
      ensures Valid() && m.Value() == NO_USER && Untouched({Info(m)}) && Accounted() && m.username_ == old(m.username_)
    {
      hide Valid, Untouched, Accounted;
      OwnerOf(m);
      m.Clear();
      Reown(m);
      InfoChanged(m);
    }

    method MergeInfo(m: Userinfo, from: Userinfo)
      requires Valid() && InUse(m) && InUse(from) && m != from
      modifies this`owner, m, m.Owned()
      ensures Valid() && Untouched({Info(m)}) && Accounted()
      ensures m.Value() == MergeUser(old(m.Value()), old(from.Value()))
      ensures m.username_ == old(m.username_) || (old(m.username_) == kEmpty && fresh(m.username_))
    {
      hide Valid, Untouched, Accounted, MergeUser;
      OwnerOf(m);
      OwnerOf(from);
      Separate(m, from);
      m.MergeFrom(from);
      Reown(m);
      InfoChanged(m);
    }

    method CopyInfo(m: Userinfo, from: Userinfo)
      requires Valid() && InUse(m) && InUse(from)
      modifies this`owner, m, m.Owned()
      ensures Valid() && m.Value() == old(from.Value()) && Untouched({Info(m)}) && Accounted()
      ensures m.username_ == old(m.username_) || (old(m.username_) == kEmpty && fresh(m.username_))
    {
      hide Valid, Untouched, Accounted;
      OwnerOf(m);
      OwnerOf(from);
      if m != from {
        Separate(m, from);
      }
      m.CopyFrom(from);
      Reown(m);
      InfoChanged(m);
    }

    method ParseInfo(m: Userinfo, input: CodedInput) returns (ok: bool)
      requires Valid() && InUse(m)
      modifies this`owner, m, m.Owned(), input
      ensures Valid() && Untouched({Info(m)}) && Accounted()
      ensures match Parse(ApplyUser, old(m.Value()), old(input.buf))
              case Failed => !ok
              case Stopped(u, complete) => ok && m.Value() == u && input.legitimateEnd == complete
      ensures m.username_ == old(m.username_) || (old(m.username_) == kEmpty && fresh(m.username_))
    {
      hide Valid, Untouched, Accounted, Parse;
      OwnerOf(m);
      ok := m.MergePartialFromCodedStream(input);
      Reown(m);
      InfoChanged(m);
    }

    static ghost function Exchanged(o: Owner, a: Owner, b: Owner): Owner {
      if o == a then b else if o == b then a else o
    }

    /** Two messages exchange all their strings. */
    ghost method Exchange(a: Owner, b: Owner)
      modifies this`owner
      ensures owner == map p | p in old(owner) :: Exchanged(old(owner)[p], a, b)
    {
      owner := map p | p in owner :: Exchanged(owner[p], a, b);
    }

    /** Two nested messages exchanged everything, and nothing else happened. */
    twostate predicate OnlySwapped(mn: (Userinfo, Userinfo))
      reads *
    {
      var (m, n) := mn;
      && m in old(infos) && n in old(infos) && m.Valid() && n.Valid()
      && infos == old(infos) && outers == old(outers) && parent == old(parent) && loose == old(loose)
      && spare == old(spare) && m !in spare && n !in spare
      && owner == (map p | p in old(owner) :: Exchanged(old(owner)[p], Info(m), Info(n)))
      && m.username_ == old(n.username_) && n.username_ == old(m.username_)
      && (forall x <- infos :: x != m && x != n ==> unchanged(x)) && (forall f <- outers :: unchanged(f))
      && unchanged(kEmpty) && (forall p <- owner :: unchanged(p)) && (forall p <- loose :: unchanged(p))
    }

    static ghost function Both(mn: (Userinfo, Userinfo)): set<Owner> {
      {Info(mn.0), Info(mn.1)}
    }

    twostate lemma SwappedInfos(mn: (Userinfo, Userinfo))
      requires old(Valid()) && OnlySwapped(mn)
      ensures InfoIn(mn.0) && InfoIn(mn.1) && StringsOk()
    {
      assert old(InfoIn(mn.0)) && old(InfoIn(mn.1));
    }

    twostate lemma SwappedPoints(mn: (Userinfo, Userinfo))
      requires old(Valid()) && OnlySwapped(mn)
      ensures forall p <- owner :: Points(p)
    {
      hide InfoIn, OuterIn;
      forall p | p in owner ensures Points(p) {
        assert old(Points(p));
      }
    }

    twostate lemma SwappedOk(mn: (Userinfo, Userinfo))
      requires old(Valid()) && OnlySwapped(mn)
      ensures OthersSame(Both(mn)) && ChangesOk(Both(mn)) && StringsOk()
    {
      hide InfoIn, OuterIn, Points, StringsOk;
      SwappedInfos(mn);
      SwappedPoints(mn);
      assert forall u <- old(parent) :: old(Linked(u));
    }

    method SwapInfo(m: Userinfo, n: Userinfo)
      requires Valid() && InUse(m) && InUse(n)
      modifies this`owner, m, n
      ensures Valid() && m.Value() == old(n.Value()) && n.Value() == old(m.Value())
      ensures m.username_ == old(n.username_) && n.username_ == old(m.username_)
      ensures Untouched({Info(m), Info(n)}) && Accounted()
    {
      hide Valid, OthersSame, ChangesOk, StringsOk, Untouched;
      OwnerOf(m);
      OwnerOf(n);
      m.Swap(n);
      Exchange(Info(m), Info(n));
      ghost var mn := (m, n);
      SwappedOk(mn);
      KeepsValid(Both(mn));
      Leaves(Both(mn));
    }

    // ---- operations on outer messages that concern the string of the type ----

    static ghost function Infos(us: seq<Userinfo>): set<Owner> {
      set u | u in us :: Info(u)
    }

    ghost method ReownOuter(f: Focustm)
      modifies this`owner
      ensures owner == With(Without(old(owner), {Outer(f)}), f.msgtype_, kEmpty, Outer(f))
    {
      owner := With(Without(owner, {Outer(f)}), f.msgtype_, kEmpty, Outer(f));
    }

    /** Only the type of one outer message was operated on. */
    twostate predicate OnlyMsgtype(f: Focustm)
      requires f in old(outers)
      reads *
    {
      && infos == old(infos) && outers == old(outers) && parent == old(parent) && spare == old(spare)
      && f.ui_ == old(f.ui_) && f.spare == old(f.spare)
      && f.MsgtypeValid() && Exchanges(old(f.msgtype_), f.msgtype_)
      && owner == With(Without(old(owner), {Outer(f)}), f.msgtype_, kEmpty, Outer(f))
      && unchanged(kEmpty) && (forall p <- loose :: !p.freed) && (forall p <- old(loose) :: unchanged(p))
      && (forall n <- infos :: unchanged(n)) && (forall g <- outers :: g != f ==> unchanged(g))
      && (forall p <- old(owner) :: old(owner)[p] != Outer(f) ==> unchanged(p))
    }

    twostate lemma OtherOwnersStay(f: Focustm)
      requires old(Valid()) && f in old(outers) && OnlyMsgtype(f)
      ensures forall p <- old(owner) :: old(owner)[p] != Outer(f) ==> p in owner && owner[p] == old(owner)[p]
      ensures old(forall u <- parent :: u in infos)
    {
      assert old(OuterIn(f));
      assert old(forall u <- parent :: Linked(u));
      hide InfoIn, OuterIn, Linked;
      forall p | p in old(owner) && old(owner)[p] != Outer(f) ensures p in owner && owner[p] == old(owner)[p] {
        assert old(Points(p));
      }
    }

    twostate lemma MsgtypeOthersSame(f: Focustm)
      requires old(Valid()) && f in old(outers) && OnlyMsgtype(f)
      ensures OthersSame({Outer(f)})
    {
      OtherOwnersStay(f);
      hide Valid, Exchanges, With, Without;
    }

    twostate lemma MsgtypeChangesOk(f: Focustm)
      requires old(Valid()) && f in old(outers) && OnlyMsgtype(f)
      ensures ChangesOk({Outer(f)}) && StringsOk()
    {
      hide InfoIn;
      assert old(OuterIn(f));
      assert OuterIn(f);
    }

    twostate lemma MsgtypeAccounted(f: Focustm)
      requires old(Valid()) && f in old(outers) && OnlyMsgtype(f)
      ensures Accounted()
    {
      assert old(OuterIn(f));
      forall p | p in old(owner) ensures p in owner || p in loose || p.freed {
        assert old(Points(p));
      }
      hide InfoIn, OuterIn, Points, Linked;
    }

    twostate lemma MsgtypeChanged(f: Focustm)
      requires old(Valid()) && f in old(outers) && OnlyMsgtype(f)
      ensures Valid() && Untouched({Outer(f)}) && Accounted()
    {
      MsgtypeAccounted(f);
      hide OthersSame, ChangesOk, StringsOk, Untouched, Valid, Accounted;
      assert forall p <- old(loose) :: p.chars == old(p.chars);
      hide OnlyMsgtype;
      MsgtypeOthersSame(f);
      MsgtypeChangesOk(f);
      KeepsValid({Outer(f)});
      Leaves({Outer(f)});
    }

    method NewOuter() returns (f: Focustm)
      requires Valid()
      modifies this`outers
      ensures Valid() && fresh(f) && outers == old(outers) + {f} && f.Value() == NO_FOCUS && f.Owned() == {}
      ensures f.ui_ == [] && f.spare == [] && Untouched({}) && Accounted()
    {
      assert StringsOk();
      hide Valid, InfosUntouched, OutersUntouched;
      f := new Focustm(kEmpty);
      outers := outers + {f};
      Joined();
    }

    method SetMsgtype(f: Focustm, value: Bytes)
      requires Valid() && f in outers
      modifies this`owner, f`msgtype_, f`hasMsgtype, f.Owned()
      ensures Valid() && f.Value() == old(f.Value()).(msgtype := Some(value)) && Untouched({Outer(f)}) && Accounted()
      ensures f.msgtype_ == old(f.msgtype_) || (old(f.msgtype_) == kEmpty && fresh(f.msgtype_))
    {
      hide Valid, Untouched, Accounted, NestedOk, Values, Focustm.Value;
      OuterOwnerOf(f);
      f.SetMsgtype(value);
      ReownOuter(f);
      MsgtypeChanged(f);
    }

    method ClearMsgtype(f: Focustm)
      requires Valid() && f in outers
      modifies this`owner, f`hasMsgtype, f.Owned()
      ensures Valid() && f.Value() == old(f.Value()).(msgtype := None) && Untouched({Outer(f)}) && Accounted()
    {
      hide Valid, Untouched, Accounted, NestedOk, Values, Focustm.Value;
      OuterOwnerOf(f);
      f.ClearMsgtype();
      ReownOuter(f);
      MsgtypeChanged(f);
    }

    /** `mutable_msgtype` followed by a write through the pointer it gave. */
    method WriteMutableMsgtype(f: Focustm, value: Bytes)
      requires Valid() && f in outers
      modifies this`owner, f`msgtype_, f`hasMsgtype, f.Owned()
      ensures Valid() && f.Value() == old(f.Value()).(msgtype := Some(value)) && Untouched({Outer(f)}) && Accounted()
      ensures f.msgtype_ == old(f.msgtype_) || (old(f.msgtype_) == kEmpty && fresh(f.msgtype_))
    {
      hide Valid, Untouched, Accounted, NestedOk, Values, Focustm.Value;
      OuterOwnerOf(f);
      f.WriteMsgtype(value);
      ReownOuter(f);
      MsgtypeChanged(f);
    }

    method ReleaseMsgtype(f: Focustm) returns (p: CppString?)
      requires Valid() && f in outers
      modifies this`loose, this`owner, f`msgtype_, f`hasMsgtype
      ensures Valid() && f.Value() == old(f.Value()).(msgtype := None) && Untouched({Outer(f)}) && Accounted()
      ensures f.msgtype_ == kEmpty && p == (if old(f.msgtype_) == kEmpty then null else old(f.msgtype_))
      ensures loose == old(loose) + (if p == null then {} else {p})
      ensures p != null ==> p.chars == old(f.msgtype_.chars) && p !in old(loose)
    {
      hide Valid, Untouched, Accounted, NestedOk, Values, Focustm.Value;
      OuterOwnerOf(f);
      p := f.ReleaseMsgtype();
      if p != null {
        loose := loose + {p};
      }
      ReownOuter(f);
      MsgtypeChanged(f);
    }

    method SetAllocatedMsgtype(f: Focustm, p: CppString?)
      requires Valid() && f in outers && (p != null ==> p in loose)
      modifies this`loose, this`owner, f`msgtype_, f`hasMsgtype, f.Owned()
      ensures Valid() && Untouched({Outer(f)}) && Accounted() && f.msgtype_ == (if p == null then kEmpty else p)
      ensures f.Value() == old(f.Value()).(msgtype := if p == null then None else Some(p.chars))
      ensures loose == old(loose) - (if p == null then {} else {p})
      ensures forall q <- old(f.Owned()) :: q.freed
    {
      hide Valid, Untouched, Accounted, NestedOk, Values, Focustm.Value;
      OuterOwnerOf(f);
      f.SetAllocatedMsgtype(p);
      if p != null {
        loose := loose - {p};
      }
      ReownOuter(f);
      MsgtypeChanged(f);
    }

    // ---- operations on outer messages that concern the nested ones ----

    static ghost function Who(us: seq<Userinfo>, p: CppString): (u: Userinfo)
      requires p in Strings(us)
      reads us
      ensures u in us && u.username_ == p
    {
      var u :| u in us && u.username_ == p;
      u
    }

    static ghost function NestedOwners(us: seq<Userinfo>, kEmpty: CppString): map<CppString, Owner>
      reads us
    {
      map p | p in Strings(us) && p != kEmpty :: Info(Who(us, p))
    }

    lemma NestedOwnersExact(us: seq<Userinfo>)
      requires AllValid(kEmpty, us)
      ensures forall u <- us :: u.username_ == kEmpty
                || (u.username_ in NestedOwners(us, kEmpty) && NestedOwners(us, kEmpty)[u.username_] == Info(u))
    {
      forall u | u in us && u.username_ != kEmpty
        ensures u.username_ in NestedOwners(us, kEmpty) && NestedOwners(us, kEmpty)[u.username_] == Info(u)
      {
        var v := Who(us, u.username_);
        var i, j :| 0 <= i < |us| && 0 <= j < |us| && us[i] == u && us[j] == v;
        assert i == j;
      }
    }

    lemma NestedOwnersPoint(us: seq<Userinfo>)
      ensures NestedOwners(us, kEmpty).Keys == Strings(us) - {kEmpty}
      ensures forall p <- NestedOwners(us, kEmpty) ::
                var o := NestedOwners(us, kEmpty)[p];
                o.Info? && o.u in us && o.u.username_ == p
    {
    }

    /** The books after an operation on `f`, which had the nested messages `was`. */
    static ghost function SettledParent(parent: map<Userinfo, Focustm>, f: Focustm): map<Userinfo, Focustm>
      reads f
    {
      parent + (map u | u in f.Nested() :: f)
    }

    static ghost function SettledSpare(spare: set<Userinfo>, f: Focustm): set<Userinfo>
      reads f
    {
      spare - Objects(f.ui_) + Objects(f.spare)
    }

    static ghost function SettledOwner(owner: map<CppString, Owner>, f: Focustm, was: seq<Userinfo>)
      : map<CppString, Owner>
      reads f, f.ui_, f.spare
    {
      With(Without(owner, {Outer(f)} + Infos(was)), f.msgtype_, f.kEmpty, Outer(f)) + NestedOwners(f.Nested(), f.kEmpty)
    }

    ghost method Settle(f: Focustm, was: seq<Userinfo>)
      requires f.Valid()
      modifies this`infos, this`parent, this`owner, this`spare
      ensures f.Valid() && f.Value() == old(f.Value())
      ensures infos == old(infos) + Objects(f.Nested())
      ensures parent == SettledParent(old(parent), f)
      ensures spare == SettledSpare(old(spare), f)
      ensures owner == SettledOwner(old(owner), f, was)
    {
      hide SettledParent, SettledSpare, SettledOwner;
      infos, parent := infos + Objects(f.Nested()), SettledParent(parent, f);
      spare, owner := SettledSpare(spare, f), SettledOwner(owner, f, was);
    }

    /** All that an operation on an outer message may concern: itself and the nested messages it had. */
    twostate function Concerned(f: Focustm): set<Owner> {
      {Outer(f)} + Infos(old(f.Nested()))
    }

    /** Only one outer message was operated on, with its nested messages. */
    twostate predicate OnlyOuter(f: Focustm)
      reads *
    {
      Rearranged(f) && Booked(f) && Framed(f)
    }

    twostate predicate Rearranged(f: Focustm)
      reads *
    {
      && f in old(outers) && f.Valid() && f.kEmpty == kEmpty && f.Extended()
      && (f.msgtype_ == old(f.msgtype_) || (old(f.msgtype_) == kEmpty && fresh(f.msgtype_)))
    }

    twostate predicate Booked(f: Focustm)
      reads *
    {
      && outers == old(outers) && loose == old(loose)
      && infos == old(infos) + Objects(f.Nested())
      && parent == SettledParent(old(parent), f)
      && spare == SettledSpare(old(spare), f)
      && owner == SettledOwner(old(owner), f, old(f.Nested()))
    }

    twostate predicate Framed(f: Focustm)
      reads *
    {
      && unchanged(kEmpty) && (forall p <- old(loose) :: unchanged(p))
      && (forall m <- old(infos) :: Info(m) !in Concerned(f) ==> unchanged(m))
      && (forall g <- old(outers) :: g != f ==> unchanged(g))
      && (forall p <- old(owner) :: old(owner)[p] !in Concerned(f) ==> unchanged(p))
    }

    /** What the invariant said of it before. */
    twostate lemma WasOwner(f: Focustm)
      requires old(Valid()) && f in old(outers)
      ensures f.kEmpty == kEmpty
      ensures forall u <- old(f.Nested()) :: u in old(infos) && u in old(parent) && old(parent)[u] == f
      ensures forall u <- old(f.Nested()) ::
                || old(u.username_) == kEmpty
                || (old(u.username_) in old(owner) && old(owner)[old(u.username_)] == Info(u))
      ensures old(f.msgtype_) == kEmpty || (old(f.msgtype_) in old(owner) && old(owner)[old(f.msgtype_)] == Outer(f))
      ensures old(kEmpty !in loose && kEmpty !in owner && owner.Keys !! loose)
    {
      assert old(OuterIn(f));
      forall u <- old(f.Nested())
        ensures u in old(infos) && u in old(parent) && old(parent)[u] == f
        ensures old(u.username_) == kEmpty
                || (old(u.username_) in old(owner) && old(owner)[old(u.username_)] == Info(u))
      {
        assert old(u in f.ui_ || u in f.spare);
        assert old(InfoIn(u));
      }
    }

    twostate lemma NestedStrings(f: Focustm)
      requires Rearranged(f)
      ensures Strings(f.Nested()) - {kEmpty} == f.Inner(f.ui_) + f.Inner(f.spare)
      ensures old(Strings(f.Nested()) - {kEmpty}) == old(f.Inner(f.ui_) + f.Inner(f.spare))
    {
      assert forall u :: u in f.Nested() <==> u in f.ui_ || u in f.spare;
      assert forall u :: u in old(f.Nested()) <==> u in old(f.ui_) || u in old(f.spare);
    }

    twostate lemma NestedNew(f: Focustm)
      requires Rearranged(f)
      ensures forall u <- f.Nested() :: u in old(f.Nested()) || fresh(u)
      ensures forall u <- old(f.Nested()) :: u in f.Nested()
      ensures forall p <- Strings(f.Nested()) :: p == kEmpty || fresh(p) || p in old(Strings(f.Nested()))
      ensures forall p <- old(Strings(f.Nested())) :: p == kEmpty || p in Strings(f.Nested())
    {
      NestedStrings(f);
      hide Focustm.Valid, Focustm.Inner;
      forall u <- f.Nested() ensures u in old(f.Nested()) || fresh(u) {
        assert u in Objects(f.ui_) + Objects(f.spare);
        assert u in old(Objects(f.ui_) + Objects(f.spare)) ==> u in old(f.Nested());
      }
      forall p <- Strings(f.Nested()) ensures p == kEmpty || fresh(p) || p in old(Strings(f.Nested())) {
        assert p == kEmpty || p in f.Inner(f.ui_) + f.Inner(f.spare);
      }
      forall p <- old(Strings(f.Nested())) ensures p == kEmpty || p in Strings(f.Nested()) {
        assert p == kEmpty || p in old(f.Inner(f.ui_) + f.Inner(f.spare));
      }
      forall u <- old(f.Nested()) ensures u in f.Nested() {
        var i :| 0 <= i < |old(f.Nested())| && old(f.Nested())[i] == u;
        assert f.Nested()[i] == u;
      }
    }

    /** Each string that the nested messages own now is new or was owned by one of them. */
    twostate lemma NestedKeep(f: Focustm)
      requires old(Valid()) && Rearranged(f)
      ensures forall p <- Strings(f.Nested()) ::
                p == kEmpty || fresh(p) || (p in old(owner) && old(owner)[p] in Infos(old(f.Nested())))
    {
      NestedNew(f);
      WasOwner(f);
      hide Valid, Rearranged;
    }

    twostate lemma OuterOwnersStay(f: Focustm)
      requires old(Valid()) && Rearranged(f) && Booked(f)
      ensures forall p <- old(owner) :: old(owner)[p] !in Concerned(f) ==> p in owner && owner[p] == old(owner)[p]
    {
      hide Valid, Focustm.Valid, Focustm.Extended, Focustm.Nested, NestedOwners, SettledParent, SettledSpare;
      NestedKeep(f);
      NestedOwnersPoint(f.Nested());
      WasOwner(f);
    }

    twostate lemma WasLinked(f: Focustm)
      requires old(Valid()) && f in old(outers)
      ensures forall u <- old(parent) :: u in old(infos) && (u in old(f.Nested()) <==> old(parent)[u] == f)
    {
      assert forall u <- old(parent) :: old(Linked(u));
      WasOwner(f);
      hide InfoIn, OuterIn, Points;
    }

    /** The books of all but its nested messages are as they were. */
    twostate lemma RestOfBooks(f: Focustm)
      requires Booked(f)
      ensures outers == old(outers) && loose == old(loose)
      ensures forall m <- old(infos) :: m !in f.Nested() ==>
                && m in infos && (m in spare <==> m in old(spare)) && (m in parent <==> m in old(parent))
                && (m in parent ==> parent[m] == old(parent)[m])
    {
      hide SettledOwner;
      assert (forall u <- f.ui_ :: u in f.Nested()) && forall u <- f.spare :: u in f.Nested();
    }

    twostate lemma Disjoint(f: Focustm)
      requires old(Valid()) && Rearranged(f)
      ensures forall m <- old(infos) :: m in f.Nested() ==> m in old(f.Nested())
      ensures forall u <- old(parent) :: u in old(infos) && (u in old(f.Nested()) <==> old(parent)[u] == f)
    {
      WasLinked(f);
      NestedNew(f);
      hide Valid, Rearranged;
    }

    twostate lemma OuterParentsStay(f: Focustm)
      requires old(Valid()) && Rearranged(f) && Booked(f)
      ensures forall u <- old(parent) :: old(parent)[u] != f ==>
                u in infos && u in parent && parent[u] == old(parent)[u] && (u in spare <==> u in old(spare))
    {
      Disjoint(f);
      RestOfBooks(f);
      hide Valid, Rearranged, Booked;
    }

    twostate lemma WasOuter(f: Focustm)
      requires Rearranged(f)
      ensures f in old(outers)
      ensures f.msgtype_ == old(f.msgtype_) || (old(f.msgtype_) == kEmpty && fresh(f.msgtype_))
    {
    }

    twostate lemma OuterOthersSame(f: Focustm)
      requires old(Valid()) && OnlyOuter(f)
      ensures OthersSame(Concerned(f))
    {
      hide Valid, Rearranged, Booked;
      OuterOwnersStay(f);
      OuterParentsStay(f);
      Disjoint(f);
      RestOfBooks(f);
    }

    /** Its nested messages are in order, in use or kept for reuse. */
    twostate lemma ItsNestedOk(f: Focustm)
      requires Rearranged(f) && Booked(f)
      ensures forall u <- f.Nested() :: InfoIn(u) && u in infos && u in parent && parent[u] == f
      ensures (forall u <- f.ui_ :: u !in spare) && (forall u <- f.spare :: u in spare)
    {
      ItsPlaces(f);
      ItsNestedOwned(f);
      assert AllCleared(f.spare);
      hide SettledParent, SettledSpare, SettledOwner, Focustm.Valid, Focustm.Extended;
      forall u <- f.Nested() ensures InfoIn(u) {
        assert u in f.ui_ || u in f.spare;
      }
    }

    twostate lemma ItsNestedOwned(f: Focustm)
      requires Rearranged(f) && Booked(f)
      ensures forall u <- f.Nested() :: u.kEmpty == kEmpty && u.Valid()
      ensures forall u <- f.Nested() ::
                u.username_ == kEmpty || (u.username_ in owner && owner[u.username_] == Info(u))
    {
      NestedOwnersExact(f.Nested());
      hide NestedOwners, With, Without, SettledParent, SettledSpare, Focustm.Extended;
      var us := f.Nested();
      forall u <- us ensures u.kEmpty == kEmpty && u.Valid() {
        var i :| 0 <= i < |us| && us[i] == u;
      }
    }

    twostate lemma ItsPlaces(f: Focustm)
      requires Rearranged(f) && Booked(f)
      ensures forall u <- f.Nested() :: u in infos && u in parent && parent[u] == f
      ensures (forall u <- f.ui_ :: u !in spare) && (forall u <- f.spare :: u in spare)
    {
      hide SettledOwner, Focustm.Extended;
      var us := f.Nested();
      assert forall i :: 0 <= i < |f.ui_| ==> f.ui_[i] == us[i];
      assert forall i :: 0 <= i < |f.spare| ==> f.spare[i] == us[|f.ui_| + i];
    }

    twostate lemma SpareNested(f: Focustm)
      requires old(Valid()) && Booked(f)
      ensures spare <= parent.Keys
    {
      assert old(spare <= parent.Keys);
      assert forall u <- f.spare :: u in f.Nested();
      hide Valid, SettledOwner;
    }

    twostate lemma ItsInfosOk(f: Focustm)
      requires old(Valid()) && Rearranged(f) && Booked(f)
      ensures forall m <- infos :: (m in old(infos) && Info(m) !in Concerned(f)) || InfoIn(m)
      ensures spare <= parent.Keys
    {
      ItsNestedOk(f);
      NestedNew(f);
      SpareNested(f);
      hide Valid, Rearranged, SettledOwner, SettledParent, SettledSpare, InfoIn;
    }

    twostate lemma ItsMsgtypeOk(f: Focustm)
      requires Rearranged(f) && Booked(f)
      ensures f.msgtype_ == kEmpty || (f.msgtype_ in owner && owner[f.msgtype_] == Outer(f))
    {
      NestedOwnersPoint(f.Nested());
      hide NestedOwners, NestedOk, Without;
      assert f.msgtype_ == kEmpty || f.msgtype_ in f.Owned();
      assert forall u <- f.Nested() :: u in f.ui_ || u in f.spare;
    }

    twostate lemma ItselfOk(f: Focustm)
      requires old(Valid()) && OnlyOuter(f)
      ensures forall g <- outers :: (g in old(outers) && Outer(g) !in Concerned(f)) || OuterIn(g)
    {
      hide Valid, Booked;
      ItIsIn(f);
      RestOfBooks(f);
      hide OuterIn, Rearranged;
    }

    twostate lemma ItIsIn(f: Focustm)
      requires Rearranged(f) && Booked(f)
      ensures OuterIn(f)
    {
      hide Rearranged, Booked, Focustm.MsgtypeValid;
      ItsPlaces(f);
      ItsMsgtypeOk(f);
      ItsShape(f);
      assert (forall u <- f.ui_ :: u in f.Nested()) && forall u <- f.spare :: u in f.Nested();
    }

    twostate lemma ItsShape(f: Focustm)
      requires Rearranged(f)
      ensures f.kEmpty == kEmpty && f.MsgtypeValid()
      ensures forall i, j :: 0 <= i < j < |f.Nested()| ==> f.Nested()[i] != f.Nested()[j]
    {
    }

    twostate lemma OuterPointsOk(f: Focustm)
      requires Rearranged(f) && Booked(f)
      ensures forall p <- owner :: (p in old(owner) && old(owner)[p] !in Concerned(f)) || Points(p)
      ensures forall p <- owner :: (p in old(owner) && old(owner)[p] !in Concerned(f))
                                   || p in Strings(f.Nested()) - {kEmpty}
                                   || p == f.msgtype_ != kEmpty
    {
      NestedOwnersPoint(f.Nested());
      hide NestedOwners, SettledParent, SettledSpare, Focustm.Valid, Focustm.Extended;
    }

    twostate lemma OuterLinksOk(f: Focustm)
      requires old(Valid()) && Rearranged(f) && Booked(f) && Framed(f)
      ensures forall u <- parent :: (u in old(parent) && Outer(old(parent)[u]) !in Concerned(f)) || Linked(u)
    {
      WasLinked(f);
      NestedNew(f);
      hide Valid, Focustm.Valid, Focustm.Extended, SettledOwner, SettledSpare;
    }

    twostate lemma OuterStringsOk(f: Focustm)
      requires old(Valid()) && OnlyOuter(f)
      ensures StringsOk() && forall p <- old(loose) :: p.chars == old(p.chars)
    {
      assert old(StringsOk());
      OuterPointsOk(f);
      NestedKeep(f);
      WasOwner(f);
      hide Valid, Focustm.Valid, Focustm.Extended, Points, SettledOwner, SettledParent, SettledSpare, Concerned;
    }

    twostate lemma OuterAccounted(f: Focustm)
      requires old(Valid()) && OnlyOuter(f)
      ensures Accounted()
    {
      OuterNoneLost(f);
      OuterAllKnown(f);
      hide Valid, OnlyOuter;
    }

    twostate lemma OuterNoneLost(f: Focustm)
      requires old(Valid()) && OnlyOuter(f)
      ensures forall p <- old(owner) :: p in owner
      ensures loose == old(loose)
    {
      hide Valid, Rearranged, Booked, Framed;
      WasPointedTo();
      OuterOwnersStay(f);
      OwnStringsKept(f);
      RestOfBooks(f);
    }

    twostate lemma WasPointedTo()
      requires old(Valid())
      ensures kEmpty !in old(owner)
      ensures forall p <- old(owner) ::
                match old(owner)[p]
                case Info(u) => old(u.username_) == p
                case Outer(g) => old(g.msgtype_) == p
    {
      assert forall p <- old(owner) :: old(Points(p));
    }

    twostate lemma OwnStringsKept(f: Focustm)
      requires Rearranged(f) && Booked(f)
      ensures old(f.msgtype_) == kEmpty || old(f.msgtype_) in owner
      ensures forall u <- old(f.Nested()) :: old(u.username_) == kEmpty || old(u.username_) in owner
    {
      NestedNew(f);
      ItsNestedOwned(f);
      ItsMsgtypeOk(f);
      hide Focustm.Valid, Focustm.Extended, Booked;
      forall u <- old(f.Nested()) ensures old(u.username_) == kEmpty || old(u.username_) in owner {
        assert old(u.username_) in old(Strings(f.Nested()));
      }
    }

    twostate lemma OuterAllKnown(f: Focustm)
      requires old(Valid()) && OnlyOuter(f)
      ensures forall o <- Repr() :: o in old(Repr()) || fresh(o)
    {
      OuterPointsOk(f);
      NestedNew(f);
      NestedKeep(f);
      WasOwner(f);
      hide Valid, Focustm.Valid, Focustm.Extended, Points, SettledOwner, SettledParent, SettledSpare;
    }

    twostate lemma OuterChanged(f: Focustm)
      requires old(Valid()) && OnlyOuter(f)
      ensures Valid() && Untouched(Concerned(f)) && Accounted()
    {
      hide OnlyOuter, OthersSame, Untouched, InfoIn, OuterIn, Points, Linked, StringsOk, Accounted;
      OuterAccounted(f);
      OuterOthersSame(f);
      OuterStringsOk(f);
      OuterChangesOk(f);
      ghost var objs := Concerned(f);
      hide Concerned, ChangesOk, Valid;
      KeepsValid(objs);
      Leaves(objs);
    }

    twostate lemma OuterChangesOk(f: Focustm)
      requires old(Valid()) && OnlyOuter(f)
      ensures ChangesOk(Concerned(f))
    {
      ItsInfosOk(f);
      ItselfOk(f);
      OuterPointsOk(f);
      OuterLinksOk(f);
      hide Valid, OnlyOuter, InfoIn, OuterIn, Points, Linked;
    }

    static ghost function Touched(c: Change): set<Owner> {
      {Outer(c.f)} + Infos(c.us)
    }

    /** What was written of all that was in the arena. */
    twostate predicate Wrote(c: Change)
      reads *
    {
      && unchanged(kEmpty) && unchanged(old(outers) - {c.f}) && unchanged(old(infos) - Objects(c.us))
      && unchanged(old(owner.Keys + loose - c.f.Owned() - c.f.Inner(c.us)))
    }

    twostate lemma FramedBy(c: Change)
      requires old(Valid()) && Rearranged(c.f) && Wrote(c) && Objects(c.us) <= old(Objects(c.f.Nested()))
      ensures Framed(c.f)
    {
      hide Valid, Rearranged;
      WasOuter(c.f);
      WasOwner(c.f);
      assert forall u <- c.us :: u in Objects(c.us);
    }

    /** The other nested messages were not operated on. */
    twostate predicate Spared(c: Change)
      reads *
    {
      forall u <- old(c.f.Nested()) :: u !in c.us ==>
           unchanged(u) && unchanged(u.username_) && (u in c.f.spare ==> u in old(c.f.spare))
    }

    twostate lemma SparedBy(c: Change)
      requires old(Valid()) && old(c.f.Valid()) && c.f in old(outers) && Wrote(c)
      requires Objects(c.us) <= old(Objects(c.f.Nested()))
      requires Objects(c.f.spare) <= old(Objects(c.f.spare)) + Objects(c.us)
      ensures Spared(c)
    {
      assert forall u <- c.us :: u in Objects(c.us);
      assert forall u <- c.f.spare :: u in Objects(c.f.spare);
      WasOwner(c.f);
      StringsApart(c.f);
      hide Valid, Focustm.Valid;
    }

    /** No two nested messages pointed to the same string, nor any of them to that of the type. */
    twostate lemma StringsApart(f: Focustm)
      requires old(f.Valid())
      ensures forall u <- old(f.Nested()) :: old(u.username_) !in old(f.Owned())
      ensures forall u <- old(f.Nested()), v <- old(f.Nested()) ::
                u != v ==> old(u.username_) != old(v.username_) || old(u.username_) == f.kEmpty
    {
      assert forall u <- old(f.Nested()) :: u in old(f.ui_) || u in old(f.spare);
      hide AllCleared;
    }

    lemma TouchedNone(f: Focustm)
      ensures Touched(Change(f, [])) == {Outer(f)}
    {
    }

    /** An operation on one outer message, and the books after it. */
    twostate predicate Done(c: Change)
      reads *
    {
      && Rearranged(c.f) && Booked(c.f) && Wrote(c)
      && Placed(c)
    }

    /** The messages kept for reuse are some of those that were kept before or `us`. */
    twostate predicate Placed(c: Change)
      reads c.f
    {
      Objects(c.us) <= old(Objects(c.f.Nested())) && Objects(c.f.spare) <= old(Objects(c.f.spare)) + Objects(c.us)
    }

    twostate lemma ClearedPlaces(f: Focustm)
      requires f.KeptForReuse()
      ensures Placed(Change(f, old(f.ui_)))
    {
    }

    twostate lemma Concluded(c: Change)
      requires old(Valid()) && old(c.f.Valid()) && Done(c)
      ensures Valid() && Untouched(Touched(c)) && Accounted()
      ensures infos == old(infos) + Objects(c.f.Nested()) && parent == SettledParent(old(parent), c.f)
      ensures forall u <- c.f.ui_ :: InUse(u) && u in parent && parent[u] == c.f
      ensures c.f.msgtype_ == old(c.f.msgtype_) || (old(c.f.msgtype_) == kEmpty && fresh(c.f.msgtype_))
    {
      hide Valid, Rearranged, Booked, Framed, Untouched, Wrote, Spared, Accounted, Focustm.Valid;
      WasOuter(c.f);
      FramedBy(c);
      SparedBy(c);
      OuterChanged(c.f);
      Narrowed(c);
      ItsUseOk(c.f);
      ItsBooks(c.f);
    }

    twostate lemma ItsBooks(f: Focustm)
      requires Booked(f)
      ensures infos == old(infos) + Objects(f.Nested()) && parent == SettledParent(old(parent), f)
    {
    }

    twostate lemma Narrowed(c: Change)
      requires old(Valid()) && OnlyOuter(c.f) && Untouched(Concerned(c.f)) && Spared(c)
      ensures Untouched(Touched(c))
    {
      hide Valid, Rearranged, Booked, Framed, InfosUntouched, OutersUntouched;
      NarrowedInfos(c);
      NarrowedOuters(c);
    }

    twostate lemma NarrowedInfos(c: Change)
      requires old(Valid()) && OnlyOuter(c.f) && InfosUntouched(Concerned(c.f)) && Spared(c)
      ensures InfosUntouched(Touched(c))
    {
      hide Valid, Rearranged, Booked, Framed, InfoUntouched;
      PlacesKept(c.f);
      forall m | m in old(infos) && Info(m) !in Touched(c) && Info(m) in Concerned(c.f) ensures InfoUntouched(m) {
        NestedUntouched(m);
      }
    }

    twostate lemma NarrowedOuters(c: Change)
      requires old(Valid()) && OnlyOuter(c.f) && OutersUntouched(Concerned(c.f)) && Spared(c)
      ensures OutersUntouched(Touched(c))
    {
      hide Valid, Rearranged, Booked, Framed, NoneNested;
      ForeignNested(c.f);
      assert forall g <- old(outers) :: Outer(g) !in Touched(c) ==> Outer(g) !in Concerned(c.f);
    }

    twostate lemma NestedUntouched(m: Userinfo)
      requires m in infos && m in parent && m in old(parent) && unchanged(m) && unchanged(m.username_)
      requires m in spare ==> m in old(spare)
      ensures InfoUntouched(m)
    {
    }

    twostate lemma WasParent(f: Focustm)
      requires old(Valid()) && f in old(outers)
      ensures forall u <- old(f.ui_) :: u in old(parent) && old(parent)[u] == f
    {
      assert old(OuterIn(f));
    }

    twostate lemma ForeignNested(f: Focustm)
      requires old(Valid()) && OnlyOuter(f)
      ensures forall g <- old(outers) :: g != f ==> NoneNested(g, Concerned(f))
    {
      hide Valid, Rearranged, Booked;
      WasOuter(f);
      WasOwner(f);
      forall g | g in old(outers) && g != f ensures NoneNested(g, Concerned(f)) {
        WasParent(g);
        assert unchanged(g);
      }
    }

    twostate lemma PlacesKept(f: Focustm)
      requires old(Valid()) && Rearranged(f) && Booked(f)
      ensures forall u <- old(f.Nested()) :: u in infos && u in parent && u in old(parent)
      ensures forall u <- old(f.Nested()) :: u in spare ==> u in f.spare
      ensures forall u <- old(f.spare) :: u in old(spare)
    {
      hide Booked;
      assert forall u <- old(f.spare) :: u in old(spare) by { assert old(OuterIn(f)); }
      WasOwner(f);
      NestedNew(f);
      ItsPlaces(f);
      hide Valid, Rearranged;
      assert forall u <- f.Nested() :: u in f.ui_ || u in f.spare;
    }

    twostate lemma ItsUseOk(f: Focustm)
      requires OnlyOuter(f)
      ensures forall u <- f.ui_ :: InUse(u) && u in parent && parent[u] == f
    {
      ItsPlaces(f);
      hide Rearranged, Booked, Framed;
      assert forall u <- f.ui_ :: u in f.Nested();
    }

    /** `add_ui`. */
    method AddUi(f: Focustm) returns (u: Userinfo)
      requires Valid() && f in outers
      modifies this`infos, this`parent, this`owner, this`spare, f`ui_, f`spare
      ensures Valid() && Untouched({Outer(f)}) && Accounted()
      ensures infos == old(infos) + Objects(f.Nested()) && parent == SettledParent(old(parent), f)
      ensures InUse(u) && u in parent && parent[u] == f && f.ui_ == old(f.ui_) + [u]
      ensures (fresh(u) && u.Owned() == {}) || u in old(f.spare)
      ensures u.Value() == NO_USER && f.Value() == old(f.Value()).(ui := old(f.Value()).ui + [NO_USER])
    {
      hide Valid, Untouched, Accounted, Done, SettledParent, Focustm.Valid, Focustm.Value, Infos, Touched;
      OuterOwnerOf(f);
      ghost var c := Change(f, []);
      u := AddUiSettled(f);
      Concluded(c);
      TouchedNone(f);
    }

    method AddUiSettled(f: Focustm) returns (u: Userinfo)
      requires f in outers && f.Valid() && f.kEmpty == kEmpty
      modifies this`infos, this`parent, this`owner, this`spare, f`ui_, f`spare
      ensures Done(Change(f, []))
      ensures f.ui_ == old(f.ui_) + [u] && ((fresh(u) && u.Owned() == {}) || u in old(f.spare))
      ensures u.Value() == NO_USER && f.Value() == old(f.Value()).(ui := old(f.Value()).ui + [NO_USER])
    {
      hide SettledParent, SettledSpare, SettledOwner, Focustm.Valid, Focustm.Value, Focustm.Inner, Infos;
      hide Parse, MergeFocus, EncodeUser, NestedOk, Values, Focustm.Extended;
      ghost var was := f.Nested();
      u := f.AddUi();
      Settle(f, was);
    }

    /** Writes at most the nested messages kept for reuse, and those it adds. */
    method MergeOuter(f: Focustm, from: Focustm)
      requires Valid() && f in outers && from in outers && f != from
      modifies this`infos, this`parent, this`owner, this`spare, f, f.Owned(), Objects(f.spare), f.Inner(f.spare)
      ensures Valid() && Untouched({Outer(f)} + Infos(old(f.spare))) && Accounted()
      ensures infos == old(infos) + Objects(f.Nested()) && parent == SettledParent(old(parent), f)
      ensures f.msgtype_ == old(f.msgtype_) || (old(f.msgtype_) == kEmpty && fresh(f.msgtype_))
      ensures f.Value() == MergeFocus(old(f.Value()), old(from.Value())) && old(f.ui_) <= f.ui_
    {
      hide Valid, Untouched, Accounted, Done, SettledParent, Focustm.Valid, Focustm.Value, Infos;
      OuterOwnerOf(f);
      OuterOwnerOf(from);
      OutersApart(f, from);
      hide Focustm.Apart;
      ghost var c := Change(f, f.spare);
      MergeSettled(f, from);
      Concluded(c);
    }

    method MergeSettled(f: Focustm, from: Focustm)
      requires f in outers && f.Valid() && f.kEmpty == kEmpty
      requires f != from && from.Valid() && from.kEmpty == kEmpty && f.Apart(from)
      modifies this`infos, this`parent, this`owner, this`spare, f, f.Owned(), Objects(f.spare), f.Inner(f.spare)
      ensures Done(Change(f, old(f.spare)))
      ensures f.Value() == MergeFocus(old(f.Value()), old(from.Value())) && old(f.ui_) <= f.ui_
    {
      hide SettledParent, SettledSpare, SettledOwner, Focustm.Valid, Focustm.Value, Focustm.Inner, Infos;
      hide Parse, MergeFocus, EncodeUser, NestedOk, Values, Focustm.Apart, Focustm.Extended;
      ghost var was := f.Nested();
      f.MergeFrom(from);
      Settle(f, was);
    }

    /** The same, of whatever it reads, also if it fails. */
    method ParseOuter(f: Focustm, input: CodedInput) returns (ok: bool)
      requires Valid() && f in outers
      modifies this`infos, this`parent, this`owner, this`spare
      modifies f, f.Owned(), Objects(f.spare), f.Inner(f.spare), input
      ensures Valid() && Untouched({Outer(f)} + Infos(old(f.spare))) && Accounted()
      ensures infos == old(infos) + Objects(f.Nested()) && parent == SettledParent(old(parent), f)
      ensures f.msgtype_ == old(f.msgtype_) || (old(f.msgtype_) == kEmpty && fresh(f.msgtype_))
      ensures match Parse(ApplyFocus, old(f.Value()), old(input.buf))
              case Failed => !ok
              case Stopped(v, complete) => ok && f.Value() == v && input.legitimateEnd == complete
      ensures old(f.ui_) <= f.ui_
    {
      hide Valid, Untouched, Accounted, Done, SettledParent, Focustm.Valid, Focustm.Value, Infos, Parse;
      OuterOwnerOf(f);
      ghost var c := Change(f, f.spare);
      ok := ParseSettled(f, input);
      Concluded(c);
    }

    method ParseSettled(f: Focustm, input: CodedInput) returns (ok: bool)
      requires f in outers && f.Valid() && f.kEmpty == kEmpty
      modifies this`infos, this`parent, this`owner, this`spare
      modifies f, f.Owned(), Objects(f.spare), f.Inner(f.spare), input
      ensures Done(Change(f, old(f.spare)))
      ensures match Parse(ApplyFocus, old(f.Value()), old(input.buf))
              case Failed => !ok
              case Stopped(v, complete) => ok && f.Value() == v && input.legitimateEnd == complete
      ensures old(f.ui_) <= f.ui_
    {
      hide SettledParent, SettledSpare, SettledOwner, Focustm.Valid, Focustm.Value, Focustm.Inner, Infos;
      hide Parse, MergeFocus, EncodeUser, NestedOk, Values, Focustm.Apart, Focustm.Extended;
      ghost var was := f.Nested();
      ok := f.MergePartialFromCodedStream(input);
      Settle(f, was);
    }

    method ClearUi(f: Focustm)
      requires Valid() && f in outers
      modifies this`infos, this`parent, this`owner, this`spare
      modifies f`ui_, f`spare, Objects(f.ui_), f.Inner(f.ui_)
      ensures Valid() && Untouched({Outer(f)} + Infos(old(f.ui_))) && Accounted()
      ensures infos == old(infos) + Objects(f.Nested()) && parent == SettledParent(old(parent), f)
      ensures f.KeptForReuse() && f.Value() == old(f.Value()).(ui := [])
    {
      hide Valid, Untouched, Accounted, Done, SettledParent, Infos;
      hide Focustm.Valid, Focustm.Value, Focustm.KeptForReuse;
      OuterOwnerOf(f);
      ghost var c := Change(f, f.ui_);
      ClearUiSettled(f);
      Concluded(c);
    }

    method ClearUiSettled(f: Focustm)
      requires f in outers && f.Valid() && f.kEmpty == kEmpty
      modifies this`infos, this`parent, this`owner, this`spare
      modifies f`ui_, f`spare, Objects(f.ui_), f.Inner(f.ui_)
      ensures Done(Change(f, old(f.ui_)))
      ensures f.KeptForReuse() && f.Value() == old(f.Value()).(ui := [])
    {
      hide SettledParent, SettledSpare, SettledOwner, Focustm.Valid, Focustm.Value, Focustm.Inner, Infos;
      hide Parse, MergeFocus, EncodeUser, NestedOk, Values, Focustm.Apart, Focustm.Extended;
      hide Objects, Placed, Focustm.KeptForReuse, Focustm.Nested;
      ghost var was := f.Nested();
      f.ClearUi();
      ClearedPlaces(f);
      Settle(f, was);
    }

    method ClearOuter(f: Focustm)
      requires Valid() && f in outers
      modifies this`infos, this`parent, this`owner, this`spare, f, f.Owned(), Objects(f.ui_), f.Inner(f.ui_)
      ensures Valid() && Untouched({Outer(f)} + Infos(old(f.ui_))) && Accounted()
      ensures infos == old(infos) + Objects(f.Nested()) && parent == SettledParent(old(parent), f)
      ensures f.msgtype_ == old(f.msgtype_) || (old(f.msgtype_) == kEmpty && fresh(f.msgtype_))
      ensures f.KeptForReuse() && f.Value() == NO_FOCUS
    {
      hide Valid, Untouched, Accounted, Done, SettledParent, Infos;
      hide Focustm.Valid, Focustm.Value, Focustm.KeptForReuse;
      OuterOwnerOf(f);
      ghost var c := Change(f, f.ui_);
      ClearSettled(f);
      Concluded(c);
    }

    method ClearSettled(f: Focustm)
      requires f in outers && f.Valid() && f.kEmpty == kEmpty
      modifies this`infos, this`parent, this`owner, this`spare, f, f.Owned(), Objects(f.ui_), f.Inner(f.ui_)
      ensures Done(Change(f, old(f.ui_)))
      ensures f.KeptForReuse() && f.Value() == NO_FOCUS
    {
      hide SettledParent, SettledSpare, SettledOwner, Focustm.Valid, Focustm.Value, Focustm.Inner, Infos;
      hide Parse, MergeFocus, EncodeUser, NestedOk, Values, Focustm.Apart, Focustm.Extended;
      hide Objects, Placed, Focustm.KeptForReuse, Focustm.Nested;
      ghost var was := f.Nested();
      f.Clear();
      ClearedPlaces(f);
      Settle(f, was);
    }

    /** Copying reuses the nested messages that the message had, unless it is its own source. */
    method CopyOuter(f: Focustm, from: Focustm)
      requires Valid() && f in outers && from in outers
      modifies this`infos, this`parent, this`owner, this`spare, f, f.Owned()
      modifies Objects(f.ui_), Objects(f.spare), f.Inner(f.ui_), f.Inner(f.spare)
      ensures Valid() && Untouched(if f == from then {Outer(f)} else {Outer(f)} + Infos(old(f.Nested()))) && Accounted()
      ensures infos == old(infos) + Objects(f.Nested()) && parent == SettledParent(old(parent), f)
      ensures f.msgtype_ == old(f.msgtype_) || (old(f.msgtype_) == kEmpty && fresh(f.msgtype_))
      ensures f.Value() == old(from.Value())
    {
      hide Valid, Untouched, Accounted, Done, SettledParent, Infos;
      hide Focustm.Valid, Focustm.Value, Focustm.KeptForReuse;
      OuterOwnerOf(f);
      if f == from {
        ghost var c := Change(f, []);
        CopyToItself(f);
        Concluded(c);
        TouchedNone(f);
      } else {
        OuterOwnerOf(from);
        OutersApart(f, from);
        hide Focustm.Apart;
        ghost var c := Change(f, f.Nested());
        CopySettled(f, from);
        Concluded(c);
      }
    }

    method CopyToItself(f: Focustm)
      requires f in outers && f.Valid() && f.kEmpty == kEmpty
      modifies this`infos, this`parent, this`owner, this`spare, f, f.Owned()
      modifies Objects(f.ui_), Objects(f.spare), f.Inner(f.ui_), f.Inner(f.spare)
      ensures Done(Change(f, [])) && f.Value() == old(f.Value())
    {
      hide SettledParent, SettledSpare, SettledOwner, Focustm.Valid, Focustm.Value, Focustm.Inner, Infos;
      hide Parse, MergeFocus, EncodeUser, NestedOk, Values, Focustm.Apart, Focustm.Extended;
      ghost var was := f.Nested();
      f.Both(f.ui_, f.spare);
      f.CopyFrom(f);
      Settle(f, was);
    }

    method CopySettled(f: Focustm, from: Focustm)
      requires f in outers && f.Valid() && f.kEmpty == kEmpty
      requires f != from && from.Valid() && from.kEmpty == kEmpty && f.Apart(from)
      modifies this`infos, this`parent, this`owner, this`spare, f, f.Owned()
      modifies Objects(f.ui_), Objects(f.spare), f.Inner(f.ui_), f.Inner(f.spare)
      ensures Done(Change(f, old(f.Nested()))) && f.Value() == old(from.Value())
    {
      hide SettledParent, SettledSpare, SettledOwner, Focustm.Valid, Focustm.Value, Focustm.Inner, Infos;
      hide Parse, MergeFocus, EncodeUser, NestedOk, Values, Focustm.Apart, Focustm.Extended;
      ghost var was := f.Nested();
      f.Both(f.ui_, f.spare);
      f.CopyFrom(from);
      Settle(f, was);
    }

    static ghost function ExchangedParent(parent: map<Userinfo, Focustm>, f: Focustm, g: Focustm)
      : map<Userinfo, Focustm>
    {
      map u | u in parent :: if parent[u] == f then g else if parent[u] == g then f else parent[u]
    }

    /** Two outer messages exchanged everything, and nothing else happened. */
    twostate predicate OnlySwappedOuters(fg: (Focustm, Focustm))
      reads *
    {
      var (f, g) := fg;
      && f in old(outers) && g in old(outers) && f.MsgtypeValid() && g.MsgtypeValid()
      && infos == old(infos) && outers == old(outers) && loose == old(loose) && spare == old(spare)
      && owner == (map p | p in old(owner) :: Exchanged(old(owner)[p], Outer(f), Outer(g)))
      && parent == ExchangedParent(old(parent), f, g)
      && f.msgtype_ == old(g.msgtype_) && g.msgtype_ == old(f.msgtype_)
      && f.ui_ == old(g.ui_) && g.ui_ == old(f.ui_) && f.spare == old(g.spare) && g.spare == old(f.spare)
      && (forall x <- outers :: x != f && x != g ==> unchanged(x)) && (forall m <- infos :: unchanged(m))
      && unchanged(kEmpty) && (forall p <- owner :: unchanged(p)) && (forall p <- loose :: unchanged(p))
    }

    static ghost function BothOuters(fg: (Focustm, Focustm)): set<Owner> {
      {Outer(fg.0), Outer(fg.1)}
    }

    twostate lemma SwappedOuters(fg: (Focustm, Focustm))
      requires old(Valid()) && OnlySwappedOuters(fg)
      ensures OuterIn(fg.0) && OuterIn(fg.1) && StringsOk()
    {
      assert old(OuterIn(fg.0) && OuterIn(fg.1) && StringsOk());
      SwappedPlaces(fg);
      assert fg.0.Nested() == old(fg.1.Nested()) && fg.1.Nested() == old(fg.0.Nested());
      hide Valid, ExchangedParent;
    }

    twostate lemma SwappedPlaces(fg: (Focustm, Focustm))
      requires old(Valid()) && OnlySwappedOuters(fg)
      ensures forall u <- fg.0.ui_ :: u in infos && u in parent && parent[u] == fg.0 && u !in spare
      ensures forall u <- fg.0.spare :: u in infos && u in parent && parent[u] == fg.0 && u in spare
      ensures forall u <- fg.1.ui_ :: u in infos && u in parent && parent[u] == fg.1 && u !in spare
      ensures forall u <- fg.1.spare :: u in infos && u in parent && parent[u] == fg.1 && u in spare
    {
      assert old(OuterIn(fg.0) && OuterIn(fg.1));
      hide Valid;
    }

    twostate lemma SwappedOuterPoints(fg: (Focustm, Focustm))
      requires old(Valid()) && OnlySwappedOuters(fg)
      ensures forall p <- owner :: Points(p)
    {
      hide InfoIn, OuterIn, Linked, ExchangedParent;
      forall p | p in owner ensures Points(p) {
        assert old(Points(p));
        match old(owner)[p]
        case Info(u) => assert u in infos && unchanged(u);
        case Outer(x) => assert x in outers && (x != fg.0 && x != fg.1 ==> unchanged(x));
      }
    }

    twostate lemma SwappedOuterLinks(fg: (Focustm, Focustm))
      requires old(Valid()) && OnlySwappedOuters(fg)
      ensures forall u <- parent :: Linked(u)
    {
      hide InfoIn, OuterIn, Points;
      forall u | u in parent ensures Linked(u) {
        assert old(Linked(u));
        var x := old(parent)[u];
        assert x in outers && u in old(x.Nested());
        assert x == fg.0 ==> parent[u] == fg.1;
        assert x != fg.0 && x != fg.1 ==> unchanged(x);
      }
    }

    twostate lemma SwappedParents(fg: (Focustm, Focustm))
      requires old(Valid()) && OnlySwappedOuters(fg)
      ensures forall u <- old(parent) ::
                && u in infos && u in parent
                && (old(parent)[u] == fg.0 || old(parent)[u] == fg.1 || parent[u] == old(parent)[u])
      ensures parent.Keys == old(parent).Keys && spare <= parent.Keys
    {
      hide InfoIn, OuterIn, Points;
      forall u | u in old(parent) ensures u in infos && u in parent {
        assert old(Linked(u));
      }
    }

    twostate lemma SwappedOutersOk(fg: (Focustm, Focustm))
      requires old(Valid()) && OnlySwappedOuters(fg)
      ensures OthersSame(BothOuters(fg)) && ChangesOk(BothOuters(fg)) && StringsOk()
    {
      hide InfoIn, OuterIn, Points, StringsOk, Linked, ExchangedParent;
      SwappedOuters(fg);
      SwappedOuterPoints(fg);
      SwappedOuterLinks(fg);
      SwappedParents(fg);
      assert forall p <- old(owner) :: old(owner)[p] !in BothOuters(fg) ==>
               p in owner && owner[p] == old(owner)[p] && unchanged(p);
    }

    ghost method ExchangeOuters(f: Focustm, g: Focustm)
      requires f.Valid() && g.Valid()
      modifies this`owner, this`parent
      ensures f.Valid() && g.Valid() && f.Value() == old(f.Value()) && g.Value() == old(g.Value())
      ensures owner == map p | p in old(owner) :: Exchanged(old(owner)[p], Outer(f), Outer(g))
      ensures parent == ExchangedParent(old(parent), f, g)
    {
      hide ExchangedParent;
      Exchange(Outer(f), Outer(g));
      parent := ExchangedParent(parent, f, g);
    }

    method SwapOuter(f: Focustm, g: Focustm)
      requires Valid() && f in outers && g in outers
      modifies this`owner, this`parent, f, g
      ensures Valid() && f.Value() == old(g.Value()) && g.Value() == old(f.Value())
      ensures f.msgtype_ == old(g.msgtype_) && g.msgtype_ == old(f.msgtype_)
      ensures f.ui_ == old(g.ui_) && g.ui_ == old(f.ui_) && f.spare == old(g.spare) && g.spare == old(f.spare)
      ensures parent == ExchangedParent(old(parent), f, g) && Untouched({Outer(f), Outer(g)}) && Accounted()
    {
      hide Valid, OthersSame, ChangesOk, StringsOk, Untouched, NestedOk, Values, ExchangedParent, Focustm.Value;
      OuterOwnerOf(f);
      OuterOwnerOf(g);
      f.Swap(g);
      ExchangeOuters(f, g);
      ghost var fg := (f, g);
      SwappedOutersOk(fg);
      KeepsValid(BothOuters(fg));
      Leaves(BothOuters(fg));
    }

    static ghost function InfosIn(infos: set<Userinfo>, objs: set<Owner>): set<Userinfo> {
      set m | m in infos && Info(m) in objs
    }

    static ghost function OutersIn(outers: set<Focustm>, objs: set<Owner>): set<Focustm> {
      set f | f in outers && Outer(f) in objs
    }

    ghost method Strike(objs: set<Owner>)
      modifies this`infos, this`outers, this`parent, this`owner, this`spare
      ensures spare == old(spare) - InfosIn(old(infos), objs)
      ensures infos == old(infos) - InfosIn(old(infos), objs) && outers == old(outers) - OutersIn(old(outers), objs)
      ensures owner == Without(old(owner), objs) && parent == old(parent) - InfosIn(old(infos), objs)
    {
      hide InfosIn, OutersIn, Without;
      parent, owner := parent - InfosIn(infos, objs), Without(owner, objs);
      spare := spare - InfosIn(infos, objs);
      infos, outers := infos - InfosIn(infos, objs), outers - OutersIn(outers, objs);
    }

    /** One message was destroyed, with the nested ones it had; the strings they owned are freed. */
    twostate predicate OnlyDestroyed(objs: set<Owner>)
      reads *
    {
      && infos == old(infos) - InfosIn(old(infos), objs) && outers == old(outers) - OutersIn(old(outers), objs)
      && owner == Without(old(owner), objs) && parent == old(parent) - InfosIn(old(infos), objs)
      && spare == old(spare) - InfosIn(old(infos), objs)
      && (forall u <- old(parent) :: Info(u) in objs <==> Outer(old(parent)[u]) in objs)
      && (forall m <- old(infos) :: unchanged(m)) && (forall f <- old(outers) :: unchanged(f))
      && (forall p <- old(owner) :: old(owner)[p] !in objs ==> unchanged(p))
      && unchanged(kEmpty) && unchanged(this`loose) && forall p <- loose :: unchanged(p)
    }

    twostate lemma DestroyedOthersSame(objs: set<Owner>)
      requires old(Valid()) && OnlyDestroyed(objs)
      ensures OthersSame(objs)
    {
      assert forall u <- old(parent) :: old(Linked(u));
      hide InfoIn, OuterIn, Points;
      assert forall u <- old(parent) :: u in old(infos);
      hide Valid;
    }

    twostate lemma DestroyedRest(objs: set<Owner>)
      requires old(Valid()) && OnlyDestroyed(objs)
      ensures ChangesOk(objs) && StringsOk()
    {
      assert old(StringsOk() && spare <= parent.Keys);
      hide Valid;
    }

    twostate lemma DestroyedAccounted(objs: set<Owner>)
      requires OnlyDestroyed(objs) && forall p <- old(owner) :: old(owner)[p] in objs ==> p.freed
      ensures Accounted() && forall p <- old(loose) :: p.chars == old(p.chars)
    {
      assert infos <= old(infos) && outers <= old(outers) && owner.Keys <= old(owner.Keys) && loose <= old(loose);
      hide InfosIn, OutersIn;
    }

    twostate lemma Destroyed(objs: set<Owner>)
      requires old(Valid()) && OnlyDestroyed(objs)
      requires forall p <- old(owner) :: old(owner)[p] in objs ==> p.freed
      ensures Valid() && Untouched(objs) && Accounted()
    {
      hide OnlyDestroyed, Valid, OthersSame, ChangesOk, StringsOk, Untouched, Accounted;
      DestroyedAccounted(objs);
      DestroyedOthersSame(objs);
      DestroyedRest(objs);
      KeepsValid(objs);
      Leaves(objs);
    }

    method DestroyInfo(m: Userinfo)
      requires Valid() && InUse(m) && m !in parent
      modifies this`infos, this`outers, this`parent, this`owner, this`spare, m.Owned()
      ensures Valid() && infos == old(infos) - {m} && outers == old(outers) && Untouched({Info(m)}) && Accounted()
      ensures forall p <- old(m.Owned()) :: p.freed && p !in owner && p !in loose
    {
      ghost var objs := {Info(m)};
      OwnerOf(m);
      NestedUnder(objs);
      OwnedBy();
      assert forall p <- owner :: owner[p] in objs ==> p in m.Owned();
      assert InfosIn(infos, objs) == {m} && OutersIn(outers, objs) == {};
      hide *;
      DestroyOne(m, objs);
    }

    method DestroyOne(m: Userinfo, ghost objs: set<Owner>)
      requires Valid() && m in infos && m.Valid() && m.kEmpty == kEmpty
      requires forall p <- m.Owned() :: p in owner && owner[p] in objs && p !in loose
      requires forall p <- owner :: owner[p] in objs ==> p in m.Owned()
      requires forall u <- parent :: Info(u) in objs <==> Outer(parent[u]) in objs
      modifies this`infos, this`outers, this`parent, this`owner, this`spare, m.Owned()
      ensures Valid() && Untouched(objs) && Accounted()
      ensures outers == old(outers) - OutersIn(old(outers), objs) && infos == old(infos) - InfosIn(old(infos), objs)
      ensures forall p <- old(m.Owned()) :: p.freed && p !in owner && p !in loose
    {
      hide Valid, Untouched, Accounted, InfosIn, OutersIn;
      m.Destroy();
      Strike(objs);
      Destroyed(objs);
    }

    /** A message and the nested ones it has are all that its destruction concerns. */
    lemma NestedUnder(objs: set<Owner>)
      requires Valid()
      requires forall o <- objs :: o.Info? ==> (o.u !in parent || Outer(parent[o.u]) in objs)
      requires forall o <- objs :: o.Outer? ==> forall u <- o.f.Nested() :: Info(u) in objs
      ensures forall u <- parent :: Info(u) in objs <==> Outer(parent[u]) in objs
    {
      hide InfoIn, OuterIn, Points;
      assert forall u <- parent :: Linked(u);
    }

    /** Each string is the one its owner points to. */
    lemma OwnedBy()
      requires Valid()
      ensures kEmpty !in owner
      ensures forall p <- owner :: match owner[p] case Info(u) => u.username_ == p case Outer(f) => f.msgtype_ == p
    {
      assert forall p <- owner :: Points(p);
    }

    /** Frees also the strings of the messages kept for reuse. */
    method DestroyOuter(f: Focustm)
      requires Valid() && f in outers
      modifies this`infos, this`outers, this`parent, this`owner, this`spare, f.Owned(), f.Inner(f.Nested())
      ensures Valid() && outers == old(outers) - {f} && infos == old(infos) - Objects(old(f.Nested()))
      ensures Untouched({Outer(f)} + Infos(old(f.Nested()))) && Accounted()
      ensures forall p <- old(f.Owned() + f.Inner(f.Nested())) :: p.freed && p !in owner && p !in loose
    {
      ghost var objs := {Outer(f)} + Infos(f.Nested());
      OuterOwnerOf(f);
      f.Both(f.ui_, f.spare);
      NestedUnder(objs);
      OwnedBy();
      assert InfosIn(infos, objs) == Objects(f.Nested()) && OutersIn(outers, objs) == {f};
      hide *;
      DestroyAll(f, objs);
    }

    method DestroyAll(f: Focustm, ghost objs: set<Owner>)
      requires Valid() && f in outers && f.Valid() && f.kEmpty == kEmpty
      requires forall p <- f.Owned() + f.Inner(f.Nested()) :: p in owner && owner[p] in objs && p !in loose
      requires forall p <- owner :: owner[p] in objs ==> p in f.Owned() + f.Inner(f.Nested())
      requires forall u <- parent :: Info(u) in objs <==> Outer(parent[u]) in objs
      modifies this`infos, this`outers, this`parent, this`owner, this`spare, f.Owned(), f.Inner(f.Nested())
      ensures Valid() && Untouched(objs) && Accounted()
      ensures outers == old(outers) - OutersIn(old(outers), objs) && infos == old(infos) - InfosIn(old(infos), objs)
      ensures forall p <- old(f.Owned() + f.Inner(f.Nested())) :: p.freed && p !in owner && p !in loose
    {
      hide Valid, Untouched, Accounted, Focustm.Value, Focustm.Valid, NestedOk, InfosIn, OutersIn, Focustm.Inner;
      FreeAll(f, objs);
      Destroyed(objs);
    }

    /** The destructor, and the books after it. */
    method FreeAll(f: Focustm, ghost objs: set<Owner>)
      requires f.Valid() && f.kEmpty == kEmpty
      requires forall p <- f.Owned() + f.Inner(f.Nested()) :: p in owner && owner[p] in objs
      modifies this`infos, this`outers, this`parent, this`owner, this`spare, f.Owned(), f.Inner(f.Nested())
      ensures forall p <- f.Owned() + f.Inner(f.Nested()) :: p.freed && p !in owner
      ensures infos == old(infos) - InfosIn(old(infos), objs) && outers == old(outers) - OutersIn(old(outers), objs)
      ensures owner == Without(old(owner), objs) && parent == old(parent) - InfosIn(old(infos), objs)
      ensures spare == old(spare) - InfosIn(old(infos), objs)
    {
      hide InfosIn, OutersIn, NestedOk, Focustm.Inner;
      f.Destroy();
      Strike(objs);
    }

    // ---- the callers' own strings ----

    method Make(value: Bytes) returns (p: CppString)
      requires Valid()
      modifies this`loose
      ensures Valid() && fresh(p) && p.chars == value && loose == old(loose) + {p} && Untouched({}) && Accounted()
    {
      assert StringsOk();
      hide Valid, InfosUntouched, OutersUntouched;
      p := new CppString();
      p.chars := value;
      loose := loose + {p};
      Joined();
    }

    method WriteOwn(p: CppString, value: Bytes)
      requires Valid() && p in loose
      modifies p`chars
      ensures Valid() && p.chars == value && InfosUntouched({}) && OutersUntouched({}) && Accounted()
      ensures forall q <- loose :: q != p ==> q.chars == old(q.chars)
    {
      assert StringsOk();
      hide Valid, InfosUntouched, OutersUntouched;
      p.chars := value;
      Joined();
    }

    ghost method Discard(p: CppString)
      requires Valid() && p in loose
      modifies this`loose, p`freed
      ensures Valid() && p.freed && loose == old(loose) - {p} && Untouched({}) && Accounted()
    {
      assert StringsOk();
      hide Valid, InfosUntouched, OutersUntouched;
      p.Delete();
      loose := loose - {p};
      Joined();
    }
  }

  /** Two valid messages that stand for the same value cannot be told apart by any accessor: an
      unset field reads as its default. */
  lemma SameValueSameAccessors(m: Userinfo, n: Userinfo)
    requires m.Valid() && n.Valid() && m.Value() == n.Value()
    ensures m.hasUserid == n.hasUserid && m.userid_ == n.userid_
    ensures m.hasUsername == n.hasUsername && m.username_.chars == n.username_.chars
    ensures m.unknown == n.unknown
  {
    if m.hasUserid {
      assert m.Value().userid == Some(m.userid_) && n.Value().userid == Some(n.userid_);
    }
    if m.hasUsername {
      assert m.Value().username == Some(m.username_.chars) && n.Value().username == Some(n.username_.chars);
    }
  }

  /** The same of the outer messages, down to every accessor of every nested one. */
  lemma SameOuterSameAccessors(f: Focustm, g: Focustm)
    requires f.Valid() && g.Valid() && f.Value() == g.Value()
    ensures f.hasMsgtype == g.hasMsgtype && f.msgtype_.chars == g.msgtype_.chars && f.unknown == g.unknown
    ensures |f.ui_| == |g.ui_|
    ensures forall i :: 0 <= i < |f.ui_| ==>
              && f.ui_[i].hasUserid == g.ui_[i].hasUserid && f.ui_[i].userid_ == g.ui_[i].userid_
              && f.ui_[i].hasUsername == g.ui_[i].hasUsername
              && f.ui_[i].username_.chars == g.ui_[i].username_.chars && f.ui_[i].unknown == g.ui_[i].unknown
  {
    if f.hasMsgtype {
      assert f.Value().msgtype == Some(f.msgtype_.chars) && g.Value().msgtype == Some(g.msgtype_.chars);
    }
    assert |f.ui_| == |f.Value().ui| == |g.Value().ui| == |g.ui_|;
    f.Represents();
    g.Represents();
    forall i | 0 <= i < |f.ui_|
      ensures f.ui_[i].hasUserid == g.ui_[i].hasUserid && f.ui_[i].userid_ == g.ui_[i].userid_
      ensures f.ui_[i].hasUsername == g.ui_[i].hasUsername
      ensures f.ui_[i].username_.chars == g.ui_[i].username_.chars && f.ui_[i].unknown == g.ui_[i].unknown
    {
      assert f.Value().ui[i] == g.Value().ui[i];
      SameValueSameAccessors(f.ui_[i], g.ui_[i]);
    }
  }
}
