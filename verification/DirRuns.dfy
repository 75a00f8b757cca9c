/** What every run of directory operations keeps. */
module DirRuns {
  import opened Bytes
  import opened Lfn
  import opened ShortName
  import opened DirTable
  import opened DirFind

  /** A table with the names of its objects and the index of its first zero entry. */
  datatype State = State(t: Table, names: Names, zero: nat)

  /** What the driver does to a table: stretch it, register a name, set the fields of an object, remove an object. */
  datatype Op =
    | Stretch(n: nat)
    | Add(name: seq<word>, f: Form, at: nat)
    | Set(a: nat, e: Entry)
    | Drop(a: nat)

  ghost predicate DirStep(s: State, op: Op, u: State)
  {
    match op
    case Stretch(n) => u == s.(t := Stretched(s.t, n))
    case Add(name, f, at) =>
      && Proper(name) && (forall a :: !Matches(s.t, s.names, KeyOf(name), a))
      && Chosen(s.t, s.names, name, f)
      && var long := if FormOf(name).lfn then name else [];
         && Registered(s.t, u.t, long, ShortEntry(f), at) && FirstFit(s.t, Segments(long) + 1, at - Segments(long))
         && u.names == s.names[at := long] && u.zero == ZeroAfter(s.zero, at)
    case Set(a, e) =>
      a in s.names && a < |s.t| && IsShort(e) && Short(e) == Short(s.t[a]) && u == s.(t := s.t[a := e])
    case Drop(a) =>
      && a in s.names && 0 <= First(s.names, a) && Erased(s.t, u.t, First(s.names, a), a)
      && u.names == s.names - {a} && u.zero == s.zero
  }

  ghost predicate DirRun(s: State, ops: seq<Op>, u: State)
    decreases |ops|
  {
    if ops == [] then u == s else exists m :: DirStep(s, ops[0], m) && DirRun(m, ops[1..], u)
  }

  ghost predicate Good(s: State) { WellFormed(s.t, s.names, s.zero) }

  /** One operation keeps the table well formed, and every name found, unless it removes that object. */
  lemma StepKeepsNames(s: State, op: Op, u: State)
    requires Good(s) && DirStep(s, op, u)
    ensures Good(u)
    ensures forall k, a :: Matches(s.t, s.names, k, a) && op != Drop(a) ==> Matches(u.t, u.names, k, a)
  {
    hide WellFormed, Matches, Registered, FirstFit, Chosen, FormOf, Proper, Erased, Short, IsShort, Stretched;
    match op {
      case Stretch(n) => StretchKeeps(s.t, s.names, s.zero, n);
      case Add(name, f, at) => AddKeeps(s, name, f, at, u);
      case Set(a, e) => UpdateKeeps(s.t, s.names, s.zero, a, e);
      case Drop(a) => RemoveKeeps(s.t, s.names, s.zero, u.t, a);
    }
  }

  lemma AddKeeps(s: State, name: seq<word>, f: Form, at: nat, u: State)
    requires Good(s) && DirStep(s, Add(name, f, at), u)
    ensures Good(u)
    ensures forall k, a :: Matches(s.t, s.names, k, a) ==> Matches(u.t, u.names, k, a)
    ensures forall q :: Ascii(q) && SameName(q, name) ==> (Matches(u.t, u.names, KeyOf(q), at) <==> |name| <= 254)
  {
    hide WellFormed, Matches, Registered, FirstFit, Chosen, FormOf, Proper, SameName, Stretched, ShortEntry;
    ProperIsAscii(name);
    ChosenLong(s.t, s.names, name, f);
    StretchedByNone(s.t);
    RegisterDone(s.t, s.names, s.zero, s.t, u.t, name, f, at, if FormOf(name).lfn then name else []);
  }

  /** What dir_register does is such a run: at most a stretch, and then an addition. */
  lemma RegisterIsRun(s: State, name: seq<word>, f: Form, at: nat, u: Table)
    requires Good(s) && Proper(name) && Ascii(name) && Chosen(s.t, s.names, name, f)
    requires forall a :: !Matches(s.t, s.names, KeyOf(name), a)
    requires AddedTo(s.t, u, if FormOf(name).lfn then name else [], ShortEntry(f), at)
    ensures |s.t| <= |u|
    ensures DirRun(s, [Stretch(|u| - |s.t|), Add(name, f, at)],
                   State(u, s.names[at := if FormOf(name).lfn then name else []], ZeroAfter(s.zero, at)))
  {
    hide Matches, Registered, FirstFit, Chosen, FormOf, Proper, Stretched, ShortEntry, Laid;
    var n, op := |u| - |s.t|, Add(name, f, at);
    var m := s.(t := Stretched(s.t, n));
    var v := State(u, s.names[at := if FormOf(name).lfn then name else []], ZeroAfter(s.zero, at));
    ChosenStretched(s.t, s.names, name, f, n);
    StretchKeeps(s.t, s.names, s.zero, n);
    assert DirStep(s, Stretch(n), m) && DirStep(m, op, v);
    assert DirRun(v, [], v) && [op][1..] == [] && DirRun(m, [op], v);
    assert [Stretch(n), op][1..] == [op];
  }

  lemma StretchedByNone(t: Table)
    ensures Stretched(t, 0) == t
  {
  }

  /** Over every run of registrations, updates, removals and stretches: the table stays well formed, and a name found at
      `a` is found there as long as that object is not removed. */
  lemma {:induction false} RunKeepsNames(s: State, ops: seq<Op>, u: State, k: Key, a: nat)
    requires Good(s) && DirRun(s, ops, u)
    ensures Good(u)
    ensures Matches(s.t, s.names, k, a) && Drop(a) !in ops ==> Matches(u.t, u.names, k, a)
    decreases |ops|
  {
    hide Good, Matches, DirStep;
    if ops != [] {
      var m :| DirStep(s, ops[0], m) && DirRun(m, ops[1..], u);
      StepKeepsNames(s, ops[0], m);
      RunKeepsNames(m, ops[1..], u, k, a);
    }
  }

  /** In a well-formed table no two live short entries share their 11 bytes. */
  lemma ShortsDiffer(s: State, a: nat, b: nat)
    requires Good(s) && a < |s.t| && b < |s.t| && a != b && IsShort(s.t[a]) && IsShort(s.t[b])
    ensures Short(s.t[a]) != Short(s.t[b])
  {
    ObjectsAreShorts(s, a);
    ObjectsAreShorts(s, b);
    hide Laid, IsShort, FormOf, SameName;
  }

  /** A live short entry that is none of a table's objects does not exist: the objects are exactly the short entries. */
  lemma ObjectsAreShorts(s: State, a: nat)
    requires Good(s) && a < |s.t|
    ensures a in s.names <==> IsShort(s.t[a])
  {
    hide IsObject, NameEntries, SumOf, FormOf, Unique, Covered, ZeroTail;
    WellFormedIsLaid(s.t, s.names, s.zero);
    AttrBits(s.t[a][11]);
    if IsShort(s.t[a]) { var o := OwnerOf(s.t, s.names, s.zero, a); }
    if a in s.names {
      assert OwnedBy(s.names, a, a);
      ObjectNotBlank(s.t, s.names, s.zero, a, a);
    }
  }

  /** A cleared table is well formed and holds no name. */
  lemma ClearedIsGood(n: nat)
    ensures Good(State(Stretched([], n), map[], 0))
  {
  }

  /** The entry of a dot directory: a blank-padded name and the directory attribute. */
  predicate IsDotEntry(e: Entry, dots: nat)
    requires dots <= 11
  {
    e[11] == 0x10 && forall k :: 0 <= k < 11 ==> e[k] == if k < dots then DOT else BLANK
  }

  /** The table that f_mkdir writes for a new directory is well formed: two objects that no name matches. */
  lemma DotsAreGood(d: Entry, dd: Entry, n: nat)
    requires IsDotEntry(d, 1) && IsDotEntry(dd, 2)
    ensures Good(State(Stretched([d, dd], n), map[0 := [], 1 := []], 2))
    ensures forall q, a :: Proper(q) && Ascii(q) ==> !Matches(Stretched([d, dd], n), map[0 := [], 1 := []], KeyOf(q), a)
  {
    hide Laid, FormOf, SumOf, SameName, Proper, IsShort;
    var t, names := Stretched([d, dd], n), map[0 := [], 1 := []];
    assert t[0] == d && t[1] == dd;
    assert Short(d)[0] == DOT && Short(dd)[0] == DOT && Short(d)[1] == BLANK && Short(dd)[1] == DOT;
    DotsLaid(t, names);
    forall q, a | Proper(q) && Ascii(q) ensures !Matches(t, names, KeyOf(q), a) {
      FormIsShort(q);
      assert a in names ==> a == 0 || a == 1;
    }
  }

  lemma DotsLaid(t: Table, names: Names)
    requires 2 <= |t| && IsDotEntry(t[0], 1) && IsDotEntry(t[1], 2) && names == map[0 := [], 1 := []]
    requires forall i :: 2 <= i < |t| ==> t[i] == Zeros(32)
    ensures Laid(t, names, 2)
  {
    hide IsObject, Owned, Apart, SumOf;
    DotObject(t, 0, 1);
    DotObject(t, 1, 2);
    DotsOwned(names);
    assert t[0][0] == DOT && t[1][0] == DOT;
  }

  lemma DotsOwned(names: Names)
    requires names == map[0 := [], 1 := []]
    ensures Apart(names) && Owned(names, 0) && Owned(names, 1)
  {
    assert OwnedBy(names, 0, 0) && OwnedBy(names, 1, 1);
  }

  lemma DotObject(t: Table, a: nat, dots: nat)
    requires a < |t| && 1 <= dots <= 2 && IsDotEntry(t[a], dots)
    ensures IsObject(t, a, [])
  {
    hide SumOf, IsPiece;
    assert t[a][0] == DOT;
    assert t[a - Segments([])..a] == [];
  }
}
