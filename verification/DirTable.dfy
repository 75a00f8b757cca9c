/** Directory tables: which entries are live objects and under which names, when a search finds an object, and
    what registering, stretching and removing keep. */
module DirTable {
  import opened Bytes
  import opened Lfn
  import opened ShortName

  type Table = seq<Entry>

  const DELETED: byte := 0xE5

  predicate IsBlank(e: Entry) { e[0] == 0 || e[0] == DELETED }

  /** A short-name entry: neither blank nor with the volume bit, which long-name entries have too. */
  predicate IsShort(e: Entry) { !IsBlank(e) && e[11] as int / 0x08 % 2 == 0 }

  function Short(e: Entry): (s: seq<byte>)
    ensures |s| == 11
  {
    e[..11]
  }

  // ----- objects -----

  /** The long name of every object, keyed by the index of its short entry; empty if it has none. */
  type Names = map<nat, seq<word>>

  /** A live object other than a dot entry. */
  ghost predicate Listed(t: Table, names: Names, a: nat) { a in names && a < |t| && t[a][0] != DOT }

  /** The index of the first entry of the object at `a`. */
  function First(names: Names, a: nat): int
    requires a in names
  {
    a - Segments(names[a])
  }

  /** The object at `a` is complete: its short entry, and in front of it the entries of its long name. */
  ghost predicate IsObject(t: Table, a: nat, name: seq<word>)
  {
    && a < |t| && IsShort(t[a]) && 0 <= a - Segments(name)
    && (name != [] ==> Proper(name))
    && NameEntries(t[a - Segments(name)..a], name, SumOf(Short(t[a])))
  }

  ghost predicate OwnedBy(names: Names, a: nat, i: nat)
  {
    a in names && First(names, a) <= i <= a
  }

  ghost predicate Owned(names: Names, i: nat)
  {
    exists a :: OwnedBy(names, a, i)
  }

  ghost predicate Objects(t: Table, names: Names, zero: nat)
  {
    forall a :: a in names ==> a < zero && IsObject(t, a, names[a])
  }

  ghost predicate Apart(names: Names)
  {
    forall a, b, i :: OwnedBy(names, a, i) && OwnedBy(names, b, i) ==> a == b
  }

  ghost predicate Covered(t: Table, names: Names, zero: nat)
  {
    forall i :: 0 <= i < zero && i < |t| ==> t[i][0] != 0 && (t[i][0] != DELETED ==> Owned(names, i))
  }

  ghost predicate ZeroTail(t: Table, zero: nat)
  {
    forall i :: zero <= i < |t| ==> t[i] == Zeros(32)
  }

  /** Every entry before `zero` is deleted or part of exactly one object, and all from `zero` on are zero. */
  ghost predicate Laid(t: Table, names: Names, zero: nat)
  {
    && zero <= |t|
    && Objects(t, names, zero) && Apart(names) && Covered(t, names, zero) && ZeroTail(t, zero)
  }

  /** A search for `q` comes to an object by its long name. A stored name of 255 characters is never accepted. */
  ghost predicate LongFinds(q: seq<word>, long: seq<word>)
  {
    long != [] && |long| <= 254 && SameName(q, long)
  }

  /** No two objects share a short name or, up to case, a long name, and a long name that fits the short form
      stands beside exactly that short form. */
  ghost predicate Unique(t: Table, names: Names)
  {
    && (forall a :: a in names ==> a < |t|)
    && (forall a, b :: a in names && b in names && Short(t[a]) == Short(t[b]) ==> a == b)
    && (forall a, b :: a in names && b in names && LongFinds(names[a], names[b]) ==> a == b)
    && (forall a :: a in names && names[a] != [] ==>
          Ascii(names[a]) && (!FormOf(names[a]).loss ==> Short(t[a]) == FormOf(names[a]).fn))
  }

  ghost predicate WellFormed(t: Table, names: Names, zero: nat)
  {
    Laid(t, names, zero) && Unique(t, names)
  }

  lemma WellFormedIsLaid(t: Table, names: Names, zero: nat)
    requires WellFormed(t, names, zero)
    ensures Laid(t, names, zero) && Unique(t, names)
  {
  }

  // ----- searching -----

  /** What a search looks for: a short name unless `loss` is set, and a long name if there is one. */
  datatype Key = Key(fn: seq<byte>, loss: bool, lfn: seq<word>)

  function KeyOf(name: seq<word>): Key
    requires Ascii(name)
  {
    Key(FormOf(name).fn, FormOf(name).loss, name)
  }

  ghost predicate MatchesLong(names: Names, k: Key, a: nat)
  {
    a in names && k.lfn != [] && LongFinds(k.lfn, names[a])
  }

  ghost predicate MatchesShort(t: Table, names: Names, k: Key, a: nat)
  {
    a in names && a < |t| && !k.loss && Short(t[a]) == k.fn
  }

  ghost predicate Matches(t: Table, names: Names, k: Key, a: nat)
  {
    MatchesLong(names, k, a) || MatchesShort(t, names, k, a)
  }

  /** In a well-formed table a name never matches two objects, by whichever of its forms. */
  lemma AtMostOne(t: Table, names: Names, name: seq<word>, a: nat, b: nat)
    requires Unique(t, names) && Ascii(name)
    requires Matches(t, names, KeyOf(name), a) && Matches(t, names, KeyOf(name), b)
    ensures a == b
  {
    if MatchesLong(names, KeyOf(name), a) { FormFolds(name, names[a]); }
    if MatchesLong(names, KeyOf(name), b) { FormFolds(name, names[b]); }
    if MatchesLong(names, KeyOf(name), a) && MatchesLong(names, KeyOf(name), b) {
      SameTransitive(names[a], name, names[b]);
    }
  }

  lemma SameTransitive(a: seq<word>, b: seq<word>, c: seq<word>)
    requires SameName(b, a) && SameName(b, c)
    ensures SameName(a, c)
  {
  }

  // ----- registering -----

  /** The short entry that dir_register writes. */
  function ShortEntry(f: Form): (e: Entry)
    requires |f.fn| == 11
  {
    Splice(Zeros(32), 0, f.fn)[12 := NtFlags(f)]
  }

  /** `u` is `t` with an object of long name `lfn` and short entry `e` in the blank entries up to `at`. */
  ghost predicate Registered(t: Table, u: Table, lfn: seq<word>, e: Entry, at: nat)
  {
    && |u| == |t| && at < |t| && 0 <= at - Segments(lfn)
    && (forall i :: at - Segments(lfn) <= i <= at ==> IsBlank(t[i]))
    && u[at] == e && NameEntries(u[at - Segments(lfn)..at], lfn, SumOf(Short(e)))
    && (forall i :: 0 <= i < |t| && !(at - Segments(lfn) <= i <= at) ==> u[i] == t[i])
  }

  ghost predicate Blocked(t: Table, r: nat, ne: nat)
  {
    exists i :: r <= i < r + ne && i < |t| && !IsBlank(t[i])
  }

  /** No run of `ne` blank entries starts before `s`. */
  ghost predicate FirstFit(t: Table, ne: nat, s: nat)
  {
    forall r :: 0 <= r < s ==> Blocked(t, r, ne)
  }

  /** Where the zero entries start after an object was registered up to `at`. */
  function ZeroAfter(zero: nat, at: nat): nat { if at >= zero then at + 1 else zero }

  lemma NameEntriesAt(es: seq<Entry>, name: seq<word>, sum: byte)
    requires NameEntries(es, name, sum)
    ensures forall k :: 0 <= k < |es| ==> es[k][0] != 0 && es[k][0] != DELETED && es[k][11] == AM_LFN
  {
    forall k | 0 <= k < |es| ensures es[k][0] != 0 && es[k][0] != DELETED && es[k][11] == AM_LFN {
      assert IsPiece(es[k], name, |es| - k, sum);
    }
  }

  /** A first fit never leaves a hole in front of the zero entries. */
  lemma FirstFitBound(t: Table, zero: nat, ne: nat, s: nat)
    requires ZeroTail(t, zero) && FirstFit(t, ne, s) && s + ne <= |t|
    ensures s <= zero
  {
    assert !Blocked(t, zero, ne) by {
      forall i | zero <= i < |t| ensures IsBlank(t[i]) { assert t[i] == Zeros(32); }
    }
  }

  lemma ObjectNotBlank(t: Table, names: Names, zero: nat, a: nat, i: nat)
    requires Objects(t, names, zero) && OwnedBy(names, a, i)
    ensures a < |t| && !IsBlank(t[i]) && (i < a ==> t[i][11] == AM_LFN) && IsShort(t[a])
  {
    hide NameEntries, SumOf;
    assert IsObject(t, a, names[a]);
    if i < a {
      var es := t[First(names, a)..a];
      NameEntriesAt(es, names[a], SumOf(Short(t[a])));
      assert es[i - First(names, a)] == t[i];
    }
  }

  /** A blank entry belongs to no object. */
  lemma BlanksUnowned(t: Table, names: Names, zero: nat, i: nat)
    requires Objects(t, names, zero) && i < |t| && IsBlank(t[i])
    ensures !Owned(names, i) && i !in names
  {
    assert i in names ==> OwnedBy(names, i, i);
    if Owned(names, i) {
      var a: nat :| OwnedBy(names, a, i);
      ObjectNotBlank(t, names, zero, a, i);
    }
  }

  /** An object none of whose entries changes stays what it is. */
  lemma ObjectStays(t: Table, u: Table, names: Names, zero: nat, a: nat)
    requires Objects(t, names, zero) && |u| >= |t| && a in names
    requires forall i :: 0 <= i < |t| && OwnedBy(names, a, i) ==> u[i] == t[i]
    ensures a < |t| && IsObject(u, a, names[a]) && u[a] == t[a]
  {
    hide NameEntries, SumOf;
    assert IsObject(t, a, names[a]);
    assert OwnedBy(names, a, a);
    var f := First(names, a);
    forall i | f <= i < a ensures u[i] == t[i] { assert OwnedBy(names, a, i); }
    assert u[f..a] == t[f..a];
  }

  lemma RegisterObjects(t: Table, names: Names, zero: nat, u: Table, lfn: seq<word>, e: Entry, at: nat)
    requires Objects(t, names, zero) && Registered(t, u, lfn, e, at) && IsShort(e)
    requires lfn != [] ==> Proper(lfn)
    ensures at !in names && Objects(u, names[at := lfn], ZeroAfter(zero, at))
  {
    assert IsObject(u, at, lfn);
    hide NameEntries, SumOf, IsObject;
    var names' := names[at := lfn];
    BlanksUnowned(t, names, zero, at);
    forall a | a in names' ensures a < ZeroAfter(zero, at) && IsObject(u, a, names'[a]) {
      if a != at {
        forall i | 0 <= i < |t| && OwnedBy(names, a, i) ensures u[i] == t[i] {
          if at - Segments(lfn) <= i <= at { BlanksUnowned(t, names, zero, i); }
        }
        ObjectStays(t, u, names, zero, a);
      }
    }
  }

  lemma RegisterApart(t: Table, names: Names, zero: nat, u: Table, lfn: seq<word>, e: Entry, at: nat)
    requires Objects(t, names, zero) && Apart(names) && Registered(t, u, lfn, e, at) && at !in names
    ensures Apart(names[at := lfn])
  {
    hide NameEntries, SumOf, Objects;
    var names' := names[at := lfn];
    forall a, b, i | OwnedBy(names', a, i) && OwnedBy(names', b, i) ensures a == b {
      if a == at || b == at { BlanksUnowned(t, names, zero, i); }
      assert a != at ==> OwnedBy(names, a, i);
      assert b != at ==> OwnedBy(names, b, i);
    }
  }

  lemma RegisterCovered(t: Table, names: Names, zero: nat, u: Table, lfn: seq<word>, e: Entry, at: nat)
    requires Covered(t, names, zero) && zero <= |t| && at !in names && Registered(t, u, lfn, e, at) && IsShort(e)
    requires at - Segments(lfn) <= zero
    ensures Covered(u, names[at := lfn], ZeroAfter(zero, at))
  {
    hide NameEntries, SumOf;
    var s, names' := at - Segments(lfn), names[at := lfn];
    NameEntriesAt(u[s..at], lfn, SumOf(Short(e)));
    forall i | 0 <= i < ZeroAfter(zero, at) && i < |u|
      ensures u[i][0] != 0 && (u[i][0] != DELETED ==> Owned(names', i))
    {
      if s <= i <= at {
        assert OwnedBy(names', at, i);
        if i < at { assert u[s..at][i - s] == u[i]; }
      } else if u[i][0] != DELETED {
        assert u[i] == t[i] && Owned(names, i);
        var a: nat :| OwnedBy(names, a, i);
        assert OwnedBy(names', a, i);
      }
    }
  }

  /** Registering keeps the layout, zero entries behind the last object included. */
  lemma RegisterLaid(t: Table, names: Names, zero: nat, u: Table, lfn: seq<word>, e: Entry, at: nat)
    requires Laid(t, names, zero) && Registered(t, u, lfn, e, at) && IsShort(e)
    requires lfn != [] ==> Proper(lfn)
    requires FirstFit(t, Segments(lfn) + 1, at - Segments(lfn))
    ensures at !in names && Laid(u, names[at := lfn], ZeroAfter(zero, at))
  {
    FirstFitBound(t, zero, Segments(lfn) + 1, at - Segments(lfn));
    RegisterObjects(t, names, zero, u, lfn, e, at);
    RegisterApart(t, names, zero, u, lfn, e, at);
    RegisterCovered(t, names, zero, u, lfn, e, at);
  }

  /** The new object shares no long name with another. */
  lemma LongUnique(t: Table, names: Names, name: seq<word>, at: nat, lfn: seq<word>, a: nat, b: nat)
    requires Unique(t, names) && Proper(name) && (lfn == [] || lfn == name) && at !in names
    requires forall c :: !Matches(t, names, KeyOf(name), c)
    requires var n := names[at := lfn]; a in n && b in n && LongFinds(n[a], n[b])
    ensures a == b
  {
    hide FormOf, SameName;
    SameNames(names[at := lfn][a], names[at := lfn][b]);
    assert a != at ==> !Matches(t, names, KeyOf(name), a);
    assert b != at ==> !Matches(t, names, KeyOf(name), b);
  }

  /** Registering a name that matched nothing, under a short name that is free, keeps names unique. */
  lemma RegisterUnique(t: Table, names: Names, zero: nat, u: Table, name: seq<word>, f: Form, at: nat, lfn: seq<word>)
    requires WellFormed(t, names, zero) && Proper(name) && |f.fn| == 11 && at !in names
    requires Registered(t, u, lfn, ShortEntry(f), at) && lfn == if f.lfn then name else []
    requires !FormOf(name).loss ==> f.fn == FormOf(name).fn
    requires forall a :: !Matches(t, names, KeyOf(name), a)
    requires forall a :: !MatchesShort(t, names, Key(f.fn, false, []), a)
    ensures Unique(u, names[at := lfn])
  {
    hide NameEntries, SumOf, FormOf, SameName, Laid, IsBlank, Matches;
    var names' := names[at := lfn];
    assert Short(u[at]) == f.fn;
    forall a | a in names ensures a < |t| && Short(u[a]) == Short(t[a]) && Short(t[a]) != f.fn {
      ShortStays(t, names, zero, u, lfn, ShortEntry(f), at, a);
      assert !MatchesShort(t, names, Key(f.fn, false, []), a);
    }
    forall a, b | a in names' && b in names' && LongFinds(names'[a], names'[b]) ensures a == b {
      LongUnique(t, names, name, at, lfn, a, b);
    }
  }

  lemma SameNames(a: seq<word>, b: seq<word>)
    requires SameName(a, b)
    ensures SameName(b, a) && |a| == |b|
  {
  }

  lemma ShortStays(t: Table, names: Names, zero: nat, u: Table, lfn: seq<word>, e: Entry, at: nat, a: nat)
    requires Laid(t, names, zero) && Registered(t, u, lfn, e, at) && a in names
    ensures a < |t| && u[a] == t[a]
  {
    assert OwnedBy(names, a, a);
    assert IsObject(t, a, names[a]);
    if at - Segments(lfn) <= a <= at { BlanksUnowned(t, names, zero, a); }
  }

  /** dir_register, on tables: the layout and the uniqueness of names are kept; the new name is found from then on, in
      every case; and every name that was found still is, at its old index. */
  lemma RegisterKeeps(t: Table, names: Names, zero: nat, u: Table, name: seq<word>, f: Form, at: nat, lfn: seq<word>)
    requires WellFormed(t, names, zero) && Proper(name) && |f.fn| == 11 && IsShort(ShortEntry(f))
    requires Registered(t, u, lfn, ShortEntry(f), at) && lfn == if f.lfn then name else []
    requires FirstFit(t, Segments(lfn) + 1, at - Segments(lfn))
    requires f.lfn == FormOf(name).lfn && (!FormOf(name).loss ==> f.fn == FormOf(name).fn)
    requires forall a :: !Matches(t, names, KeyOf(name), a)
    requires forall a :: !MatchesShort(t, names, Key(f.fn, false, []), a)
    ensures WellFormed(u, names[at := lfn], ZeroAfter(zero, at)) && at !in names
    ensures forall q :: Ascii(q) && SameName(q, name) ==>
      (Matches(u, names[at := lfn], KeyOf(q), at) <==> |name| <= 254)
    ensures forall k, a :: Matches(t, names, k, a) ==> Matches(u, names[at := lfn], k, a)
  {
    hide Laid, Unique, FormOf, Proper, SameName, FirstFit;
    RegisterLaid(t, names, zero, u, lfn, ShortEntry(f), at);
    RegisterUnique(t, names, zero, u, name, f, at, lfn);
    var names' := names[at := lfn];
    forall q | Ascii(q) && SameName(q, name) ensures Matches(u, names', KeyOf(q), at) <==> |name| <= 254 {
      NewIsFound(t, u, names, name, f, at, lfn, q);
    }
    forall k, a | Matches(t, names, k, a) ensures Matches(u, names', k, a) {
      ShortStays(t, names, zero, u, lfn, ShortEntry(f), at, a);
    }
  }

  lemma NewIsFound(t: Table, u: Table, names: Names, name: seq<word>, f: Form, at: nat, lfn: seq<word>, q: seq<word>)
    requires Proper(name) && |f.fn| == 11 && Registered(t, u, lfn, ShortEntry(f), at)
    requires lfn == if f.lfn then name else []
    requires f.lfn == FormOf(name).lfn && (!FormOf(name).loss ==> f.fn == FormOf(name).fn)
    requires Ascii(q) && SameName(q, name)
    ensures Matches(u, names[at := lfn], KeyOf(q), at) <==> |name| <= 254
  {
    FormFolds(q, name);
    if |name| == 255 { LongIsLossy(name); }
    assert Short(u[at]) == f.fn;
  }

  // ----- stretching, updating, removing -----

  /** `n` zero entries more. */
  function Stretched(t: Table, n: nat): (u: Table)
    ensures |u| == |t| + n
  {
    t + seq(n, _ => Zeros(32))
  }

  /** `u` is `t` stretched, if at all. */
  ghost predicate Longer(t: Table, u: Table) { |t| <= |u| && u == Stretched(t, |u| - |t|) }

  lemma NoLonger(t: Table)
    ensures Longer(t, t)
  {
  }

  /** How many clusters of `cap` entries a table of `size` entries needs to hold `end` of them. */
  function ClustersMore(size: nat, end: nat, cap: nat): nat
    requires 0 < cap
  {
    if end <= size then 0 else (end - size + cap - 1) / cap
  }

  /** The live short entries carry the same short names. */
  ghost predicate SameShorts(t: Table, u: Table, names: Names)
  {
    forall a :: a in names ==> a < |t| && a < |u| && Short(u[a]) == Short(t[a])
  }

  lemma UniqueSame(t: Table, u: Table, names: Names)
    requires Unique(t, names) && SameShorts(t, u, names)
    ensures Unique(u, names)
    ensures forall k, a :: Matches(u, names, k, a) <==> Matches(t, names, k, a)
  {
    hide FormOf, SameName, Short;
  }

  lemma LaidStretched(t: Table, names: Names, zero: nat, n: nat)
    requires Laid(t, names, zero)
    ensures Laid(Stretched(t, n), names, zero)
  {
    hide NameEntries, SumOf, IsObject, Owned;
    var u := Stretched(t, n);
    forall a | a in names ensures a < zero && IsObject(u, a, names[a]) { ObjectStays(t, u, names, zero, a); }
  }

  /** Stretching the table keeps everything, the zero entries at its end included. */
  lemma StretchKeeps(t: Table, names: Names, zero: nat, n: nat)
    requires WellFormed(t, names, zero)
    ensures WellFormed(Stretched(t, n), names, zero)
    ensures forall k, a :: Matches(Stretched(t, n), names, k, a) <==> Matches(t, names, k, a)
  {
    hide NameEntries, SumOf, IsObject, Unique, Matches;
    var u := Stretched(t, n);
    forall a | a in names ensures a < |t| && IsObject(u, a, names[a]) && u[a] == t[a] {
      ObjectStays(t, u, names, zero, a);
    }
    UniqueSame(t, u, names);
  }

  /** Setting the attribute, time, cluster and size fields of an object keeps everything. */
  lemma UpdateKeeps(t: Table, names: Names, zero: nat, a: nat, e: Entry)
    requires WellFormed(t, names, zero) && a in names && a < |t| && IsShort(e) && Short(e) == Short(t[a])
    ensures WellFormed(t[a := e], names, zero)
    ensures forall k, b :: Matches(t[a := e], names, k, b) <==> Matches(t, names, k, b)
  {
    hide NameEntries, SumOf, IsObject, Unique, Matches, Short;
    var u := t[a := e];
    assert OwnedBy(names, a, a) && Owned(names, a);
    forall b | b in names ensures b < |t| && IsObject(u, b, names[b]) && Short(u[b]) == Short(t[b]) {
      if b == a { UpdatedObject(t, names, zero, a, e); } else {
        assert !OwnedBy(names, b, a);
        ObjectStays(t, u, names, zero, b);
      }
    }
    UniqueSame(t, u, names);
  }

  lemma UpdatedObject(t: Table, names: Names, zero: nat, a: nat, e: Entry)
    requires Objects(t, names, zero) && a in names && a < |t| && IsShort(e) && Short(e) == Short(t[a])
    ensures IsObject(t[a := e], a, names[a])
  {
    hide NameEntries, SumOf, Short;
    assert IsObject(t, a, names[a]);
    assert t[a := e][First(names, a)..a] == t[First(names, a)..a];
  }

  /** `u` is `t` with the entries `from` to `to` marked deleted. */
  ghost predicate Erased(t: Table, u: Table, from: nat, to: nat)
  {
    && |u| == |t| && to < |t|
    && forall i :: 0 <= i < |t| ==> u[i] == if from <= i <= to then t[i][0 := DELETED] else t[i]
  }

  lemma ErasedObjects(t: Table, names: Names, zero: nat, u: Table, at: nat)
    requires Laid(t, names, zero) && at in names && 0 <= First(names, at) && Erased(t, u, First(names, at), at)
    ensures Laid(u, names - {at}, zero) && SameShorts(t, u, names - {at})
  {
    hide NameEntries, SumOf, IsObject, Covered, Short;
    var names' := names - {at};
    forall a | a in names' ensures a < zero && a < |t| && IsObject(u, a, names[a]) && u[a] == t[a] {
      ErasedOther(t, names, zero, u, at, a);
    }
    assert at < zero by { assert at in names; }
    ErasedCovered(t, names, zero, u, at);
    assert Apart(names') by {
      forall a, b, i | OwnedBy(names', a, i) && OwnedBy(names', b, i) ensures a == b {
        assert OwnedBy(names, a, i) && OwnedBy(names, b, i);
      }
    }
  }

  lemma ErasedOther(t: Table, names: Names, zero: nat, u: Table, at: nat, a: nat)
    requires Objects(t, names, zero) && Apart(names) && at in names && 0 <= First(names, at)
    requires Erased(t, u, First(names, at), at) && a in names && a != at
    ensures a < zero && a < |t| && IsObject(u, a, names[a]) && u[a] == t[a]
  {
    hide IsObject;
    forall i | 0 <= i < |t| && OwnedBy(names, a, i) ensures u[i] == t[i] {
      assert First(names, at) <= i <= at ==> OwnedBy(names, at, i);
    }
    ObjectStays(t, u, names, zero, a);
  }

  lemma ErasedCovered(t: Table, names: Names, zero: nat, u: Table, at: nat)
    requires Covered(t, names, zero) && zero <= |t| && at in names && at < zero
    requires 0 <= First(names, at) && Erased(t, u, First(names, at), at)
    ensures Covered(u, names - {at}, zero)
  {
    var names' := names - {at};
    forall i | 0 <= i < zero ensures u[i][0] != 0 && (u[i][0] != DELETED ==> Owned(names', i)) {
      if u[i][0] != DELETED {
        var a: nat :| OwnedBy(names, a, i);
        assert OwnedBy(names', a, i);
      }
    }
  }

  /** dir_remove, on tables, when it starts at the object's first entry: the layout and the uniqueness of names are
      kept; the name is gone, however it is looked for; and every other name is found where it was. */
  lemma RemoveKeeps(t: Table, names: Names, zero: nat, u: Table, at: nat)
    requires WellFormed(t, names, zero) && at in names && 0 <= First(names, at) && Erased(t, u, First(names, at), at)
    ensures WellFormed(u, names - {at}, zero)
    ensures forall q, a :: Ascii(q) && Matches(t, names, KeyOf(q), at) ==> !Matches(u, names - {at}, KeyOf(q), a)
    ensures forall k, a :: a != at && Matches(t, names, k, a) ==> Matches(u, names - {at}, k, a)
  {
    hide Laid, FormOf, SameName;
    ErasedObjects(t, names, zero, u, at);
    assert Unique(t, names - {at});
    UniqueSame(t, u, names - {at});
    forall q, a | Ascii(q) && Matches(t, names, KeyOf(q), at) ensures !Matches(u, names - {at}, KeyOf(q), a) {
      if Matches(u, names - {at}, KeyOf(q), a) {
        assert Matches(t, names, KeyOf(q), a);
        AtMostOne(t, names, q, at, a);
      }
    }
  }

  /** When the removal starts later, at the short entry of an object found by its short name only, the table is no
      longer made of whole objects: the entries of the long name are left behind. */
  lemma RemoveLeavesOrphans(t: Table, names: Names, zero: nat, u: Table, at: nat, from: nat, names': Names, zero': nat)
    requires Laid(t, names, zero) && at in names && 0 <= First(names, at) < from <= at && Erased(t, u, from, at)
    ensures !Laid(u, names', zero')
  {
    hide NameEntries, SumOf, IsObject, Covered, Apart, ZeroTail;
    var o := from - 1;
    assert OwnedBy(names, at, o);
    ObjectNotBlank(t, names, zero, at, o);
    OrphanUnlaid(u, names', zero', o);
  }

  /** A long-name entry with a blank entry behind it belongs to no object. */
  lemma OrphanUnlaid(u: Table, names: Names, zero: nat, o: nat)
    requires o + 1 < |u| && !IsBlank(u[o]) && u[o][11] == AM_LFN && IsBlank(u[o + 1])
    ensures !Laid(u, names, zero)
  {
    hide NameEntries, SumOf, IsObject;
    if Laid(u, names, zero) {
      assert u[o] != Zeros(32);
      assert Owned(names, o);
      var a: nat :| OwnedBy(names, a, o);
      ObjectNotBlank(u, names, zero, a, o);
      assert OwnedBy(names, a, o + 1);
      BlanksUnowned(u, names, zero, o + 1);
    }
  }

  /** The state of a directory once a name was registered at `at`: the new name is found there, in every case, unless it
      has 255 characters; and all names that were found before still are, where they were. */
  ghost predicate NewName(t: Table, names: Names, u: Table, names': Names, name: seq<word>, at: nat)
    requires Ascii(name)
  {
    && at !in names && at < |u|
    && names' == names[at := if FormOf(name).lfn then name else []]
    && (forall q :: Ascii(q) && SameName(q, name) ==> (Matches(u, names', KeyOf(q), at) <==> |name| <= 254))
    && (forall k, a :: Matches(t, names, k, a) ==> Matches(u, names', k, a))
  }

  /** The registration as a whole: room is made in `t0`, giving `t`, and the object is written, giving `u`. */
  lemma RegisterWhole(t0: Table, names: Names, zero: nat, t: Table, u: Table, name: seq<word>, f: Form, at: nat,
        lfn: seq<word>)
    requires WellFormed(t0, names, zero) && |t| >= |t0| && t == Stretched(t0, |t| - |t0|)
    requires Proper(name) && |f.fn| == 11 && IsShort(ShortEntry(f))
    requires Registered(t, u, lfn, ShortEntry(f), at) && lfn == if f.lfn then name else []
    requires FirstFit(t, Segments(lfn) + 1, at - Segments(lfn))
    requires f.lfn == FormOf(name).lfn && (!FormOf(name).loss ==> f.fn == FormOf(name).fn)
    requires forall a :: !Matches(t0, names, KeyOf(name), a)
    requires forall a :: !MatchesShort(t0, names, Key(f.fn, false, []), a)
    ensures WellFormed(u, names[at := lfn], ZeroAfter(zero, at)) && NewName(t0, names, u, names[at := lfn], name, at)
  {
    hide WellFormed, FormOf, Proper, SameName, FirstFit, Registered, Matches, MatchesShort, Stretched, IsShort,
         ShortEntry, ZeroAfter;
    StretchKeeps(t0, names, zero, |t| - |t0|);
    ShortMatchStretched(t0, names, zero, |t| - |t0|, Key(f.fn, false, []));
    RegisterKeeps(t, names, zero, u, name, f, at, lfn);
    RegisteredBounds(t, u, lfn, ShortEntry(f), at);
  }

  lemma RegisteredBounds(t: Table, u: Table, lfn: seq<word>, e: Entry, at: nat)
    requires Registered(t, u, lfn, e, at)
    ensures at < |u| == |t|
  {
  }

  lemma ShortMatchStretched(t: Table, names: Names, zero: nat, n: nat, k: Key)
    requires WellFormed(t, names, zero) && forall a :: !MatchesShort(t, names, k, a)
    ensures forall a :: !MatchesShort(Stretched(t, n), names, k, a)
  {
    hide FormOf, SameName, Laid;
    forall a ensures !MatchesShort(Stretched(t, n), names, k, a) { assert !MatchesShort(t, names, k, a); }
  }
}
