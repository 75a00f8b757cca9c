/** The matching automaton of dir_find: what its three variables mean while it walks over whole objects. */
module DirFind {
  import opened Bytes
  import opened Lfn
  import opened ShortName
  import opened DirTable
  import opened NumName
  import opened Results

  /** `ord`, `sum` and `dj->lfn_idx` of dir_find. */
  datatype Auto = Auto(ord: byte, sum: byte, lfnIdx: nat)

  const NONE: byte := 0xFF
  const NO_LFN: nat := 0xFFFF

  /** The attribute bits that tell the kinds of entries apart. */
  function Attr(e: Entry): nat { e[11] as int % 0x40 }

  /** The state once a first entry of a long name is taken into account. */
  function Begin(s: Auto, e: Entry, i: nat): Auto
  {
    if e[0] as int / 0x40 % 2 == 1 then Auto(e[0] as int - 0x40, e[13], i) else s
  }

  function OrdOf(e: Entry): byte { if e[0] as int / 0x40 % 2 == 1 then e[0] as int - 0x40 else e[0] }

  /** One entry of a long name: the order must count down to it, and its characters must be accepted. */
  function LongStep(s: Auto, e: Entry, i: nat, accepted: bool): Auto
  {
    var b := Begin(s, e, i);
    if OrdOf(e) == b.ord && b.sum == e[13] && accepted then b.(ord := (b.ord as int + 0xFF) % 0x100)
      else b.(ord := NONE)
  }

  /** The entries of the object at `a` from its first to the one before `i` were accepted. */
  ghost predicate AcceptedTo(buf: seq<word>, names: Names, a: nat, i: nat)
    requires |buf| == MAX_LFN + 1 && a in names
  {
    forall ord :: 1 <= ord <= Segments(names[a]) && a - ord < i ==> Accepts(Upper, buf, names[a], ord)
  }

  /** The object that entry `i` is in the middle of: behind its first entry. */
  ghost predicate Inside(names: Names, a: nat, i: nat)
  {
    a in names && First(names, a) < i <= a
  }

  /** What the automaton knows before entry `i`. */
  ghost predicate Tracks(t: Table, names: Names, buf: seq<word>, on: bool, i: nat, s: Auto)
    requires |buf| == MAX_LFN + 1
  {
    && ((forall a: nat :: !Inside(names, a, i)) ==> s.ord == NONE)
    && (!on ==> s.ord == NONE)
    && (forall a: nat :: Inside(names, a, i) && a < |t| && on ==>
          s.sum == SumOf(Short(t[a])) && s.lfnIdx == First(names, a) &&
          s.ord as int == if AcceptedTo(buf, names, a, i) then a - i else NONE as int)
  }

  lemma AttrBits(x: byte)
    ensures x as int % 0x40 / 8 % 2 == x as int / 8 % 2
    ensures x == 0x0F ==> x as int % 0x40 == 0x0F && x as int / 8 % 2 == 1
  {
    var q, r := x as int / 0x40, x as int % 0x40;
    assert x as int == 0x40 * q + r;
    assert x as int / 8 == 8 * q + r / 8;
  }

  /** The kinds of entries of a table made of whole objects. */
  lemma ShortOrLong(t: Table, names: Names, zero: nat, i: nat, a: nat)
    requires Objects(t, names, zero) && OwnedBy(names, a, i)
    ensures a < |t| && !IsBlank(t[i]) && (if i == a then Attr(t[i]) / 8 % 2 == 0 else Attr(t[i]) == 0x0F)
  {
    ObjectNotBlank(t, names, zero, a, i);
    AttrBits(t[i][11]);
  }

  lemma InsideOwner(names: Names, a: nat, i: nat)
    requires Apart(names) && OwnedBy(names, a, i)
    ensures forall b: nat :: Inside(names, b, i) ==> b == a
    ensures var j := i + 1; forall b: nat :: Inside(names, b, j) ==> b == a
  {
    var j := i + 1;
    forall b: nat | Inside(names, b, j) ensures b == a { assert OwnedBy(names, b, i); }
    forall b: nat | Inside(names, b, i) ensures b == a { assert OwnedBy(names, b, i); }
  }

  /** A deleted entry: nothing begins or goes on behind it. */
  lemma BlankStep(t: Table, names: Names, zero: nat, buf: seq<word>, on: bool, i: nat, s: Auto)
    requires Laid(t, names, zero) && |buf| == MAX_LFN + 1 && i < |t| && IsBlank(t[i])
    ensures Tracks(t, names, buf, on, i + 1, s.(ord := NONE))
    ensures i !in names
  {
    BlanksUnowned(t, names, zero, i);
    var j := i + 1;
    forall a: nat ensures !Inside(names, a, j) { assert Inside(names, a, j) ==> OwnedBy(names, a, i); }
  }

  /** A short entry: no object goes on behind it. */
  lemma ShortStep(t: Table, names: Names, zero: nat, buf: seq<word>, on: bool, i: nat, s: Auto)
    requires Laid(t, names, zero) && |buf| == MAX_LFN + 1 && i in names
    ensures Tracks(t, names, buf, on, i + 1, s.(ord := NONE))
  {
    assert OwnedBy(names, i, i);
    InsideOwner(names, i, i);
  }

  lemma LongStepIs(s: Auto, e: Entry, i: nat, accepted: bool, n: nat, first: bool)
    requires OrdOf(e) as int == n && 1 <= n <= 20 && (e[0] as int / 0x40 % 2 == 1 <==> first)
    ensures LongStep(s, e, i, accepted) ==
            if first then Auto(if accepted then n - 1 else NONE, e[13], i)
            else Auto(if s.ord as int == n && s.sum == e[13] && accepted then n - 1 else NONE, s.sum, s.lfnIdx)
  {
  }

  /** An entry of a long name. */
  lemma LongStepTracks(t: Table, names: Names, zero: nat, buf: seq<word>, i: nat, s: Auto, a: nat, accepted: bool)
    requires Objects(t, names, zero) && Apart(names) && |buf| == MAX_LFN + 1 && a in names && First(names, a) <= i < a
    requires Tracks(t, names, buf, true, i, s)
    requires accepted == Accepts(Upper, buf, names[a], a - i)
    ensures i < |t| && Tracks(t, names, buf, true, i + 1, LongStep(s, t[i], i, accepted))
  {
    hide SumOf, Accepts, Short, IsPiece, OrdOf, LongStep, AcceptedTo, Objects, Apart, Segments, LfnName, Begin;
    PieceAt(t, names, zero, a, i);
    assert OwnedBy(names, a, i);
    InsideOwner(names, a, i);
    LongStepIs(s, t[i], i, accepted, a - i, i == First(names, a));
    assert Inside(names, a, i + 1);
    AcceptedNext(buf, names, a, i);
    assert i > First(names, a) ==> Inside(names, a, i);
  }

  lemma AcceptedNext(buf: seq<word>, names: Names, a: nat, i: nat)
    requires |buf| == MAX_LFN + 1 && a in names && First(names, a) <= i < a
    ensures AcceptedTo(buf, names, a, i + 1) <==> AcceptedTo(buf, names, a, i) && Accepts(Upper, buf, names[a], a - i)
    ensures i == First(names, a) ==> AcceptedTo(buf, names, a, i)
  {
    hide Accepts;
  }

  /** The entry as the stored segment of its name. */
  lemma PieceAt(t: Table, names: Names, zero: nat, a: nat, i: nat)
    requires Objects(t, names, zero) && a in names && First(names, a) <= i < a
    ensures a < |t| && 0 <= i && 1 <= a - i <= 20 && IsPiece(t[i], names[a], a - i, SumOf(Short(t[a])))
    ensures OrdOf(t[i]) as int == a - i && (t[i][0] as int / 0x40 % 2 == 1 <==> i == First(names, a))
    ensures t[i][13] == SumOf(Short(t[a]))
    ensures LfnName(names[a]) && names[a] != []
  {
    hide SumOf;
    assert IsObject(t, a, names[a]);
    var es := t[First(names, a)..a];
    assert es[i - First(names, a)] == t[i];
    assert IsPiece(es[i - First(names, a)], names[a], |es| - (i - First(names, a)), SumOf(Short(t[a])));
  }

  /** At a short entry: the order has counted down to 0 exactly when the long name of this object matches. */
  lemma LongMatch(t: Table, names: Names, zero: nat, buf: seq<word>, on: bool, i: nat, s: Auto, query: seq<word>)
    requires Laid(t, names, zero) && i in names && i < |t| && Holds(buf, query) && LfnName(query) && query != []
    requires Tracks(t, names, buf, on, i, s)
    ensures (s.ord == 0 && s.sum == SumOf(Short(t[i]))) <==> (on && LongFinds(query, names[i]))
    ensures on && LongFinds(query, names[i]) ==> s.lfnIdx == First(names, i)
  {
    hide SumOf, Accepts, Short, Objects, Apart, Covered, ZeroTail, LfnName, SameName, Tracks;
    if names[i] != [] && on {
      LongTracked(t, names, zero, buf, i, s, query);
    } else {
      NotTracked(t, names, buf, on, i, s);
    }
  }

  /** At the short entry of an object without a long name no sequence is under way. */
  lemma NotTracked(t: Table, names: Names, buf: seq<word>, on: bool, i: nat, s: Auto)
    requires |buf| == MAX_LFN + 1 && Apart(names) && i in names && (names[i] == [] || !on)
    requires Tracks(t, names, buf, on, i, s)
    ensures s.ord == NONE
  {
    hide SumOf, AcceptedTo, Short, Apart;
    assert OwnedBy(names, i, i);
    InsideOwner(names, i, i);
  }

  /** At the short entry of an object with a long name the order is 0 exactly if all its segments were accepted. */
  lemma LongTracked(t: Table, names: Names, zero: nat, buf: seq<word>, i: nat, s: Auto, query: seq<word>)
    requires Objects(t, names, zero) && i in names && i < |t| && Holds(buf, query) && LfnName(query) && query != []
    requires names[i] != [] && Tracks(t, names, buf, true, i, s)
    ensures s.sum == SumOf(Short(t[i])) && s.lfnIdx == First(names, i)
    ensures s.ord == 0 <==> LongFinds(query, names[i])
  {
    hide SumOf, Accepts, Short, Objects, LfnName;
    NameOf(t, names, zero, i);
    assert Inside(names, i, i);
    if |names[i]| <= 254 {
      AllAccept(Upper, buf, query, names[i]);
    } else {
      LongestIsNeverAccepted(Upper, buf, names[i]);
    }
  }

  lemma NameOf(t: Table, names: Names, zero: nat, a: nat)
    requires Objects(t, names, zero) && a in names && names[a] != []
    ensures LfnName(names[a]) && 1 <= |names[a]| <= 255 && Segments(names[a]) >= 1
  {
    assert IsObject(t, a, names[a]);
  }

  /** What dir_find does at an entry of a long name. */
  method LookLong(ghost t: Table, ghost names: Names, ghost zero: nat, ghost a: nat, lfn: seq<word>, on: bool,
        index: nat, e: Entry, s: Auto)
    returns (s': Auto)
    requires Objects(t, names, zero) && Apart(names) && |lfn| == MAX_LFN + 1
    requires a in names && First(names, a) <= index < a && index < |t| && e == t[index]
    requires Tracks(t, names, lfn, on, index, s)
    ensures Tracks(t, names, lfn, on, index + 1, s')
  {
    s' := s;
    if on {
      hide SumOf, Accepts, IsPiece, Apart, Objects, Tracks, Segments, LfnName;
      PieceAt(t, names, zero, a, index);
      FoldIsFold();
      var c := e[0];
      if c as int / 0x40 % 2 == 1 {
        c := c as int - 0x40;
        s' := Auto(c, e[13], index);
      }
      var ok := false;
      if c == s'.ord && s'.sum == e[13] {
        ok := CmpLfn(Upper, lfn, e, names[a], a - index, e[13]);
      }
      s' := s'.(ord := if ok then s'.ord - 1 else NONE);
      ghost var accepted := Accepts(Upper, lfn, names[a], a - index);
      LongStepTracks(t, names, zero, lfn, index, s, a, accepted);
      assert s' == LongStep(s, e, index, accepted);
    }
  }

  lemma FoldIsFold()
    ensures IsFold(Upper)
  {
  }

  /** The object that a used entry belongs to. */
  lemma OwnerOf(t: Table, names: Names, zero: nat, i: nat) returns (a: nat)
    requires Laid(t, names, zero) && i < |t| && !IsBlank(t[i])
    ensures OwnedBy(names, a, i) && a < |t| && (if i == a then Attr(t[i]) / 8 % 2 == 0 else Attr(t[i]) == 0x0F)
  {
    assert t[i] != Zeros(32);
    assert Owned(names, i);
    a :| OwnedBy(names, a, i);
    ShortOrLong(t, names, zero, i, a);
  }

  /** What dir_find does at an entry that is not zero: it has found the object of this entry, or goes on. */
  method Look(ghost t: Table, ghost names: Names, ghost zero: nat, ghost name: seq<word>, fn: seq<byte>, loss: bool,
              lfn: seq<word>, on: bool, index: nat, e: Entry, s: Auto) returns (found: bool, s': Auto)
    requires Laid(t, names, zero) && Proper(name) && Holds(lfn, name)
    requires |lfn| == MAX_LFN + 1 && index < |t| && e == t[index] && e[0] != 0 && Tracks(t, names, lfn, on, index, s)
    ensures found ==> Matches(t, names, Key(fn, loss, if on then name else []), index) && index in names
    ensures found ==>
      s'.lfnIdx ==
      (if MatchesLong(names, Key(fn, loss, if on then name else []), index) then First(names, index) else NO_LFN)
    ensures !found ==> !Matches(t, names, Key(fn, loss, if on then name else []), index)
    ensures !found ==> Tracks(t, names, lfn, on, index + 1, s')
  {
    hide Tracks, SumOf, FormOf, Apart, Objects, Covered, ZeroTail, SameName, Proper, Holds, NameEntries;
    found, s' := false, s;
    var kind := Attr(e);
    ghost var a := index;
    if e[0] != DELETED { a := OwnerOf(t, names, zero, index); }
    if e[0] == DELETED || (kind / 8 % 2 == 1 && kind != 0x0F) {
      BlankStep(t, names, zero, lfn, on, index, s);
      s' := s.(ord := NONE);
    } else if kind == 0x0F {
      s' := LookLong(t, names, zero, a, lfn, on, index, e, s);
      NotShort(names, a, index);
    } else {
      ProperIsLfn(name);
      var sum := SumSfn(e);
      LongMatch(t, names, zero, lfn, on, index, s, name);
      if s.ord == 0 && s.sum == sum { return true, s; }
      s' := Auto(NONE, s.sum, NO_LFN);
      ShortStep(t, names, zero, lfn, on, index, s');
      found := !loss && e[..11] == fn;
    }
  }

  lemma NotShort(names: Names, a: nat, i: nat)
    requires Apart(names) && OwnedBy(names, a, i) && i < a
    ensures i !in names
  {
    assert i in names ==> OwnedBy(names, i, i);
  }

  lemma ProperIsLfn(name: seq<word>)
    requires Proper(name)
    ensures LfnName(name) && name != [] && Ascii(name)
  {
  }

  /** The outcome of dir_find: the first object that matches, with the index of its long name if that matched. */
  ghost predicate Answer(t: Table, names: Names, k: Key, res: FResult, index: nat, lfnIdx: nat)
  {
    match res
    case Ok =>
      && index in names && Matches(t, names, k, index) && (forall a :: 0 <= a < index ==> !Matches(t, names, k, a))
      && lfnIdx == if MatchesLong(names, k, index) then First(names, index) else NO_LFN
    case NoFile => forall a :: !Matches(t, names, k, a)
    case IntErr => t == []
    case _ => false
  }

  lemma StartTracks(t: Table, names: Names, buf: seq<word>, on: bool, s: Auto)
    requires |buf| == MAX_LFN + 1 && s.ord == NONE && (forall a :: a in names ==> 0 <= First(names, a))
    ensures Tracks(t, names, buf, on, 0, s)
  {
  }

  lemma HoldsBuffer(buf: seq<word>, name: seq<word>)
    requires Holds(buf, name)
    ensures |buf| == MAX_LFN + 1
  {
  }

  /** No object reaches beyond the first zero entry, or the end of the table. */
  lemma NoneFrom(t: Table, names: Names, zero: nat, k: Key, i: nat)
    requires Laid(t, names, zero) && i <= |t| && (i < |t| ==> t[i][0] == 0)
    requires forall a :: 0 <= a < i ==> !Matches(t, names, k, a)
    ensures forall a :: !Matches(t, names, k, a)
  {
    assert i < |t| ==> zero <= i;
  }

  lemma FirstInTable(t: Table, names: Names, zero: nat)
    requires Laid(t, names, zero)
    ensures forall a :: a in names ==> 0 <= First(names, a)
  {
    forall a | a in names ensures 0 <= First(names, a) { assert IsObject(t, a, names[a]); }
  }

  /** In a well-formed table, a search for a name that matches an object gives that object. */
  lemma AnswerIsIt(t: Table, names: Names, q: seq<word>, a: nat, res: FResult, index: nat, lfnIdx: nat)
    requires Unique(t, names) && Ascii(q) && Matches(t, names, KeyOf(q), a)
    requires Answer(t, names, KeyOf(q), res, index, lfnIdx)
    ensures res == Ok && index == a
  {
    hide FormOf, SameName;
    if res == Ok { AtMostOne(t, names, q, a, index); }
  }

  lemma NoShortMatch(t: Table, names: Names, k: Key)
    requires forall a :: !Matches(t, names, k, a)
    ensures forall a :: !MatchesShort(t, names, k, a)
  {
    forall a ensures !MatchesShort(t, names, k, a) { assert !Matches(t, names, k, a); }
  }

  // ----- the search of dir_register for room -----

  /** What the search for `ne` blank entries knows before entry `i`: the last `n` are blank, and no run fits before. */
  ghost predicate RoomSoFar(t: Table, ne: nat, i: nat, n: nat)
  {
    && n <= i <= |t| && n < ne && FirstFit(t, ne, i - n)
    && forall k :: i - n <= k < i ==> IsBlank(t[k])
  }

  lemma RoomStart(t: Table, ne: nat)
    requires 1 <= ne
    ensures RoomSoFar(t, ne, 0, 0)
  {
  }

  lemma RoomStep(t: Table, ne: nat, i: nat, n: nat)
    requires RoomSoFar(t, ne, i, n) && i < |t|
    ensures n <= i
    ensures if !IsBlank(t[i]) then RoomSoFar(t, ne, i + 1, 0)
      else if n + 1 == ne then FirstFit(t, ne, i - n) && forall k :: i - n <= k <= i ==> IsBlank(t[k])
      else RoomSoFar(t, ne, i + 1, n + 1)
  {
    if !IsBlank(t[i]) {
      forall r | 0 <= r < i + 1 ensures Blocked(t, r, ne) {
        if r >= i - n { assert r <= i < r + ne; }
      }
    }
  }

  /** No `ne` blank entries stand in a row. */
  ghost predicate NoRoom(t: Table, ne: nat)
  {
    forall r :: 0 <= r && r + ne <= |t| ==> Blocked(t, r, ne)
  }

  lemma RoomEnd(t: Table, ne: nat, n: nat)
    requires RoomSoFar(t, ne, |t|, n)
    ensures NoRoom(t, ne)
  {
  }

  lemma RoomStretched(t: Table, ne: nat, i: nat, n: nat, m: nat)
    requires RoomSoFar(t, ne, i, n)
    ensures RoomSoFar(Stretched(t, m), ne, i, n)
  {
    var u := Stretched(t, m);
    forall r | 0 <= r < i - n ensures Blocked(u, r, ne) {
      assert Blocked(t, r, ne);
      var k :| r <= k < r + ne && k < |t| && !IsBlank(t[k]);
      assert u[k] == t[k];
    }
  }

  // ----- storing a long name -----

  /** `u` is `t` with the first `done` of `count` entries of `name` stored from `start` on. */
  ghost predicate Stored(t: Table, u: Table, start: nat, count: nat, done: nat, name: seq<word>, sum: byte)
  {
    && |u| == |t| && done <= count && start + count < |t|
    && forall i :: 0 <= i < |t| ==>
         if start <= i < start + done then IsPiece(u[i], name, start + count - i, sum) else u[i] == t[i]
  }

  lemma StoredNone(t: Table, start: nat, count: nat, name: seq<word>, sum: byte)
    requires start + count < |t|
    ensures Stored(t, t, start, count, 0, name, sum)
  {
  }

  lemma StoredNext(t: Table, u: Table, start: nat, count: nat, done: nat, name: seq<word>, sum: byte, e: Entry)
    requires Stored(t, u, start, count, done, name, sum) && done < count && IsPiece(e, name, count - done, sum)
    ensures start + done < |u|
    ensures Stored(t, u[start + done := Splice(u[start + done], 0, e)], start, count, done + 1, name, sum)
  {
    assert Splice(u[start + done], 0, e) == e;
    hide IsPiece;
  }

  lemma StoredAll(t: Table, u: Table, start: nat, name: seq<word>, sum: byte)
    requires Stored(t, u, start, Segments(name), Segments(name), name, sum)
    ensures start + Segments(name) < |u| == |t| && NameEntries(u[start..start + Segments(name)], name, sum)
    ensures forall i :: 0 <= i < |u| && !(start <= i < start + Segments(name)) ==> u[i] == t[i]
  {
    hide IsPiece;
    var es := u[start..start + Segments(name)];
    forall k | 0 <= k < |es| ensures IsPiece(es[k], name, |es| - k, sum) { assert es[k] == u[start + k]; }
  }

  /** The long name stored and the short entry behind it make a registered object. */
  lemma RegisteredNow(t: Table, u: Table, v: Table, start: nat, lfn: seq<word>, e: Entry)
    requires start + Segments(lfn) < |t|
    requires Stored(t, u, start, Segments(lfn), Segments(lfn), lfn, SumOf(Short(e)))
    requires forall i :: start <= i <= start + Segments(lfn) ==> IsBlank(t[i])
    requires |v| == |u| && v == u[start + Segments(lfn) := Splice(u[start + Segments(lfn)], 0, e)]
    ensures Registered(t, v, lfn, e, start + Segments(lfn))
  {
    hide NameEntries, IsPiece;
    var at := start + Segments(lfn);
    StoredAll(t, u, start, lfn, SumOf(Short(e)));
    assert v[at - Segments(lfn)..at] == u[start..at];
    assert Splice(u[at], 0, e) == e;
  }

  lemma StoredNothing(t: Table, start: nat, e: Entry)
    requires start < |t|
    ensures Stored(t, t, start, Segments([]), Segments([]), [], SumOf(Short(e)))
  {
  }

  /** A form whose short name starts like one gives a short entry. */
  lemma FormEntry(f: Form)
    requires |f.fn| == 11 && f.fn[0] != 0 && f.fn[0] != DELETED
    ensures IsShort(ShortEntry(f)) && Short(ShortEntry(f)) == f.fn
  {
    var e := ShortEntry(f);
    assert Short(e) == f.fn;
    assert e[11] == 0;
  }

  /** A numbered name starts like a short name too. */
  lemma NumberedStart(src: seq<byte>, n: nat)
    requires |src| == 11 && |Digits(n)| <= 5 && src[0] != 0 && src[0] != DELETED && src[0] != DOT
    ensures Numbered(src, n)[0] != 0 && Numbered(src, n)[0] != DELETED && Numbered(src, n)[0] != DOT
  {
    NumberedAt(src, n);
  }

  lemma ProperIsAscii(name: seq<word>)
    requires Proper(name)
    ensures Ascii(name) && |FormOf(name).fn| == 11
  {
  }

  /** A fitting name has a free short name when nothing matches it. */
  lemma FittingIsFree(t: Table, names: Names, name: seq<word>)
    requires Ascii(name) && !FormOf(name).loss && forall a :: !Matches(t, names, KeyOf(name), a)
    ensures forall a :: !MatchesShort(t, names, Key(FormOf(name).fn, false, []), a)
  {
    hide FormOf;
    forall a ensures !MatchesShort(t, names, Key(FormOf(name).fn, false, []), a) {
      assert !Matches(t, names, KeyOf(name), a);
    }
  }

  ghost predicate ShortUsed(t: Table, names: Names, fn: seq<byte>)
  {
    exists a :: MatchesShort(t, names, Key(fn, false, []), a)
  }

  /** All numbers before `n` give short names that objects have. */
  ghost predicate NumbersTaken(t: Table, names: Names, src: seq<byte>, name: seq<word>, n: nat)
    requires |src| == 11
  {
    forall m: word :: 1 <= m < n ==> ShortUsed(t, names, NumberedWith(src, name, m))
  }

  /** `fn` is the numbered name with number `n`, the first from 1 to 99 that gives a short name no object has. */
  ghost predicate LeastNumber(t: Table, names: Names, src: seq<byte>, name: seq<word>, n: word, fn: seq<byte>)
    requires |src| == 11
  {
    1 <= n < 100 && fn == NumberedWith(src, name, n) && NumbersTaken(t, names, src, name, n)
  }

  /** An object's short name is the body `src` with a tilde and the digit `m`. */
  ghost predicate HasTilde(t: Table, names: Names, src: seq<byte>, m: word)
    requires m < 10
  {
    exists a: nat, j: nat :: a in names && a < |t| && TildeNumber(src, Short(t[a]), j, m)
  }

  lemma TildeUsed(t: Table, names: Names, src: seq<byte>, name: seq<word>, m: word)
    requires |src| == 11 && 1 <= m <= 5
    ensures HasTilde(t, names, src, m) <==> ShortUsed(t, names, NumberedWith(src, name, m))
  {
    hide NumberedWith, TildeForm;
    var j := SequenceNumber(src, name, m);
    var r := NumberedWith(src, name, m);
    if HasTilde(t, names, src, m) {
      var a: nat, i :| a in names && a < |t| && TildeNumber(src, Short(t[a]), i, m);
      TildeOnce(src, Short(t[a]), i, r, j, [0x30 + m]);
      assert MatchesShort(t, names, Key(r, false, []), a);
    }
    if ShortUsed(t, names, r) {
      var a: nat :| MatchesShort(t, names, Key(r, false, []), a);
      assert TildeNumber(src, Short(t[a]), j, m);
    }
  }

  /** The k-th of up to five lossy names that collide is given the tilde and `k`: where objects have the forms with 1 to
      k - 1, and none has that with k, dir_register takes that. */
  lemma KthCollision(t: Table, names: Names, name: seq<word>, f: Form, k: word) returns (j: nat)
    requires Ascii(name) && FormOf(name).loss && Chosen(t, names, name, f) && 1 <= k <= 5
    requires forall m: word :: 1 <= m < k ==> HasTilde(t, names, FormOf(name).fn, m)
    requires !HasTilde(t, names, FormOf(name).fn, k)
    ensures TildeNumber(FormOf(name).fn, f.fn, j, k)
  {
    hide FormOf, NumberedWith, TildeNumber, HasTilde, IsShort, Short;
    var src := FormOf(name).fn;
    var n: word :| LeastNumber(t, names, src, name, n, f.fn);
    forall m: word | 1 <= m <= k
      ensures HasTilde(t, names, src, m) <==> ShortUsed(t, names, NumberedWith(src, name, m))
    {
      TildeUsed(t, names, src, name, m);
    }
    assert !ShortUsed(t, names, f.fn);
    assert n == k;
    j := SequenceNumber(src, name, k);
  }

  lemma NoneTaken(t: Table, names: Names, src: seq<byte>, name: seq<word>)
    requires |src| == 11
    ensures NumbersTaken(t, names, src, name, 1)
  {
  }

  lemma TakenOneMore(t: Table, names: Names, src: seq<byte>, name: seq<word>, n: word)
    requires |src| == 11 && NumbersTaken(t, names, src, name, n) && ShortUsed(t, names, NumberedWith(src, name, n))
    ensures NumbersTaken(t, names, src, name, n + 1)
  {
    hide NumberedWith, ShortUsed;
  }

  /** What a search by short form only tells. */
  lemma ShortAnswer(t: Table, names: Names, fn: seq<byte>, res: FResult, index: nat, lfnIdx: nat)
    requires Answer(t, names, Key(fn, false, []), res, index, lfnIdx)
    ensures match res
      case Ok => ShortUsed(t, names, fn)
      case NoFile => !ShortUsed(t, names, fn)
      case _ => res == IntErr && t == []
  {
    if res == NoFile {
      NoShortMatch(t, names, Key(fn, false, []));
    } else if res == FResult.Ok {
      assert MatchesShort(t, names, Key(fn, false, []), index);
    }
  }

  /** The form under which a name is registered: its own, numbered if it is lossy; its short name is free. */
  ghost predicate Chosen(t: Table, names: Names, name: seq<word>, f: Form)
    requires Ascii(name)
  {
    && |f.fn| == 11 && IsShort(ShortEntry(f)) && Short(ShortEntry(f)) == f.fn && f.fn[0] != DOT
    && f == FormOf(name).(fn := f.fn)
    && (if FormOf(name).loss then exists n: word :: LeastNumber(t, names, FormOf(name).fn, name, n, f.fn)
        else f == FormOf(name))
    && forall a :: !MatchesShort(t, names, Key(f.fn, false, []), a)
  }

  lemma ChosenPlain(t: Table, names: Names, name: seq<word>)
    requires Proper(name) && !FormOf(name).loss && forall a :: !Matches(t, names, KeyOf(name), a)
    ensures Chosen(t, names, name, FormOf(name))
  {
    hide FormOf;
    FormIsShort(name);
    ProperIsAscii(name);
    FittingIsFree(t, names, name);
    FormEntry(FormOf(name));
  }

  lemma ChosenNumbered(t: Table, names: Names, name: seq<word>, n: word, fn: seq<byte>)
    requires Proper(name) && Ascii(name) && FormOf(name).loss && LeastNumber(t, names, FormOf(name).fn, name, n, fn)
    requires !ShortUsed(t, names, fn)
    ensures Chosen(t, names, name, FormOf(name).(fn := fn))
  {
    hide FormOf, Numbered, NumberOf, Digits, NumbersTaken;
    FormIsShort(name);
    WordDigits(NumberOf(n, name));
    NumberedStart(FormOf(name).fn, NumberOf(n, name));
    FormEntry(FormOf(name).(fn := fn));
  }

  /** The table `t0` was stretched, and an object of long name `long` and short entry `e` was put where its entries
      first found room, giving `u`. */
  ghost predicate AddedTo(t0: Table, u: Table, long: seq<word>, e: Entry, at: nat)
  {
    && |t0| <= |u|
    && var t := Stretched(t0, |u| - |t0|);
       Registered(t, u, long, e, at) && FirstFit(t, Segments(long) + 1, at - Segments(long))
  }

  lemma AddedEntry(t: Table, u: Table, long: seq<word>, e: Entry, at: nat)
    requires AddedTo(t, u, long, e, at)
    ensures |t| <= |u| && at < |u| && u[at] == e
  {
    hide NameEntries, SumOf;
  }

  lemma AddedIs(t0: Table, t: Table, u: Table, long: seq<word>, e: Entry, at: nat)
    requires |t0| <= |t| && t == Stretched(t0, |t| - |t0|) && Registered(t, u, long, e, at)
    requires FirstFit(t, Segments(long) + 1, at - Segments(long))
    ensures AddedTo(t0, u, long, e, at)
  {
  }

  /** A short name chosen for a table is chosen for the stretched one. */
  lemma ChosenStretched(t: Table, names: Names, name: seq<word>, f: Form, n: nat)
    requires Ascii(name) && Chosen(t, names, name, f) && forall a :: a in names ==> a < |t|
    ensures Chosen(Stretched(t, n), names, name, f)
  {
    hide FormOf, NumberedWith;
    var u := Stretched(t, n);
    assert forall a :: a in names ==> u[a] == t[a];
    assert forall k, a :: MatchesShort(u, names, k, a) <==> MatchesShort(t, names, k, a);
    assert forall fn :: ShortUsed(u, names, fn) <==> ShortUsed(t, names, fn);
    if FormOf(name).loss {
      var m: word :| LeastNumber(t, names, FormOf(name).fn, name, m, f.fn);
      assert LeastNumber(u, names, FormOf(name).fn, name, m, f.fn);
    }
  }

  /** The registration as a whole: the form is chosen and room made in `t0`, giving `t`, and the object is written,
      giving `u`. */
  lemma RegisterDone(t0: Table, names: Names, zero: nat, t: Table, u: Table, name: seq<word>, f: Form, at: nat,
        long: seq<word>)
    requires WellFormed(t0, names, zero) && |t| >= |t0| && t == Stretched(t0, |t| - |t0|)
    requires Proper(name) && Ascii(name) && Chosen(t0, names, name, f)
    requires long == if f.lfn then name else []
    requires |f.fn| == 11 && Registered(t, u, long, ShortEntry(f), at)
    requires FirstFit(t, Segments(long) + 1, at - Segments(long))
    requires forall a :: !Matches(t0, names, KeyOf(name), a)
    ensures WellFormed(u, names[at := if FormOf(name).lfn then name else []], ZeroAfter(zero, at))
    ensures NewName(t0, names, u, names[at := if FormOf(name).lfn then name else []], name, at)
    ensures at < |u| && u[at] == ShortEntry(f)
  {
    hide FormOf, WellFormed, FirstFit, Proper, Numbered, Digits, Stretched, IsShort, ShortEntry, Matches, NewName,
         NameEntries, Short;
    RegisterWhole(t0, names, zero, t, u, name, f, at, long);
  }

  lemma StretchedKeeps(t0: Table, names: Names, zero: nat, t: Table)
    requires WellFormed(t0, names, zero) && |t| >= |t0| && t == Stretched(t0, |t| - |t0|)
    ensures WellFormed(t, names, zero)
  {
    hide WellFormed, Stretched;
    StretchKeeps(t0, names, zero, |t| - |t0|);
  }

  lemma ChosenLong(t: Table, names: Names, name: seq<word>, f: Form)
    requires Ascii(name) && Chosen(t, names, name, f)
    ensures f.lfn == FormOf(name).lfn && |f.fn| == 11 && Short(ShortEntry(f)) == f.fn
  {
  }

  /** From create_name through dir_register to get_fileinfo: a name that needs no long entry is printed back, character
      for character, from the short entry that is stored for it. */
  lemma EntryPrints(t: Table, names: Names, name: seq<word>, f: Form)
    requires Proper(name) && Ascii(name) && !FormOf(name).lfn && Chosen(t, names, name, f)
    ensures |f.fn| == 11 && PrintEntry(ShortEntry(f)) == name
  {
    hide FormOf, Print;
    LossNeedsLong(name);
    PrintParsed(name);
    FlagsIn(f);
  }

  lemma FlagsIn(f: Form)
    requires |f.fn| == 11
    ensures var e := ShortEntry(f);
      e[..11] == f.fn && (e[12] as int / 0x08 % 2 == 1 <==> f.body) && (e[12] as int / 0x10 % 2 == 1 <==> f.ext)
  {
    var e := ShortEntry(f);
    assert e[12] == NtFlags(f);
  }

  // ----- removing -----

  /** The entries from `from` to before `i` are marked deleted. */
  ghost predicate ErasedTo(t: Table, u: Table, from: nat, i: nat)
  {
    |u| == |t| && forall k :: 0 <= k < |t| ==> u[k] == if from <= k < i then t[k][0 := DELETED] else t[k]
  }

  lemma ErasedNone(t: Table, from: nat)
    ensures ErasedTo(t, t, from, from)
  {
  }

  lemma ErasedNext(t: Table, u: Table, from: nat, i: nat)
    requires ErasedTo(t, u, from, i) && from <= i < |t|
    ensures i < |u| && ErasedTo(t, u[i := Splice(u[i], 0, [DELETED])], from, i + 1)
  {
    assert Splice(u[i], 0, [DELETED]) == u[i][0 := DELETED];
  }

  lemma ErasedAll(t: Table, u: Table, from: nat, to: nat)
    requires to < |t| && ErasedTo(t, u, from, to + 1)
    ensures Erased(t, u, from, to)
  {
  }

  /** Where the object at `a` is taken to begin when it is removed. */
  function RemoveFrom(lfnIdx: nat, a: nat): nat { if lfnIdx == NO_LFN then a else lfnIdx }

  /** The name at `a` is gone, however it is looked for, and all others are found where they were. */
  ghost predicate NameGone(t: Table, names: Names, u: Table, a: nat)
  {
    && (forall q, b :: Ascii(q) && Matches(t, names, KeyOf(q), a) ==> !Matches(u, names - {a}, KeyOf(q), b))
    && (forall k, b :: b != a && Matches(t, names, k, b) ==> Matches(u, names - {a}, k, b))
  }

  /** The removal starts at the object's first entry exactly if the object has no long name, or the name is that one. */
  lemma RemoveStartsFirst(t: Table, names: Names, zero: nat, name: seq<word>, a: nat, lfnIdx: nat)
    requires WellFormed(t, names, zero) && Ascii(name) && name != [] && |t| <= 0x1_0000
    requires Answer(t, names, KeyOf(name), FResult.Ok, a, lfnIdx)
    ensures a in names && (lfnIdx == NO_LFN || lfnIdx == First(names, a))
    ensures RemoveFrom(lfnIdx, a) == First(names, a) <==> names[a] == [] || LongFinds(name, names[a])
  {
    hide FormOf, SameName, NameEntries, SumOf, Unique, Apart, Covered, ZeroTail;
    assert IsObject(t, a, names[a]);
  }

  /** The object at `a` is gone, and nothing else. */
  ghost predicate RemovedAt(t: Table, names: Names, zero: nat, u: Table, a: nat)
    requires a in names
  {
    && 0 <= First(names, a) && Erased(t, u, First(names, a), a)
    && WellFormed(u, names - {a}, zero) && NameGone(t, names, u, a)
  }

  /** The table `u` once the object that `name` finds was removed: a whole table without it, if the object has no long
      name or `name` is that one; else a table with entries that belong to no object. */
  ghost predicate Deleted(t: Table, names: Names, zero: nat, u: Table, name: seq<word>)
    requires Ascii(name)
  {
    forall a :: Matches(t, names, KeyOf(name), a) ==>
      && a in names
      && if names[a] == [] || LongFinds(name, names[a])
         then RemovedAt(t, names, zero, u, a)
         else forall names', zero' :: !Laid(u, names', zero')
  }

  /** What an answer says of all objects that match. */
  lemma AnswerTells(t: Table, names: Names, zero: nat, name: seq<word>, res: FResult, a: nat, lfnIdx: nat)
    requires WellFormed(t, names, zero) && Proper(name) && Ascii(name) && Answer(t, names, KeyOf(name), res, a, lfnIdx)
    ensures name != [] && (res == FResult.Ok || res == NoFile || (res == IntErr && t == []))
    ensures res == FResult.Ok <==> exists b :: Matches(t, names, KeyOf(name), b)
    ensures forall b :: Matches(t, names, KeyOf(name), b) ==> b in names && b == a
  {
    hide FormOf, SameName, Laid, Unique;
    WellFormedIsLaid(t, names, zero);
    if t == [] { EmptyHasNone(t, names, zero, KeyOf(name)); }
    forall b | Matches(t, names, KeyOf(name), b) ensures b in names && b == a {
      if res == FResult.Ok { AtMostOne(t, names, name, a, b); }
    }
  }

  lemma EmptyHasNone(t: Table, names: Names, zero: nat, k: Key)
    requires Laid(t, names, zero) && t == []
    ensures forall a :: !Matches(t, names, k, a)
  {
    hide SameName, IsObject;
  }

  /** A removal leaves a table of whole objects exactly when it started at the first entry of its object. */
  lemma RemoveDone(t: Table, names: Names, zero: nat, u: Table, a: nat, from: nat)
    requires WellFormed(t, names, zero) && a in names && First(names, a) <= from <= a && Erased(t, u, from, a)
    ensures from == First(names, a) ==> WellFormed(u, names - {a}, zero) && NameGone(t, names, u, a)
    ensures from != First(names, a) ==> forall names', zero' :: !Laid(u, names', zero')
  {
    hide WellFormed, Matches, Laid, IsObject;
    WellFormedIsLaid(t, names, zero);
    FirstInTable(t, names, zero);
    if from == First(names, a) {
      RemoveKeeps(t, names, zero, u, a);
    } else {
      forall names', zero' ensures !Laid(u, names', zero') {
        RemoveLeavesOrphans(t, names, zero, u, a, from, names', zero');
      }
    }
  }

  lemma RemoveStart(t: Table, names: Names, zero: nat, a: nat, lfnIdx: nat)
    requires WellFormed(t, names, zero) && a in names && (lfnIdx == NO_LFN || lfnIdx == First(names, a))
    ensures First(names, a) <= RemoveFrom(lfnIdx, a) <= a < |t|
  {
    assert IsObject(t, a, names[a]);
  }
}
