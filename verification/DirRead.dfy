/** dir_read: the next object of a directory table, with its long name picked up again from the entries in front of
    it. */
module DirRead {
  import opened Bytes
  import opened Geometry
  import opened FatTable
  import opened Volume
  import opened Results
  import opened Lfn
  import opened ShortName
  import opened DirTable
  import opened DirDisk
  import opened DirFind
  import opened DirModel
  import opened DirObject
  import opened DirMake
  import opened FileOpen

  /** A long name that pick_lfn takes: it leaves room for the terminator behind 253 characters only. */
  predicate Pickable(name: seq<word>) { name != [] && |name| <= 253 }

  /** The object that entry `i` is in the middle of, if reading began at `from` and came to its first entry. */
  ghost predicate Begun(names: Names, from: nat, a: nat, i: nat) { Inside(names, a, i) && from <= First(names, a) }

  /** The buffer holds the characters of `name` from segment `done` on, and its terminator. */
  ghost predicate HoldsFrom(buf: seq<word>, name: seq<word>, done: nat)
    requires |buf| == MAX_LFN + 1
  {
    forall k :: 13 * done <= k <= |name| && k <= MAX_LFN ==> buf[k] == CharOf(name, k)
  }

  /** What `ord`, `sum`, `dj->lfn_idx` and the buffer say before entry `i`. */
  ghost predicate Reads(t: Table, names: Names, from: nat, i: nat, s: Auto, buf: seq<word>)
    requires |buf| == MAX_LFN + 1
  {
    && ((forall a: nat :: !Begun(names, from, a, i)) ==> s.ord == NONE)
    && (forall a: nat :: Begun(names, from, a, i) && a < |t| ==>
          && s.sum == SumOf(Short(t[a])) && s.lfnIdx == First(names, a)
          && s.ord as int == (if Pickable(names[a]) then a - i else NONE as int)
          && (Pickable(names[a]) ==> HoldsFrom(buf, names[a], a - i)))
  }

  // ----- one entry -----

  lemma BegunBy(names: Names, from: nat, a: nat, i: nat)
    requires Apart(names) && OwnedBy(names, a, i)
    ensures forall b: nat :: Begun(names, from, b, i) ==> b == a
    ensures var j := i + 1; forall b: nat :: Begun(names, from, b, j) ==> b == a
  {
    InsideOwner(names, a, i);
  }

  /** Behind a deleted or a short entry no long name is under way. */
  lemma ReadsAfter(t: Table, names: Names, zero: nat, from: nat, i: nat, s: Auto, buf: seq<word>)
    requires Laid(t, names, zero) && |buf| == MAX_LFN + 1 && i < |t| && (IsBlank(t[i]) || i in names)
    ensures Reads(t, names, from, i + 1, s.(ord := NONE), buf)
  {
    hide Laid;
    NoneInside(t, names, zero, i);
    var j := i + 1;
    assert forall a: nat :: !Begun(names, from, a, j);
  }

  lemma NoneInside(t: Table, names: Names, zero: nat, i: nat)
    requires Laid(t, names, zero) && i < |t| && (IsBlank(t[i]) || i in names)
    ensures var j := i + 1; forall a: nat :: !Inside(names, a, j)
  {
    var j := i + 1;
    if i in names {
      assert OwnedBy(names, i, i);
      InsideOwner(names, i, i);
    } else {
      BlanksUnowned(t, names, zero, i);
      forall a: nat ensures !Inside(names, a, j) { assert Inside(names, a, j) ==> OwnedBy(names, a, i); }
    }
  }

  /** What picking a segment adds to the buffer. */
  lemma HoldsMore(buf: seq<word>, name: seq<word>, ord: nat)
    requires |buf| == MAX_LFN + 1 && 1 <= ord <= Segments(name) && Pickable(name)
    requires ord < Segments(name) ==> HoldsFrom(buf, name, ord)
    ensures HoldsFrom(Picked(buf, name, ord), name, ord - 1)
  {
    forall i | 0 <= i <= |name| && ord * 13 <= i ensures ord < Segments(name) ==> buf[i] == CharOf(name, i) {}
    PickedSo(buf, name, ord);
  }

  /** The state behind an entry of a long name; `picked` says whether pick_lfn took it. */
  lemma LongReads(t: Table, names: Names, zero: nat, from: nat, i: nat, s: Auto, buf: seq<word>, a: nat, ok: bool,
        buf': seq<word>)
    requires Objects(t, names, zero) && Apart(names) && |buf| == |buf'| == MAX_LFN + 1
    requires a in names && First(names, a) <= i < a && from <= i && Reads(t, names, from, i, s, buf)
    requires ok <==> (i == First(names, a) ==> Pickable(names[a]))
    requires OrdOf(t[i]) == Begin(s, t[i], i).ord && Begin(s, t[i], i).sum == t[i][13] && ok ==>
      buf' == Picked(buf, names[a], a - i)
    ensures i < |t| && Reads(t, names, from, i + 1, LongStep(s, t[i], i, ok), buf')
  {
    hide SumOf, Short, IsPiece, OrdOf, LongStep, Objects, Apart, LfnName, Begin, Picked, HoldsFrom, Segments;
    PieceAt(t, names, zero, a, i);
    assert OwnedBy(names, a, i);
    BegunBy(names, from, a, i);
    LongStepIs(s, t[i], i, ok, a - i, i == First(names, a));
    SegmentOf(names, a, i);
    if Begun(names, from, a, i + 1) && Pickable(names[a]) {
      assert i > First(names, a) ==> Begun(names, from, a, i);
      BeginIs(s, t[i], i);
      HoldsMore(buf, names[a], a - i);
    }
  }

  lemma SegmentOf(names: Names, a: nat, i: nat)
    requires a in names && First(names, a) <= i < a
    ensures 1 <= a - i <= Segments(names[a]) && (a - i == Segments(names[a]) <==> i == First(names, a))
  {
  }

  lemma BeginIs(s: Auto, e: Entry, i: nat)
    ensures Begin(s, e, i) == if e[0] as int / 0x40 % 2 == 1 then Auto(OrdOf(e), e[13], i) else s
  {
  }

  /** At a short entry: the order has counted down to 0 exactly if the object has a long name that pick_lfn takes, and
      reading began in front of it. Then the buffer holds it. */
  lemma ShortReads(t: Table, names: Names, zero: nat, from: nat, i: nat, s: Auto, buf: seq<word>)
    requires Laid(t, names, zero) && |buf| == MAX_LFN + 1 && i in names && i < |t| && from <= i
    requires Reads(t, names, from, i, s, buf)
    ensures (s.ord == 0 && s.sum == SumOf(Short(t[i]))) <==> Pickable(names[i]) && from <= First(names, i)
    ensures Pickable(names[i]) && from <= First(names, i) ==> s.lfnIdx == First(names, i) && Holds(buf, names[i])
  {
    hide SumOf, Short, Objects, Covered, ZeroTail, Apart;
    assert OwnedBy(names, i, i);
    BegunBy(names, from, i, i);
    if names[i] != [] {
      NameOf(t, names, zero, i);
      assert from <= First(names, i) ==> Begun(names, from, i, i);
    }
  }

  lemma ReadsStart(t: Table, names: Names, from: nat, s: Auto, buf: seq<word>)
    requires |buf| == MAX_LFN + 1 && s.ord == NONE
    ensures Reads(t, names, from, from, s, buf)
  {
    assert forall a: nat :: !Begun(names, from, a, from);
  }

  /** What dir_read does at an entry of a long name. */
  method ReadLong(ghost t: Table, ghost names: Names, ghost zero: nat, ghost from: nat, ghost a: nat,
        lfnbuf: array<word>, index: nat, e: Entry, s: Auto)
    returns (s': Auto)
    requires Objects(t, names, zero) && Apart(names) && lfnbuf.Length == MAX_LFN + 1
    requires a in names && First(names, a) <= index < a && index < |t| && e == t[index] && from <= index
    requires Reads(t, names, from, index, s, lfnbuf[..])
    modifies lfnbuf
    ensures Reads(t, names, from, index + 1, s', lfnbuf[..])
  {
    hide SumOf, IsPiece, Apart, Objects, Reads, Segments, LfnName, Picked;
    PieceAt(t, names, zero, a, index);
    SegmentOf(names, a, index);
    ghost var was := lfnbuf[..];
    var c := e[0];
    s' := s;
    if c as int / 0x40 % 2 == 1 {
      c := c as int - 0x40;
      s' := Auto(c, e[13], index);
    }
    var ok := false;
    if c == s'.ord && s'.sum == e[13] {
      ok := PickLfn(lfnbuf, e, names[a], a - index, e[13]);
    }
    s' := s'.(ord := if ok then s'.ord - 1 else NONE);
    ghost var taken := index == First(names, a) ==> Pickable(names[a]);
    LongReads(t, names, zero, from, index, s, was, a, taken, lfnbuf[..]);
    assert s' == LongStep(s, e, index, taken);
  }

  /** What dir_read says of the long name of the object at `a`, if it began to read at entry `from`. */
  ghost predicate LongRead(names: Names, from: nat, a: nat, lfnIdx: nat, buf: seq<word>)
  {
    a in names &&
    if Pickable(names[a]) && from <= First(names, a) then lfnIdx == First(names, a) && Holds(buf, names[a])
    else lfnIdx == NO_LFN
  }

  /** What dir_read does at an entry that is not zero: it stops at an object, or goes on. */
  method ReadOne(ghost t: Table, ghost names: Names, ghost zero: nat, ghost from: nat, lfnbuf: array<word>, index: nat,
        e: Entry, s: Auto)
    returns (found: bool, s': Auto)
    requires Laid(t, names, zero) && lfnbuf.Length == MAX_LFN + 1 && index < |t| && e == t[index] && e[0] != 0
    requires from <= index && Reads(t, names, from, index, s, lfnbuf[..])
    modifies lfnbuf
    ensures found <==> Listed(t, names, index)
    ensures found ==> LongRead(names, from, index, s'.lfnIdx, lfnbuf[..])
    ensures !found ==> Reads(t, names, from, index + 1, s', lfnbuf[..])
  {
    hide Reads, SumOf, Apart, Objects, Covered, ZeroTail, NameEntries, Holds, Pickable;
    found, s' := false, s;
    var kind := Attr(e);
    ghost var a := index;
    if e[0] != DELETED { a := OwnerOf(t, names, zero, index); }
    if e[0] == DELETED || e[0] == DOT || (kind / 8 % 2 == 1 && kind != 0x0F) {
      DotIsShort(t, names, zero, index, a);
      ReadsAfter(t, names, zero, from, index, s, lfnbuf[..]);
      s' := s.(ord := NONE);
    } else if kind == 0x0F {
      s' := ReadLong(t, names, zero, from, a, lfnbuf, index, e, s);
      NotShort(names, a, index);
    } else {
      var sum := SumSfn(e);
      ShortReads(t, names, zero, from, index, s, lfnbuf[..]);
      found := true;
      if s.ord != 0 || s.sum != sum { s' := s.(lfnIdx := NO_LFN); }
    }
  }

  /** An entry that begins with a dot is a short one. */
  lemma DotIsShort(t: Table, names: Names, zero: nat, i: nat, a: nat)
    requires Laid(t, names, zero) && i < |t| && (IsBlank(t[i]) || OwnedBy(names, a, i))
    ensures IsBlank(t[i]) ==> i !in names
    ensures !IsBlank(t[i]) && (t[i][0] == DOT || Attr(t[i]) != 0x0F) ==> i in names
  {
    hide Apart, Covered, ZeroTail, NameEntries, SumOf;
    if IsBlank(t[i]) {
      BlanksUnowned(t, names, zero, i);
    } else if i < a {
      ShortOrLong(t, names, zero, i, a);
      PieceAt(t, names, zero, a, i);
    }
  }

  // ----- the loop -----

  /** The next object from entry `from` on is the one at `a`. */
  ghost predicate NextListed(t: Table, names: Names, from: nat, a: nat)
  {
    from <= a && Listed(t, names, a) && forall b :: from <= b < a ==> !Listed(t, names, b)
  }

  ghost predicate NoneListed(t: Table, names: Names, from: nat) { forall b :: from <= b ==> !Listed(t, names, b) }

  lemma NoneListedFrom(t: Table, names: Names, zero: nat, from: nat, i: nat)
    requires Laid(t, names, zero) && from <= i <= |t| && (i < |t| ==> t[i][0] == 0)
    requires forall b :: from <= b < i ==> !Listed(t, names, b)
    ensures NoneListed(t, names, from)
  {
    hide NameEntries, SumOf;
    assert i < |t| ==> zero <= i;
    forall b | from <= b ensures !Listed(t, names, b) {
      assert b in names ==> b < zero;
    }
  }

  /** dir_read: comes to the next object that is no dot entry, with its long name in the buffer if it has one that
      pick_lfn takes and reading did not begin in the middle of it; or to the end, if there is none. */
  method Read(dj: Dir, lfnbuf: array<word>, ghost names: Names, ghost zero: nat) returns (res: FResult)
    requires dj.Valid() && Laid(dj.Entries(), names, zero) && (dj.sect == 0 || dj.At(dj.index))
    requires lfnbuf.Length == MAX_LFN + 1
    modifies dj`index, dj`clust, dj`sect, dj`ofs, dj`place, dj`lfnIdx, lfnbuf
    modifies dj.fs`disk, dj.fs`wflag, dj.fs`winsect, dj.fs`image, dj.fs`lastClust, dj.fs`freeClust, dj.fs`fsiFlag
    modifies dj.fs.win
    ensures dj.Valid() && dj.place == old(dj.place) && dj.fs.image == old(dj.fs.image)
    ensures dj.fs.Hints() == old(dj.fs.Hints()) && (old(dj.fs.Exact()) ==> dj.fs.Exact())
    ensures res == if old(dj.sect) == 0 || NoneListed(dj.Entries(), names, old(dj.index)) then NoFile else Ok
    ensures res == NoFile ==> dj.sect == 0
    ensures res == Ok ==>
      dj.At(dj.index) && dj.fs.winsect == dj.sect && NextListed(dj.Entries(), names, old(dj.index), dj.index)
    ensures res == Ok ==> LongRead(names, old(dj.index), dj.index, dj.lfnIdx, lfnbuf[..])
  {
    hide FatFs.Exact, FatFs.Valid, Located, Points, Fits, TableAt, Laid, Reads, Holds, Pickable, Listed, Fat,
         Geometry.Ok, Sectors, SizeOf, GoodSectors, FatFs.Shape;
    ghost var t, from := dj.Entries(), dj.index;
    if dj.sect == 0 { return NoFile; }
    var s := Auto(NONE, NONE, dj.lfnIdx);
    ReadsStart(t, names, from, s, lfnbuf[..]);
    while true
      invariant old(dj.fs.Exact()) ==> dj.fs.Exact()
      invariant dj.Valid() && dj.place == old(dj.place) && dj.fs.image == old(dj.fs.image)
      invariant dj.fs.Hints() == old(dj.fs.Hints()) && dj.At(dj.index) && from <= dj.index && dj.lfnIdx == s.lfnIdx
      invariant Reads(t, names, from, dj.index, s, lfnbuf[..])
      invariant forall b :: from <= b < dj.index ==> !Listed(t, names, b)
      decreases |t| - dj.index
    {
      var e := dj.Load();
      if e[0] == 0 {
        NoneListedFrom(t, names, zero, from, dj.index);
        dj.sect := 0;
        return NoFile;
      }
      var found;
      found, s := ReadOne(t, names, zero, from, lfnbuf, dj.index, e, s);
      dj.lfnIdx := s.lfnIdx;
      if found { return Ok; }
      ghost var i := dj.index;
      var r := dj.Step();
      if r != Ok {
        NoneListedFrom(t, names, zero, from, i + 1);
        dj.sect := 0;
        return NoFile;
      }
    }
  }

  // ----- listing a directory -----

  /** The long name that f_readdir hands over: one that was picked up and fits a buffer of `size` characters. */
  function LongShown(name: seq<word>, size: nat): seq<word>
  {
    if Pickable(name) && |name| < size then name else []
  }

  /** What a listing prints of an object: the long name if it has got one, else the short name. */
  function Shown(t: Table, names: Names, a: nat, size: nat): seq<word>
    requires a in names && a < |t|
  {
    var long := LongShown(names[a], size);
    if long != [] then long else PrintEntry(t[a])
  }

  /** The loop of get_fileinfo that copies the long name. ff_convert changes no ASCII character. */
  method CopyLong(lfnbuf: array<word>, size: nat, ghost name: seq<word>) returns (p: seq<word>)
    requires lfnbuf.Length == MAX_LFN + 1 && Holds(lfnbuf[..], name) && LfnName(name) && 1 <= size
    ensures p == if |name| < size then name else []
  {
    p := [];
    while lfnbuf[|p|] != 0
      invariant |p| <= |name| && |p| < size && p == name[..|p|]
      decreases |name| - |p|
    {
      assert lfnbuf[..][|p|] == lfnbuf[|p|];
      if |p| >= size - 1 { return []; }
      p := p + [lfnbuf[|p|]];
    }
    assert lfnbuf[..][|p|] == lfnbuf[|p|];
  }

  /** Entry `i` is in the middle of no object. */
  ghost predicate Whole(names: Names, i: nat) { forall b: nat :: !Inside(names, b, i) }

  /** The directory object is at the end of the table, or points at an entry that is in the middle of no object. */
  ghost predicate Reading(dj: Dir, names: Names)
    requires Fits(dj.fs.g, dj.place, dj.fs.image)
    reads dj, dj.fs
  {
    dj.sect == 0 || (dj.At(dj.index) && Whole(names, dj.index))
  }

  /** Where the next object is: the table's length if there is none any more. */
  ghost function From(dj: Dir): nat
    requires Fits(dj.fs.g, dj.place, dj.fs.image)
    reads dj, dj.fs
  {
    if dj.sect == 0 then |dj.Entries()| else dj.index
  }

  lemma NoneBehind(t: Table, names: Names)
    ensures NoneListed(t, names, |t|)
  {
  }

  /** Behind the start of an entry that is in the middle of no object, all objects are whole. */
  lemma WholeBehind(names: Names, from: nat, a: nat)
    requires a in names && from <= a && !Inside(names, a, from)
    ensures from <= First(names, a)
  {
  }

  lemma NextIs(t: Table, names: Names, zero: nat, from: nat, a: nat)
    requires WellFormed(t, names, zero) && NextListed(t, names, from, a) && Whole(names, from)
    ensures a in names && a < |t| && !NoneListed(t, names, from) && from <= First(names, a) && LfnName(names[a])
    ensures Whole(names, a + 1)
  {
    hide Apart, Covered, ZeroTail, Unique, NameEntries, SumOf;
    NoneInside(t, names, zero, a);
    WholeBehind(names, from, a);
    assert IsObject(t, a, names[a]);
  }

  /** What f_readdir says of the next object from `from` on, and where it goes on then. */
  ghost predicate Told(t: Table, names: Names, from: nat, size: nat, fname: seq<word>, lfname: seq<word>, a: nat,
        on: nat)
  {
    if NoneListed(t, names, from) then fname == [] && lfname == [] && on == |t|
    else
      && NextListed(t, names, from, a) && on == a + 1
      && fname == PrintEntry(t[a]) && lfname == LongShown(names[a], size)
  }

  lemma ToldEnd(t: Table, names: Names, from: nat, size: nat, a: nat)
    requires NoneListed(t, names, from)
    ensures Told(t, names, from, size, [], [], a, |t|)
  {
    hide NoneListed;
  }

  lemma ToldNext(t: Table, names: Names, zero: nat, from: nat, size: nat, fname: seq<word>, lfname: seq<word>, a: nat)
    requires WellFormed(t, names, zero) && Whole(names, from) && NextListed(t, names, from, a) && a in names && a < |t|
    requires fname == PrintEntry(t[a]) && lfname == LongShown(names[a], size)
    ensures Told(t, names, from, size, fname, lfname, a, a + 1)
  {
    hide NextListed, NoneListed, WellFormed, PrintEntry, LongShown, Whole;
    NextIs(t, names, zero, from, a);
  }

  /** The step of f_readdir to the next entry. */
  method StepOn(dj: Dir, ghost names: Names)
    requires dj.Valid() && dj.At(dj.index) && Whole(names, dj.index + 1)
    modifies dj`index, dj`clust, dj`sect, dj`ofs, dj`place
    modifies dj.fs`disk, dj.fs`wflag, dj.fs`winsect, dj.fs`image, dj.fs`lastClust, dj.fs`freeClust, dj.fs`fsiFlag
    modifies dj.fs.win
    ensures dj.Valid() && dj.place == old(dj.place) && dj.fs.image == old(dj.fs.image)
    ensures dj.fs.Hints() == old(dj.fs.Hints()) && (old(dj.fs.Exact()) ==> dj.fs.Exact())
    ensures Reading(dj, names) && From(dj) == old(dj.index) + 1
  {
    hide FatFs.Exact, FatFs.Valid, Located, Points, Fits, TableAt, Fat, Geometry.Ok, Sectors, SizeOf, GoodSectors,
         FatFs.Shape;
    ghost var i := dj.index;
    var res := dj.Step();
    if res == NoFile {
      dj.sect := 0;
    } else {
      EntryInSector(dj.fs.g, dj.place, dj.fs.image, dj.index, dj.clust, dj.sect, dj.ofs);
    }
  }

  lemma LongIs(names: Names, from: nat, a: nat, lfnIdx: nat, buf: seq<word>)
    requires a < 0x1_0000 && LongRead(names, from, a, lfnIdx, buf) && from <= First(names, a)
    ensures if lfnIdx != NO_LFN then Pickable(names[a]) && Holds(buf, names[a]) else !Pickable(names[a])
  {
  }

  /** get_fileinfo, as far as names go. */
  method FileInfo(dj: Dir, lfnbuf: array<word>, size: nat, ghost name: seq<word>)
    returns (fname: seq<word>, lfname: seq<word>)
    requires dj.Valid() && dj.At(dj.index) && lfnbuf.Length == MAX_LFN + 1 && 1 <= size && LfnName(name)
    requires if dj.lfnIdx != NO_LFN then Pickable(name) && Holds(lfnbuf[..], name) else !Pickable(name)
    modifies dj.fs`disk, dj.fs`wflag, dj.fs`winsect, dj.fs.win
    ensures dj.Valid() && dj.At(dj.index) && dj.index < |dj.Entries()|
    ensures fname == PrintEntry(dj.Entries()[dj.index]) && lfname == LongShown(name, size)
  {
    hide FatFs.Valid, Located, Points, Fits, TableAt, Holds, Fat, Sectors, SizeOf, PrintEntry, LfnName;
    var e := dj.Load();
    fname := PrintName(e);
    lfname := [];
    if dj.lfnIdx != NO_LFN { lfname := CopyLong(lfnbuf, size, name); }
  }

  /** f_readdir: the short and the long name of the next object, behind which the directory object points then; and
      empty names at the end of the table. */
  method ReadDir(dj: Dir, lfnbuf: array<word>, size: nat, ghost names: Names, ghost zero: nat)
    returns (res: FResult, fname: seq<word>, lfname: seq<word>, ghost a: nat)
    requires dj.Valid() && WellFormed(dj.Entries(), names, zero) && Reading(dj, names)
    requires lfnbuf.Length == MAX_LFN + 1 && 1 <= size
    modifies dj`index, dj`clust, dj`sect, dj`ofs, dj`place, dj`lfnIdx, lfnbuf
    modifies dj.fs`disk, dj.fs`wflag, dj.fs`winsect, dj.fs`image, dj.fs`lastClust, dj.fs`freeClust, dj.fs`fsiFlag
    modifies dj.fs.win
    ensures dj.Valid() && dj.place == old(dj.place) && dj.fs.image == old(dj.fs.image) && res == Ok
    ensures dj.fs.Hints() == old(dj.fs.Hints()) && (old(dj.fs.Exact()) ==> dj.fs.Exact())
    ensures Reading(dj, names)
    ensures Told(dj.Entries(), names, old(From(dj)), size, fname, lfname, a, From(dj))
  {
    hide FatFs.Exact, FatFs.Valid, Located, Points, Fits, TableAt, WellFormed, Laid, Holds, Fat, Geometry.Ok, Sectors,
         SizeOf, GoodSectors, FatFs.Shape, PrintEntry, LfnName, NextListed, NoneListed, Whole, Told, First, LongRead,
         LongShown, Pickable;
    ghost var t, from := dj.Entries(), From(dj);
    a := 0;
    WellFormedIsLaid(t, names, zero);
    NoneBehind(t, names);
    fname, lfname := [], [];
    res := Read(dj, lfnbuf, names, zero);
    if res == NoFile {
      ToldEnd(t, names, from, size, a);
      return Ok, fname, lfname, a;
    }
    a := dj.index;
    dj.PositionBound();
    NextIs(t, names, zero, from, a);
    LongIs(names, from, a, dj.lfnIdx, lfnbuf[..]);
    fname, lfname := FileInfo(dj, lfnbuf, size, names[a]);
    StepOn(dj, names);
    ToldNext(t, names, zero, from, size, fname, lfname, a);
    res := Ok;
  }

  const LS_SIZE: nat := 255

  /** `at` are the objects in front of entry `end`, in order. */
  ghost predicate Listing(t: Table, names: Names, end: nat, at: seq<nat>)
  {
    && (forall i :: 0 <= i < |at| ==> at[i] < end && Listed(t, names, at[i]))
    && (forall i, j :: 0 <= i < j < |at| ==> at[i] < at[j])
    && (forall b: nat :: b < end && Listed(t, names, b) ==> b in at)
  }

  lemma ListingMore(t: Table, names: Names, end: nat, at: seq<nat>, a: nat)
    requires Listing(t, names, end, at) && NextListed(t, names, end, a)
    ensures Listing(t, names, a + 1, at + [a])
  {
    hide Listed;
    forall b: nat | b < a + 1 && Listed(t, names, b) ensures b in at + [a] {
      if b < a { assert b < end; }
    }
  }

  /** What ls prints for the objects `at`. */
  ghost predicate Prints(t: Table, names: Names, at: seq<nat>, out: seq<seq<word>>)
  {
    |out| == |at| && forall i :: 0 <= i < |at| ==>
      at[i] in names && at[i] < |t| && out[i] == Shown(t, names, at[i], LS_SIZE)
  }

  /** The listing stops at the end of the table, or at an object whose short name is blank. */
  ghost predicate Stops(t: Table, names: Names, end: nat)
  {
    NoneListed(t, names, end) || exists a: nat :: NextListed(t, names, end, a) && a < |t| && PrintEntry(t[a]) == []
  }

  lemma ToldMeans(t: Table, names: Names, from: nat, fname: seq<word>, lfname: seq<word>, a: nat, on: nat)
    requires Told(t, names, from, LS_SIZE, fname, lfname, a, on)
    ensures fname == [] ==> Stops(t, names, from)
    ensures fname != [] ==>
      && NextListed(t, names, from, a) && on == a + 1 && a in names && from <= a < |t|
      && (if lfname != [] then lfname else fname) == Shown(t, names, a, LS_SIZE)
  {
    hide PrintEntry, NoneListed;
  }

  lemma StartWhole(t: Table, names: Names, zero: nat)
    requires WellFormed(t, names, zero)
    ensures Whole(names, 0)
  {
    hide Laid;
    FirstInTable(t, names, zero);
  }

  lemma NothingListed(t: Table, names: Names)
    ensures Listing(t, names, 0, []) && Prints(t, names, [], [])
  {
  }

  /** The loop of the ls command over an opened directory. */
  method ListDir(dj: Dir, lfnbuf: array<word>, ghost names: Names, ghost zero: nat)
    returns (out: seq<seq<word>>, ghost at: seq<nat>, ghost end: nat)
    requires dj.Valid() && WellFormed(dj.Entries(), names, zero) && dj.At(0) && lfnbuf.Length == MAX_LFN + 1
    modifies dj`index, dj`clust, dj`sect, dj`ofs, dj`place, dj`lfnIdx, lfnbuf
    modifies dj.fs`disk, dj.fs`wflag, dj.fs`winsect, dj.fs`image, dj.fs`lastClust, dj.fs`freeClust, dj.fs`fsiFlag
    modifies dj.fs.win
    ensures dj.Valid() && dj.place == old(dj.place) && dj.fs.image == old(dj.fs.image)
    ensures Prints(dj.Entries(), names, at, out)
    ensures Listing(dj.Entries(), names, end, at) && Stops(dj.Entries(), names, end)
  {
    hide FatFs.Exact, FatFs.Valid, Located, Points, Fits, TableAt, WellFormed, Fat, Geometry.Ok, Sectors, SizeOf,
         GoodSectors, FatFs.Shape, PrintEntry, Told, Listing, Stops, NextListed, Shown, Whole;
    ghost var t := dj.Entries();
    out, at := [], [];
    StartWhole(t, names, zero);
    EntryInSector(dj.fs.g, dj.place, dj.fs.image, dj.index, dj.clust, dj.sect, dj.ofs);
    NothingListed(t, names);
    while true
      invariant dj.Valid() && dj.place == old(dj.place) && dj.fs.image == old(dj.fs.image) && Reading(dj, names)
      invariant Prints(t, names, at, out) && Listing(t, names, From(dj), at) && From(dj) <= |t|
      decreases |t| - From(dj)
    {
      end := From(dj);
      var res, fname, lfname, a := ReadDir(dj, lfnbuf, LS_SIZE, names, zero);
      ToldMeans(t, names, end, fname, lfname, a, From(dj));
      if fname == [] { return; }
      ListingMore(t, names, end, at, a);
      at := at + [a];
      out := out + [if lfname != [] then lfname else fname];
    }
  }

  // ----- names come back as they were given -----

  lemma {:induction false} PartBound(s: seq<byte>, low: bool, body: bool)
    ensures |PrintPart(s, low, body)| <= |s|
  {
    if s != [] && s[0] != BLANK { PartBound(s[1..], low, body); }
  }

  lemma EntryBound(e: Entry)
    ensures |PrintEntry(e)| <= 12
  {
    hide PrintPart;
    PartBound(e[..11][..8], e[12] as int / 0x08 % 2 == 1, true);
    PartBound(e[..11][8..], e[12] as int / 0x10 % 2 == 1, false);
  }

  /** What the driver stores into the short entry of an object leaves the name that it prints. */
  lemma PrintsSame(e: Entry, tim: dword, r: nat)
    ensures PrintEntry(Created0(e, tim)) == PrintEntry(e)
    ensures PrintEntry(Emptied(e)) == PrintEntry(e)
    ensures PrintEntry(DirectoryEntry(e, tim, r)) == PrintEntry(e)
  {
    hide Print;
    assert Created0(e, tim)[..11] == e[..11];
    assert Emptied(e)[..11] == e[..11];
    assert DirectoryEntry(e, tim, r)[..11] == e[..11];
  }

  /** ls prints the name of a registered object as it was given, exactly if it needs no long name or pick_lfn takes
      that. */
  lemma ShownAsGiven(t: Table, names: Names, name: seq<word>, f: Form, u: Table, names': Names, at: nat)
    requires Proper(name) && Ascii(name) && Chosen(t, names, name, f) && |f.fn| == 11
    requires at in names' && names'[at] == (if FormOf(name).lfn then name else [])
    requires at < |u| && PrintEntry(u[at]) == PrintEntry(ShortEntry(f))
    ensures Shown(u, names', at, LS_SIZE) == name <==> !FormOf(name).lfn || |name| <= 253
  {
    hide FormOf, PrintEntry, Chosen;
    if FormOf(name).lfn {
      EntryBound(u[at]);
    } else {
      EntryPrints(t, names, name, f);
    }
  }

  /** So it is with a file that f_open created. */
  lemma FileShown(t: Table, names: Names, zero: nat, u: Table, name: seq<word>, f: Form, at: nat, tim: dword)
    requires Proper(name) && Ascii(name) && Added(t, names, zero, u, name, f, at, tim)
    ensures Shown(u, names[at := if FormOf(name).lfn then name else []], at, LS_SIZE) == name <==>
      !FormOf(name).lfn || |name| <= 253
  {
    hide FormOf, Chosen, WellFormed, NewName, ClusterIn, SizeIn, Created0, PrintEntry, Shown, AddedTo, ShortEntry;
    var long := if FormOf(name).lfn then name else [];
    var v :| AddedTo(t, v, long, ShortEntry(f), at) && at < |v| && u == v[at := Created0(v[at], tim)];
    AddedEntry(t, v, long, ShortEntry(f), at);
    PrintsSame(v[at], tim, 0);
    ShownAsGiven(t, names, name, f, u, names[at := long], at);
  }

  /** And with a directory that f_mkdir made. */
  lemma DirectoryShown(t: Table, names: Names, zero: nat, u: Table, name: seq<word>, f: Form, at: nat, tim: dword,
        r: nat)
    requires Proper(name) && Ascii(name) && MadeDirectory(t, names, zero, u, name, f, at, tim, r)
    ensures Shown(u, names[at := if FormOf(name).lfn then name else []], at, LS_SIZE) == name <==>
      !FormOf(name).lfn || |name| <= 253
  {
    hide FormOf, Chosen, WellFormed, NewName, ClusterIn, DirectoryEntry, PrintEntry, Shown, AddedTo, ShortEntry;
    var long := if FormOf(name).lfn then name else [];
    var v :| AddedTo(t, v, long, ShortEntry(f), at) && at < |v| && u == v[at := DirectoryEntry(v[at], tim, r)];
    AddedEntry(t, v, long, ShortEntry(f), at);
    PrintsSame(v[at], tim, r);
    ShownAsGiven(t, names, name, f, u, names[at := long], at);
  }
}
