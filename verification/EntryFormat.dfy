/** Directory entries and names as another reader of the disk finds them: every field, flag and character at its place
    (src/ff.h:507-576, src/ff.c:739-857). */
module EntryFormat {
  import opened Bytes
  import opened Geometry
  import opened FileBytes
  import opened FatTable
  import opened Lfn
  import opened ShortName
  import opened NumName
  import opened DirTable
  import opened DirDisk
  import opened DirFind
  import opened DirModel
  import opened DirMake
  import opened FileOpen
  import opened OnDisk

  // ----- attributes -----

  /** The attributes of an object. */
  datatype Flags = Flags(readOnly: bool, hidden: bool, system: bool, volume: bool, directory: bool, archive: bool)

  function Bit(b: bool, weight: nat): nat { if b then weight else 0 }

  /** The attribute byte: one bit for each of them, the lowest one for read-only. */
  function AttributesOf(f: Flags): nat
  {
    Bit(f.readOnly, 1) + Bit(f.hidden, 2) + Bit(f.system, 4) + Bit(f.volume, 8) + Bit(f.directory, 16) +
    Bit(f.archive, 32)
  }

  /** What the driver takes from the attribute byte; the two highest bits mean nothing. */
  lemma AttributesRead(e: Entry, f: Flags, high: nat)
    requires high < 4 && e[11] as int == AttributesOf(f) + 64 * high
    ensures Attr(e) == AttributesOf(f) && ReadOnly(e) == f.readOnly && IsDirectory(e) == f.directory
    ensures Guarded(e) == (f.readOnly || f.directory) && (!IsBlank(e) ==> IsShort(e) == !f.volume)
  {
    var a, low := e[11] as int, Bit(f.readOnly, 1) + Bit(f.hidden, 2) + Bit(f.system, 4);
    var upper := 4 * high + Bit(f.directory, 1) + Bit(f.archive, 2);
    DivUnique(a, 64, high, AttributesOf(f));
    DivUnique(a, 8, 2 * upper + Bit(f.volume, 1), low);
    DivUnique(a, 16, upper, low + Bit(f.volume, 8));
    DivUnique(a, 2, 8 * upper + Bit(f.volume, 4) + Bit(f.hidden, 1) + Bit(f.system, 2), Bit(f.readOnly, 1));
    OddEven(upper, Bit(f.volume, 1));
    OddEven(2 * high + Bit(f.archive, 1), Bit(f.directory, 1));
  }

  lemma OddEven(half: nat, b: nat)
    requires b < 2
    ensures (2 * half + b) % 2 == b
  {
  }

  /** An entry is free if it was never used or is deleted. */
  lemma BlankReads(e: Entry)
    ensures IsBlank(e) <==> e[0] in {0x00, 0xE5}
  {
  }

  // ----- the fields of a short entry -----

  /** Name, cluster and size. */
  lemma FieldsRead(e: Entry)
    ensures Short(e) == e[0..11] && ClusterIn(e) == U16(e, 26) + 0x1_0000 * U16(e, 20) && SizeIn(e) == U32(e, 28)
  {
    LoadsLittleEndian(e, 20);
    LoadsLittleEndian(e, 26);
    LoadsLittleEndian(e, 28);
  }

  /** The entry that dir_register writes: name and case flags, and nothing else. */
  lemma ShortEntryReads(f: Form)
    requires |f.fn| == 11
    ensures var e := ShortEntry(f);
      && e[0..11] == f.fn && e[12] as int == Bit(f.body, 0x08) + Bit(f.ext, 0x10)
      && forall i :: 11 <= i < 32 && i != 12 ==> e[i] == 0
  {
  }

  /** What f_mkdir sets: directory attribute, time of writing and start cluster. */
  lemma DirectoryEntryReads(e: Entry, tim: dword, clst: dword)
    ensures var r := DirectoryEntry(e, tim, clst);
      && r[11] == 0x10 && U32(r, 22) == tim && U16(r, 26) + 0x1_0000 * U16(r, 20) == clst
      && forall i :: 0 <= i < 32 && i != 11 && !(20 <= i < 28) ==> r[i] == e[i]
  {
    hide U16, U32, HasWord, HasDword;
    var r := DirectoryEntry(e, tim, clst);
    DirectoryEntryHas(e, tim, clst);
    DwordAt(r, 22, tim);
    WordAt(r, 26, clst % 0x1_0000);
    WordAt(r, 20, clst / 0x1_0000);
  }

  lemma DirectoryEntryHas(e: Entry, tim: dword, clst: dword)
    ensures var r := DirectoryEntry(e, tim, clst);
      && r[11] == 0x10 && HasDword(r, 22, tim) && HasWord(r, 26, clst % 0x1_0000) && HasWord(r, 20, clst / 0x1_0000)
      && forall i :: 0 <= i < 32 && i != 11 && !(20 <= i < 28) ==> r[i] == e[i]
  {
    LowWord(clst);
    hide Byte0, Byte1, Byte2, Byte3;
  }

  lemma LowWord(v: dword)
    ensures Byte0(v) == Byte0(v % 0x1_0000) && Byte1(v) == Byte1(v % 0x1_0000)
  {
    WordParts(v);
  }

  /** What f_open sets on a file that it creates: no attribute, and the time of creation. */
  lemma CreatedReads(e: Entry, tim: dword)
    ensures var r := Created0(e, tim);
      r[11] == 0 && U32(r, 14) == tim && forall i :: 0 <= i < 32 && i != 11 && !(14 <= i < 18) ==> r[i] == e[i]
  {
    hide Byte0, Byte1, Byte2, Byte3;
    assert HasDword(Created0(e, tim), 14, tim);
    DwordAt(Created0(e, tim), 14, tim);
  }

  /** And on one that it empties: no cluster and no size. */
  lemma EmptiedReads(e: Entry)
    ensures var r := Emptied(e);
      && (forall i :: 0 <= i < 32 && !(20 <= i < 22) && !(26 <= i < 32) ==> r[i] == e[i])
      && r[20] == 0 == r[21] && forall i :: 26 <= i < 32 ==> r[i] == 0
  {
  }

  /** A dot entry. */
  lemma DotEntryReads(dots: nat, tim: dword, clst: dword)
    requires 1 <= dots <= 2
    ensures var e := DotEntry(dots, tim, clst);
      && (forall i :: 0 <= i < 11 ==> e[i] == if i < dots then 0x2E else 0x20)
      && e[11] == 0x10 && U32(e, 22) == tim && U16(e, 26) + 0x1_0000 * U16(e, 20) == clst
      && forall i :: 12 <= i < 20 || 28 <= i < 32 ==> e[i] == 0
  {
    hide U16, U32, HasWord, HasDword;
    var e := DotEntry(dots, tim, clst);
    DotEntryHas(dots, tim, clst);
    DwordAt(e, 22, tim);
    WordAt(e, 26, clst % 0x1_0000);
    WordAt(e, 20, clst / 0x1_0000);
  }

  lemma DotEntryHas(dots: nat, tim: dword, clst: dword)
    requires 1 <= dots <= 2
    ensures var e := DotEntry(dots, tim, clst);
      && (forall i :: 0 <= i < 11 ==> e[i] == if i < dots then 0x2E else 0x20)
      && e[11] == 0x10 && HasDword(e, 22, tim) && HasWord(e, 26, clst % 0x1_0000) && HasWord(e, 20, clst / 0x1_0000)
      && forall i :: 12 <= i < 20 || 28 <= i < 32 ==> e[i] == 0
  {
    LowWord(clst);
    hide Byte0, Byte1, Byte2, Byte3;
  }

  /** A table has 16 entries a sector, and at most 2 megabytes of them. */
  lemma TableSize(secs: seq<nat>)
    ensures SizeOf(secs) * 32 == if |secs| * 512 < 0x20_0000 then |secs| * 512 else 0x20_0000
  {
  }

  /** The entries of a chained table are the bytes of its clusters, 32 at a time: a directory is laid out as a file
      is. */
  lemma DirectoryIsFile(g: Geometry, d: Disk, ch: seq<nat>, i: nat)
    requires DiskOf(g, d) && InRange(g, ch) && i < SizeOf(ChainSectors(g, ch))
    ensures forall k :: 0 <= k < |ChainSectors(g, ch)| ==> ChainSectors(g, ch)[k] < |d|
    ensures i * 32 + 32 <= |ChainBytes(g, d, ch)|
    ensures TableOf(d, ChainSectors(g, ch))[i] == ChainBytes(g, d, ch)[i * 32..i * 32 + 32]
  {
    hide ChainSectors, ChainBytes, Geometry.Ok, ClusterSector, Piece, EntryIn, TableOf;
    var secs := ChainSectors(g, ch);
    ChainedClusters(g);
    forall k | 0 <= k < |secs| ensures secs[k] < |d| {
      SplitSector(g, ch, k);
      ClusterInRange(g, ch[k / g.csize]);
    }
    var k := i / 16;
    SplitSector(g, ch, k);
    BytesAt(g, d, ch, k / g.csize, k % g.csize);
    PieceEntry(ChainBytes(g, d, ch), k, i, d[secs[k]]);
  }

  lemma PieceEntry(b: seq<byte>, k: nat, i: nat, s: Sector)
    requires k == i / 16 && k * 512 + 512 <= |b| && Piece(b, k) == s
    ensures i * 32 + 32 <= |b| && EntryIn(s, i) == b[i * 32..i * 32 + 32]
  {
    var m := i % 16;
    assert i == 16 * k + m && i * 32 == k * 512 + m * 32;
    SliceOfSlice(b, k * 512, 512, m * 32, 32);
  }

  lemma SliceOfSlice(b: seq<byte>, p: nat, n: nat, q: nat, m: nat)
    requires p + n <= |b| && q + m <= n
    ensures b[p..p + n][q..q + m] == b[p + q..p + q + m]
  {
    var x, y := b[p..p + n][q..q + m], b[p + q..p + q + m];
    forall i | 0 <= i < m ensures x[i] == y[i] { assert b[p..p + n][q + i] == b[p + q + i]; }
  }

  // ----- long names -----

  /** Where an entry has its 13 characters. */
  const OFFSETS: seq<nat> := [1, 3, 5, 7, 9, 14, 16, 18, 20, 22, 24, 28, 30]

  /** An entry of a long name: its number, marked on the last one, the attribute, the checksum, and 13 characters of the
      name, which a zero ends and ones pad. */
  lemma LongEntryReads(e: Entry, name: seq<word>, ord: nat, sum: byte)
    requires IsPiece(e, name, ord, sum)
    ensures e[0] as int == if 13 * ord >= |name| then 0x40 + ord else ord
    ensures e[11] == 0x0F && e[12] == 0 && e[13] == sum && e[26] == 0 == e[27]
    ensures forall s :: 0 <= s < 13 ==>
      var i := 13 * (ord - 1) + s;
      U16(e, OFFSETS[s]) == if i < |name| then name[i] else if i == |name| then 0 else 0xFFFF
  {
    LastSegment(name, ord);
    forall s | 0 <= s < 13
      ensures var i := 13 * (ord - 1) + s;
        U16(e, OFFSETS[s]) == if i < |name| then name[i] else if i == |name| then 0 else 0xFFFF
    {
      SlotReads(s);
      LoadsLittleEndian(e, OFFSETS[s]);
      assert CharIn(e, s) == CharOf(name, From(ord) + s);
    }
  }

  lemma SlotReads(s: nat)
    requires s < 13
    ensures Slot(s) == OFFSETS[s]
  {
  }

  // ----- the checksum -----

  /** `r` is `v` rotated right by one bit. */
  ghost predicate RotatedRight(v: byte, r: byte) { r as int % 128 == v as int / 2 && r as int / 128 == v as int % 2 }

  /** The checksum begins with 0, and each byte, from the first to the last, is added to what there is, rotated. */
  lemma ChecksumSteps(s: seq<byte>, b: byte) returns (r: byte)
    ensures SumOf([]) == 0 && RotatedRight(SumOf(s), r) && SumOf(s + [b]) as int == (r as int + b as int) % 0x100
  {
    hide RotatedRight;
    r := Rotate(SumOf(s));
    assert (s + [b])[..|s|] == s && (s + [b])[|s|] == b;
  }

  lemma Rotate(v: byte) returns (r: byte)
    ensures RotatedRight(v, r) && r == v / 2 + v as int % 2 * 128
  {
    r := v / 2 + v as int % 2 * 128;
    DivUnique(r as int, 128, v as int % 2, v as int / 2);
  }

  /** Short names that differ in one character have different checksums. */
  lemma {:induction false} ChecksumDetects(s: seq<byte>, k: nat, b: byte)
    requires k < |s| && b != s[k]
    ensures SumOf(s[k := b]) != SumOf(s)
    decreases |s|
  {
    var l := |s| - 1;
    var t := s[k := b];
    if k < l {
      ChecksumDetects(s[..l], k, b);
      assert t[..l] == s[..l][k := b];
      StepInjective(SumOf(s[..l]), SumOf(t[..l]), s[l]);
    } else {
      assert t[..l] == s[..l];
      AddInjective(SumOf(s[..l]), s[l], b);
    }
  }

  lemma StepInjective(v: byte, w: byte, b: byte)
    requires v != w
    ensures SumStep(v, b) != SumStep(w, b)
  {
    var x, y := v as int / 2 + v as int % 2 * 128, w as int / 2 + w as int % 2 * 128;
    if x == y {
      DivUnique(x, 128, v as int % 2, v as int / 2);
      DivUnique(y, 128, w as int % 2, w as int / 2);
      assert false;
    }
    SameResidue(x, y, b as int);
  }

  lemma SameResidue(x: nat, y: nat, b: nat)
    requires x < 0x100 && y < 0x100 && b < 0x100 && x != y
    ensures (x + b) % 0x100 != (y + b) % 0x100
  {
  }

  lemma AddInjective(v: byte, a: byte, b: byte)
    requires a != b
    ensures SumStep(v, a) != SumStep(v, b)
  {
    SameResidue(a as int, b as int, v as int / 2 + v as int % 2 * 128);
  }

  // ----- characters -----

  const SMALL: string := "abcdefghijklmnopqrstuvwxyz"
  const LARGE: string := "ABCDEFGHIJKLMNOPQRSTUVWXYZ"

  /** Two characters fold to the same one if they are the same, or the two cases of one letter. */
  ghost predicate OneLetter(c: word, d: word)
  {
    exists k: nat :: k < 26 && c in [SMALL[k] as int, LARGE[k] as int] && d in [SMALL[k] as int, LARGE[k] as int]
  }

  lemma FoldReads(c: word, d: word)
    ensures Upper(c) == Upper(d) <==> c == d || OneLetter(c, d)
  {
    Alphabet();
    if Upper(c) == Upper(d) && c != d {
      var k := Upper(c) - 0x41;
      assert c in [SMALL[k] as int, LARGE[k] as int] && d in [SMALL[k] as int, LARGE[k] as int];
    }
  }

  lemma Alphabet()
    ensures |SMALL| == 26 == |LARGE|
    ensures forall k :: 0 <= k < 26 ==> SMALL[k] as int == 0x61 + k && LARGE[k] as int == 0x41 + k
  {
  }

  /** The characters that names must not hold, those that a short name replaces by an underscore, those that end a
      segment of a path, and those that end no name. */
  lemma CharactersRead(c: word)
    requires c < 0x80
    ensures Illegal(c) <==> c == 0x7F || c as char in "\"*:<>?|"
    ensures ShortName.Replaced(c) <==> c as char in "+,;=[]"
    ensures ShortName.Replaced(c) ==> ShortOf(c) as char == '_'
    ensures EndsSegment(c) <==> c < 0x20 || c as char in "/\\"
    ensures Trailing(c) <==> c as char in " ."
    ensures BLANK as char == ' ' && DOT as char == '.' && TILDE as char == '~'
  {
    var i, r := "\"*:<>?|", "+,;=[]";
    assert forall k :: 0 <= k < 7 ==> i[k] as int == ILLEGAL[k];
    assert forall k :: 0 <= k < 6 ==> r[k] as int == REPLACED[k];
  }

  /** What is left of a segment: all but the blanks and dots at its end. */
  lemma {:induction false} StrippedReads(s: seq<word>)
    ensures |Stripped(s)| <= |s| && s[..|Stripped(s)|] == Stripped(s)
    ensures forall k :: |Stripped(s)| <= k < |s| ==> s[k] in {0x20, 0x2E}
    ensures Stripped(s) != [] ==> s[|Stripped(s)| - 1] !in {0x20, 0x2E}
  {
    if s != [] && Trailing(s[|s| - 1]) { StrippedReads(s[..|s| - 1]); }
  }

  /** A segment makes a name if it has at most 255 characters, all of them allowed, and not only blanks and dots. */
  lemma AcceptableReads(s: seq<word>)
    ensures Acceptable(s) <==>
      |s| <= 255 && (forall k :: 0 <= k < |s| ==> !Illegal(s[k])) && exists k :: 0 <= k < |s| && s[k] !in {0x20, 0x2E}
  {
    hide Illegal, Stripped;
    StrippedReads(s);
    if Stripped(s) != [] { assert s[|Stripped(s)| - 1] !in {0x20, 0x2E}; }
  }
}
