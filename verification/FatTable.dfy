/** The file allocation table as a map from cluster numbers to values, packed into the bytes of the
    first FAT copy: 12-bit entries sharing bytes and straddling sectors, 16-bit and 28-bit entries. */
module FatTable {
  import opened Bytes
  import opened Geometry

  // ----- entries in a byte sequence -----

  /** Offset of the first byte of the entry of cluster `c`, and the bytes the entry touches. */
  function EntryByte(t: FatType, c: nat): nat
  {
    match t
    case Fat12 => c + c / 2
    case Fat16 => 2 * c
    case Fat32 => 4 * c
  }

  function EntryWidth(t: FatType): nat { if t == Fat32 then 4 else 2 }

  /** The value stored for cluster `c` in the table bytes `b`. */
  function EntryAt(t: FatType, b: seq<byte>, c: nat): nat
    requires EntryByte(t, c) + EntryWidth(t) <= |b|
  {
    var i := EntryByte(t, c);
    match t
    case Fat12 => if c % 2 == 1 then LdWord(b, i) / 16 else LdWord(b, i) % 0x1000
    case Fat16 => LdWord(b, i)
    case Fat32 => LdDword(b, i) % 0x1000_0000
  }

  /** The two bytes of a FAT12 entry of value `v`, in place of a byte `p` shared with a neighbour. */
  function Low12(c: nat, p: byte, v: nat): byte { if c % 2 == 1 then p % 16 + v % 16 * 16 else v % 0x100 }

  function High12(c: nat, p: byte, v: nat): byte { if c % 2 == 1 then v / 16 % 0x100 else p / 16 * 16 + v / 0x100 % 16 }

  /** The bytes that replace the entry of `c`; a FAT12 entry keeps the nibble of its neighbour. */
  function EntryBytes(t: FatType, b: seq<byte>, c: nat, v: nat): (r: seq<byte>)
    requires EntryByte(t, c) + EntryWidth(t) <= |b|
    ensures |r| == EntryWidth(t)
  {
    var i := EntryByte(t, c);
    match t
    case Fat12 => [Low12(c, b[i], v), High12(c, b[i + 1], v)]
    case Fat16 => [v % 0x100, v / 0x100 % 0x100]
    case Fat32 => [v % 0x100, v / 0x100 % 0x100, v / 0x1_0000 % 0x100, v / 0x100_0000 % 0x100]
  }

  /** The part of a value an entry keeps: 12, 16 or 28 bits. */
  function Mask(t: FatType, v: nat): nat
  {
    match t
    case Fat12 => v % 0x1000
    case Fat16 => v % 0x1_0000
    case Fat32 => v % 0x1000_0000
  }

  function PutAt(t: FatType, b: seq<byte>, c: nat, v: nat): (r: seq<byte>)
    requires EntryByte(t, c) + EntryWidth(t) <= |b|
    ensures |r| == |b|
  {
    Splice(b, EntryByte(t, c), EntryBytes(t, b, c, v))
  }

  lemma OddEntry(lo: byte, v: nat)
    ensures (lo % 16 + v % 16 * 16 + 0x100 * (v / 16 % 0x100)) / 16 == v % 0x1000
  {
    assert v % 0x1000 == v % 16 + 16 * (v / 16 % 0x100);
  }

  lemma EvenEntry(hi: byte, v: nat)
    ensures (v % 0x100 + 0x100 * (hi / 16 * 16 + v / 0x100 % 16)) % 0x1000 == v % 0x1000
  {
    var k := v / 0x100 % 16;
    assert v % 0x1000 == v % 0x100 + 0x100 * k;
    assert v % 0x100 + 0x100 * (hi / 16 * 16 + k) == (v % 0x100 + 0x100 * k) + 0x1000 * (hi / 16);
  }

  /** A FAT12 entry stored one byte after the other. */
  lemma PutBytewise(b: seq<byte>, c: nat, v: nat)
    requires c + c / 2 + 2 <= |b|
    ensures var i := c + c / 2;
      var b1 := Splice(b, i, [Low12(c, b[i], v)]);
      PutAt(Fat12, b, c, v) == Splice(b1, i + 1, [High12(c, b1[i + 1], v)])
  {
  }

  /** Two FAT12 entries share a byte only as an even one followed by its odd neighbour. */
  lemma Neighbours12(c: nat, e: nat)
    requires c != e
    ensures c < e ==> EntryByte(Fat12, c) + 1 <= EntryByte(Fat12, e)
    ensures c < e && EntryByte(Fat12, c) + 1 == EntryByte(Fat12, e) ==> c % 2 == 0 && e % 2 == 1
    ensures e < c ==> EntryByte(Fat12, e) + 1 <= EntryByte(Fat12, c)
    ensures e < c && EntryByte(Fat12, e) + 1 == EntryByte(Fat12, c) ==> e % 2 == 0 && c % 2 == 1
  {
  }

  lemma Nibbles(high: nat, low: nat)
    requires low < 16
    ensures (high * 16 + low) / 16 == high && (high * 16 + low) % 16 == low
  {
  }

  lemma HighDigits(x: byte, h: byte)
    ensures (x + 0x100 * h as int) / 16 == x / 16 + 16 * (h as int)
  {
  }

  lemma LowDigits(x: byte, h: byte)
    ensures (x + 0x100 * h as int) % 0x1000 == x + 0x100 * (h % 16) as int
  {
  }

  lemma PutGet12Same(b: seq<byte>, c: nat, v: nat)
    requires c + c / 2 + 2 <= |b|
    ensures EntryAt(Fat12, PutAt(Fat12, b, c, v), c) == v % 0x1000
  {
    var i := c + c / 2;
    var r, n := PutAt(Fat12, b, c, v), EntryBytes(Fat12, b, c, v);
    assert r[i] == n[0] && r[i + 1] == n[1];
    OddEntry(b[i], v);
    EvenEntry(b[i + 1], v);
  }

  /** The bytes of the table once a FAT12 entry is stored. */
  lemma Put12Byte(b: seq<byte>, c: nat, v: nat, k: nat)
    requires c + c / 2 + 2 <= |b| && k < |b|
    ensures var i := c + c / 2;
      PutAt(Fat12, b, c, v)[k] == if k == i then Low12(c, b[i], v) else if k == i + 1 then High12(c, b[i + 1], v)
        else b[k]
  {
  }

  lemma PutGet12Other(b: seq<byte>, c: nat, v: nat, e: nat)
    requires c + c / 2 + 2 <= |b| && e + e / 2 + 2 <= |b| && e != c
    ensures EntryAt(Fat12, PutAt(Fat12, b, c, v), e) == EntryAt(Fat12, b, e)
  {
    hide PutAt;
    var i, j := c + c / 2, e + e / 2;
    var r := PutAt(Fat12, b, c, v);
    Neighbours12(c, e);
    Put12Byte(b, c, v, j);
    Put12Byte(b, c, v, j + 1);
    if j == i + 1 {
      Nibbles(b[j] / 16, v / 0x100 % 16);
      HighDigits(r[j], b[j + 1]);
      HighDigits(b[j], b[j + 1]);
    } else if j + 1 == i {
      Nibbles(v % 16, b[j + 1] % 16);
      LowDigits(b[j], r[j + 1]);
      LowDigits(b[j], b[j + 1]);
    }
  }

  lemma PutGet16(b: seq<byte>, c: nat, v: nat, e: nat)
    requires 2 * c + 2 <= |b| && 2 * e + 2 <= |b|
    ensures EntryAt(Fat16, PutAt(Fat16, b, c, v), e) == if e == c then v % 0x1_0000 else EntryAt(Fat16, b, e)
  {
    hide PutAt, EntryBytes;
    Put16Bytes(b, c, v, e);
    WordParts(v);
  }

  lemma Put16Bytes(b: seq<byte>, c: nat, v: nat, e: nat)
    requires 2 * c + 2 <= |b| && 2 * e + 2 <= |b|
    ensures var r := PutAt(Fat16, b, c, v);
      && r[2 * e] == (if e == c then v % 0x100 else b[2 * e])
      && r[2 * e + 1] == (if e == c then v / 0x100 % 0x100 else b[2 * e + 1])
  {
    var r, n := PutAt(Fat16, b, c, v), EntryBytes(Fat16, b, c, v);
    if e == c { assert r[2 * e] == n[0] && r[2 * e + 1] == n[1]; }
  }

  lemma Mod28(v: nat)
    ensures v % 0x1_0000_0000 % 0x1000_0000 == v % 0x1000_0000
  {
  }

  lemma PutGet32Same(b: seq<byte>, c: nat, v: nat)
    requires 4 * c + 4 <= |b|
    ensures EntryAt(Fat32, PutAt(Fat32, b, c, v), c) == v % 0x1000_0000
  {
    var r, n := PutAt(Fat32, b, c, v), EntryBytes(Fat32, b, c, v);
    var i := 4 * c;
    assert r[i] == n[0] && r[i + 1] == n[1] && r[i + 2] == n[2] && r[i + 3] == n[3];
    DwordDigits(v);
    assert LdDword(r, i) == v % 0x1_0000_0000;
    Mod28(v);
  }

  lemma PutGet32(b: seq<byte>, c: nat, v: nat, e: nat)
    requires 4 * c + 4 <= |b| && 4 * e + 4 <= |b|
    ensures EntryAt(Fat32, PutAt(Fat32, b, c, v), e) == if e == c then v % 0x1000_0000 else EntryAt(Fat32, b, e)
  {
    if e == c {
      PutGet32Same(b, c, v);
    } else {
      var r, i := PutAt(Fat32, b, c, v), 4 * e;
      assert r[i] == b[i] && r[i + 1] == b[i + 1] && r[i + 2] == b[i + 2] && r[i + 3] == b[i + 3];
    }
  }

  /** For every FAT type, an entry reads back as stored, cut to its width, and no other entry changes,
      also where FAT12 neighbours share a byte. */
  lemma PutGetAt(t: FatType, b: seq<byte>, c: nat, v: nat, e: nat)
    requires EntryByte(t, c) + EntryWidth(t) <= |b| && EntryByte(t, e) + EntryWidth(t) <= |b|
    ensures EntryAt(t, PutAt(t, b, c, v), e) == if e == c then Mask(t, v) else EntryAt(t, b, e)
  {
    match t
    case Fat12 => if e == c { PutGet12Same(b, c, v); } else { PutGet12Other(b, c, v, e); }
    case Fat16 => PutGet16(b, c, v, e);
    case Fat32 => PutGet32(b, c, v, e);
  }

  // ----- the table on the disk -----

  predicate DiskOf(g: Geometry, d: Disk) { g.Ok() && |d| == g.nSectors }

  /** The bytes of `n` sectors from `from` on, one after another. */
  function Flat(d: Disk, from: nat, n: nat): (b: seq<byte>)
    requires from + n <= |d|
    ensures |b| == n * 512
    decreases n
  {
    if n == 0 then [] else d[from] + Flat(d, from + 1, n - 1)
  }

  /** The `t`-th 512 bytes of `b`. */
  function Piece(b: seq<byte>, t: nat): (p: seq<byte>)
    requires t * 512 + 512 <= |b|
    ensures |p| == 512
  {
    b[t * 512..t * 512 + 512]
  }

  lemma {:induction false} FlatSector(d: Disk, from: nat, n: nat, t: nat)
    requires from + n <= |d| && t < n
    ensures Piece(Flat(d, from, n), t) == d[from + t]
    decreases n
  {
    var rest: seq<byte> := Flat(d, from + 1, n - 1);
    if t > 0 {
      FlatSector(d, from + 1, n - 1, t - 1);
      var first: seq<byte> := d[from];
      assert Piece(first + rest, t) == Piece(rest, t - 1);
    }
  }

  /** Replacing one of the sectors replaces that piece of the bytes. */
  lemma {:induction false} FlatSplice(d: Disk, e: Disk, from: nat, n: nat, t: nat, w: Sector)
    requires from + n <= |d| == |e| && t < n
    requires forall i :: from <= i < from + n ==> e[i] == if i == from + t then w else d[i]
    ensures Flat(e, from, n) == Splice(Flat(d, from, n), t * 512, w)
    decreases n
  {
    hide Splice, Flat;
    FlatStep(d, from, n);
    FlatStep(e, from, n);
    var first: seq<byte>, rest: seq<byte> := d[from], Flat(d, from + 1, n - 1);
    if t == 0 {
      FlatSame(d, e, from + 1, n - 1);
      SpliceHead(first, rest, w);
    } else {
      FlatSplice(d, e, from + 1, n - 1, t - 1, w);
      SpliceBehind(first, rest, (t - 1) * 512, w);
    }
  }

  lemma FlatStep(d: Disk, from: nat, n: nat)
    requires from + n <= |d| && 0 < n
    ensures Flat(d, from, n) == d[from] + Flat(d, from + 1, n - 1)
  {
  }

  lemma SpliceHead(a: seq<byte>, b: seq<byte>, w: seq<byte>)
    requires |w| == |a|
    ensures Splice(a + b, 0, w) == w + b
  {
  }

  lemma SpliceBehind(a: seq<byte>, b: seq<byte>, at: nat, w: seq<byte>)
    requires at + |w| <= |b|
    ensures Splice(a + b, |a| + at, w) == a + Splice(b, at, w)
  {
  }

  lemma {:induction false} FlatSame(d: Disk, e: Disk, from: nat, n: nat)
    requires from + n <= |d| == |e|
    requires forall i :: from <= i < from + n ==> e[i] == d[i]
    ensures Flat(e, from, n) == Flat(d, from, n)
    decreases n
  {
    if n > 0 { FlatSame(d, e, from + 1, n - 1); }
  }

  /** The bytes of the first FAT copy. */
  function FatBytes(g: Geometry, d: Disk): (b: seq<byte>)
    requires DiskOf(g, d)
    ensures |b| == g.sectsFat * 512
  {
    FatAreaHolds(g);
    Flat(d, g.fatbase, g.sectsFat)
  }

  /** Everything outside the FAT area is the same on both disks. */
  ghost predicate SameData(g: Geometry, d: Disk, e: Disk)
  {
    && |e| == |d|
    && forall i :: 0 <= i < |d| && (i < g.fatbase || i >= g.FatEnd()) ==> e[i] == d[i]
  }

  lemma SameDataSelf(g: Geometry, d: Disk)
    ensures SameData(g, d, d)
  {
  }

  lemma SameDataTwice(g: Geometry, d: Disk, e: Disk, f: Disk)
    requires SameData(g, d, e) && SameData(g, e, f)
    ensures SameData(g, d, f)
  {
  }

  /** One sector of the first FAT copy, as a piece of the table. */
  lemma SectorOfFat(g: Geometry, d: Disk, t: nat)
    requires DiskOf(g, d) && t < g.sectsFat
    ensures g.fatbase + t < |d| && Piece(FatBytes(g, d), t) == d[g.fatbase + t]
  {
    FatAreaHolds(g);
    FlatSector(d, g.fatbase, g.sectsFat, t);
  }

  /** Writing a sector of the first FAT copy back with its mirrors replaces that piece of the table and
      nothing outside the FAT area. */
  lemma StoreFatSector(g: Geometry, d: Disk, t: nat, w: Sector)
    requires DiskOf(g, d) && t < g.sectsFat
    ensures FatBytes(g, Store(g, d, g.fatbase + t, w)) == Splice(FatBytes(g, d), t * 512, w)
    ensures SameData(g, d, Store(g, d, g.fatbase + t, w))
  {
    FatAreaHolds(g);
    StoreElsewhere(g, d, g.fatbase + t, w);
    FlatSplice(d, Store(g, d, g.fatbase + t, w), g.fatbase, g.sectsFat, t, w);
  }

  lemma PieceSlice(b: seq<byte>, t: nat, off: nat, n: nat)
    requires t * 512 + 512 <= |b| && off + n <= 512
    ensures Piece(b, t)[off..off + n] == b[t * 512 + off..t * 512 + off + n]
  {
    var x, y := Piece(b, t)[off..off + n], b[t * 512 + off..t * 512 + off + n];
    forall i | 0 <= i < n ensures x[i] == y[i] { assert x[i] == Piece(b, t)[off + i]; }
  }

  lemma SpliceNested(s: seq<byte>, at: nat, w: seq<byte>, off: nat, bs: seq<byte>)
    requires at + |w| <= |s| && off + |bs| <= |w|
    ensures Splice(Splice(s, at, w), at + off, bs) == Splice(s, at, Splice(w, off, bs))
  {
    var x, y := Splice(Splice(s, at, w), at + off, bs), Splice(s, at, Splice(w, off, bs));
    forall i | 0 <= i < |s| ensures x[i] == y[i] {}
  }

  lemma SpliceInside(b: seq<byte>, at: nat, w: seq<byte>, off: nat, bs: seq<byte>)
    requires at + |w| <= |b| && off + |bs| <= |w| && b[at..at + |w|] == w
    ensures Splice(b, at, Splice(w, off, bs)) == Splice(b, at + off, bs)
  {
    forall i | at <= i < at + |w| ensures b[i] == w[i - at] { assert b[at..at + |w|][i - at] == b[i]; }
  }

  lemma EntryFits(g: Geometry, c: nat)
    requires g.Ok() && c < g.maxClust
    ensures EntryByte(g.fatType, c) + EntryWidth(g.fatType) <= g.sectsFat * 512
  {
  }

  // ----- the table as one sequence -----

  /** The answers of get_fat for the clusters below `n`: 1 for the two reserved numbers. */
  function Entries(t: FatType, b: seq<byte>, n: nat): (f: seq<nat>)
    requires n == 0 || EntryByte(t, n - 1) + EntryWidth(t) <= |b|
    ensures |f| == n
  {
    if n == 0 then [] else Entries(t, b, n - 1) + [if n - 1 < 2 then 1 else EntryAt(t, b, n - 1)]
  }

  lemma {:induction false} EntriesAt(t: FatType, b: seq<byte>, n: nat, c: nat)
    requires c < n && EntryByte(t, n - 1) + EntryWidth(t) <= |b|
    ensures EntryByte(t, c) + EntryWidth(t) <= |b|
    ensures Entries(t, b, n)[c] == if c < 2 then 1 else EntryAt(t, b, c)
  {
    if c < n - 1 { EntriesAt(t, b, n - 1, c); }
  }

  /** The logical FAT: what get_fat answers for every cluster below maxClust. */
  function Fat(g: Geometry, d: Disk): (f: seq<nat>)
    requires DiskOf(g, d)
    ensures |f| == g.maxClust
  {
    EntryFits(g, g.maxClust - 1);
    Entries(g.fatType, FatBytes(g, d), g.maxClust)
  }

  lemma FatAt(g: Geometry, d: Disk, c: nat)
    requires DiskOf(g, d) && c < g.maxClust
    ensures EntryByte(g.fatType, c) + EntryWidth(g.fatType) <= g.sectsFat * 512
    ensures Fat(g, d)[c] == if c < 2 then 1 else EntryAt(g.fatType, FatBytes(g, d), c)
  {
    EntryFits(g, g.maxClust - 1);
    EntriesAt(g.fatType, FatBytes(g, d), g.maxClust, c);
  }

  /** put_fat on the bytes of the table is the update of one entry of the abstract table, with the value
      cut to its width: also where FAT12 neighbours share a byte or an entry straddles two sectors. */
  lemma PutUpdates(g: Geometry, d: Disk, c: nat, v: nat, e: Disk)
    requires DiskOf(g, d) && DiskOf(g, e) && 2 <= c < g.maxClust
    requires EntryByte(g.fatType, c) + EntryWidth(g.fatType) <= g.sectsFat * 512
    requires FatBytes(g, e) == PutAt(g.fatType, FatBytes(g, d), c, v)
    ensures Fat(g, e) == Fat(g, d)[c := Mask(g.fatType, v)]
  {
    var f, f' := Fat(g, d), Fat(g, e);
    forall k | 0 <= k < g.maxClust ensures f'[k] == f[c := Mask(g.fatType, v)][k] {
      FatAt(g, d, k);
      FatAt(g, e, k);
      if k >= 2 { PutGetAt(g.fatType, FatBytes(g, d), c, v, k); }
    }
  }

  /** The end mark 0x0FFFFFFF survives masking as an end mark, and cluster numbers survive unchanged. */
  lemma MaskKeeps(g: Geometry)
    requires g.Ok()
    ensures Mask(g.fatType, 0xFFF_FFFF) >= g.maxClust
    ensures forall v :: 0 <= v < g.maxClust ==> Mask(g.fatType, v) == v
  {
    hide Times, PowerOfTwo, Geometry.FatFits, Geometry.FatEnd;
  }
}
