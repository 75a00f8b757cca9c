/** What another reader of the disk finds: the fields of the structures that the driver writes, byte by byte, at their
    places in the on-disk formats (src/ff.h:507-576). */
module OnDisk {
  import opened Bytes
  import opened Geometry
  import opened FatTable
  import opened Volume
  import opened Format
  import opened Mkfs
  import Mount

  /** Little-endian fields. */
  function U16(s: seq<byte>, p: nat): nat
    requires p + 2 <= |s|
  {
    s[p] as int + 0x100 * s[p + 1] as int
  }

  function U32(s: seq<byte>, p: nat): nat
    requires p + 4 <= |s|
  {
    U16(s, p) + 0x1_0000 * U16(s, p + 2)
  }

  lemma WordAt(s: seq<byte>, p: nat, v: word)
    requires HasWord(s, p, v)
    ensures p + 2 <= |s| && U16(s, p) == v
  {
    WordParts(v);
  }

  lemma DwordAt(s: seq<byte>, p: nat, v: dword)
    requires HasDword(s, p, v)
    ensures p + 4 <= |s| && U32(s, p) == v
  {
    HasDwordLoads(s, p, v);
  }

  /** The loads of the driver are those of such a reader. */
  lemma LoadsLittleEndian(s: seq<byte>, p: nat)
    ensures p + 2 <= |s| ==> LdWord(s, p) == U16(s, p)
    ensures p + 4 <= |s| ==> LdDword(s, p) == U32(s, p)
  {
  }

  // ----- the partition table -----

  /** The one partition of the table in sector 0: its start and end as cylinder, head and sector, its type, its start
      and its length; the other three entries are empty. */
  ghost predicate OnePartition(s: Sector, l: Layout)
  {
    && s[446] == 0x80 && s[447] == 1 && s[448] == 1 && s[449] == 0
    && s[450] == (if l.fmt == Fat32 then 0x0C else if l.nPart < 0x1_0000 then 0x04 else 0x06)
    && s[451] == 254 && s[452] as int % 64 == 63
    && s[453] as int + s[452] as int / 64 * 0x100 ==
       (if l.bPart + l.nPart < 63 * 255 * 1024 then (l.bPart + l.nPart) / (63 * 255) else 1023)
    && U32(s, 454) == 63 && U32(s, 458) == l.nPart
    && s[510] == 0x55 && s[511] == 0xAA
    && forall i :: 0 <= i < 446 || 462 <= i < 510 ==> s[i] == 0
  }

  lemma MbrFields(l: Layout)
    ensures var s := Mbr(l);
      && HasDword(s, 446, 0x0001_0180) && HasDword(s, 454, 63) && HasDword(s, 458, l.nPart) && HasWord(s, 510, 0xAA55)
      && s[450] == (if l.fmt == Fat32 then 0x0C else if l.nPart < 0x1_0000 then 0x04 else 0x06) && s[451] == 254
      && (forall i :: 0 <= i < 446 || 462 <= i < 510 ==> s[i] == 0)
    ensures var s, end := Mbr(l), l.bPart + l.nPart;
      if end < 63 * 255 * 1024
      then s[453] as int == end / 63 / 255 % 0x100 && s[452] as int == (end / 63 / 255 / 4 / 64 * 64 + 63) % 0x100
      else HasWord(s, 452, 0xFFFF)
  {
    hide Byte0, Byte1, Byte2, Byte3;
  }

  lemma WordBytes(s: seq<byte>, p: nat, v: word)
    requires HasWord(s, p, v)
    ensures p + 2 <= |s| && s[p] as int == v % 0x100 && s[p + 1] as int == v / 0x100
  {
  }

  /** The start of the partition: head 1, sector 1, cylinder 0, and the active mark. */
  lemma FirstSector(s: Sector)
    requires HasDword(s, 446, 0x0001_0180)
    ensures s[446] == 0x80 && s[447] == 1 && s[448] == 1 && s[449] == 0
  {
  }

  /** The last cylinder, whose two high bits stand beside the sector number. */
  lemma CylinderBits(c: nat)
    requires c < 1024
    ensures var low, high := c % 0x100, (c / 4 / 64 * 64 + 63) % 0x100;
      high % 64 == 63 && low + high / 64 * 0x100 == c
  {
    var q := c / 0x100;
    assert c / 4 / 64 == q && q < 4;
  }

  lemma LastCylinder(end: nat)
    requires end < 63 * 255 * 1024
    ensures end / 63 / 255 == end / (63 * 255) < 1024
  {
  }

  lemma MbrReads(l: Layout)
    requires l.nPart < 0x1_0000_0000
    ensures OnePartition(Mbr(l), l)
  {
    hide Mbr, HasWord, HasDword, U16, U32;
    var s, end := Mbr(l), l.bPart + l.nPart;
    MbrFields(l);
    WordBytes(s, 510, 0xAA55);
    FirstSector(s);
    DwordAt(s, 454, 63);
    DwordAt(s, 458, l.nPart);
    if end < 63 * 255 * 1024 {
      LastCylinder(end);
      CylinderBits(end / 63 / 255);
    } else {
      WordBytes(s, 452, 0xFFFF);
    }
  }

  // ----- the boot sector -----

  /** The number of sectors that a boot sector gives, in the field for small or for large volumes. */
  function TotalSectors(s: Sector): nat { if U16(s, 19) != 0 then U16(s, 19) else U32(s, 32) }

  /** Jump, geometry of the drive, media byte and position of the partition. */
  ghost predicate BootStart(s: Sector, l: Layout, media: byte)
  {
    && s[0] == 0xEB && s[1] == 0xFE && s[2] == 0x90 && U16(s, 11) == 512 && s[13] as int == l.csize
    && U16(s, 14) == l.nRsv && s[16] == 2 && U16(s, 17) == 16 * l.nDir && TotalSectors(s) == l.nPart
    && s[21] == media && U16(s, 24) == 63 && U16(s, 26) == 255 && U32(s, 28) == l.bPart
  }

  /** The fields that differ between the types: size of a FAT, root cluster, FSInfo and backup sector, serial number,
      label and type name. */
  ghost predicate BootEnd(s: Sector, l: Layout, id: VolumeId)
  {
    && s[510] == 0x55 && s[511] == 0xAA
    && if l.fmt == Fat32 then
         && U16(s, 22) == 0 && U32(s, 36) == l.nFat && U32(s, 44) == 2 && U16(s, 48) == 1 && U16(s, 50) == 6
         && s[64] == 0x80 && s[66] == 0x29 && U32(s, 67) == id.serial && Labelled(s[71..90], id.title, [0x33, 0x32])
       else
         && U16(s, 22) == l.nFat && s[36] == 0x80 && s[38] == 0x29 && U32(s, 39) == id.serial
         && Labelled(s[43..62], id.title, [0x31, if l.fmt == Fat12 then 0x32 else 0x36])
  }

  /** A label of 11 characters in capitals, padded with blanks, and "FAT", two digits and three blanks. */
  ghost predicate Labelled(s: seq<byte>, title: seq<byte>, digits: seq<byte>)
    requires |s| == 19 && |digits| == 2
  {
    && (forall k :: 0 <= k < 11 ==>
          if k >= |title| then s[k] == 0x20
          else if 0x61 <= title[k] <= 0x7A then s[k] as int == title[k] as int - 0x20 else s[k] == title[k])
    && s[11..14] == [0x46, 0x41, 0x54] && s[14..16] == digits && s[16..] == [0x20, 0x20, 0x20]
  }

  lemma TextReads(t: FatType, title: seq<byte>)
    ensures Labelled(VolumeText(t, title), title,
                     if t == Fat12 then [0x31, 0x32] else if t == Fat16 then [0x31, 0x36] else [0x33, 0x32])
  {
    var s := VolumeText(t, title);
    var digits := if t == Fat12 then [0x31, 0x32] else if t == Fat16 then [0x31, 0x36] else [0x33, 0x32];
    var text := seq(11, k requires 0 <= k => if k < |title| then ToUpper(title[k]) else 0x20);
    assert s == text + [0x46, 0x41, 0x54] + digits + [0x20, 0x20, 0x20];
  }

  /** The fields that HeadSays leaves out. */
  lemma HeadFields(l: Layout, media: byte)
    requires l.csize < 256
    ensures var s := BootHead(l, media);
      && HasDword(s, 0, 0x90_FEEB) && s[21] == media && HasWord(s, 24, 63) && HasWord(s, 26, 255)
      && HasDword(s, 28, l.bPart)
  {
    hide Byte0, Byte1, Byte2, Byte3;
  }

  lemma TailFields(l: Layout, s: Sector, id: VolumeId)
    ensures var r := BootTail(l, s, id);
      && HasWord(r, 510, 0xAA55) && (forall i :: 0 <= i < 22 || 24 <= i < 36 ==> r[i] == s[i])
      && if l.fmt == Fat32 then
           && r[22] == s[22] && r[23] == s[23] && HasDword(r, 36, l.nFat) && HasDword(r, 44, 2) && HasWord(r, 48, 1)
           && HasWord(r, 50, 6) && r[64] == 0x80 && r[66] == 0x29 && HasDword(r, 67, id.serial)
           && r[71..90] == VolumeText(l.fmt, id.title)
         else
           && HasWord(r, 22, l.nFat) && r[36] == 0x80 && r[38] == 0x29 && HasDword(r, 39, id.serial)
           && r[43..62] == VolumeText(l.fmt, id.title)
  {
    hide Byte0, Byte1, Byte2, Byte3, VolumeText;
    if l.fmt == Fat32 {} else {}
  }

  /** The boot sector, field by field. */
  lemma BootReads(l: Layout, media: byte, id: VolumeId)
    requires l.csize < 256 && l.nRsv < 0x1_0000 && l.nDir <= 32 && 0 < l.nPart < 0x1_0000_0000
    requires l.bPart < 0x1_0000_0000 && l.nFat < 0x1_0000
    ensures BootStart(BootSector(l, media, id), l, media) && BootEnd(BootSector(l, media, id), l, id)
  {
    hide BootHead, BootTail, VolumeText, Labelled;
    var h := BootHead(l, media);
    var s := BootTail(l, h, id);
    HeadSays(l, media);
    HeadFields(l, media);
    TailFields(l, h, id);
    TextReads(l.fmt, id.title);
    StartReads(l, media, h, s);
    EndReads(l, id, s);
  }

  lemma StartReads(l: Layout, media: byte, h: Sector, s: Sector)
    requires l.csize < 256 && l.nRsv < 0x1_0000 && l.nDir <= 32 && 0 < l.nPart < 0x1_0000_0000
    requires l.bPart < 0x1_0000_0000
    requires HasDword(h, 0, 0x90_FEEB) && HasWord(h, 11, 512) && h[13] as int == l.csize && HasWord(h, 14, l.nRsv)
    requires h[16] == 2 && HasWord(h, 17, 16 * l.nDir) && h[21] == media && HasWord(h, 24, 63)
    requires HasWord(h, 26, 255) && HasDword(h, 28, l.bPart)
    requires if l.nPart < 0x1_0000 then HasWord(h, 19, l.nPart) else h[19] == 0 == h[20] && HasDword(h, 32, l.nPart)
    requires forall i :: 0 <= i < 22 || 24 <= i < 36 ==> s[i] == h[i]
    ensures BootStart(s, l, media)
  {
    hide U16, U32, HasWord, HasDword;
    HeadCopied(h, s);
    JumpBytes(s);
    WordAt(s, 11, 512);
    WordAt(s, 14, l.nRsv);
    WordAt(s, 17, 16 * l.nDir);
    WordAt(s, 24, 63);
    WordAt(s, 26, 255);
    DwordAt(s, 28, l.bPart);
    if l.nPart < 0x1_0000 {
      WordAt(s, 19, l.nPart);
    } else {
      ZeroWord(s, 19);
      DwordAt(s, 32, l.nPart);
    }
  }

  lemma ZeroWord(s: seq<byte>, p: nat)
    requires p + 2 <= |s| && s[p] == 0 == s[p + 1]
    ensures U16(s, p) == 0
  {
  }

  lemma JumpBytes(s: Sector)
    requires HasDword(s, 0, 0x90_FEEB)
    ensures s[0] == 0xEB && s[1] == 0xFE && s[2] == 0x90
  {
  }

  lemma HeadCopied(h: Sector, s: Sector)
    requires forall i :: 0 <= i < 22 || 24 <= i < 36 ==> s[i] == h[i]
    ensures forall p, v :: 0 <= p && (p + 2 <= 22 || 24 <= p <= 34) && HasWord(h, p, v) ==> HasWord(s, p, v)
    ensures forall p, v :: 0 <= p && (p + 4 <= 22 || 24 <= p <= 32) && HasDword(h, p, v) ==> HasDword(s, p, v)
  {
  }

  lemma EndReads(l: Layout, id: VolumeId, s: Sector)
    requires l.nFat < 0x1_0000 && HasWord(s, 510, 0xAA55)
    requires if l.fmt == Fat32 then
        && s[22] == 0 == s[23] && HasDword(s, 36, l.nFat) && HasDword(s, 44, 2) && HasWord(s, 48, 1)
        && HasWord(s, 50, 6)
        && s[64] == 0x80 && s[66] == 0x29 && HasDword(s, 67, id.serial) && Labelled(s[71..90], id.title, [0x33, 0x32])
      else
        && HasWord(s, 22, l.nFat) && s[36] == 0x80 && s[38] == 0x29 && HasDword(s, 39, id.serial)
        && Labelled(s[43..62], id.title, [0x31, if l.fmt == Fat12 then 0x32 else 0x36])
    ensures BootEnd(s, l, id)
  {
    hide Labelled, U16, U32, HasWord, HasDword;
    WordBytes(s, 510, 0xAA55);
    if l.fmt == Fat32 {
      ZeroWord(s, 22);
      DwordAt(s, 36, l.nFat);
      DwordAt(s, 44, 2);
      WordAt(s, 48, 1);
      WordAt(s, 50, 6);
      DwordAt(s, 67, id.serial);
    } else {
      WordAt(s, 22, l.nFat);
      DwordAt(s, 39, id.serial);
    }
  }

  // ----- FSInfo and the reserved FAT entries -----

  lemma FsInfoReads(free: dword, last: dword)
    ensures var s := FsInfo(free, last);
      && U32(s, 0) == 0x4161_5252 && U32(s, 484) == 0x6141_7272 && s[510] == 0x55 && s[511] == 0xAA
      && U32(s, 488) == free && U32(s, 492) == last
  {
    hide HasWord, HasDword, U16, U32, FsInfo;
    var s := FsInfo(free, last);
    FsInfoFields(free, last);
    DwordAt(s, 0, 0x4161_5252);
    DwordAt(s, 484, 0x6141_7272);
    DwordAt(s, 488, free);
    DwordAt(s, 492, last);
    WordBytes(s, 510, 0xAA55);
  }

  lemma FsInfoFields(free: dword, last: dword)
    ensures var s := FsInfo(free, last);
      && HasDword(s, 0, 0x4161_5252) && HasDword(s, 484, 0x6141_7272) && HasDword(s, 488, free)
      && HasDword(s, 492, last) && HasWord(s, 510, 0xAA55)
  {
    hide Byte0, Byte1, Byte2, Byte3;
  }

  /** The first byte of a FAT is the media byte of the boot sector on FAT12 and FAT16. */
  lemma FatHeadReads(t: FatType, media: byte)
    ensures var s := FatHead(t, media);
      if t == Fat32 then U32(s, 0) == 0xFFFF_FFF8 && U32(s, 4) == 0xFFFF_FFFF && U32(s, 8) == 0x0FFF_FFFF
      else s[0] == media && s[1] == 0xFF && s[2] == 0xFF && s[3] == if t == Fat12 then 0 else 0xFF
  {
    hide HasDword, U32, FatHead;
    var s := FatHead(t, media);
    if t == Fat32 {
      Fat32Head(media);
      DwordAt(s, 0, 0xFFFF_FFF8);
      DwordAt(s, 4, 0xFFFF_FFFF);
      DwordAt(s, 8, 0x0FFF_FFFF);
    } else {
      SmallFatHead(t, media);
    }
  }

  lemma Fat32Head(media: byte)
    ensures var s := FatHead(Fat32, media);
      HasDword(s, 0, 0xFFFF_FFF8) && HasDword(s, 4, 0xFFFF_FFFF) && HasDword(s, 8, 0x0FFF_FFFF)
  {
    hide Byte0, Byte1, Byte2, Byte3;
  }

  /** The first four bytes, the low one being the media byte. */
  lemma SmallFatHead(t: FatType, media: byte)
    requires t != Fat32
    ensures var s := FatHead(t, media);
      s[0] == media && s[1] == 0xFF && s[2] == 0xFF && s[3] == if t == Fat12 then 0 else 0xFF
  {
    var v := (if t == Fat12 then 0x00FF_FF00 else 0xFFFF_FF00) + media as int;
    HeadBytes(v / 0x100, media);
    assert v == 0x100 * (v / 0x100) + media as int;
  }

  lemma HeadBytes(q: nat, m: byte)
    ensures var v := 0x100 * q + m as int; Byte0(v) == m
    ensures q == 0x00_FFFF || q == 0xFF_FFFF ==>
      var v := 0x100 * q + m as int; Byte1(v) == 0xFF && Byte2(v) == 0xFF && Byte3(v) == if q == 0xFFFF then 0 else 0xFF
  {
  }

  // ----- the formatted disk -----

  /** After f_mkfs the partition table, the boot sector and the FATs tell the same story. */
  lemma DiskReads(d0: Disk, partition: nat, id: VolumeId, d: Disk)
    requires MIN_SECTOR <= |d0| < 0x1_0000_0000 && partition < 2
    requires AutoLayout(|d0|, partition).csize < 256 && Formatted(AutoLayout(|d0|, partition), partition, id, d0, d)
    ensures var l := AutoLayout(|d0|, partition);
      && l.bPart < |d| && BootStart(d[l.bPart], l, if partition == 0 then 0xF8 else 0xF0) && BootEnd(d[l.bPart], l, id)
      && (partition == 0 ==>
            && OnePartition(d[0], l) && U32(d[0], 454) == U32(d[l.bPart], 28)
            && U32(d[0], 458) == TotalSectors(d[l.bPart]))
      && (l.fmt == Fat32 ==>
            && l.bPart + 7 < |d| && d[l.bPart + 6] == d[l.bPart] && d[l.bPart + 7] == d[l.bPart + 1]
            && U32(d[l.bPart + 1], 488) == l.nClst - 1 && U32(d[l.bPart + 1], 492) == 0xFFFF_FFFF)
      && l.bPart + l.nRsv + l.nFat < |d| && d[l.bPart + l.nRsv + l.nFat] == d[l.bPart + l.nRsv]
      && (l.fmt != Fat32 ==> d[l.bPart + l.nRsv][0] == d[l.bPart][21])
  {
    hide AutoLayout, Mbr, BootSector, FsInfo, FatHead, Zeros, BootStart, BootEnd, OnePartition, TotalSectors;
    var l, media := AutoLayout(|d0|, partition), Media(partition);
    LayoutBounds(|d0|, partition);
    StartOfPartition(|d0|, partition);
    BootReads(l, media, id);
    MbrReads(l);
    FatHeadReads(l.fmt, media);
    FsInfoReads(l.nClst - 1, 0xFFFF_FFFF);
    SectorsAre(l, partition, id, d0, d);
    if partition == 0 { PartitionAgrees(d[0], d[l.bPart], l, media); }
    MediaAgrees(d[l.bPart], l, media);
  }

  // ----- the layout -----

  /** Where the areas lie: the FATs begin at sector 96 of a disk with a partition table and at 32 of one without on
      FAT32, else at 64 and at 2; a static root directory has 512 entries of 32 bytes; and each FAT is as short as it
      can be for two entries more than the partition could have clusters. */
  lemma LayoutReads(nDisk: nat, partition: nat)
    requires 2000 <= nDisk && partition < 2
    ensures var l := AutoLayout(nDisk, partition);
      && l.nPart + l.bPart == (if nDisk > 131072000 then 131072000 else nDisk)
      && l.bPart == (if partition == 0 then 63 else 0)
      && l.bPart + l.nRsv ==
         (if l.fmt == Fat32 then (if partition == 0 then 96 else 32) else if partition == 0 then 64 else 2)
      && l.nDir * 512 == (if l.fmt == Fat32 then 0 else 512 * 32)
      && 0 < l.csize && ShortestFat(l.fmt, l.nPart / l.csize + 2, l.nFat)
      && (l.fmt == Fat32 <==> l.nPart / l.csize >= 65525) && (l.fmt == Fat12 <==> l.nPart / l.csize < 4085)
  {
    hide AutoClusterSize, FatSectors, AutoType, ShortestFat, AutoLayout;
    var l := AutoLayout(nDisk, partition);
    LayoutFields(nDisk, partition);
    CsizeGiven(l.nPart);
    TypeIs(l.nPart / l.csize);
    FatIsShortest(l.fmt, l.nPart / l.csize);
  }

  lemma LayoutFields(nDisk: nat, partition: nat)
    requires MIN_SECTOR <= nDisk && partition < 2
    ensures var l := AutoLayout(nDisk, partition);
      && l.nPart == PartLength(nDisk, partition) && l.csize == AutoClusterSize(l.nPart) && 0 < l.csize
      && l.fmt == AutoType(l.nPart / l.csize) && l.nFat == FatSectors(l.fmt, l.nPart / l.csize)
      && l.bPart == PartStart(partition) && l.nRsv == Reserved(l.fmt, partition) && l.nDir == RootSectors(l.fmt)
  {
    hide AutoClusterSize, FatSectors, AutoType, Reserved, RootSectors, PartLength, PartStart;
    CsizeGiven(PartLength(nDisk, partition));
  }

  lemma TypeIs(n: nat)
    ensures (AutoType(n) == Fat32 <==> n >= 65525) && (AutoType(n) == Fat12 <==> n < 4085)
  {
  }

  lemma CsizeGiven(n: nat)
    ensures 0 < AutoClusterSize(n)
  {
  }

  /** `k` sectors, but no fewer, hold `n` entries of 12, 16 or 32 bits. */
  ghost predicate ShortestFat(t: FatType, n: nat, k: nat)
  {
    var bits := n * if t == Fat12 then 12 else if t == Fat16 then 16 else 32;
    bits <= k * 512 * 8 && (k - 1) * 512 * 8 < bits
  }

  lemma FatIsShortest(t: FatType, n: nat)
    ensures ShortestFat(t, n + 2, FatSectors(t, n))
  {
    if t == Fat12 { assert 2 * ((n * 3 + 1) / 2) in {3 * n, 3 * n + 1}; }
  }

  lemma PartitionAgrees(m: Sector, s: Sector, l: Layout, media: byte)
    requires OnePartition(m, l) && BootStart(s, l, media) && l.bPart == 63
    ensures U32(m, 454) == U32(s, 28) && U32(m, 458) == TotalSectors(s)
  {
  }

  lemma MediaAgrees(s: Sector, l: Layout, media: byte)
    requires BootStart(s, l, media)
    ensures s[21] == media
  {
  }

  lemma StartOfPartition(nDisk: nat, partition: nat)
    requires MIN_SECTOR <= nDisk && partition < 2
    ensures AutoLayout(nDisk, partition).bPart == if partition == 0 then 63 else 0
  {
    hide AutoClusterSize, FatSectors, Reserved;
  }

  lemma SectorsAre(l: Layout, partition: nat, id: VolumeId, d0: Disk, d: Disk)
    requires Sane(l, |d0|) && partition < 2 && l.bPart == (if partition == 0 then 63 else 0)
    requires Formatted(l, partition, id, d0, d)
    ensures l.bPart < |d| && d[l.bPart] == BootSector(l, Media(partition), id)
    ensures partition == 0 ==> d[0] == Mbr(l)
    ensures l.bPart + l.nRsv + l.nFat < |d|
    ensures d[l.bPart + l.nRsv] == d[l.bPart + l.nRsv + l.nFat] == FatHead(l.fmt, Media(partition))
    ensures l.fmt == Fat32 ==>
      && l.bPart + 7 < |d| && d[l.bPart + 6] == d[l.bPart]
      && d[l.bPart + 1] == d[l.bPart + 7] == FsInfo(l.nClst - 1, 0xFFFF_FFFF)
  {
    hide Mbr, BootSector, FsInfo, FatHead, Zeros;
    assert d[l.bPart] == After(l, partition, id, l.bPart, d0[l.bPart]);
    assert d[0] == After(l, partition, id, 0, d0[0]);
    var f := l.bPart + l.nRsv;
    assert d[f] == After(l, partition, id, f, d0[f]);
    assert d[f + l.nFat] == After(l, partition, id, f + l.nFat, d0[f + l.nFat]);
    if l.fmt == Fat32 {
      assert d[l.bPart + 6] == After(l, partition, id, l.bPart + 6, d0[l.bPart + 6]);
      assert d[l.bPart + 1] == After(l, partition, id, l.bPart + 1, d0[l.bPart + 1]);
      assert d[l.bPart + 7] == After(l, partition, id, l.bPart + 7, d0[l.bPart + 7]);
    }
  }

  // ----- what a mount accepts -----

  /** "FAT" at `p`. */
  ghost predicate SaysFat(s: Sector, p: nat)
  {
    p + 3 <= 512 && s[p] as char == 'F' && s[p + 1] as char == 'A' && s[p + 2] as char == 'T'
  }

  /** The mark of a boot sector. */
  ghost predicate Marked(s: Sector) { s[510] == 0x55 && s[511] == 0xAA }

  lemma CheckReads(s: Sector)
    ensures CheckFs(s) == if !Marked(s) then 2 else if SaysFat(s, 54) || SaysFat(s, 82) then 0 else 1
  {
  }

  /** The boot record is in sector 0, or where the first partition of the table there begins; its sectors have 512
      bytes. */
  lemma BootFoundReads(d: Disk, b: nat)
    requires 0 < |d|
    ensures Mount.Boot(d) == Some(b) <==>
      && b < |d| && Marked(d[b]) && (SaysFat(d[b], 54) || SaysFat(d[b], 82)) && U16(d[b], 11) == 512
      && if SaysFat(d[0], 54) || SaysFat(d[0], 82) then b == 0
         else Marked(d[0]) && d[0][446 + 4] != 0 && b == U32(d[0], 446 + 8)
  {
    hide U16, U32, LdWord, LdDword, SaysFat, CheckFs;
    CheckReads(d[0]);
    LoadsLittleEndian(d[0], 454);
    LoadsLittleEndian(d[0], 11);
    if b < |d| {
      CheckReads(d[b]);
      LoadsLittleEndian(d[b], 11);
    }
    if U32(d[0], 454) < |d| {
      CheckReads(d[U32(d[0], 454)]);
      LoadsLittleEndian(d[U32(d[0], 454)], 11);
    }
  }

  /** The areas of a volume, from a boot sector whose volume is large enough for them: FATs behind the reserved
      sectors, a root directory behind these, and behind that as many clusters as fit. */
  lemma GeometryReads(s: Sector, bsect: nat, nSectors: nat)
    requires s[13] != 0
    requires var fat := if U16(s, 22) != 0 then U16(s, 22) else U32(s, 36);
      var front := U16(s, 14) + fat * s[16] as int + U16(s, 17) / 16;
      front <= TotalSectors(s) && bsect + TotalSectors(s) < 0x1_0000_0000
    ensures var g := ParseBoot(s, bsect, nSectors);
      var clusters := g.maxClust - 2;
      && g.sectsFat == (if U16(s, 22) != 0 then U16(s, 22) else U32(s, 36)) && g.nFats == s[16] as int
      && g.csize == s[13] as int && g.nRootdir == U16(s, 17) && g.fatbase == bsect + U16(s, 14)
      && g.database == g.fatbase + g.sectsFat * g.nFats + g.nRootdir / 16
      && Filled(clusters, g.csize, bsect + TotalSectors(s) - g.database)
      && g.fatType == (if clusters < 4085 then Fat12 else if clusters < 65525 then Fat16 else Fat32)
      && g.dirbase == (if g.fatType == Fat32 then U32(s, 44) else g.fatbase + g.sectsFat * g.nFats)
      && (g.fatType == Fat32 && bsect + U16(s, 48) < 0x1_0000_0000 ==> g.fsiSector == bsect + U16(s, 48))
  {
    hide U16, U32, LdWord, LdDword, Wrap, Filled, MountType;
    LoadsLittleEndian(s, 14);
    LoadsLittleEndian(s, 17);
    LoadsLittleEndian(s, 19);
    LoadsLittleEndian(s, 22);
    LoadsLittleEndian(s, 32);
    LoadsLittleEndian(s, 36);
    LoadsLittleEndian(s, 44);
    LoadsLittleEndian(s, 48);
    var fat, rsv, root := if U16(s, 22) != 0 then U16(s, 22) else U32(s, 36), U16(s, 14), U16(s, 17) / 16;
    var fsize := fat * s[16] as int;
    ParsedAreas(s, bsect, nSectors, fat, rsv, root, fsize, TotalSectors(s));
    NoWrap(bsect + U16(s, 48));
    ClustersFill(TotalSectors(s) - rsv - fsize - root, s[13] as int);
    TypeThresholds((TotalSectors(s) - rsv - fsize - root) / s[13] as int);
  }

  /** The same in the terms of the code, where no sum wraps around. */
  lemma ParsedAreas(s: Sector, bsect: nat, nSectors: nat, fat: nat, rsv: nat, root: nat, fsize: nat, total: nat)
    requires s[13] != 0 && fat == (if LdWord(s, 22) == 0 then LdDword(s, 36) else LdWord(s, 22))
    requires rsv == LdWord(s, 14) && root == LdWord(s, 17) / 16 && fsize == fat * s[16] as int
    requires total == (if LdWord(s, 19) == 0 then LdDword(s, 32) else LdWord(s, 19))
    requires rsv + fsize + root <= total && bsect + total < 0x1_0000_0000
    ensures var g := ParseBoot(s, bsect, nSectors);
      && g.sectsFat == fat && g.nFats == s[16] && g.csize == s[13] && g.nRootdir == LdWord(s, 17)
      && g.fatbase == bsect + rsv && g.database == bsect + rsv + fsize + root
      && g.maxClust == (total - rsv - fsize - root) / s[13] + 2 && g.fatType == MountType(g.maxClust)
      && g.dirbase == (if g.fatType == Fat32 then LdDword(s, 44) else bsect + rsv + fsize)
      && g.fsiSector == if g.fatType == Fat32 then Wrap(bsect + LdWord(s, 48)) else 0
  {
    hide LdWord, LdDword, Wrap, MountType;
    NoWrap(fsize);
    NoWrap(bsect + rsv);
    NoWrap(bsect + rsv + fsize);
    NoWrap(bsect + rsv + fsize + root);
    NoWrap(total - rsv - fsize - root);
  }

  lemma NoWrap(x: nat)
    ensures x < 0x1_0000_0000 ==> Wrap(x) == x
  {
  }

  lemma TypeThresholds(n: nat)
    ensures MountType(n + 2) == if n < 4085 then Fat12 else if n < 65525 then Fat16 else Fat32
  {
  }

  /** `n` pieces of `k` fit into `m`, and not one more. */
  ghost predicate Filled(n: int, k: nat, m: int) { 0 <= n && n * k <= m < (n + 1) * k }

  lemma ClustersFill(m: nat, k: nat)
    requires 0 < k
    ensures Filled(m / k, k, m)
  {
    var q, r := m / k, m % k;
    assert m == q * k + r && (q + 1) * k == q * k + k;
  }

  /** The hints of an FSInfo sector count only if its three signatures are there. */
  lemma HintsRead(g: Geometry, d: Disk, left: dword)
    requires g.fatType == Fat32 ==> g.fsiSector < |d|
    ensures Mount.Hints(g, d, left) ==
      if g.fatType == Fat32 && Marked(d[g.fsiSector]) && U32(d[g.fsiSector], 0) == 0x4161_5252 &&
         U32(d[g.fsiSector], 484) == 0x6141_7272
      then (U32(d[g.fsiSector], 492), U32(d[g.fsiSector], 488)) else (left, 0xFFFF_FFFF)
  {
    hide U32, LdDword;
    if g.fatType == Fat32 {
      var s := d[g.fsiSector];
      LoadsLittleEndian(s, 0);
      LoadsLittleEndian(s, 484);
      LoadsLittleEndian(s, 488);
      LoadsLittleEndian(s, 492);
    }
  }

  // ----- FAT entries -----

  /** What is stored of an entry that is set, the top four bits of a FAT32 one included. */
  lemma EntriesWritten(b: seq<byte>, c: nat, v: dword)
    ensures 2 * c + 2 <= |b| ==> U16(PutAt(Fat16, b, c, v), 2 * c) == v % 0x1_0000
    ensures 4 * c + 4 <= |b| ==> U32(PutAt(Fat32, b, c, v), 4 * c) == v
  {
    hide U16, U32;
    if 2 * c + 2 <= |b| {
      var r := PutAt(Fat16, b, c, v);
      LoadsLittleEndian(r, 2 * c);
      WordParts(v);
    }
    if 4 * c + 4 <= |b| {
      var r := PutAt(Fat32, b, c, v);
      LoadsLittleEndian(r, 4 * c);
      DwordDigits(v);
    }
  }

  /** Three bytes hold two FAT12 entries; FAT16 and FAT32 entries are words and double words, these without their top
      four bits. */
  lemma EntriesRead(b: seq<byte>, k: nat)
    ensures 3 * k + 3 <= |b| ==>
      && EntryAt(Fat12, b, 2 * k) == b[3 * k] as int + 0x100 * (b[3 * k + 1] as int % 16)
      && EntryAt(Fat12, b, 2 * k + 1) == b[3 * k + 1] as int / 16 + 16 * b[3 * k + 2] as int
    ensures 2 * k + 2 <= |b| ==> EntryAt(Fat16, b, k) == U16(b, 2 * k)
    ensures 4 * k + 4 <= |b| ==> EntryAt(Fat32, b, k) == U32(b, 4 * k) % 0x1000_0000
  {
    if 3 * k + 3 <= |b| {
      assert 2 * k + 2 * k / 2 == 3 * k && 2 * k + 1 + (2 * k + 1) / 2 == 3 * k + 1;
      Nibbles(b[3 * k], b[3 * k + 1], b[3 * k + 2]);
    }
  }

  lemma Nibbles(x: byte, y: byte, z: byte)
    ensures (x as int + 0x100 * y as int) % 0x1000 == x as int + 0x100 * (y as int % 16)
    ensures (y as int + 0x100 * z as int) / 16 == y as int / 16 + 16 * z as int
  {
    var q, r := y as int / 16, y as int % 16;
    assert y as int == 16 * q + r;
    DivUnique(x as int + 0x100 * y as int, 0x1000, q, x as int + 0x100 * r);
    DivUnique(y as int + 0x100 * z as int, 16, q + 16 * z as int, r);
  }
}
