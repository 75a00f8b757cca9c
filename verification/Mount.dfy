/** chk_mounted on a disk, and the volume it gives on a freshly formatted one. */
module Mount {
  import opened Bytes
  import opened Geometry
  import opened Results
  import opened FatTable
  import opened Chains
  import opened ChainRuns
  import opened Volume
  import opened Format
  import opened Mkfs

  // ----- mounting -----

  /** The free-space hints of a mount: those of the FSInfo sector when it is one, else what was in the
        object before and an unknown count. */
  function Hints(g: Geometry, d: Disk, left: dword): (dword, dword)
  {
    if g.fatType == Fat32 && g.fsiSector < |d| && LdWord(d[g.fsiSector], 510) == 0xAA55 &&
       LdDword(d[g.fsiSector], 0) == 0x4161_5252 && LdDword(d[g.fsiSector], 484) == 0x6141_7272
    then (LdDword(d[g.fsiSector], 492), LdDword(d[g.fsiSector], 488))
    else (left, 0xFFFF_FFFF)
  }

  /** The boot sector that mount accepts, if any. */
  function Boot(d: Disk): Option<nat>
    requires 0 < |d|
    ensures Boot(d).Some? ==> Boot(d).value < |d|
  {
    match FindBoot(d)
    case Some(b) => if LdWord(d[b], 11) == 512 then Some(b) else None
    case None => None
  }

  /** The volume invariant, for the volume that mount would find: mount itself does not check it. */
  ghost predicate Mountable(d: Disk)
  {
    && 0 < |d|
    && (Boot(d).Some? ==>
          && d[Boot(d).value][13] != 0
          && ParseBoot(d[Boot(d).value], Boot(d).value, |d|).Ok()
          && Mirrored(ParseBoot(d[Boot(d).value], Boot(d).value, |d|), d))
  }

  /** The partition table points behind the end of the drive. */
  predicate BeyondDrive(d: Disk)
    requires 0 < |d|
  {
    CheckFs(d[0]) == 1 && d[0][450] != 0 && LdDword(d[0], 454) >= |d|
  }

  /** The search of chk_mounted for a boot record, on every drive. */
  method ReadBoot(d: Disk) returns (res: FResult, bsect: nat)
    requires 0 < |d|
    ensures res == if BeyondDrive(d) then DiskErr else if Boot(d).None? then NoFilesystem else Ok
    ensures res == Ok ==> Boot(d) == Some(bsect) && bsect < |d| && CheckFs(d[bsect]) == 0 && LdWord(d[bsect], 11) == 512
  {
    bsect := 0;
    var fmt := CheckFs(d[0]);
    if fmt == 1 && d[0][450] != 0 {
      bsect := LdDword(d[0], 454);
      fmt := if bsect < |d| then CheckFs(d[bsect]) else 3;
    }
    if fmt == 3 { return DiskErr, bsect; }
    if fmt != 0 || LdWord(d[bsect], 11) != 512 { return NoFilesystem, bsect; }
    res := Ok;
  }

  /** chk_mounted on a volume not mounted yet; `left` and `flag` are what the object's last_clust and fsi_flag held. */
  method MountDisk(d: Disk, left: dword, flag: bool) returns (res: FResult, fs: FatFs?)
    requires Mountable(d)
    ensures res == if BeyondDrive(d) then DiskErr else if Boot(d).None? then NoFilesystem else Ok
    ensures res == Ok <==> fs != null
    ensures fs != null ==>
      && fresh(fs) && fresh(fs.win) && fs.Valid() && fs.image == fs.disk == d && fs.winsect == 0 && !fs.wflag
      && fs.fsiFlag == (fs.g.fatType != Fat32 && flag)
      && fs.g == ParseBoot(d[Boot(d).value], Boot(d).value, |d|)
      && (fs.lastClust, fs.freeClust) == Hints(fs.g, d, left)
  {
    hide ParseBoot, Mirrored, CheckFs, FindBoot;
    var bsect;
    res, bsect := ReadBoot(d);
    if res != Ok { return res, null; }
    var g := ParseBoot(d[bsect], bsect, |d|);
    ParseSectors(d[bsect], bsect, |d|);
    FatAreaHolds(g);
    var (last, free) := Hints(g, d, left);
    fs := new FatFs(g, d, d[if g.fatType == Fat32 then g.fsiSector else bsect], last, free,
                     g.fatType != Fat32 && flag);
  }

  /** A boot record found is not beyond the drive. */
  lemma FoundIsOnDrive(d: Disk)
    requires 0 < |d| && Boot(d).Some?
    ensures !BeyondDrive(d)
  {
  }

  lemma ParseSectors(s: Sector, bsect: nat, n: nat)
    requires s[13] != 0
    ensures ParseBoot(s, bsect, n).nSectors == n
  {
  }

  // ----- a fresh volume -----

  lemma MbrSays(l: Layout)
    ensures CheckFs(Mbr(l)) == 1 && Mbr(l)[450] != 0 && LdDword(Mbr(l), 454) == 63
  {
    var s := Mbr(l);
    assert HasWord(s, 510, 0xAA55);
    HasWordLoads(s, 510, 0xAA55);
    assert HasDword(s, 454, 63);
    HasDwordLoads(s, 454, 63);
  }

  /** Mount finds the boot sector where f_mkfs put it. */
  lemma BootFound(l: Layout, partition: nat, id: VolumeId, d0: Disk, d: Disk)
    requires Sane(l, |d0|) && partition < 2 && l.bPart == PartStart(partition)
    requires Formatted(l, partition, id, d0, d)
    ensures Boot(d) == Some(l.bPart) && d[l.bPart] == BootSector(l, Media(partition), id)
  {
    hide Mbr, BootSector, FsInfo, FatHead, CheckFs;
    BootSays(l, Media(partition), id);
    BootIsFat(l, BootSector(l, Media(partition), id));
    assert d[l.bPart] == After(l, partition, id, l.bPart, d0[l.bPart]);
    if partition == 0 {
      assert d[0] == After(l, partition, id, 0, d0[0]);
      MbrSays(l);
    }
  }

  /** The FAT area of a formatted disk. */
  lemma FatSectorsAre(l: Layout, partition: nat, id: VolumeId, d0: Disk, d: Disk, i: nat)
    requires Sane(l, |d0|) && Formatted(l, partition, id, d0, d) && FatStart(l) <= i < RootStart(l)
    ensures i < |d|
    ensures d[i] == if i == FatStart(l) || i == FatStart(l) + l.nFat then FatHead(l.fmt, Media(partition))
      else Zeros(512)
  {
    hide Mbr, BootSector, FsInfo, FatHead;
    assert d[i] == After(l, partition, id, i, d0[i]);
  }

  /** What a fresh table holds: the reserved entries, the root directory's cluster on FAT32, and zeros. */
  predicate IsFresh(t: FatType, f: seq<nat>)
  {
    forall c :: 0 <= c < |f| ==> f[c] == if c < 2 then 1 else if c == 2 && t == Fat32 then 0xFFF_FFFF else 0
  }

  /** The bytes of a fresh FAT copy. */
  lemma FreshByte(l: Layout, partition: nat, id: VolumeId, d0: Disk, d: Disk, g: Geometry, i: nat)
    requires Sane(l, |d0|) && Formatted(l, partition, id, d0, d) && DiskOf(g, d)
    requires g == Mounted(l, |d|) && i < g.sectsFat * 512
    ensures FatBytes(g, d)[i] == if i < 512 then FatHead(l.fmt, Media(partition))[i] else 0
  {
    hide FatHead, FatBytes, Formatted;
    SectorOfFat(g, d, i / 512);
    FatSectorsAre(l, partition, id, d0, d, FatStart(l) + i / 512);
    assert FatBytes(g, d)[i] == Piece(FatBytes(g, d), i / 512)[i % 512];
  }

  /** How many bytes at the start of a fresh FAT are set. */
  function Lead(t: FatType): nat { if t == Fat12 then 3 else if t == Fat16 then 4 else 12 }

  /** The bytes of a fresh FAT: set bits in both reserved entries and the root entry of FAT32, zeros behind. */
  predicate FreshBytes(t: FatType, b: seq<byte>)
  {
    && 512 <= |b| && (forall i :: Lead(t) <= i < |b| ==> b[i] == 0)
    && b[1] == b[2] == 0xFF && (t != Fat12 ==> b[3] == 0xFF)
    && (t == Fat32 ==> b[4] == b[5] == b[6] == b[7] == b[8] == b[9] == b[10] == 0xFF && b[11] == 0x0F)
  }

  lemma BytesAbove(k: nat, low: byte)
    ensures var v := 0x100 * k + low as int;
      Byte1(v) == Byte0(k) && Byte2(v) == Byte1(k) && Byte3(v) == Byte2(k)
  {
    var v := 0x100 * k + low as int;
    assert v / 0x100 == k && v / 0x1_0000 == k / 0x100 && v / 0x100_0000 == k / 0x1_0000;
  }

  lemma HeadIsFresh(t: FatType, media: byte)
    ensures FreshBytes(t, FatHead(t, media))
  {
    if t == Fat32 {
      assert Byte0(0xFFFF_FFF8) == 0xF8 && Byte1(0xFFFF_FFF8) == Byte2(0xFFFF_FFF8) == Byte3(0xFFFF_FFF8) == 0xFF;
    } else {
      BytesAbove(0x0000_FFFF, media);
      BytesAbove(0x00FF_FFFF, media);
    }
  }

  /** Every entry from the third on reads 0, except the root directory's on FAT32. */
  lemma FreshEntry(t: FatType, b: seq<byte>, c: nat)
    requires FreshBytes(t, b) && 2 <= c && EntryByte(t, c) + EntryWidth(t) <= |b|
    ensures EntryAt(t, b, c) == if c == 2 && t == Fat32 then 0xFFF_FFFF else 0
  {
  }

  lemma FreshReserved(t: FatType, b: seq<byte>)
    requires FreshBytes(t, b)
    ensures !ReservedClear(t, b)
  {
  }

  /** The table of a fresh volume, and its reserved entries. */
  lemma FreshTable(l: Layout, partition: nat, id: VolumeId, d0: Disk, d: Disk, g: Geometry)
    requires Sane(l, |d0|) && Formatted(l, partition, id, d0, d) && DiskOf(g, d)
    requires g == Mounted(l, |d|) && g.fatType == l.fmt
    ensures IsFresh(g.fatType, Fat(g, d)) && !ReservedClear(g.fatType, FatBytes(g, d))
  {
    hide FatHead, FatBytes, Fat, Formatted, EntryAt, ReservedClear;
    var b, t := FatBytes(g, d), g.fatType;
    HeadIsFresh(t, Media(partition));
    assert FreshBytes(t, b) by {
      forall i | 0 <= i < |b| ensures b[i] == if i < 512 then FatHead(t, Media(partition))[i] else 0 {
        FreshByte(l, partition, id, d0, d, g, i);
      }
    }
    FreshReserved(t, b);
    forall c | 0 <= c < g.maxClust
      ensures Fat(g, d)[c] == if c < 2 then 1 else if c == 2 && t == Fat32 then 0xFFF_FFFF else 0
    {
      FatAt(g, d, c);
      if c >= 2 { FreshEntry(t, b, c); }
    }
  }

  /** All FAT copies of a formatted disk are equal. */
  lemma FreshMirrors(l: Layout, partition: nat, id: VolumeId, d0: Disk, d: Disk, g: Geometry)
    requires Sane(l, |d0|) && Formatted(l, partition, id, d0, d) && DiskOf(g, d) && g == Mounted(l, |d|)
    ensures Mirrored(g, d)
  {
    hide FatHead, Formatted;
    TimesIsProduct(2, l.nFat);
    forall i | g.fatbase <= i && i + g.sectsFat < g.FatEnd() ensures SameInNext(g, d, i) {
      FatSectorsAre(l, partition, id, d0, d, i);
      FatSectorsAre(l, partition, id, d0, d, i + g.sectsFat);
    }
  }

  /** The chains of a fresh volume: the root directory's on FAT32. */
  function RootChains(t: FatType): seq<seq<nat>> { if t == Fat32 then [[2]] else [] }

  lemma {:induction false} FreshCount(t: FatType, f: seq<nat>, n: nat)
    requires IsFresh(t, f) && 2 <= n <= |f|
    ensures FreeBelow(f, n) == if t == Fat32 && n > 2 then n - 3 else n - 2
  {
    if n > 2 { FreshCount(t, f, n - 1); }
  }

  /** A fresh table meets the allocation invariant: all that is in use is the root directory, if it has one. */
  lemma FreshOwned(t: FatType, f: seq<nat>, last: nat, free: nat, eoc: nat)
    requires IsFresh(t, f) && 3 <= |f| <= 0xFFF_FFF7 && eoc >= |f|
    requires free == UNKNOWN || free == if t == Fat32 then |f| - 3 else |f| - 2
    ensures Inv(Owned(Alloc(f, last, free), eoc, RootChains(t)))
  {
    FreshCount(t, f, |f|);
    var chains := RootChains(t);
    if t == Fat32 {
      assert Links(f, [2], 0);
      assert chains[0] == [2] && 2 in chains[0];
      assert OwnedBy(chains, 2);
    }
  }

  lemma FsInfoSays(free: nat, last: nat)
    ensures var s := FsInfo(free, last);
      && LdWord(s, 510) == 0xAA55 && LdDword(s, 0) == 0x4161_5252 && LdDword(s, 484) == 0x6141_7272
      && LdDword(s, 488) == free % 0x1_0000_0000 && LdDword(s, 492) == last % 0x1_0000_0000
  {
    hide FsInfo, LdWord, LdDword, HasWord, HasDword;
    var s := FsInfo(free, last);
    InfoFields(free, last);
    HasWordLoads(s, 510, 0xAA55);
    HasDwordLoads(s, 0, 0x4161_5252);
    HasDwordLoads(s, 484, 0x6141_7272);
    HasDwordLoads(s, 488, free);
    HasDwordLoads(s, 492, last);
  }

  lemma InfoFields(free: nat, last: nat)
    ensures var s := FsInfo(free, last);
      && HasWord(s, 510, 0xAA55) && HasDword(s, 0, 0x4161_5252) && HasDword(s, 484, 0x6141_7272)
      && HasDword(s, 488, free) && HasDword(s, 492, last)
  {
    hide Byte0, Byte1, Byte2, Byte3;
  }

  /** The hints a mount of a formatted disk takes: on FAT32 the exact free count and no start point. */
  lemma FreshHints(l: Layout, partition: nat, id: VolumeId, d0: Disk, d: Disk, g: Geometry, left: dword)
    requires Sane(l, |d0|) && Formatted(l, partition, id, d0, d)
    requires g == Mounted(l, |d|) && g.fatType == l.fmt
    ensures Hints(g, d, left) == if l.fmt == Fat32 then (0xFFFF_FFFF, l.nClst - 1) else (left, 0xFFFF_FFFF)
  {
    hide Mbr, BootSector, FsInfo, FatHead, LdWord, LdDword, MountType;
    if l.fmt == Fat32 {
      assert d[g.fsiSector] == After(l, partition, id, g.fsiSector, d0[g.fsiSector]);
      FsInfoSays(l.nClst - 1, 0xFFFF_FFFF);
    }
  }

  lemma FormattedLength(d0: Disk, partition: nat, id: VolumeId, d: Disk)
    requires MIN_SECTOR <= |d0| && partition < 2
    requires AutoLayout(|d0|, partition).csize < 256 && Formatted(AutoLayout(|d0|, partition), partition, id, d0, d)
    ensures |d| == |d0|
  {
  }

  /** Format-then-mount agreement, with everything the driver needs of a volume: mount finds the boot sector,
      re-derives the layout and the type, and the allocation invariant holds with only the root directory in use. */
  lemma FreshVolume(d0: Disk, partition: nat, id: VolumeId, d: Disk, left: dword)
    requires MIN_SECTOR <= |d0| < 0x1_0000_0000 && partition < 2
    requires AutoLayout(|d0|, partition).csize < 256 && Formatted(AutoLayout(|d0|, partition), partition, id, d0, d)
    requires !InBand(PartLength(|d0|, partition), partition)
    ensures var l := AutoLayout(|d0|, partition);
      var g := Mounted(l, |d|);
      && g.fatType == l.fmt && g.Ok() && Boot(d) == Some(l.bPart)
      && d[l.bPart][13] != 0 && ParseBoot(d[l.bPart], l.bPart, |d|) == g && Mirrored(g, d)
      && IsFresh(l.fmt, Fat(g, d)) && !ReservedClear(g.fatType, FatBytes(g, d))
      && Inv(Owned(Alloc(Fat(g, d), Hints(g, d, left).0, Hints(g, d, left).1), Mask(g.fatType, 0xFFF_FFFF),
          RootChains(l.fmt)))
  {
    hide AutoLayout, Formatted, Fat, FatBytes, IsBoot, ParseBoot, Mirrored, IsFresh, ReservedClear, Hints, BootSector,
         InBand, Boot;
    var l := AutoLayout(|d0|, partition);
    LayoutBounds(|d0|, partition);
    FormattedLength(d0, partition, id, d);
    TypeAgreesOutsideBand(|d0|, partition);
    TypeAgrees(|d0|, partition);
    LayoutIsSafe(|d0|, partition);
    var g := Mounted(l, |d|);
    StartOfLayout(|d0|, partition);
    BootFound(l, partition, id, d0, d);
    BootSays(l, Media(partition), id);
    ParseAgrees(|d0|, partition, d[l.bPart]);
    FreshMirrors(l, partition, id, d0, d, g);
    FreshTable(l, partition, id, d0, d, g);
    FreshHints(l, partition, id, d0, d, g, left);
    MaskKeeps(g);
    FreshOwned(l.fmt, Fat(g, d), Hints(g, d, left).0, Hints(g, d, left).1, Mask(g.fatType, 0xFFF_FFFF));
  }

  lemma StartOfLayout(nDisk: nat, partition: nat)
    requires MIN_SECTOR <= nDisk && partition < 2
    ensures AutoLayout(nDisk, partition).bPart == PartStart(partition)
  {
  }

  /** f_mkfs and then a mount, on every disk outside the band: the volume is valid, its type is the one that was
      formatted, and its table is fresh. */
  method FormatAndMount(d0: Disk, partition: nat, id: VolumeId, left: dword, flag: bool)
    returns (fs: FatFs)
    requires MIN_SECTOR <= |d0| < 0x1_0000_0000 && partition < 2 && !InBand(PartLength(|d0|, partition), partition)
    ensures fresh(fs) && fresh(fs.win) && fs.Valid() && fs.g == Mounted(AutoLayout(|d0|, partition), |d0|)
    ensures fs.g.fatType == AutoLayout(|d0|, partition).fmt && IsFresh(fs.g.fatType, Fat(fs.g, fs.image))
    ensures Inv(Owned(fs.Table(), Mask(fs.g.fatType, 0xFFF_FFFF), RootChains(fs.g.fatType)))
    ensures !ReservedClear(fs.g.fatType, FatBytes(fs.g, fs.image))
    ensures AutoLayout(|d0|, partition).csize < 256
    ensures Formatted(AutoLayout(|d0|, partition), partition, id, d0, fs.image) && |fs.image| == |d0|
  {
    hide AutoLayout, Formatted, Fat, FatBytes, IsFresh, ReservedClear, Hints, Inv, ParseBoot, Boot, Mirrored, Mounted;
    var res, d := FormatDisk(d0, partition, id);
    FreshVolume(d0, partition, id, d, left);
    FormattedLength(d0, partition, id, d);
    FoundIsOnDrive(d);
    var m, v := MountDisk(d, left, flag);
    fs := v;
  }
}
