/** The disk that f_mkfs writes, and the volume that mounting it gives. */
module Mkfs {
  import opened Bytes
  import opened Geometry
  import opened Results
  import opened Volume
  import opened Format

  // ----- the disk after f_mkfs -----

  /** The master boot record with its one partition. */
  function Mbr(l: Layout): Sector
  {
    var end := l.bPart + l.nPart;
    var s := StDword(Zeros(512), 446, 0x0001_0180);
    var s := if end < 63 * 255 * 1024 then
               s[453 := end / 63 / 255 % 0x100][452 := (end / 63 / 255 / 4 / 64 * 64 + 63) % 0x100]
             else StWord(s, 452, 0xFFFF);
    var s := s[451 := 254][450 := if l.fmt == Fat32 then 0x0C else if l.nPart < 0x1_0000 then 0x04 else 0x06];
    StWord(StDword(StDword(s, 454, 63), 458, l.nPart), 510, 0xAA55)
  }

  function Media(partition: nat): byte { if partition == 0 then 0xF8 else 0xF0 }

  /** The first sector of a FAT copy: the reserved entries, and on FAT32 the root directory's cluster. */
  function FatHead(t: FatType, media: byte): Sector
  {
    if t == Fat32 then StDword(StDword(StDword(Zeros(512), 0, 0xFFFF_FFF8), 4, 0xFFFF_FFFF), 8, 0x0FFF_FFFF)
    else StDword(Zeros(512), 0, (if t == Fat12 then 0x00FF_FF00 else 0xFFFF_FF00) + media as int)
  }

  function FatStart(l: Layout): nat { l.bPart + l.nRsv }

  function RootStart(l: Layout): nat { FatStart(l) + l.nFat * N_FATS }

  /** Sectors of the root directory: the static area, or the first cluster. */
  function RootLength(l: Layout): nat { if l.fmt == Fat32 then l.csize else l.nDir }

  /** What f_mkfs makes of sector `i`, which held `was`. */
  function After(l: Layout, partition: nat, id: VolumeId, i: nat, was: Sector): Sector
    requires l.csize < 256
  {
    if i == 0 && partition == 0 then Mbr(l)
    else if i == l.bPart || (l.fmt == Fat32 && i == l.bPart + 6) then BootSector(l, Media(partition), id)
    else if l.fmt == Fat32 && (i == l.bPart + 1 || i == l.bPart + 7) then
      FsInfo(if l.nClst > 0 then l.nClst - 1 else 0, 0xFFFF_FFFF)
    else if i == FatStart(l) || i == FatStart(l) + l.nFat then FatHead(l.fmt, Media(partition))
    else if FatStart(l) <= i < RootStart(l) + RootLength(l) then Zeros(512)
    else was
  }

  /** `d` is the disk `d0` formatted with layout `l`. */
  ghost predicate Formatted(l: Layout, partition: nat, id: VolumeId, d0: Disk, d: Disk)
    requires l.csize < 256
  {
    |d| == |d0| && forall i :: 0 <= i < |d| ==> d[i] == After(l, partition, id, i, d0[i])
  }

  /** Sector `i` once the FAT sectors before `end` are written. */
  function FatArea(l: Layout, media: byte, end: nat, i: nat, was: Sector): Sector
  {
    if i < end && (i == FatStart(l) || i == FatStart(l) + l.nFat) then FatHead(l.fmt, media)
    else if FatStart(l) <= i < end then Zeros(512)
    else was
  }

  /** The FAT areas: a head sector and zeros, for each copy. */
  method WriteFats(l: Layout, partition: nat, d0: Disk) returns (d: Disk)
    requires RootStart(l) <= |d0| && 1 <= l.nFat
    ensures |d| == |d0|
    ensures forall i :: 0 <= i < |d| ==> d[i] == FatArea(l, Media(partition), RootStart(l), i, d0[i])
  {
    hide FatHead, Zeros;
    d := d0;
    var bFat := FatStart(l);
    for m := 0 to N_FATS
      invariant |d| == |d0| && bFat == FatStart(l) + m * l.nFat
      invariant forall i :: 0 <= i < |d| ==> d[i] == FatArea(l, Media(partition), bFat, i, d0[i])
    {
      d := d[bFat := FatHead(l.fmt, Media(partition))];
      bFat := bFat + 1;
      for n := 1 to l.nFat
        invariant |d| == |d0| && bFat == FatStart(l) + m * l.nFat + n
        invariant forall i :: 0 <= i < |d| ==> d[i] == FatArea(l, Media(partition), bFat, i, d0[i])
      {
        d := d[bFat := Zeros(512)];
        bFat := bFat + 1;
      }
    }
  }

  /** `n` zero sectors from `from` on; the loop of the source runs at least once. */
  method WriteZeros(from: nat, n: nat, d0: Disk) returns (d: Disk)
    requires from + n <= |d0| && 1 <= n
    ensures |d| == |d0| && forall i :: 0 <= i < |d| ==> d[i] == if from <= i < from + n then Zeros(512) else d0[i]
  {
    hide Zeros;
    d := d0[from := Zeros(512)];
    var m := n - 1;
    while m > 0
      invariant 0 <= m < n && |d| == |d0|
      invariant forall i :: 0 <= i < |d| ==> d[i] == if from <= i < from + n - m then Zeros(512) else d0[i]
    {
      d := d[from + n - m := Zeros(512)];
      m := m - 1;
    }
  }

  /** f_mkfs with automatic cluster size and type; `id` is the serial number and the label. */
  method FormatDisk(d0: Disk, partition: nat, id: VolumeId) returns (res: FResult, d: Disk)
    requires |d0| < 0x1_0000_0000
    ensures res == if partition >= 2 || |d0| < MIN_SECTOR then MkfsAborted else Ok
    ensures res != Ok ==> d == d0
    ensures res == Ok ==> AutoLayout(|d0|, partition).csize < 256
    ensures res == Ok ==> Formatted(AutoLayout(|d0|, partition), partition, id, d0, d)
  {
    hide AutoLayout, Mbr, BootSector, FsInfo, FatHead, Zeros;
    d := d0;
    if partition >= 2 { return MkfsAborted, d; }
    if |d| < MIN_SECTOR { return MkfsAborted, d; }
    var l := Plan(|d|, partition);
    LayoutBounds(|d|, partition);
    if partition == 0 { d := d[0 := Mbr(l)]; }
    d := d[l.bPart := BootSector(l, Media(partition), id)];
    if l.fmt == Fat32 { d := d[l.bPart + 6 := BootSector(l, Media(partition), id)]; }
    d := WriteFats(l, partition, d);
    RootFits(l, |d|);
    d := WriteZeros(RootStart(l), RootLength(l), d);
    if l.fmt == Fat32 {
      d := d[l.bPart + 1 := FsInfo(l.nClst - 1, 0xFFFF_FFFF)];
      d := d[l.bPart + 7 := FsInfo(l.nClst - 1, 0xFFFF_FFFF)];
    }
    res := Ok;
  }

  lemma RootFits(l: Layout, nDisk: nat)
    requires Sane(l, nDisk) && (l.fmt != Fat32 ==> l.nDir == 32)
    ensures RootStart(l) + RootLength(l) <= nDisk && 1 <= RootLength(l)
  {
    assert l.fmt == Fat32 ==> l.nClst * 64 <= l.nPart - l.nRsv - l.nFat * N_FATS - l.nDir;
  }

  /** The layout computation of f_mkfs, step by step. */
  method Plan(nDisk: nat, partition: nat) returns (l: Layout)
    requires MIN_SECTOR <= nDisk && partition < 2
    ensures l == AutoLayout(nDisk, partition)
    ensures l.bPart == PartStart(partition) && (l.fmt != Fat32 ==> l.nDir == 32)
  {
    hide AutoClusterSize, FatSectors, Reserved;
    var nPart := nDisk;
    if nPart > MAX_SECTOR { nPart := MAX_SECTOR; }
    var bPart := if partition == 0 then 63 else 0;
    nPart := nPart - bPart;
    var allocsize := PickClusterSize(nPart);
    TableRow(nPart);
    allocsize := allocsize / 512;
    var nClst := nPart / allocsize;
    var fmt := Fat12;
    if nClst >= 0xFF5 { fmt := Fat16; }
    if nClst >= 0xFFF5 { fmt := Fat32; }
    var nFat, nRsv, nDir := FatSectors(fmt, nClst), Reserved(fmt, partition), RootSectors(fmt);
    SizesFit(nPart, partition);
    l := Layout(fmt, bPart, nPart, allocsize, nRsv, nFat, nDir, (nPart - nRsv - nFat * N_FATS - nDir) / allocsize);
  }
}
