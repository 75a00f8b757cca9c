/** f_mkfs with automatic cluster size and type, and the layout part of chk_mounted that reads it back. */
module Format {
  import opened Bytes
  import opened Geometry

  const N_ROOTDIR: nat := 512
  const N_FATS: nat := 2
  const MAX_SECTOR: nat := 131072000
  const MIN_SECTOR: nat := 2000

  // ----- layout -----

  /** The areas f_mkfs lays out, in sectors. */
  datatype Layout = Layout(
    fmt: FatType,
    bPart: nat,    // first sector of the partition
    nPart: nat,    // its length
    csize: nat,    // sectors per cluster
    nRsv: nat,     // reserved sectors before the FATs
    nFat: nat,     // sectors per FAT copy
    nDir: nat,     // sectors of the static root directory
    nClst: nat)    // clusters

  /** The cluster size that the tables sstbl and cstbl give for a partition of `d` sectors. */
  function AutoClusterSize(d: nat): nat
  {
    if d >= 2048000 then 64 else if d >= 1024000 then 32 else if d >= 512000 then 16
    else if d >= 256000 then 8 else if d >= 128000 then 4 else if d >= 64000 then 32
    else if d >= 32000 then 16 else if d >= 16000 then 8 else if d >= 8000 then 4
    else if d >= 4000 then 2 else 1
  }

  function AutoType(n: nat): FatType
  {
    if n >= 0xFFF5 then Fat32 else if n >= 0xFF5 then Fat16 else Fat12
  }

  /** Sectors of one FAT copy for `n` clusters. */
  function FatSectors(t: FatType, n: nat): nat
  {
    match t
    case Fat12 => ((n * 3 + 1) / 2 + 3 + 512 - 1) / 512
    case Fat16 => (n * 2 + 4 + 512 - 1) / 512
    case Fat32 => (n * 4 + 8 + 512 - 1) / 512
  }

  function Reserved(t: FatType, partition: nat): nat
    requires partition < 2
  {
    if t == Fat32 then 33 - partition else 1 + partition
  }

  function RootSectors(t: FatType): nat { if t == Fat32 then 0 else N_ROOTDIR * 32 / 512 }

  /** The partition f_mkfs makes of a disk. */
  function PartStart(partition: nat): nat { if partition == 0 then 63 else 0 }

  function PartLength(nDisk: nat, partition: nat): nat
    requires MIN_SECTOR <= nDisk
  {
    (if nDisk > MAX_SECTOR then MAX_SECTOR else nDisk) - PartStart(partition)
  }

  /** The layout of f_mkfs for a disk of `nDisk` sectors. */
  function AutoLayout(nDisk: nat, partition: nat): Layout
    requires MIN_SECTOR <= nDisk && partition < 2
  {
    var nPart := PartLength(nDisk, partition);
    var csize := AutoClusterSize(nPart);
    var t := AutoType(nPart / csize);
    var nFat, nRsv, nDir := FatSectors(t, nPart / csize), Reserved(t, partition), RootSectors(t);
    SizesFit(nPart, partition);
    Layout(t, PartStart(partition), nPart, csize, nRsv, nFat, nDir, (nPart - nRsv - nFat * N_FATS - nDir) / csize)
  }

  lemma SizesFit(nPart: nat, partition: nat)
    requires MIN_SECTOR - 63 <= nPart && partition < 2
    ensures var c := AutoClusterSize(nPart);
      var t := AutoType(nPart / c);
      Reserved(t, partition) + FatSectors(t, nPart / c) * N_FATS + RootSectors(t) + c <= nPart
  {
  }

  const SSTBL: seq<nat> := [2048000, 1024000, 512000, 256000, 128000, 64000, 32000, 16000, 8000, 4000, 0]
  const CSTBL: seq<nat> := [32768, 16384, 8192, 4096, 2048, 16384, 8192, 4096, 2048, 1024, 512]

  /** The table walk of f_mkfs; the result is in bytes. */
  method PickClusterSize(d: nat) returns (allocsize: nat)
    ensures allocsize == AutoClusterSize(d) * 512
  {
    var n := 0;
    while d < SSTBL[n]
      invariant 0 <= n < |SSTBL| && (n == 0 || d < SSTBL[n - 1])
      decreases |SSTBL| - n
    {
      n := n + 1;
    }
    allocsize := CSTBL[n];
  }

  // ----- what mount derives -----

  /** The type chk_mounted concludes from the number of clusters + 2. */
  function MountType(mclst: nat): FatType
  {
    if mclst >= 0xFFF7 then Fat32 else if mclst >= 0xFF7 then Fat16 else Fat12
  }

  function Wrap(x: int): nat { x % 0x1_0000_0000 }

  /** The layout part of chk_mounted on a boot sector found at `bsect`, in DWORD arithmetic. */
  function ParseBoot(s: Sector, bsect: nat, nSectors: nat): Geometry
    requires s[13] != 0
  {
    var sects := if LdWord(s, 22) == 0 then LdDword(s, 36) else LdWord(s, 22);
    var fsize := Wrap(sects * s[16]);
    var fatbase := Wrap(bsect + LdWord(s, 14));
    var csize, nRoot := s[13], LdWord(s, 17);
    var tsect := if LdWord(s, 19) == 0 then LdDword(s, 32) else LdWord(s, 19);
    var mclst := Wrap(tsect as int - LdWord(s, 14) as int - fsize - nRoot as int / 16) / (csize as int) + 2;
    var t := MountType(mclst);
    Geometry(t, fatbase, sects, s[16], csize, nRoot, mclst,
             if t == Fat32 then LdDword(s, 44) else Wrap(fatbase + fsize),
             Wrap(fatbase + fsize + nRoot as int / 16),
             if t == Fat32 then Wrap(bsect + LdWord(s, 48)) else 0, nSectors)
  }

  predicate HasFatMark(s: seq<byte>, p: nat)
  {
    p + 2 < |s| && s[p] == 0x46 && s[p + 1] == 0x41 && s[p + 2] == 0x54
  }

  /** check_fs: 0 for a FAT boot record, 1 for another boot record, 2 for neither. */
  function CheckFs(s: Sector): nat
  {
    if LdWord(s, 510) != 0xAA55 then 2 else if HasFatMark(s, 54) || HasFatMark(s, 82) then 0 else 1
  }

  datatype Option<T> = None | Some(value: T)

  /** Where chk_mounted finds the boot record: in sector 0, or in the first partition of the table there. */
  function FindBoot(d: Disk): Option<nat>
    requires 0 < |d|
  {
    if CheckFs(d[0]) == 0 then Some(0)
    else if CheckFs(d[0]) == 1 && d[0][450] != 0 && LdDword(d[0], 454) < |d| && CheckFs(d[LdDword(d[0], 454)]) == 0 then
      Some(LdDword(d[0], 454))
    else None
  }

  // ----- the sectors f_mkfs writes -----

  /** What the boot sector says: the fields that mount reads. */
  predicate IsBoot(l: Layout, s: Sector)
  {
    && HasWord(s, 11, 512) && s[13] == l.csize && HasWord(s, 14, l.nRsv) && s[16] == N_FATS
    && HasWord(s, 17, 16 * l.nDir)
    && (if l.nPart < 0x1_0000 then HasWord(s, 19, l.nPart) else s[19] == 0 == s[20] && HasDword(s, 32, l.nPart))
    && HasWord(s, 510, 0xAA55)
    && (if l.fmt == Fat32
        then s[22] == 0 == s[23] && HasDword(s, 36, l.nFat) && HasDword(s, 44, 2) && HasWord(s, 48, 1) &&
          HasFatMark(s, 82)
        else HasWord(s, 22, l.nFat) && HasFatMark(s, 54))
  }

  /** What the caller and the clock put into a boot sector: the serial number and the label ("NO NAME" by default). */
  datatype VolumeId = VolumeId(serial: dword, title: seq<byte>)

  function ToUpper(c: byte): byte { if 0x61 <= c <= 0x7A then c - 0x20 else c }

  /** The two text fields: the label in capitals, padded to 11 characters, and the type. */
  function VolumeText(t: FatType, title: seq<byte>): (s: seq<byte>)
    ensures |s| == 19 && s[11] == 0x46 && s[12] == 0x41 && s[13] == 0x54
    ensures forall k :: 0 <= k < 11 ==> s[k] == if k < |title| then ToUpper(title[k]) else 0x20
  {
    var digits := if t == Fat12 then [0x31, 0x32] else if t == Fat16 then [0x31, 0x36] else [0x33, 0x32];
    seq(11, k requires 0 <= k => if k < |title| then ToUpper(title[k]) else 0x20) + [0x46, 0x41, 0x54] + digits +
      [0x20, 0x20, 0x20]
  }

  /** The boot sector: the part common to all types, and the rest. */
  function BootHead(l: Layout, media: byte): Sector
    requires l.csize < 256
  {
    var s := StWord(StDword(Zeros(512), 0, 0x90_FEEB), 11, 512)[13 := l.csize];
    var s := StWord(StWord(s, 14, l.nRsv)[16 := N_FATS], 17, 16 * l.nDir);
    var s := if l.nPart < 0x1_0000 then StWord(s, 19, l.nPart) else StDword(s, 32, l.nPart);
    StDword(StWord(StWord(s[21 := media], 24, 63), 26, 255), 28, l.bPart)
  }

  function BootTail(l: Layout, s: Sector, id: VolumeId): Sector
  {
    if l.fmt != Fat32 then
      var s := StWord(StDword(s, 39, id.serial), 22, l.nFat)[36 := 0x80][38 := 0x29];
      StWord(Splice(s, 43, VolumeText(l.fmt, id.title)), 510, 0xAA55)
    else
      var s := StDword(StDword(StDword(s, 67, id.serial), 36, l.nFat), 44, 2);
      var s := StWord(StWord(s, 48, 1), 50, 6)[64 := 0x80][66 := 0x29];
      StWord(Splice(s, 71, VolumeText(l.fmt, id.title)), 510, 0xAA55)
  }

  function BootSector(l: Layout, media: byte, id: VolumeId): Sector
    requires l.csize < 256
  {
    BootTail(l, BootHead(l, media), id)
  }

  lemma HeadSays(l: Layout, media: byte)
    requires l.csize < 256
    ensures var s := BootHead(l, media);
      && HasWord(s, 11, 512) && s[13] == l.csize && HasWord(s, 14, l.nRsv) && s[16] == N_FATS
      && HasWord(s, 17, 16 * l.nDir)
      && (if l.nPart < 0x1_0000 then HasWord(s, 19, l.nPart) else s[19] == 0 == s[20] && HasDword(s, 32, l.nPart))
      && s[22] == 0 == s[23]
  {
    hide Byte0, Byte1, Byte2, Byte3;
    if l.nPart < 0x1_0000 {} else {}
  }

  lemma TailSays(l: Layout, s: Sector, id: VolumeId)
    ensures var r := BootTail(l, s, id);
      && HasWord(r, 510, 0xAA55)
      && (forall i :: 0 <= i < 22 || 24 <= i < 36 ==> r[i] == s[i])
      && (if l.fmt == Fat32
          then r[22] == s[22] && r[23] == s[23] && HasDword(r, 36, l.nFat) && HasDword(r, 44, 2) &&
            HasWord(r, 48, 1) && HasFatMark(r, 82)
          else HasWord(r, 22, l.nFat) && HasFatMark(r, 54))
  {
    hide Byte0, Byte1, Byte2, Byte3;
    if l.fmt == Fat32 {} else {}
  }

  lemma BootSays(l: Layout, media: byte, id: VolumeId)
    requires l.csize < 256
    ensures IsBoot(l, BootSector(l, media, id))
  {
    hide Byte0, Byte1, Byte2, Byte3, BootHead, BootTail;
    HeadSays(l, media);
    TailSays(l, BootHead(l, media), id);
  }

  // ----- format and mount agree -----

  /** The geometry that mounting a fresh volume of layout `l` should give. */
  function Mounted(l: Layout, nSectors: nat): Geometry
  {
    var t := MountType(l.nClst + 2);
    var dir := l.bPart + l.nRsv + l.nFat * N_FATS;
    Geometry(t, l.bPart + l.nRsv, l.nFat, N_FATS, l.csize, 16 * l.nDir, l.nClst + 2,
             if t == Fat32 then 2 else dir, dir + l.nDir, if t == Fat32 then l.bPart + 1 else 0, nSectors)
  }

  /** The bounds that hold of every layout f_mkfs chooses for a disk of `nDisk` sectors. */
  predicate Sane(l: Layout, nDisk: nat)
  {
    && l.csize in {1, 2, 4, 8, 16, 32, 64} && 1 <= l.nClst < 0x20_0000 && 1 <= l.nFat < 0x1_0000
    && 1937 <= l.nPart <= MAX_SECTOR && 1 <= l.nRsv <= 33 && l.nDir <= 32 && l.bPart <= 63
    && l.nRsv + l.nFat * N_FATS + l.nDir <= l.nPart && l.bPart + l.nPart <= nDisk
    && l.nClst == (l.nPart - l.nRsv - l.nFat * N_FATS - l.nDir) / l.csize
    && (l.fmt == Fat32 ==> l.csize == 64 && 64000 <= l.nClst && l.nDir == 0 && 32 <= l.nRsv)
    && (l.fmt == Fat16 ==> 0xFF5 <= l.nClst < 0xFFF5)
    && (l.fmt == Fat12 ==> l.nClst < 0xFF5)
  }

  lemma LayoutBounds(nDisk: nat, partition: nat)
    requires MIN_SECTOR <= nDisk && partition < 2
    ensures Sane(AutoLayout(nDisk, partition), nDisk)
  {
    var nPart := PartLength(nDisk, partition);
    hide AutoClusterSize, FatSectors;
    SizesFit(nPart, partition);
    TableRow(nPart);
    ClusterCount(nPart, partition);
  }

  /** What each row of the tables gives: few clusters on a small disk, many on a large one, none in between. */
  lemma TableRow(d: nat)
    requires 1937 <= d <= MAX_SECTOR
    ensures var c := AutoClusterSize(d);
      c in {1, 2, 4, 8, 16, 32, 64} && 1937 <= d / c <= 2048000 && !(4000 <= d / c < 32000) &&
        (d / c >= 0xFFF5 ==> c == 64)
  {
  }

  lemma DivDrop(a: nat, o: nat, c: nat)
    requires 1 <= c && o <= a
    ensures a / c - o <= (a - o) / c <= a / c
  {
    MulMonotone(1, c, o);
    var q := (a - o) / c;
    assert a - o == q * c + (a - o) % c;
    assert a == (a / c) * c + a % c;
    if q > a / c { MulMonotone(a / c + 1, q, c); }
    if q < a / c - o {
      MulMonotone(q + 1, a / c - o, c);
    }
  }

  lemma ClusterCount(nPart: nat, partition: nat)
    requires 1937 <= nPart <= MAX_SECTOR && partition < 2
    ensures var c := AutoClusterSize(nPart);
      var n := nPart / c;
      var t := AutoType(n);
      var over := Reserved(t, partition) + FatSectors(t, n) * N_FATS + RootSectors(t);
      && over <= nPart && 1 <= (nPart - over) / c <= n
      && (t == Fat32 ==> c == 64 && 64000 <= (nPart - over) / c && n <= 2048000)
      && (t == Fat16 ==> 0xFF5 <= (nPart - over) / c)
      && 1 <= FatSectors(t, n) < 0x1_0000
  {
    hide AutoClusterSize;
    TableRow(nPart);
    SizesFit(nPart, partition);
    var c := AutoClusterSize(nPart);
    var t := AutoType(nPart / c);
    DivDrop(nPart, Reserved(t, partition) + FatSectors(t, nPart / c) * N_FATS + RootSectors(t), c);
  }

  /** Every volume has more than a thousand clusters, and a static root directory 32 sectors. */
  lemma ManyClusters(nDisk: nat, partition: nat)
    requires MIN_SECTOR <= nDisk && partition < 2
    ensures AutoLayout(nDisk, partition).nClst > 1000
    ensures AutoLayout(nDisk, partition).fmt != Fat32 ==> AutoLayout(nDisk, partition).nDir == 32
  {
    hide AutoClusterSize;
    var nPart := PartLength(nDisk, partition);
    LayoutBounds(nDisk, partition);
    TableRow(nPart);
    SizesFit(nPart, partition);
    var c := AutoClusterSize(nPart);
    var n := nPart / c;
    var t := AutoType(n);
    DivDrop(nPart, Reserved(t, partition) + FatSectors(t, n) * N_FATS + RootSectors(t), c);
  }

  /** Mount re-derives the type that was formatted, except where fewer than 0xFFF5 clusters are left of a
      volume laid out as FAT32. */
  lemma TypeAgrees(nDisk: nat, partition: nat)
    requires MIN_SECTOR <= nDisk && partition < 2
    ensures var l := AutoLayout(nDisk, partition);
      MountType(l.nClst + 2) == l.fmt <==> (l.fmt == Fat32 ==> l.nClst >= 0xFFF5)
  {
    hide AutoLayout;
    LayoutBounds(nDisk, partition);
  }

  /** In terms of the partition's length: the band of sizes that are formatted as FAT32 and mounted as FAT16. */
  predicate InBand(nPart: nat, partition: nat)
  {
    4193600 <= nPart < 4194659 - partition
  }

  lemma TypeAgreesOutsideBand(nDisk: nat, partition: nat)
    requires MIN_SECTOR <= nDisk && partition < 2
    ensures var l := AutoLayout(nDisk, partition);
      MountType(l.nClst + 2) == l.fmt <==> !InBand(PartLength(nDisk, partition), partition)
  {
    TypeAgrees(nDisk, partition);
  }

  /** A disk in the band: 4193663 sectors are formatted as FAT32 with 65508 clusters, and mounted as FAT16. */
  lemma BandExists()
    ensures var l := AutoLayout(4193663, 0);
      l.fmt == Fat32 && l.nClst == 65508 && MountType(l.nClst + 2) == Fat16
  {
  }

  /** Mount reads back exactly the layout that was formatted: FAT start and size, cluster size, root size and
      data start, and as many clusters. */
  lemma ParseAgrees(nDisk: nat, partition: nat, s: Sector)
    requires MIN_SECTOR <= nDisk < 0x1_0000_0000 && partition < 2
    requires IsBoot(AutoLayout(nDisk, partition), s)
    ensures s[13] != 0 && LdWord(s, 11) == 512 && CheckFs(s) == 0
    ensures ParseBoot(s, AutoLayout(nDisk, partition).bPart, nDisk) == Mounted(AutoLayout(nDisk, partition), nDisk)
  {
    hide AutoLayout, IsBoot;
    LayoutBounds(nDisk, partition);
    BootIsFat(AutoLayout(nDisk, partition), s);
    ParseLayout(AutoLayout(nDisk, partition), s, nDisk);
  }

  lemma BootIsFat(l: Layout, s: Sector)
    requires IsBoot(l, s) && l.csize > 0
    ensures s[13] != 0 && LdWord(s, 11) == 512 && CheckFs(s) == 0
  {
    hide Byte0, Byte1, Byte2, Byte3;
    HasWordLoads(s, 11, 512);
    HasWordLoads(s, 510, 0xAA55);
  }

  lemma ParseLayout(l: Layout, s: Sector, nDisk: nat)
    requires Sane(l, nDisk) && nDisk < 0x1_0000_0000 && IsBoot(l, s)
    ensures s[13] != 0 && ParseBoot(s, l.bPart, nDisk) == Mounted(l, nDisk)
  {
    hide LdWord, LdDword;
    BootLoads(l, s);
    hide IsBoot, Wrap;
    var fsize := l.nFat * N_FATS;
    WrapSmall(fsize);
    WrapSmall(l.bPart + l.nRsv);
    WrapSmall(l.bPart + l.nRsv + fsize);
    WrapSmall(l.bPart + l.nRsv + fsize + l.nDir);
    WrapSmall(l.bPart + 1);
    assert 16 * l.nDir / 16 == l.nDir;
    WrapSmall(l.nPart - l.nRsv - fsize - l.nDir);
  }

  lemma WrapSmall(x: int)
    requires 0 <= x < 0x1_0000_0000
    ensures Wrap(x) == x
  {
  }

  lemma ZeroWord(s: Sector, p: nat)
    requires p + 1 < 512 && s[p] == 0 == s[p + 1]
    ensures LdWord(s, p) == 0
  {
  }

  /** The fields of the boot sector as mount loads them. */
  lemma BootLoads(l: Layout, s: Sector)
    requires IsBoot(l, s) && l.nRsv < 0x1_0000 && l.nDir < 0x1000 &&  l.nPart < 0x1_0000_0000 && 0 < l.nPart
    requires 0 < l.nFat < 0x1_0000
    ensures s[13] == l.csize && s[16] == N_FATS
    ensures LdWord(s, 11) == 512 && LdWord(s, 14) == l.nRsv && LdWord(s, 17) == 16 * l.nDir && LdWord(s, 510) == 0xAA55
    ensures (if LdWord(s, 19) == 0 then LdDword(s, 32) else LdWord(s, 19)) == l.nPart
    ensures (if LdWord(s, 22) == 0 then LdDword(s, 36) else LdWord(s, 22)) == l.nFat
    ensures l.fmt == Fat32 ==> LdDword(s, 44) == 2 && LdWord(s, 48) == 1
  {
    hide Byte0, Byte1, Byte2, Byte3, LdWord, LdDword, HasWord, HasDword;
    HasWordLoads(s, 11, 512);
    HasWordLoads(s, 14, l.nRsv);
    HasWordLoads(s, 17, 16 * l.nDir);
    HasWordLoads(s, 510, 0xAA55);
    if s[19] == 0 == s[20] { ZeroWord(s, 19); }
    if s[22] == 0 == s[23] { ZeroWord(s, 22); }
    if l.nPart < 0x1_0000 { HasWordLoads(s, 19, l.nPart); } else { HasDwordLoads(s, 32, l.nPart); }
    if l.fmt == Fat32 {
      HasDwordLoads(s, 36, l.nFat);
      HasDwordLoads(s, 44, 2);
      HasWordLoads(s, 48, 1);
    } else {
      HasWordLoads(s, 22, l.nFat);
    }
  }

  /** Layout safety, for every size f_mkfs accepts, whether or not mount concludes the same type: the mounted geometry
      meets the volume invariant. Each FAT copy has room for every entry, and the FATs, the root directory and all
      clusters follow one another inside the partition. */
  lemma LayoutIsSafe(nDisk: nat, partition: nat)
    requires MIN_SECTOR <= nDisk < 0x1_0000_0000 && partition < 2
    ensures var l := AutoLayout(nDisk, partition);
      && Mounted(l, nDisk).Ok()
      && Mounted(l, nDisk).database + Times(l.nClst, l.csize) <= l.bPart + l.nPart
  {
    hide AutoLayout;
    LayoutBounds(nDisk, partition);
    FatHasRoom(nDisk, partition);
    SaneIsSafe(AutoLayout(nDisk, partition), nDisk);
  }

  predicate HasRoom(l: Layout)
  {
    && (l.fmt == Fat12 ==> l.nClst + 2 + (l.nClst + 1) / 2 + 1 <= l.nFat * 512)
    && (l.fmt == Fat16 ==> (l.nClst + 2) * 2 <= l.nFat * 512)
    && (l.fmt == Fat32 ==> (l.nClst + 2) * 4 <= l.nFat * 512)
  }

  lemma SaneIsSafe(l: Layout, nDisk: nat)
    requires Sane(l, nDisk) && nDisk < 0x1_0000_0000 && HasRoom(l)
    ensures Mounted(l, nDisk).Ok()
    ensures Mounted(l, nDisk).database + Times(l.nClst, l.csize) <= l.bPart + l.nPart
  {
    var x: nat := l.nPart - l.nRsv - l.nFat * N_FATS - l.nDir;
    TimesIsProduct(l.nClst, l.csize);
    assert l.nClst * l.csize <= x by { DivBelow(x, l.csize); }
    TimesIsProduct(2, l.nFat);
    SmallPowers(l.csize);
    hide PowerOfTwo, Times;
    var g := Mounted(l, nDisk);
    assert g.FatFits();
    assert g.TypeMatches();
    assert g.dirbase == if g.fatType == Fat32 then 2 else g.FatEnd() by { assert 16 * l.nDir / 16 == l.nDir; }
  }

  lemma DivBelow(x: nat, c: nat)
    requires 1 <= c
    ensures x / c * c <= x
  {
  }

  lemma SmallPowers(c: nat)
    requires c in {1, 2, 4, 8, 16, 32, 64}
    ensures PowerOfTwo(c)
  {
    assert PowerOfTwo(1) && PowerOfTwo(2) && PowerOfTwo(4) && PowerOfTwo(8) && PowerOfTwo(16) && PowerOfTwo(32);
  }

  lemma FatHasRoom(nDisk: nat, partition: nat)
    requires MIN_SECTOR <= nDisk && partition < 2
    ensures HasRoom(AutoLayout(nDisk, partition))
  {
    hide AutoClusterSize;
    SizesFit(PartLength(nDisk, partition), partition);
    ClusterCount(PartLength(nDisk, partition), partition);
  }
}
