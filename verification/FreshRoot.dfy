/** The root directory that f_mkfs and a mount give: where copying starts from. */
module FreshRoot {
  import opened Bytes
  import opened Geometry
  import opened FatTable
  import opened ChainRuns
  import opened FileBytes
  import opened Volume
  import opened Format
  import opened Mkfs
  import opened Mount
  import opened DirTable
  import opened DirDisk
  import opened DirModel
  import opened DirRuns
  import DirMake
  import CopyPlan
  import Rebuild

  function RootPlace(t: FatType): Place { if t == Fat32 then Chain([2]) else Static }

  /** The sectors of the root directory are cleared. */
  lemma RootCleared(l: Layout, partition: nat, id: VolumeId, d0: Disk, d: Disk, i: nat)
    requires Sane(l, |d0|) && Formatted(l, partition, id, d0, d) && RootStart(l) <= i < RootStart(l) + RootLength(l)
    requires l.fmt != Fat32 ==> l.nDir == 32
    ensures i < |d| && d[i] == Zeros(512)
  {
    hide Mbr, BootSector, FsInfo, FatHead;
    RootFits(l, |d|);
    assert d[i] == After(l, partition, id, i, d0[i]);
  }

  /** Where the sectors of the root directory are. */
  lemma RootSectors(l: Layout, g: Geometry)
    requires g.Ok() && g == Mounted(l, g.nSectors) && g.fatType == l.fmt && 3 <= g.maxClust
    requires l.fmt == Fat32 ==> l.nDir == 0
    ensures var p := RootPlace(l.fmt);
      && (p.Chain? ==> InRange(g, p.ch)) && GoodSectors(g, Sectors(g, p))
      && Sectors(g, p) == DirDisk.Run(RootStart(l), RootLength(l))
  {
    hide Geometry.Ok;
    if l.fmt == Fat32 {
      DirMake.OneCluster(g, 2);
    } else {
      PlaceIsGood(g, Static);
      assert 16 * l.nDir / 16 == l.nDir;
    }
  }

  lemma ClearedTable(d: Disk, from: nat, n: nat)
    requires from + n <= |d| && forall i :: from <= i < from + n ==> d[i] == Zeros(512)
    ensures TableOf(d, DirDisk.Run(from, n)) == Stretched([], SizeOf(DirDisk.Run(from, n)))
  {
    var secs := DirDisk.Run(from, n);
    var t := TableOf(d, secs);
    forall i | 0 <= i < |t| ensures t[i] == Zeros(32) {
      assert d[secs[i / 16]] == Zeros(512);
      assert EntryIn(Zeros(512), i) == Zeros(32);
    }
  }

  /** After f_mkfs and a mount the root directory is where dir_seek looks for it, it is well formed, holds no name, and
      is what the plan of the rebuild command starts with. */
  lemma RootIsEmpty(d0: Disk, partition: nat, id: VolumeId, d: Disk, left: dword)
    requires MIN_SECTOR <= |d0| < 0x1_0000_0000 && partition < 2
    requires AutoLayout(|d0|, partition).csize < 256 && Formatted(AutoLayout(|d0|, partition), partition, id, d0, d)
    requires !InBand(PartLength(|d0|, partition), partition)
    ensures var l := AutoLayout(|d0|, partition);
      var g, p := Mounted(l, |d|), RootPlace(l.fmt);
      && DiskOf(g, d) && Located(g, Fat(g, d), 0, p) && Fits(g, p, d)
      && var t := TableAt(g, p, d);
         Good(State(t, map[], 0)) && t == Stretched([], |t|) && CopyPlan.Mirrors(Rebuild.RootDir(l), t, map[], 0)
  {
    hide AutoLayout, Formatted, Fat, ParseBoot, Mirrored, IsFresh, ReservedClear, Hints, InBand, Boot, Geometry.Ok,
         Good, Sectors, CopyPlan.Mirrors, GoodSectors, WellFormed;
    var l := AutoLayout(|d0|, partition);
    var g, p := Mounted(l, |d|), RootPlace(l.fmt);
    FreshVolume(d0, partition, id, d, left);
    FormattedLength(d0, partition, id, d);
    LayoutBounds(|d0|, partition);
    ManyClusters(|d0|, partition);
    RootSectors(l, g);
    RootFits(l, |d|);
    forall i | RootStart(l) <= i < RootStart(l) + RootLength(l) ensures d[i] == Zeros(512) {
      RootCleared(l, partition, id, d0, d, i);
    }
    ClearedTable(d, RootStart(l), RootLength(l));
    var t := TableAt(g, p, d);
    assert t == Stretched([], |t|);
    ClearedIsGood(|t|);
    assert Rebuild.RootDir(l) == CopyPlan.Dir([], 0, |t|, Rebuild.RootDir(l).id);
    CopyPlan.RootMirrors(|t|, Rebuild.RootDir(l).id);
    FreshLocated(l, g, Fat(g, d));
  }

  lemma FreshLocated(l: Layout, g: Geometry, f: seq<nat>)
    requires g.Ok() && g == Mounted(l, g.nSectors) && g.fatType == l.fmt && IsFresh(l.fmt, f) && |f| == g.maxClust
    requires 3 <= g.maxClust
    ensures Located(g, f, 0, RootPlace(l.fmt))
  {
    if l.fmt == Fat32 { assert Links(f, [2], 0); }
  }

  // ----- the band -----

  /** What a volume in the band is left with: mount takes it for FAT16, and as a FAT32 layout has no static root
      directory, its root table is empty. Every dir_seek in it fails then, and so does every f_open. */
  lemma BandHasNoRoot(nDisk: nat, partition: nat, g: Geometry, d: Disk, place: Place)
    requires MIN_SECTOR <= nDisk < 0x1_0000_0000 && partition < 2 && InBand(PartLength(nDisk, partition), partition)
    requires g == Mounted(AutoLayout(nDisk, partition), nDisk) && DiskOf(g, d) && Located(g, Fat(g, d), 0, place)
    ensures g.fatType == Fat16 && g.nRootdir == 0 && place == Static && Fits(g, place, d) && TableAt(g, place, d) == []
  {
    hide AutoLayout, Fat, InBand, Geometry.Ok;
    var l := AutoLayout(nDisk, partition);
    LayoutBounds(nDisk, partition);
    TypeAgrees(nDisk, partition);
    TypeAgreesOutsideBand(nDisk, partition);
    LocatedIsGood(g, Fat(g, d), 0, place);
  }
}
