/** Where the tree of directories begins: the root directory that f_mkfs and a mount give. */
module TreeFresh {
  import opened Bytes
  import opened Geometry
  import opened FatTable
  import opened ChainRuns
  import opened Volume
  import opened Format
  import opened Mkfs
  import opened Mount
  import opened DirDisk
  import opened DirModel
  import DirRuns
  import opened FreshRoot
  import opened Tree
  import opened TreeDisk
  import opened TreeContents

  /** No objects, and one directory. */
  function FreshTree(root: nat): DirTree
  {
    DirTree(map[], if root == 0 then {} else {root}, map[], map[], map[0 := 0], root)
  }

  lemma FreshIsLinked(root: nat)
    ensures Linked(FreshTree(root))
  {
  }

  lemma FreshHeads(g: Geometry)
    requires g.fatType == Fat32 ==> g.dirbase == 2
    ensures HeadsOf(RootChains(g.fatType), FreshTree(RootHead(g)).heads)
  {
    if g.fatType == Fat32 { assert [2] in RootChains(g.fatType); }
  }

  lemma RootIsHoused(g: Geometry, d: Disk, p: Place)
    requires DiskOf(g, d) && Located(g, Fat(g, d), 0, p) && Fits(g, p, d)
    requires DirRuns.Good(DirRuns.State(TableAt(g, p, d), map[], 0))
    ensures Housed(g, d, 0, Folder(p, DirRuns.State(TableAt(g, p, d), map[], 0)))
  {
    hide Fat, Located, Fits, TableAt, DirRuns.Good;
  }

  /** The volume that f_mkfs and a mount give is sound, with an empty root directory. */
  lemma FreshSound(g: Geometry, d: Disk, p: Place) returns (n: Known)
    requires DiskOf(g, d) && Located(g, Fat(g, d), 0, p) && Fits(g, p, d) && p == RootPlace(g.fatType)
    requires DirRuns.Good(DirRuns.State(TableAt(g, p, d), map[], 0)) && WellOwned(Fat(g, d), RootChains(g.fatType))
    ensures SoundAs(g, d, n) && n.tree == FreshTree(RootHead(g)) && n.files == map[]
  {
    hide Fat, Fits, TableAt, DirRuns.Good, WellOwned, Linked, Housed, HeadsOf;
    var f := Folder(p, DirRuns.State(TableAt(g, p, d), map[], 0));
    n := Known(map[0 := f], RootChains(g.fatType), FreshTree(RootHead(g)), map[]);
    FreshIsLinked(RootHead(g));
    FreshHeads(g);
    RootIsHoused(g, d, p);
  }

  /** f_mkfs and a mount, for every disk outside the band. */
  method FormatSound(d0: Disk, partition: nat, id: VolumeId, left: dword, flag: bool)
    returns (fs: FatFs, ghost n: Known)
    requires MIN_SECTOR <= |d0| < 0x1_0000_0000 && partition < 2 && !InBand(PartLength(|d0|, partition), partition)
    ensures fresh(fs) && fresh(fs.win) && fs.Valid()
    ensures SoundAs(fs.g, fs.image, n) && n.tree == FreshTree(RootHead(fs.g)) && n.files == map[]
  {
    hide AutoLayout, Formatted, Fat, FatBytes, IsFresh, ReservedClear, Sound, Mounted, InBand, DirRuns.Good, TableAt,
         Located, Fits, WellOwned;
    fs := FormatAndMount(d0, partition, id, left, flag);
    RootIsEmpty(d0, partition, id, fs.image, left);
    n := FreshSound(fs.g, fs.image, RootPlace(fs.g.fatType));
  }
}
