/** The rebuild command's promise of an unfragmented image: formatting, mounting, and copying a source directory. */
module Rebuild {
  import opened Bytes
  import opened Chains
  import opened ChainRuns
  import opened Geometry
  import opened FatTable
  import opened Volume
  import opened Format
  import opened Mkfs
  import opened Mount
  import opened Filling
  import opened CopyPlan
  import opened CopyTrace

  /** The root directory of a fresh volume: a static one, or one of one cluster. */
  function RootDir(l: Layout): Dir
  {
    Dir([], 0, if l.fmt == Fat32 then 16 * l.csize else 16 * l.nDir, if l.fmt == Fat32 then 0 else -1)
  }

  /** A freshly mounted volume before anything is copied to it. */
  function FreshImage(t: FatType, a: Alloc): Image
  {
    Image(a, Mask(t, 0xFFF_FFFF), RootChains(t), if t == Fat32 then [false] else [])
  }

  /** What copying a source directory to a fresh volume does. */
  ghost function CopyTo(l: Layout, items: seq<Item>): (p: Plan)
    requires 0 < l.csize
  {
    CopyDir(items, RootDir(l), |RootChains(l.fmt)|, 16 * l.csize)
  }

  /** The events of the copy are those of the source tree, over all levels: unless the copy ends early, a directory is
      made for each folder, and each file is written once. */
  ghost predicate Faithful(l: Layout, items: seq<Item>)
    requires 0 < l.csize
  {
    var p := CopyTo(l, items);
    && Copies(items, RootDir(l), |RootChains(l.fmt)|, 16 * l.csize, p.es, p.n, p.stop)
    && (!p.stop ==> Made(p.es) == Folders(items) && Written(p.es) == Files(items))
  }

  lemma CopyIsFaithful(l: Layout, items: seq<Item>)
    requires 0 < l.csize
    ensures Faithful(l, items)
  {
    hide Copies;
    var p := CopyTo(l, items);
    PlanCopies(items, RootDir(l), |RootChains(l.fmt)|, 16 * l.csize);
    if !p.stop { CopyCounts(items, RootDir(l), |RootChains(l.fmt)|, 16 * l.csize, p.es, p.n); }
  }

  lemma CopyToIsPlanned(l: Layout, items: seq<Item>, a: Alloc)
    requires 0 < l.csize
    ensures WellPlanned(CopyTo(l, items).es, FreshImage(l.fmt, a).file)
  {
    var _ := CopyIsPlanned(items, RootDir(l), |RootChains(l.fmt)|, 16 * l.csize, FreshImage(l.fmt, a).file);
  }

  lemma FreshFree(t: FatType, a: Alloc)
    requires IsFresh(t, a.fat) && 3 <= |a.fat| && Mask(t, 0xFFF_FFFF) >= |a.fat|
    ensures var s := FreshImage(t, a); Held(s) && NoFiles(s.file) && Free(a.fat, 2 + |s.chains|, |a.fat|)
  {
    var s := FreshImage(t, a);
    if t == Fat32 {
      assert s.chains[0] == [2];
      assert Links(a.fat, [2], 0);
    }
  }

  /** A starting point, left over from before the mount, inside an empty FAT12 or FAT16 volume, and a file among the
      objects that are created before directories have filled the volume from there on. */
  ghost predicate LateStart(l: Layout, left: nat, es: seq<Event>)
  {
    l.fmt != Fat32 && !GoodStart(left, 2, l.nClst + 2) && FileWithin(es, l.nClst + 1 - left)
  }

  /** Whether copying can leave a file in pieces, from the plan and the starting point alone. */
  lemma CopyExactly(l: Layout, a: Alloc, items: seq<Item>)
    requires IsFresh(l.fmt, a.fat) && 3 <= |a.fat| == l.nClst + 2 && Mask(l.fmt, 0xFFF_FFFF) >= |a.fat| && 0 < l.csize
    requires l.fmt == Fat32 ==> a.last >= |a.fat|
    ensures var es, s := CopyTo(l, items).es, FreshImage(l.fmt, a);
      var n := |s.chains|;
      && Faithful(l, items)
      && (CanFragment(s, es) ==> OverwritesBehind(es, n) || LateStart(l, a.last, es))
      && (LateStart(l, a.last, es) ==> CanFragment(s, es))
      && (DirClusters(es, |es|) + n + 3 <= l.nClst ==>
            (CanFragment(s, es) <==> OverwritesBehind(es, n) || LateStart(l, a.last, es)))
  {
    hide IsFresh, Held, Free, CanFragment, OverwritesBehind, WellPlanned, CopyTo, FileWithin, DirClusters, Faithful;
    CopyIsFaithful(l, items);
    CopyToIsPlanned(l, items, a);
    FreshFree(l.fmt, a);
    var s, es := FreshImage(l.fmt, a), CopyTo(l, items).es;
    if GoodStart(a.last, 2 + |s.chains|, |a.fat|) {
      UnfragmentedExactly(s, es, 2 + |s.chains|, |a.fat|);
    } else {
      InsideStartExactly(s, es, a.last);
    }
  }

  /** The rebuild command formats, mounts and copies. Its promise fails, for some file lengths, exactly if a name finds
      a file copied before that is not the one copied last, or if mount left last_clust inside an empty FAT12 or FAT16
      volume. One way this is without condition; the other needs room for three clusters beside the directories, as a
      volume that is full leaves no second piece. */
  lemma RebuildExactly(d0: Disk, partition: nat, id: VolumeId, d: Disk, left: dword, items: seq<Item>)
    requires MIN_SECTOR <= |d0| < 0x1_0000_0000 && partition < 2
    requires AutoLayout(|d0|, partition).csize < 256 && Formatted(AutoLayout(|d0|, partition), partition, id, d0, d)
    requires !InBand(PartLength(|d0|, partition), partition)
    ensures var l := AutoLayout(|d0|, partition);
      var g := Mounted(l, |d|);
      && DiskOf(g, d) && 0 < l.csize
      && var a := Alloc(Fat(g, d), Hints(g, d, left).0, Hints(g, d, left).1);
         var es, s := CopyTo(l, items).es, FreshImage(l.fmt, a);
         var n := |s.chains|;
         && Faithful(l, items)
         && (CanFragment(s, es) ==> OverwritesBehind(es, n) || LateStart(l, left, es))
         && (LateStart(l, left, es) ==> CanFragment(s, es))
         && (DirClusters(es, |es|) + n + 3 <= l.nClst ==>
               (CanFragment(s, es) <==> OverwritesBehind(es, n) || LateStart(l, left, es)))
  {
    hide AutoLayout, Formatted, Fat, FatBytes, ParseBoot, Mirrored, IsFresh, ReservedClear, Hints, InBand, Boot,
         CanFragment, Inv, OverwritesBehind, CopyTo, FileWithin, DirClusters, Faithful;
    var l := AutoLayout(|d0|, partition);
    FreshVolume(d0, partition, id, d, left);
    var g := Mounted(l, |d|);
    FormattedLength(d0, partition, id, d);
    LayoutBounds(|d0|, partition);
    FreshHints(l, partition, id, d0, d, g, left);
    MaskKeeps(g);
    CopyExactly(l, Alloc(Fat(g, d), Hints(g, d, left).0, Hints(g, d, left).1), items);
  }

  /** The promise fails on every disk, FAT32 included: with a source directory that lists "a b", "zzz" and "AB~1", the
      third file finds the first by its made-up short name and takes its place, and some file lengths leave it in two
      pieces. */
  lemma AccidentFragments(d0: Disk, partition: nat, id: VolumeId, d: Disk, left: dword)
    requires MIN_SECTOR <= |d0| < 0x1_0000_0000 && partition < 2
    requires AutoLayout(|d0|, partition).csize < 256 && Formatted(AutoLayout(|d0|, partition), partition, id, d0, d)
    requires !InBand(PartLength(|d0|, partition), partition)
    ensures var l := AutoLayout(|d0|, partition);
      var g := Mounted(l, |d|);
      && DiskOf(g, d) && 0 < l.csize
      && var a := Alloc(Fat(g, d), Hints(g, d, left).0, Hints(g, d, left).1);
         CanFragment(FreshImage(l.fmt, a), CopyTo(l, ACCIDENT).es)
  {
    hide AutoLayout, Formatted, Fat, CanFragment, OverwritesBehind, CopyDir, FileWithin, Hints, InBand, Faithful;
    var l := AutoLayout(|d0|, partition);
    RebuildExactly(d0, partition, id, d, left, ACCIDENT);
    LayoutBounds(|d0|, partition);
    ManyClusters(|d0|, partition);
    AccidentalOverwrite(RootDir(l), |RootChains(l.fmt)|, 16 * l.csize);
    NoDirClusters(CopyTo(l, ACCIDENT).es);
  }

  lemma NoDirClusters(es: seq<Filling.Event>)
    requires |es| == 3 && es[0] == NewFile && es[1] == NewFile && es[2].Again?
    ensures DirClusters(es, |es|) == 0
  {
    assert DirClusters(es, 0) == 0;
    assert DirClusters(es, 1) == 0;
    assert DirClusters(es, 2) == 0;
  }
}
