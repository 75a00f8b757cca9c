/** f_mkdir, from the point where the path is followed and the name was not found: a new table cluster, the entry for
    it in the parent directory, and the way back if that entry cannot be made. */
module DirMake {
  import opened Bytes
  import opened Geometry
  import opened FatTable
  import opened Chains
  import opened ChainRuns
  import opened FileBytes
  import opened FileModel
  import opened Volume
  import opened Results
  import opened Lfn
  import opened ShortName
  import opened DirTable
  import opened DirDisk
  import opened DirFind
  import opened DirModel
  import opened DirObject
  import opened DirRuns

  const AM_DIR: byte := 0x10

  // ----- the new table -----

  /** A dot entry: its name, the directory attribute, the time and the cluster it leads to. */
  function DotEntry(dots: nat, tim: dword, clst: nat): (e: Entry)
    requires 1 <= dots <= 2
  {
    var e := Splice(Zeros(32), 0, (if dots == 1 then [DOT] else [DOT, DOT]) + Blanks(11 - dots))[11 := AM_DIR];
    StWord(StWord(StDword(e, 22, tim), 26, clst), 20, clst / 0x1_0000)
  }

  lemma DotEntryIs(dots: nat, tim: dword, clst: nat)
    requires 1 <= dots <= 2
    ensures IsDotEntry(DotEntry(dots, tim, clst), dots)
    ensures clst < 0x1_0000_0000 ==> ClusterIn(DotEntry(dots, tim, clst)) == clst
  {
    var e := DotEntry(dots, tim, clst);
    assert HasWord(e, 26, clst) && HasWord(e, 20, clst / 0x1_0000);
    HasWordLoads(e, 26, clst);
    HasWordLoads(e, 20, clst / 0x1_0000);
  }

  /** The cluster that an entry names. */
  function ClusterIn(e: Entry): nat { LdWord(e, 20) as int * 0x1_0000 + LdWord(e, 26) as int }

  predicate ReadOnly(e: Entry) { e[11] as int % 2 == 1 }

  predicate IsDirectory(e: Entry) { e[11] as int / 0x10 % 2 == 1 }

  /** The first sector of a new table. */
  function DotSector(tim: dword, clst: nat, parent: nat): Sector
  {
    DotEntry(1, tim, clst) + DotEntry(2, tim, parent) + Zeros(448)
  }

  lemma DotSectorEntries(tim: dword, clst: nat, parent: nat, i: nat)
    requires i < 16
    ensures EntryIn(DotSector(tim, clst, parent), i) ==
            if i == 0 then DotEntry(1, tim, clst) else if i == 1 then DotEntry(2, tim, parent) else Zeros(32)
  {
    var s := DotSector(tim, clst, parent);
    var a, b := DotEntry(1, tim, clst), DotEntry(2, tim, parent);
    assert s == a + (b + Zeros(448));
  }

  /** Cluster `r` is the whole table of a new directory: the two dot entries and zeros. */
  ghost predicate NewTable(g: Geometry, d: Disk, r: nat, tim: dword, parent: nat)
  {
    && DiskOf(g, d) && 2 <= r < g.maxClust && IsChain(Fat(g, d), [r]) && Fits(g, Chain([r]), d)
    && 2 <= |TableAt(g, Chain([r]), d)|
    && TableAt(g, Chain([r]), d) ==
       Stretched([DotEntry(1, tim, r), DotEntry(2, tim, parent)], |TableAt(g, Chain([r]), d)| - 2)
  }

  /** Such a table is well formed, and no name matches anything in it. */
  lemma NewTableIsGood(g: Geometry, d: Disk, r: nat, tim: dword, parent: nat)
    requires NewTable(g, d, r, tim, parent)
    ensures Good(State(TableAt(g, Chain([r]), d), map[0 := [], 1 := []], 2))
    ensures forall q, a :: Proper(q) && Ascii(q) ==>
      !Matches(TableAt(g, Chain([r]), d), map[0 := [], 1 := []], KeyOf(q), a)
  {
    hide Good, Matches, FormOf, DotEntry, IsDotEntry, TableAt, IsChain, Fits, Stretched, Proper, Ascii, KeyOf, Fat;
    DotEntryIs(1, tim, r);
    DotEntryIs(2, tim, parent);
    DotsAreGood(DotEntry(1, tim, r), DotEntry(2, tim, parent), |TableAt(g, Chain([r]), d)| - 2);
  }

  lemma OneCluster(g: Geometry, r: nat)
    requires g.Ok() && 2 <= r < g.maxClust
    ensures InRange(g, [r]) && Sectors(g, Chain([r])) == DirDisk.Run(ClusterSector(g, r), g.csize)
    ensures GoodSectors(g, Sectors(g, Chain([r])))
  {
    assert [r][..0] == [];
    PlaceIsGood(g, Chain([r]));
  }

  lemma InitEntry(g: Geometry, d: Disk, e: Disk, r: nat, tim: dword, parent: nat, i: nat)
    requires DiskOf(g, d) && |e| == |d| && 2 <= r < g.maxClust && i < 16 * g.csize
    requires ClusterSector(g, r) + g.csize <= |d|
    requires Initialised(d, e, ClusterSector(g, r), g.csize, DotSector(tim, r, parent))
    ensures EntryIn(e[ClusterSector(g, r) + i / 16], i) ==
            if i == 0 then DotEntry(1, tim, r) else if i == 1 then DotEntry(2, tim, parent) else Zeros(32)
  {
    hide DotSector, DotEntry, ClusterSector, Geometry.Ok;
    if i < 16 { DotSectorEntries(tim, r, parent, i); } else { assert EntryIn(Zeros(512), i) == Zeros(32); }
  }

  /** The cluster as f_mkdir writes it. */
  lemma InitMakesTable(g: Geometry, d: Disk, e: Disk, r: nat, tim: dword, parent: nat)
    requires DiskOf(g, d) && DiskOf(g, e) && 2 <= r < g.maxClust && IsChain(Fat(g, e), [r])
    requires Initialised(d, e, ClusterSector(g, r), g.csize, DotSector(tim, r, parent))
    ensures NewTable(g, e, r, tim, parent)
  {
    hide DotSector, DotEntry, Fat, Initialised, IsChain, EntryIn, Geometry.Ok, ClusterSector, Sectors, GoodSectors;
    OneCluster(g, r);
    ClusterInRange(g, r);
    ChainedClusters(g);
    var secs := Sectors(g, Chain([r]));
    assert Fits(g, Chain([r]), e);
    var t := TableAt(g, Chain([r]), e);
    forall i | 0 <= i < |t|
      ensures t[i] == if i == 0 then DotEntry(1, tim, r) else if i == 1 then DotEntry(2, tim, parent) else Zeros(32)
    {
      assert secs[i / 16] == ClusterSector(g, r) + i / 16;
      InitEntry(g, d, e, r, tim, parent, i);
    }
    assert t == Stretched([DotEntry(1, tim, r), DotEntry(2, tim, parent)], |t| - 2);
  }

  // ----- the parent's table meanwhile -----

  /** A table whose sectors stay the same stays the same. */
  lemma TableUnder(g: Geometry, p: Place, d: Disk, e: Disk)
    requires Fits(g, p, d) && |e| == |d| && forall s :: s in Sectors(g, p) ==> s < |d| && e[s] == d[s]
    ensures Fits(g, p, e) && TableAt(g, p, e) == TableAt(g, p, d)
  {
    hide ChainSectors;
    TableSame(d, e, Sectors(g, p));
  }

  /** No sector of a table lies in a cluster of another. */
  lemma NotInCluster(g: Geometry, p: Place, d: Disk, r: nat)
    requires Fits(g, p, d) && 2 <= r < g.maxClust && !InPlace(p, r) && (p.Static? ==> g.fatType != Fat32)
    ensures forall s :: s in Sectors(g, p) ==> 0 <= s < |d| && g.FatEnd() <= s && !SectorOf(g, r, s)
  {
    hide ChainSectors;
    FatAreaHolds(g);
    ClusterInRange(g, r);
    forall s | s in Sectors(g, p) ensures 0 <= s < |d| && g.FatEnd() <= s && !SectorOf(g, r, s) {
      var k :| 0 <= k < |Sectors(g, p)| && Sectors(g, p)[k] == s;
      if p.Chain? {
        SplitSector(g, p.ch, k);
        SectorOfIntro(g, p.ch[k / g.csize], k % g.csize);
        assert p.ch[k / g.csize] in p.ch;
        if SectorOf(g, r, s) { SectorOfOne(g, p.ch[k / g.csize], r, s); }
      }
    }
  }

  /** A cluster allocated elsewhere leaves the table where it is. */
  lemma AllocKeeps(g: Geometry, d: Disk, e: Disk, sclust: nat, p: Place, r: nat, eoc: nat)
    requires Fits(g, p, d) && DiskOf(g, e) && SameData(g, d, e) && Located(g, Fat(g, d), sclust, p)
    requires 2 <= r < g.maxClust && Fat(g, d)[r] == 0 && eoc >= g.maxClust && Fat(g, e) == Fat(g, d)[r := eoc]
    ensures Fits(g, p, e) && TableAt(g, p, e) == TableAt(g, p, d)
    ensures Located(g, Fat(g, e), sclust, p) && !InPlace(p, r) && IsChain(Fat(g, e), [r])
  {
    hide Fat, ChainSectors, TableAt;
    TableUnder(g, p, d, e);
    var f, f' := Fat(g, d), Fat(g, e);
    if p.Chain? {
      ChainUses(f, p.ch);
      ChainFrame(f, f', p.ch);
    }
    assert Links(f', [r], 0);
  }

  /** Writing the new cluster does not touch the parent's table either. */
  lemma InitKeeps(g: Geometry, d: Disk, e: Disk, p: Place, r: nat, head: Sector)
    requires Fits(g, p, d) && 2 <= r < g.maxClust && !InPlace(p, r) && (p.Static? ==> g.fatType != Fat32)
    requires Initialised(d, e, ClusterSector(g, r), g.csize, head)
    ensures Fits(g, p, e) && TableAt(g, p, e) == TableAt(g, p, d) && Fat(g, e) == Fat(g, d)
  {
    hide Fat, ChainSectors, TableAt, Sectors;
    NotInCluster(g, p, d, r);
    FatAreaHolds(g);
    ClusterInRange(g, r);
    FatUntouched(g, d, e);
    TableUnder(g, p, d, e);
  }

  /** A change of the parent's table leaves the new one alone, and does not take its cluster. */
  lemma NewTableStays(g: Geometry, p: Place, q: Place, d: Disk, e: Disk, r: nat, tim: dword, parent: nat)
    requires Changed(g, p, q, d, e) && NewTable(g, d, r, tim, parent) && !InPlace(p, r)
    requires p.Static? ==> g.fatType != Fat32
    ensures NewTable(g, e, r, tim, parent) && !InPlace(q, r)
  {
    hide Fat, ChainSectors, TableAt, Sectors, GoodSectors, DotEntry;
    assert Links(Fat(g, d), [r], 0);
    assert !InPlace(q, r);
    NotInCluster(g, q, e, r);
    OneCluster(g, r);
    FatAreaHolds(g);
    ClusterInRange(g, r);
    ClusterApart(g, q, d, e, r);
    TableUnder(g, Chain([r]), d, e);
    ChainFrame(Fat(g, d), Fat(g, e), [r]);
  }

  lemma ClusterApart(g: Geometry, q: Place, d: Disk, e: Disk, r: nat)
    requires Fits(g, q, e) && DiskOf(g, d) && 2 <= r < g.maxClust
    requires forall s :: s in Sectors(g, q) ==> !(0 <= s && SectorOf(g, r, s))
    requires forall s :: 0 <= s < |d| && (s < g.fatbase || g.FatEnd() <= s) && s !in Sectors(g, q) ==> e[s] == d[s]
    ensures InRange(g, [r]) && forall s :: s in Sectors(g, Chain([r])) ==> s < |d| && e[s] == d[s]
  {
    hide ChainSectors, Sectors;
    OneCluster(g, r);
    ClusterInRange(g, r);
    FatAreaHolds(g);
    forall s | s in Sectors(g, Chain([r])) ensures s < |d| && e[s] == d[s] {
      assert SectorOf(g, r, s);
    }
  }

  // ----- f_mkdir -----

  /** What the ".." entry says of the parent: its start cluster, 0 for the root directory. */
  function ParentOf(g: Geometry, sclust: nat): nat { if g.fatType == Fat32 && sclust == g.dirbase then 0 else sclust }

  /** The clusters of all other chains keep their links. */
  ghost predicate OneMore(g: Geometry, d: Disk, e: Disk, r: nat)
    requires DiskOf(g, d) && DiskOf(g, e)
  {
    2 <= r < g.maxClust && Fat(g, d)[r] == 0 && forall c :: 2 <= c < g.maxClust && c != r ==>
      Fat(g, e)[c] == Fat(g, d)[c]
  }

  /** Sector `s` is neither in the FATs, nor of the table at `q` or of cluster `r`, nor FSInfo. */
  ghost predicate Untouched(g: Geometry, q: Place, r: nat, s: nat)
    requires g.Ok() && (q.Chain? ==> InRange(g, q.ch)) && 2 <= r
  {
    && (s < g.fatbase || g.FatEnd() <= s) && s !in Sectors(g, q) && !SectorOf(g, r, s)
    && !(g.fatType == Fat32 && s == g.fsiSector)
  }

  /** What f_mkdir changes from disk `d` to `e`: the FATs, the table that was at `p` and is at `q`, cluster `r` and
      FSInfo; and in the FAT only entries of `r` and of the table's clusters. Those the table gained were free. */
  ghost predicate MkdirOnly(g: Geometry, p: Place, q: Place, r: nat, d: Disk, e: Disk)
  {
    && DiskOf(g, d) && DiskOf(g, e) && (q.Chain? ==> InRange(g, q.ch)) && Grew(p, q) && 2 <= r < g.maxClust
    && Fat(g, d)[r] == 0
    && (forall s :: 0 <= s < |d| && Untouched(g, q, r, s) ==> e[s] == d[s])
    && (forall c: nat :: 2 <= c < g.maxClust && c != r && !InPlace(q, c) ==> Fat(g, e)[c] == Fat(g, d)[c])
    && (forall c: nat :: InPlace(q, c) && !InPlace(p, c) ==> 2 <= c < g.maxClust && Fat(g, d)[c] == 0)
  }

  /** The new cluster taken and written. */
  lemma MadeOnly(g: Geometry, p: Place, d: Disk, m: Disk, e: Disk, r: nat, head: Sector)
    requires Fits(g, p, d) && DiskOf(g, m) && DiskOf(g, e) && SameData(g, d, m) && OneMore(g, d, m, r)
    requires Initialised(m, e, ClusterSector(g, r), g.csize, head) && Fat(g, e) == Fat(g, m)
    ensures MkdirOnly(g, p, p, r, d, e)
  {
    hide Fat, Sectors, GoodSectors, Geometry.Ok;
    forall s | 0 <= s < |d| && Untouched(g, p, r, s) ensures e[s] == d[s] {
      assert m[s] == d[s];
    }
  }

  /** The parent's table changed after that. */
  lemma OnlyThen(g: Geometry, p: Place, q: Place, q': Place, r: nat, d: Disk, e: Disk, h: Disk)
    requires MkdirOnly(g, p, q, r, d, e) && Changed(g, q, q', e, h) && Fat(g, e)[r] != 0
    ensures MkdirOnly(g, p, q', r, d, h)
  {
    SectorsGrow(g, q, q');
    hide Fat, Sectors, GoodSectors, Geometry.Ok, SectorOf;
    forall s | 0 <= s < |d| && Untouched(g, q', r, s) ensures h[s] == d[s] {
      assert s !in Sectors(g, q);
      assert Untouched(g, q, r, s);
    }
  }

  /** FSInfo written after that. */
  lemma OnlyInfo(g: Geometry, p: Place, q: Place, r: nat, d: Disk, e: Disk, h: Disk)
    requires MkdirOnly(g, p, q, r, d, e) && DiskOf(g, h) && Fat(g, h) == Fat(g, e)
    requires forall s :: 0 <= s < |e| && !(g.fatType == Fat32 && s == g.fsiSector) ==> h[s] == e[s]
    ensures MkdirOnly(g, p, q, r, d, h)
  {
    hide Fat, Sectors, GoodSectors, Geometry.Ok, SectorOf;
  }

  /** The new cluster given back after that. */
  lemma OnlyFreed(g: Geometry, p: Place, q: Place, r: nat, d: Disk, e: Disk, h: Disk)
    requires MkdirOnly(g, p, q, r, d, e) && DiskOf(g, h) && SameData(g, e, h) && Fat(g, h) == Fat(g, e)[r := 0]
    ensures MkdirOnly(g, p, q, r, d, h)
  {
    hide Fat, Sectors, GoodSectors, Geometry.Ok, SectorOf;
    forall s | 0 <= s < |d| && Untouched(g, q, r, s) ensures h[s] == d[s] { assert h[s] == e[s]; }
  }

  /** The allocation and the writing of the new table cluster. */
  method AllocateTable(dj: Dir, tim: dword) returns (r: nat)
    requires dj.Valid()
    modifies dj.fs`disk, dj.fs`wflag, dj.fs`winsect, dj.fs`image, dj.fs`lastClust, dj.fs`freeClust, dj.fs`fsiFlag
    modifies dj.fs.win
    ensures dj.fs.Clean() || r == 0
    ensures Fits(dj.fs.g, dj.place, dj.fs.image) && Located(dj.fs.g, Fat(dj.fs.g, dj.fs.image), dj.sclust, dj.place)
    ensures dj.Entries() == old(dj.Entries())
    ensures r == 0 ==> dj.Valid() && dj.fs.image == old(dj.fs.image) && NoneFree(Fat(dj.fs.g, dj.fs.image))
    ensures r != 0 ==> !InPlace(dj.place, r) && OneMore(dj.fs.g, old(dj.fs.image), dj.fs.image, r)
    ensures r != 0 ==>
      NewTable(dj.fs.g, dj.fs.image, r, tim, ParentOf(dj.fs.g, dj.sclust)) && SectorOf(dj.fs.g, r, dj.fs.winsect)
    ensures r != 0 ==> MkdirOnly(dj.fs.g, dj.place, dj.place, r, old(dj.fs.image), dj.fs.image)
    ensures Created(old(dj.fs.Table()), 0, r, Mask(dj.fs.g.fatType, 0xFFF_FFFF), dj.fs.Table())
    ensures old(dj.fs.Exact()) ==> dj.fs.Exact()
  {
    hide MkdirOnly, FreeExact, FatFs.Valid, FatFs.Clean, Fat, Located, Fits, TableAt, Created, SameData, NewTable,
         Initialised, DotSector, NoOnes;
    var fs := dj.fs;
    FitsMeans(fs.g, dj.place, fs.image);
    ghost var d, a := fs.image, fs.Table();
    r := fs.CreateChain(0);
    fs.ValidDisk();
    FirstCluster(fs.g, a, dj.sclust, dj.place, r, fs.Table());
    if r != 0 {
      ghost var m := fs.image;
      AllocKeeps(fs.g, d, m, dj.sclust, dj.place, r, Mask(fs.g.fatType, 0xFFF_FFFF));
      fs.InitCluster(r, DotSector(tim, r, ParentOf(fs.g, dj.sclust)));
      LocatedStatic(fs.g, Fat(fs.g, m), dj.sclust, dj.place);
      InitKeeps(fs.g, m, fs.image, dj.place, r, DotSector(tim, r, ParentOf(fs.g, dj.sclust)));
      FitsMeans(fs.g, dj.place, fs.image);
      MadeOnly(fs.g, dj.place, d, m, fs.image, r, DotSector(tim, r, ParentOf(fs.g, dj.sclust)));
      InitMakesTable(fs.g, m, fs.image, r, tim, ParentOf(fs.g, dj.sclust));
      SectorOfIntro(fs.g, r, fs.g.csize - 1);
    }
  }

  lemma LocatedStatic(g: Geometry, f: seq<nat>, sclust: nat, p: Place)
    requires Located(g, f, sclust, p)
    ensures p.Static? ==> g.fatType != Fat32
  {
  }

  /** create_chain(0) on a volume with a table: the volume is full, or a free cluster becomes a chain of its own. */
  lemma FirstCluster(g: Geometry, a: Alloc, sclust: nat, p: Place, r: nat, b: Alloc)
    requires Located(g, a.fat, sclust, p) && Created(a, 0, r, Mask(g.fatType, 0xFFF_FFFF), b)
    ensures r != 1 && (r == 0 ==> NoneFree(a.fat)) && Mask(g.fatType, 0xFFF_FFFF) >= g.maxClust
    ensures r != 0 ==> 2 <= r < g.maxClust && a.fat[r] == 0 && b.fat == a.fat[r := Mask(g.fatType, 0xFFF_FFFF)]
  {
    MaskKeeps(g);
    ScanFindsFree(a.fat, ScanStart(a, 0), r);
  }

  /** A new table cluster for a subdirectory, and the parent's table brought back into the window. After its last write
      the window need not show its sector; the parent's first sector, which dir_register turns to next, is another
      one, so move_window loads it. */
  method MakeTable(dj: Dir, tim: dword) returns (r: nat)
    requires dj.Valid() && dj.Entries() != []
    modifies dj.fs`disk, dj.fs`wflag, dj.fs`winsect, dj.fs`image, dj.fs`lastClust, dj.fs`freeClust, dj.fs`fsiFlag
    modifies dj.fs.win
    ensures dj.Valid() && dj.Entries() == old(dj.Entries())
    ensures r == 0 ==> dj.fs.image == old(dj.fs.image) && NoneFree(Fat(dj.fs.g, dj.fs.image))
    ensures r != 0 ==> !InPlace(dj.place, r) && OneMore(dj.fs.g, old(dj.fs.image), dj.fs.image, r)
    ensures r != 0 ==> NewTable(dj.fs.g, dj.fs.image, r, tim, ParentOf(dj.fs.g, dj.sclust))
    ensures r != 0 ==> MkdirOnly(dj.fs.g, dj.place, dj.place, r, old(dj.fs.image), dj.fs.image)
    ensures Created(old(dj.fs.Table()), 0, r, Mask(dj.fs.g.fatType, 0xFFF_FFFF), dj.fs.Table())
    ensures old(dj.fs.Exact()) ==> dj.fs.Exact()
  {
    hide Created, MkdirOnly, FatFs.Exact, FatFs.Valid, FatFs.Clean, Fat, Located, Fits, TableAt, NewTable, OneMore,
         NoneFree, SectorOf;
    r := AllocateTable(dj, tim);
    if r != 0 {
      var fs := dj.fs;
      var first := FirstSector(dj);
      FitsMeans(fs.g, dj.place, fs.image);
      LocatedStatic(fs.g, Fat(fs.g, fs.image), dj.sclust, dj.place);
      NewTableRange(fs.g, fs.image, r, tim, ParentOf(fs.g, dj.sclust));
      NotInCluster(fs.g, dj.place, fs.image, r);
      assert first != fs.winsect;
      fs.LoadSector(first);
    }
  }

  lemma NewTableRange(g: Geometry, d: Disk, r: nat, tim: dword, parent: nat)
    requires NewTable(g, d, r, tim, parent)
    ensures DiskOf(g, d) && 2 <= r < g.maxClust < 0x1_0000_0000
  {
  }

  /** The sector of entry 0, as dir_seek finds it. */
  method FirstSector(dj: Dir) returns (s: nat)
    requires Fits(dj.fs.g, dj.place, dj.fs.image) && Located(dj.fs.g, Fat(dj.fs.g, dj.fs.image), dj.sclust, dj.place)
    requires dj.Entries() != []
    ensures s in Sectors(dj.fs.g, dj.place) && 0 < s < dj.fs.g.nSectors
  {
    hide Fat, Located, ChainSectors, Fits;
    var g := dj.fs.g;
    FitsMeans(g, dj.place, dj.fs.image);
    StartCluster(g, Fat(g, dj.fs.image), dj.sclust, dj.place);
    var clst := dj.sclust;
    if clst == 0 && g.fatType == Fat32 { clst := g.dirbase; }
    s := if clst == 0 then g.dirbase else dj.fs.Clust2Sect(clst);
    if dj.place.Chain? { SectorAt(g, dj.place.ch, 0, 0); }
    assert Sectors(g, dj.place)[0] == s;
  }

  /** The entry of a new directory: what dir_register wrote, with attribute, time and cluster. */
  function DirectoryEntry(e: Entry, tim: dword, clst: nat): (r: Entry)
  {
    Splice(Splice(Splice(Splice(e, 11, [AM_DIR]), 22, [Byte0(tim), Byte1(tim), Byte2(tim), Byte3(tim)]),
                  26, [Byte0(clst), Byte1(clst)]), 20, [Byte0(clst / 0x1_0000), Byte1(clst / 0x1_0000)])
  }

  lemma DirectoryEntryIs(e: Entry, tim: dword, clst: nat)
    requires !IsBlank(e) && clst < 0x1_0000_0000
    ensures var r := DirectoryEntry(e, tim, clst);
      IsShort(r) && Short(r) == Short(e) && r[11] == AM_DIR && ClusterIn(r) == clst
  {
    hide Byte0, Byte1, Byte2, Byte3;
    var r := DirectoryEntry(e, tim, clst);
    assert HasWord(r, 26, clst) && HasWord(r, 20, clst / 0x1_0000);
    HasWordLoads(r, 26, clst);
    HasWordLoads(r, 20, clst / 0x1_0000);
    assert r[11] == AM_DIR && r[0] == e[0];
    assert Short(r) == Short(e);
  }

  /** The fields of the new entry, stored into the window that dir_register left on it. */
  method FillEntry(dj: Dir, tim: dword, r: nat)
    requires dj.Valid() && dj.At(dj.index) && dj.fs.winsect == dj.sect
    modifies dj.fs`wflag, dj.fs`image, dj.fs.win
    ensures dj.Valid() && dj.At(dj.index) && Rewritten(dj.fs.g, dj.place, old(dj.fs.image), dj.fs.image)
    ensures dj.index < |old(dj.Entries())|
    ensures dj.Entries() == old(dj.Entries())[dj.index := DirectoryEntry(old(dj.Entries())[dj.index], tim, r)]
    ensures old(dj.fs.Exact()) ==> dj.fs.Exact()
  {
    hide FatFs.Exact, FatFs.Valid, Located, Points, Fits, TableAt, Rewritten, Splice, Byte0, Byte1, Byte2, Byte3, Fat;
    ghost var g, p, d := dj.fs.g, dj.place, dj.fs.image;
    dj.Put(11, [AM_DIR]);
    ghost var d1 := dj.fs.image;
    dj.Put(22, [Byte0(tim), Byte1(tim), Byte2(tim), Byte3(tim)]);
    RewrittenTwice(g, p, d, d1, dj.fs.image);
    ghost var d2 := dj.fs.image;
    dj.Put(26, [Byte0(r), Byte1(r)]);
    RewrittenTwice(g, p, d, d2, dj.fs.image);
    ghost var d3 := dj.fs.image;
    dj.Put(20, [Byte0(r / 0x1_0000), Byte1(r / 0x1_0000)]);
    RewrittenTwice(g, p, d, d3, dj.fs.image);
  }

  /** A store outside the FATs and the data area, as sync does it for FSInfo, changes no table. */
  lemma SyncKeeps(g: Geometry, d: Disk, s: nat, w: Sector, p: Place)
    requires Fits(g, p, d) && s < g.fatbase
    ensures s < |d| && Fits(g, p, d[s := w]) && TableAt(g, p, d[s := w]) == TableAt(g, p, d)
    ensures Fat(g, d[s := w]) == Fat(g, d)
  {
    hide Fat, ChainSectors, TableAt;
    FatAreaHolds(g);
    FatUntouched(g, d, d[s := w]);
    TableUnder(g, p, d, d[s := w]);
  }

  lemma SyncKeepsNew(g: Geometry, d: Disk, s: nat, w: Sector, r: nat, tim: dword, parent: nat)
    requires NewTable(g, d, r, tim, parent) && s < g.fatbase
    ensures s < |d| && NewTable(g, d[s := w], r, tim, parent)
  {
    hide Fat, TableAt, DotEntry, IsChain, Sectors;
    SyncKeeps(g, d, s, w, Chain([r]));
  }

  method SyncTables(dj: Dir, ghost r: nat, ghost tim: dword, ghost parent: nat)
    requires dj.Valid() && NewTable(dj.fs.g, dj.fs.image, r, tim, parent)
    modifies dj.fs`disk, dj.fs`wflag, dj.fs`winsect, dj.fs`image, dj.fs`fsiFlag, dj.fs.win
    ensures dj.Valid() && dj.Entries() == old(dj.Entries()) && NewTable(dj.fs.g, dj.fs.image, r, tim, parent)
    ensures Fat(dj.fs.g, dj.fs.image) == Fat(dj.fs.g, old(dj.fs.image)) && dj.fs.disk == dj.fs.image && !dj.fs.wflag
    ensures DiskOf(dj.fs.g, dj.fs.image) && |dj.fs.image| == |old(dj.fs.image)|
    ensures forall s :: 0 <= s < |dj.fs.image| && !(dj.fs.g.fatType == Fat32 && s == dj.fs.g.fsiSector) ==>
      dj.fs.image[s] == old(dj.fs.image)[s]
    ensures old(dj.fs.Exact()) ==> dj.fs.Exact()
  {
    hide FreeExact, FatFs.Valid, Located, Fits, TableAt, NewTable, Fat, FsInfo;
    FitsMeans(dj.fs.g, dj.place, dj.fs.image);
    InfoSector(dj.fs.g);
    if dj.fs.g.fatType == Fat32 {
      SyncKeeps(dj.fs.g, dj.fs.image, dj.fs.g.fsiSector, FsInfo(dj.fs.freeClust, dj.fs.lastClust), dj.place);
      SyncKeepsNew(dj.fs.g, dj.fs.image, dj.fs.g.fsiSector, FsInfo(dj.fs.freeClust, dj.fs.lastClust), r, tim, parent);
    }
    dj.fs.Sync();
  }

  lemma InfoSector(g: Geometry)
    requires g.Ok()
    ensures g.fatType == Fat32 ==> g.fsiSector < g.fatbase
  {
  }

  /** The new cluster freed again leaves the parent's table as it is. */
  lemma FreeKeeps(g: Geometry, d: Disk, e: Disk, sclust: nat, p: Place, r: nat)
    requires Fits(g, p, d) && DiskOf(g, e) && SameData(g, d, e) && Located(g, Fat(g, d), sclust, p) && !InPlace(p, r)
    requires 2 <= r < g.maxClust && IsChain(Fat(g, d), [r]) && Fat(g, e) == Cut(Fat(g, d), r)
    ensures Fits(g, p, e) && TableAt(g, p, e) == TableAt(g, p, d) && Located(g, Fat(g, e), sclust, p)
    ensures Fat(g, e) == Fat(g, d)[r := 0] && CutCount(Fat(g, d), r) == 1
  {
    hide Fat, ChainSectors, TableAt, Cut;
    TableUnder(g, p, d, e);
    var f, f' := Fat(g, d), Fat(g, e);
    CutChain(f, [r]);
    assert f' == f[r := 0];
    if p.Chain? {
      ChainUses(f, p.ch);
      ChainFrame(f, f', p.ch);
    }
  }

  method GiveBack(dj: Dir, r: nat, ghost tim: dword, ghost parent: nat)
    requires dj.Valid() && NewTable(dj.fs.g, dj.fs.image, r, tim, parent) && !InPlace(dj.place, r)
    modifies dj.fs`disk, dj.fs`wflag, dj.fs`winsect, dj.fs`image, dj.fs`freeClust, dj.fs`fsiFlag, dj.fs.win
    ensures dj.Valid() && dj.Entries() == old(dj.Entries()) && r < dj.fs.g.maxClust
    ensures Fat(dj.fs.g, dj.fs.image) == Fat(dj.fs.g, old(dj.fs.image))[r := 0]
    ensures DiskOf(dj.fs.g, dj.fs.image) && SameData(dj.fs.g, old(dj.fs.image), dj.fs.image)
    ensures dj.fs.freeClust == Raised(old(dj.fs.freeClust), 1)
    ensures old(dj.fs.Exact()) ==> dj.fs.Exact()
  {
    hide FatFs.Exact, FatFs.Valid, Located, Fits, TableAt, NewTable, Fat, Cut, SameData, IsChain;
    FitsMeans(dj.fs.g, dj.place, dj.fs.image);
    NewTableRange(dj.fs.g, dj.fs.image, r, tim, parent);
    NewTableChain(dj.fs.g, dj.fs.image, r, tim, parent);
    ghost var d := dj.fs.image;
    var res := dj.fs.RemoveChain(r);
    dj.fs.ValidDisk();
    FreeKeeps(dj.fs.g, d, dj.fs.image, dj.sclust, dj.place, r);
  }

  lemma NewTableChain(g: Geometry, d: Disk, r: nat, tim: dword, parent: nat)
    requires NewTable(g, d, r, tim, parent)
    ensures DiskOf(g, d) && IsChain(Fat(g, d), [r])
  {
  }

  /** The directory's entry filled in: the names in the parent stay what dir_register made them. */
  lemma NewNameSet(t: Table, names: Names, u: Table, names': Names, zero: nat, name: seq<word>, at: nat, e: Entry)
    requires Ascii(name) && WellFormed(u, names', zero) && NewName(t, names, u, names', name, at)
    requires IsShort(e) && Short(e) == Short(u[at])
    ensures WellFormed(u[at := e], names', zero) && NewName(t, names, u[at := e], names', name, at)
  {
    hide WellFormed, Matches, FormOf, SameName, IsShort, Short;
    UpdateKeeps(u, names', zero, at, e);
  }

  /** FAT entries of clusters outside the table at `p` are as they were. */
  ghost predicate FatKept(g: Geometry, p: Place, d: Disk, e: Disk)
  {
    DiskOf(g, d) && DiskOf(g, e) && forall c: nat :: 2 <= c < g.maxClust && !InPlace(p, c) ==>
      Fat(g, e)[c] == Fat(g, d)[c]
  }

  lemma BackAsBefore(g: Geometry, p: Place, q: Place, d: Disk, e: Disk, f: Disk, h: Disk, r: nat)
    requires DiskOf(g, d) && DiskOf(g, e) && DiskOf(g, h) && OneMore(g, d, e, r) && Changed(g, p, q, e, f)
    requires Fat(g, h) == Fat(g, f)[r := 0]
    ensures FatKept(g, q, d, h)
  {
    hide Fat, Sectors, GoodSectors;
  }

  lemma FatKeptSelf(g: Geometry, p: Place, d: Disk)
    requires DiskOf(g, d)
    ensures FatKept(g, p, d, d)
  {
  }

  lemma RewrittenIsChanged(g: Geometry, p: Place, d: Disk, e: Disk)
    requires Rewritten(g, p, d, e)
    ensures Changed(g, p, p, d, e)
  {
  }

  lemma ChosenShort(t: Table, names: Names, name: seq<word>, f: Form)
    requires Ascii(name) && Chosen(t, names, name, f)
    ensures |f.fn| == 11 && !IsBlank(ShortEntry(f))
  {
  }

  /** After f_mkdir the volume's chains are as ChainRuns demands: the parent's table and the new cluster among them. */
  lemma MkdirKeepsOwned(g: Geometry, p: Place, q: Place, r: nat, d: Disk, e: Disk, sclust: nat, others: seq<seq<nat>>)
    requires MkdirOnly(g, p, q, r, d, e) && Located(g, Fat(g, e), sclust, q) && !InPlace(q, r)
    requires IsChain(Fat(g, e), [r])
    requires WellOwned(Fat(g, d), others + TableChains(p))
    ensures WellOwned(Fat(g, e), others + (TableChains(q) + [[r]]))
  {
    hide Fat, Sectors, Geometry.Ok, WellOwned, IsChain, Disjoint, SectorOf, Part, Untouched;
    var f, f' := Fat(g, d), Fat(g, e);
    var mine := TableChains(q) + [[r]];
    var dom := Part(f, TableChains(p));
    GrewIn(g, p, q);
    forall c: nat ensures ChainRuns.OwnedBy(TableChains(p), c) <==> InPlace(p, c) { InTableChains(p, c); }
    forall c: nat ensures ChainRuns.OwnedBy(mine, c) <==> InPlace(q, c) || c == r {
      InTableChains(q, c);
      OwnedInBoth(TableChains(q), [[r]], c);
      assert ChainRuns.OwnedBy([[r]], c) <==> c == r by { assert r in [[r]][0]; }
    }
    PartIs(f, TableChains(p));
    UsedChains(g, f', sclust, q, r);
    assert Covers(f', mine, dom);
    PartKeepsOwned(f, f', others, TableChains(p), mine, dom);
  }

  lemma GrewIn(g: Geometry, p: Place, q: Place)
    requires g.Ok() && Grew(p, q) && (q.Chain? ==> InRange(g, q.ch))
    ensures forall c: nat :: InPlace(p, c) ==> InPlace(q, c)
  {
    SectorsGrow(g, p, q);
  }

  lemma PartIs(f: seq<nat>, mine: seq<seq<nat>>)
    ensures Covers(f, mine, Part(f, mine))
  {
  }

  lemma UsedChains(g: Geometry, f: seq<nat>, sclust: nat, q: Place, r: nat)
    requires Located(g, f, sclust, q) && IsChain(f, [r]) && !InPlace(q, r)
    ensures var mine := TableChains(q) + [[r]];
      && Disjoint(mine) && (forall i :: 0 <= i < |mine| ==> IsChain(f, mine[i]))
      && (forall c: nat :: InPlace(q, c) || c == r ==> 2 <= c < |f| && f[c] != 0)
  {
    hide Geometry.Ok, NoOnes;
    ChainUses(f, [r]);
    assert r in [r];
    if q.Chain? { ChainUses(f, q.ch); }
  }

  /** The failing half of f_mkdir: the cluster is given back, and nothing else changed but the table of the parent. */
  method Undo(dj: Dir, r: nat, ghost tim: dword, ghost parent: nat, ghost p: Place, ghost d0: Disk, ghost d1: Disk)
    requires dj.Valid() && NewTable(dj.fs.g, dj.fs.image, r, tim, parent) && !InPlace(dj.place, r)
    requires DiskOf(dj.fs.g, d0) && DiskOf(dj.fs.g, d1) && OneMore(dj.fs.g, d0, d1, r)
    requires Changed(dj.fs.g, p, dj.place, d1, dj.fs.image)
    requires MkdirOnly(dj.fs.g, p, dj.place, r, d0, dj.fs.image)
    modifies dj.fs`disk, dj.fs`wflag, dj.fs`winsect, dj.fs`image, dj.fs`freeClust, dj.fs`fsiFlag, dj.fs.win
    ensures dj.Valid() && dj.Entries() == old(dj.Entries()) && FatKept(dj.fs.g, dj.place, d0, dj.fs.image)
    ensures MkdirOnly(dj.fs.g, p, dj.place, r, d0, dj.fs.image)
    ensures r < dj.fs.g.maxClust && Fat(dj.fs.g, dj.fs.image) == Fat(dj.fs.g, old(dj.fs.image))[r := 0]
    ensures dj.fs.freeClust == Raised(old(dj.fs.freeClust), 1)
    ensures old(dj.fs.Exact()) ==> dj.fs.Exact()
  {
    hide FatFs.Exact, FatFs.Valid, Located, Fits, TableAt, NewTable, Fat, SameData, MkdirOnly, OneMore, Changed,
         FatKept, Geometry.Ok;
    ghost var d2 := dj.fs.image;
    GiveBack(dj, r, tim, parent);
    OnlyFreed(dj.fs.g, p, dj.place, r, d0, d2, dj.fs.image);
    BackAsBefore(dj.fs.g, p, dj.place, d0, d1, d2, dj.fs.image, r);
  }

  /** The succeeding half of f_mkdir: the entry is filled in and everything goes to the disk. */
  method Complete(dj: Dir, tim: dword, r: nat, ghost parent: nat, ghost p: Place, ghost d0: Disk)
    requires dj.Valid() && dj.At(dj.index) && dj.fs.winsect == dj.sect
    requires NewTable(dj.fs.g, dj.fs.image, r, tim, parent) && !InPlace(dj.place, r)
    requires MkdirOnly(dj.fs.g, p, dj.place, r, d0, dj.fs.image)
    modifies dj.fs`disk, dj.fs`wflag, dj.fs`winsect, dj.fs`image, dj.fs`fsiFlag, dj.fs.win
    ensures dj.Valid() && dj.index < |old(dj.Entries())|
    ensures dj.Entries() == old(dj.Entries())[dj.index := DirectoryEntry(old(dj.Entries())[dj.index], tim, r)]
    ensures NewTable(dj.fs.g, dj.fs.image, r, tim, parent) && dj.fs.disk == dj.fs.image && !dj.fs.wflag
    ensures MkdirOnly(dj.fs.g, p, dj.place, r, d0, dj.fs.image)
    ensures Fat(dj.fs.g, dj.fs.image) == Fat(dj.fs.g, old(dj.fs.image))
    ensures old(dj.fs.Exact()) ==> dj.fs.Exact()
  {
    hide FatFs.Exact, FatFs.Valid, Located, Points, Fits, TableAt, NewTable, Fat, MkdirOnly, Rewritten, Changed,
         DirectoryEntry, Geometry.Ok, FsInfo;
    ghost var g, d2 := dj.fs.g, dj.fs.image;
    FillEntry(dj, tim, r);
    RewrittenIsChanged(g, dj.place, d2, dj.fs.image);
    RewrittenFits(g, dj.place, d2, dj.fs.image);
    UsedByTable(g, d2, r, tim, parent);
    OnlyThen(g, p, dj.place, dj.place, r, d0, d2, dj.fs.image);
    FitsMeans(g, dj.place, dj.fs.image);
    LocatedStatic(g, Fat(g, dj.fs.image), dj.sclust, dj.place);
    NewTableStays(g, dj.place, dj.place, d2, dj.fs.image, r, tim, parent);
    ghost var d3 := dj.fs.image;
    SyncTables(dj, r, tim, parent);
    OnlyInfo(g, p, dj.place, r, d0, d3, dj.fs.image);
  }

  lemma UsedByTable(g: Geometry, d: Disk, r: nat, tim: dword, parent: nat)
    requires NewTable(g, d, r, tim, parent)
    ensures DiskOf(g, d) && 2 <= r < g.maxClust && Fat(g, d)[r] != 0
  {
    hide Fat;
    ChainUses(Fat(g, d), [r]);
    assert r in [r];
  }

  /** The allocation table of f_mkdir: cluster `r` is taken first, then the parent's table goes from `p` to `q`; if its
      entry cannot be made `r` is freed again. */
  ghost predicate MkdirTable(a: Alloc, p: Place, r: nat, eoc: nat, made: bool, b: Alloc, q: Place)
  {
    exists m, n ::
      && Created(a, 0, r, eoc, m) && PlaceGrown(m, p, eoc, n, q) && r < |n.fat|
      && b == if made then n else Alloc(n.fat[r := 0], n.last, Raised(n.free, 1))
  }

  lemma MkdirTableIs(a: Alloc, p: Place, r: nat, eoc: nat, made: bool, b: Alloc, q: Place, m: Alloc, n: Alloc)
    requires Created(a, 0, r, eoc, m) && PlaceGrown(m, p, eoc, n, q) && r < |n.fat|
    requires b == if made then n else Alloc(n.fat[r := 0], n.last, Raised(n.free, 1))
    ensures MkdirTable(a, p, r, eoc, made, b, q)
  {
  }

  /** The parent's table: dir_register added the object, and its entry was filled in. */
  ghost predicate MadeEntry(t: Table, u: Table, name: seq<word>, f: Form, at: nat, tim: dword, r: nat)
    requires Ascii(name) && |f.fn| == 11
  {
    exists v ::
      && AddedTo(t, v, if FormOf(name).lfn then name else [], ShortEntry(f), at)
      && at < |v| && u == v[at := DirectoryEntry(v[at], tim, r)]
  }

  lemma MadeEntryIs(t: Table, v: Table, name: seq<word>, f: Form, at: nat, tim: dword, r: nat)
    requires Ascii(name) && |f.fn| == 11 && at < |v|
    requires AddedTo(t, v, if FormOf(name).lfn then name else [], ShortEntry(f), at)
    ensures MadeEntry(t, v[at := DirectoryEntry(v[at], tim, r)], name, f, at, tim, r)
  {
  }

  /** The parent's table with the new directory: an entry that leads to cluster `r`, under a name that is found, while
      all other names are found as before. */
  ghost predicate MadeDirectory(t: Table, names: Names, zero: nat, u: Table, name: seq<word>, f: Form, at: nat,
        tim: dword, r: nat)
    requires Ascii(name)
  {
    var names' := names[at := if FormOf(name).lfn then name else []];
    && |f.fn| == 11 && Chosen(t, names, name, f) && at < |u| && u[at][11] == AM_DIR && ClusterIn(u[at]) == r
    && WellFormed(u, names', ZeroAfter(zero, at)) && NewName(t, names, u, names', name, at)
    && MadeEntry(t, u, name, f, at, tim, r)
  }

  lemma MkdirEntry(t: Table, names: Names, zero: nat, v: Table, name: seq<word>, f: Form, at: nat, tim: dword, r: nat)
    requires Ascii(name) && Chosen(t, names, name, f) && at < |v| && |f.fn| == 11 && v[at] == ShortEntry(f)
    requires r < 0x1_0000_0000 && AddedTo(t, v, if FormOf(name).lfn then name else [], ShortEntry(f), at)
    requires var names' := names[at := if FormOf(name).lfn then name else []];
      WellFormed(v, names', ZeroAfter(zero, at)) && NewName(t, names, v, names', name, at)
    ensures MadeDirectory(t, names, zero, v[at := DirectoryEntry(v[at], tim, r)], name, f, at, tim, r)
  {
    ChosenShort(t, names, name, f);
    hide WellFormed, NewName, Chosen, FormOf, DirectoryEntry, ClusterIn, Short, ShortEntry, AddedTo, MadeEntry;
    DirectoryEntryIs(v[at], tim, r);
    MadeEntryIs(t, v, name, f, at, tim, r);
    NewNameSet(t, names, v, names[at := if FormOf(name).lfn then name else []], ZeroAfter(zero, at), name, at,
        DirectoryEntry(v[at], tim, r));
  }

  /** f_mkdir of a name that was not found. It either makes the directory, with a table of its own and an entry in the
      parent that leads to it, or leaves all names as they were and no cluster lost. Either way no sector and no table
      entry of another file or directory changes. */
  method Mkdir(dj: Dir, ghost name: seq<word>, ghost names: Names, ghost zero: nat, tim: dword)
    returns (res: FResult, r: nat)
    requires dj.Valid() && dj.HoldsName(name) && WellFormed(dj.Entries(), names, zero)
    requires dj.fn == FormOf(name) && dj.lfnOn && dj.Entries() != []
    requires forall a :: !Matches(dj.Entries(), names, KeyOf(name), a)
    modifies dj`index, dj`clust, dj`sect, dj`ofs, dj`place, dj`lfnIdx, dj`fn, dj`lfnOn
    modifies dj.fs`disk, dj.fs`wflag, dj.fs`winsect, dj.fs`image, dj.fs`lastClust, dj.fs`freeClust, dj.fs`fsiFlag
    modifies dj.fs.win
    ensures dj.Valid() && Ascii(name)
    ensures res == Ok ==> MadeDirectory(old(dj.Entries()), names, zero, dj.Entries(), name, dj.fn, dj.index, tim, r)
    ensures res == Ok ==> NewTable(dj.fs.g, dj.fs.image, r, tim, ParentOf(dj.fs.g, dj.sclust)) && !InPlace(dj.place, r)
    ensures res == Ok ==> dj.fs.disk == dj.fs.image && !dj.fs.wflag
    ensures res != Ok ==> WellFormed(dj.Entries(), names, zero) && Longer(old(dj.Entries()), dj.Entries())
    ensures res != Ok ==> FatKept(dj.fs.g, dj.place, old(dj.fs.image), dj.fs.image)
    ensures res != Ok ==> res == Denied || res == NoFile
    ensures if r == 0 then res == Denied && dj.fs.image == old(dj.fs.image) && NoneFree(Fat(dj.fs.g, dj.fs.image))
            else MkdirOnly(dj.fs.g, old(dj.place), dj.place, r, old(dj.fs.image), dj.fs.image)
    ensures r != 0 ==>
      MkdirTable(old(dj.fs.Table()), old(dj.place), r, Mask(dj.fs.g.fatType, 0xFFF_FFFF), res == Ok,
                 dj.fs.Table(), dj.place)
    ensures res == Ok ==>
      Extra(old(dj.place), dj.place) == ClustersMore(|old(dj.Entries())|, dj.index + 1, 16 * dj.fs.g.csize)
    ensures res == NoFile ==>
      && NoRoom(dj.Entries(), Segments(if FormOf(name).lfn then name else []) + 1)
      && (dj.place.Chain? ==> |dj.Entries()| == MAX_ENTRIES)
    ensures Enlarged(dj.fs.g, old(dj.place), |old(dj.Entries())|, dj.place, |dj.Entries()|)
    ensures old(dj.fs.Exact()) ==> dj.fs.Exact()
  {
    hide Created, PlaceGrown, MkdirTable, MadeEntry, AddedTo, Enlarged, Extra, ClustersMore, NoRoom, Longer,
         FatFs.Exact, FatFs.Valid, Located, Fits, TableAt, NewTable, Fat, WellFormed, Matches, FormOf, Chosen,
         Changed, NewName, OneMore, Rewritten, ShortEntry, Points, FatKept, Proper, Holds, NoneFree, Lengthened,
         DirectoryEntry, ClusterIn, IsShort, Short, Ascii, MkdirOnly, Geometry.Ok, NumbersTaken, Dir.GrownFrom,
         ParentOf, Mask, InPlace, KeyOf, ZeroAfter, Segments, Raised, Sectors, GoodSectors, SizeOf, IsChain, InRange,
         Stretched, FsInfo, Dir.At, SameData, MadeDirectory;
    ghost var g, parent, d0 := dj.fs.g, ParentOf(dj.fs.g, dj.sclust), dj.fs.image;
    ghost var t0 := dj.Entries();
    ProperIsAscii(name);
    FitsMeans(g, dj.place, d0);
    EnlargedSelf(g, dj.place, |t0|);
    ghost var a0 := dj.fs.Table();
    r := MakeTable(dj, tim);
    FitsMeans(g, dj.place, dj.fs.image);
    if r == 0 {
      FatKeptSelf(g, dj.place, dj.fs.image);
      NoLonger(t0);
      return Denied, r;
    }
    ghost var p, d1, a1, eoc := dj.place, dj.fs.image, dj.fs.Table(), Mask(g.fatType, 0xFFF_FFFF);
    LocatedStatic(g, Fat(g, d1), dj.sclust, p);
    res := dj.Register(name, names, zero);
    NewTableStays(g, p, dj.place, d1, dj.fs.image, r, tim, parent);
    UsedByTable(g, d1, r, tim, parent);
    OnlyThen(g, p, p, dj.place, r, d0, d1, dj.fs.image);
    FitsMeans(g, dj.place, dj.fs.image);
    dj.GrownIs(a1, p);
    ghost var a2 := dj.fs.Table();
    if res != Ok {
      LengthenedIs(g, p, dj.place, d1, dj.fs.image);
      Undo(dj, r, tim, parent, p, d0, d1);
      FitsMeans(g, dj.place, dj.fs.image);
      MkdirTableIs(a0, p, r, eoc, false, dj.fs.Table(), dj.place, a1, a2);
    } else {
      ghost var u := dj.Entries();
      NewTableRange(g, dj.fs.image, r, tim, parent);
      ChosenShort(t0, names, name, dj.fn);
      MkdirEntry(t0, names, zero, u, name, dj.fn, dj.index, tim, r);
      Complete(dj, tim, r, parent, p, d0);
      FitsMeans(g, dj.place, dj.fs.image);
      MkdirTableIs(a0, p, r, eoc, true, dj.fs.Table(), dj.place, a1, a2);
    }
  }
}
