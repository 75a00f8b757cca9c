/** The contents of the files of a volume: what each of them holds, from its entry and its chain, and that no operation
    changes any but its own. */
module TreeContents {
  import opened Bytes
  import opened Geometry
  import opened FatTable
  import opened Chains
  import opened ChainRuns
  import opened FileBytes
  import opened FileModel
  import opened FileObject
  import opened Lfn
  import opened DirDisk
  import opened DirModel
  import opened DirMake
  import DirRuns
  import opened FileOpen
  import opened Tree
  import opened TreeDisk
  import opened TreeFiles

  type Contents = map<Spot, seq<byte>>

  /** The object has the bytes `c` in the chain `ch` that begins with its start cluster: as many as its size says. */
  ghost predicate FileStoredIn(g: Geometry, d: Disk, o: Object, c: seq<byte>, ch: seq<nat>)
  {
    && DiskOf(g, d) && InRange(g, ch) && End0(ch) == o.start && (ch != [] ==> IsChain(Fat(g, d), ch))
    && o.size <= |ChainBytes(g, d, ch)| && c == ChainBytes(g, d, ch)[..o.size]
  }

  ghost predicate FileStored(g: Geometry, d: Disk, o: Object, c: seq<byte>) { exists ch :: FileStoredIn(g, d, o, c,
        ch) }  /** The files that are not open. */ function Closed(v: DirTree): set<Spot> { set k | k in v.objs &&
        !v.objs[k].dir && k !in v.open }  /** Each of them holds what `files` says. */ ghost predicate
        Filed(g: Geometry, d: Disk, v: DirTree, files: Contents)
  {
    && files.Keys == Closed(v)
    && forall k :: k in files && k in v.objs ==> FileStored(g, d, v.objs[k], files[k])
  }

  /** What is known of a volume: its directories, its chains, its tree and the contents of its files. */
  datatype Known = Known(dirs: Folders, chains: seq<seq<nat>>, tree: DirTree, files: Contents)

  /** The volume is sound, and its files hold what is known of them. */
  ghost predicate SoundAs(g: Geometry, d: Disk, n: Known)
  {
    Sound(g, d, n.dirs, n.chains, n.tree) && Filed(g, d, n.tree, n.files)
  }

  // ----- what is not touched -----

  /** A file none of whose clusters was touched holds what it held. */
  lemma StoredStays(g: Geometry, d: Disk, e: Disk, dom: set<nat>, root: bool, o: Object, c: seq<byte>, ch: seq<nat>)
    requires FileStoredIn(g, d, o, c, ch) && Confined(g, d, e, dom, root) && forall x :: x in ch ==> x !in dom
    ensures FileStoredIn(g, e, o, c, ch)
  {
    hide Fat, ChainBytes, SectorOf, Geometry.Ok, IsChain;
    forall k, s | 0 <= k < |ch| && 0 <= s < |d| && SectorOf(g, ch[k], s) ensures e[s] == d[s] {
      OwnSector(g, d, e, dom, root, ch, k, s);
    }
    BytesSame(g, d, e, ch);
    if ch != [] {
      FatLength(g, d);
      FatLength(g, e);
      assert forall k :: 0 <= k < |ch| ==> ch[k] in ch;
      ChainFrame(Fat(g, d), Fat(g, e), ch);
    }
  }

  lemma FatLength(g: Geometry, d: Disk)
    requires DiskOf(g, d)
    ensures |Fat(g, d)| == g.maxClust
  {
  }

  lemma OwnSector(g: Geometry, d: Disk, e: Disk, dom: set<nat>, root: bool, ch: seq<nat>, k: nat, s: nat)
    requires Confined(g, d, e, dom, root) && InRange(g, ch) && k < |ch| && s < |d| && SectorOf(g, ch[k], s)
    requires forall x :: x in ch ==> x !in dom
    ensures e[s] == d[s]
  {
    hide Fat, SectorOf;
    FatAreaHolds(g);
    ClusterHolds(g, ch[k], s);
    if Home(g, dom, s) {
      var c' :| c' in dom && 2 <= c' < g.maxClust && SectorOf(g, c', s);
      SectorOfOne(g, ch[k], c', s);
    }
  }

  /** The chain of a file that is not open is apart from the table of a directory and from the chain `x` of the object
      at `k`. */
  lemma ApartFrom(g: Geometry, d: Disk, n: Known, j: Spot, k: Spot, p: Place, x: seq<nat>, ch: seq<nat>, c: nat)
    requires SoundAs(g, d, n) && j in n.files && (x != [] ==> j != k)
    requires p.Chain? ==> exists z :: z in n.dirs && n.dirs[z].p == p
    requires x != [] ==> IsChain(Fat(g, d), x) && k in n.tree.objs && n.tree.Start(k) == x[0] && x[0] != 0
    requires j in n.tree.objs && FileStoredIn(g, d, n.tree.objs[j], n.files[j], ch) && c in ch
    ensures c < |Fat(g, d)| && Fat(g, d)[c] != 0 && !ChainRuns.OwnedBy(TableChains(p) + FileChains(x), c)
  {
    hide Fat, Housed, WellOwned, IsChain, Reflects, HeadsOf, Linked, ChainBytes, DotsNamed;
    var f, v := Fat(g, d), n.tree;
    assert j in Closed(v);
    ChainHead(g, d, ch);
    FileChain(g, d, n.dirs, n.chains, v, j, ch);
    NamedChain(g, d, n.dirs, n.chains, v, j, ch);
    UsedChain(f, ch, c);
    InBoth(p, x, c);
    if p.Chain? && c in p.ch {
      var z :| z in n.dirs && n.dirs[z].p == p;
      DifferentChains(f, n.chains, ch, p.ch);
    }
    if x != [] && c in x {
      NamedChain(g, d, n.dirs, n.chains, v, k, x);
      if x == ch { NothingLost(v, x[0]); }
      DifferentChains(f, n.chains, ch, x);
    }
  }

  lemma UsedChain(f: seq<nat>, ch: seq<nat>, c: nat)
    requires IsChain(f, ch) && c in ch
    ensures c < |f| && f[c] != 0
  {
    ChainUses(f, ch);
  }

  /** All files but those of `but` hold what they held. */
  ghost predicate StillStored(g: Geometry, e: Disk, n: Known, but: set<Spot>)
  {
    forall j :: j in n.files && j !in but ==> j in n.tree.objs && FileStored(g, e, n.tree.objs[j], n.files[j])
  }

  /** An operation on one directory, or on the chain `x` of one object, leaves the contents of all other files as they
      are. */
  lemma FilesStay(g: Geometry, d: Disk, e: Disk, n: Known, k: Spot, p: Place, x: seq<nat>, dom: set<nat>, root: bool)
    requires SoundAs(g, d, n) && (p.Chain? ==> exists z :: z in n.dirs && n.dirs[z].p == p)
    requires x != [] ==> IsChain(Fat(g, d), x) && k in n.tree.objs && n.tree.Start(k) == x[0] && x[0] != 0
    requires Covers(Fat(g, d), TableChains(p) + FileChains(x), dom) && Confined(g, d, e, dom, root)
    ensures StillStored(g, e, n, if x == [] then {} else {k})
  {
    hide Fat, Sound, Confined, IsChain, FileStoredIn;
    forall j | j in n.files && (x != [] ==> j != k)
      ensures j in n.tree.objs && FileStored(g, e, n.tree.objs[j], n.files[j])
    {
      assert j in Closed(n.tree);
      var ch :| FileStoredIn(g, d, n.tree.objs[j], n.files[j], ch);
      forall c | c in ch ensures c !in dom { ApartFrom(g, d, n, j, k, p, x, ch, c); }
      StoredStays(g, d, e, dom, root, n.tree.objs[j], n.files[j], ch);
    }
  }

  /** An operation on directory `s` that frees at most the chain `x` of the object at `k`. */
  lemma TableOpFiles(g: Geometry, d: Disk, e: Disk, n: Known, s: nat, q: Place, k: Spot, x: seq<nat>)
    requires SoundAs(g, d, n) && s in n.dirs && TableOp(g, n.dirs[s].p, q, x, d, e) && Located(g, Fat(g, e), s, q)
    requires x != [] ==> IsChain(Fat(g, d), x) && k in n.tree.objs && n.tree.Start(k) == x[0] && x[0] != 0
    ensures StillStored(g, e, n, if x == [] then {} else {k})
  {
    hide Fat, Sound, TableOp, IsChain, Located, Filed;
    var p := n.dirs[s].p;
    var mine := TableChains(p) + FileChains(x);
    SoundHoused(g, d, n, s);
    TableOpDisks(g, p, q, x, d, e);
    PartIs(Fat(g, d), mine);
    LocatedStaticFat(g, Fat(g, e), s, q);
    TableOpWithin(g, d, e, p, q, x, Part(Fat(g, d), mine));
    FilesStay(g, d, e, n, k, p, x, Part(Fat(g, d), mine), p.Static?);
  }

  lemma SoundHoused(g: Geometry, d: Disk, n: Known, s: nat)
    requires SoundAs(g, d, n) && s in n.dirs
    ensures DiskOf(g, d) && Housed(g, d, s, n.dirs[s])
  {
    hide Fat, Housed, WellOwned, Reflects, HeadsOf, Linked, Filed, DotsNamed;
  }

  lemma TableOpDisks(g: Geometry, p: Place, q: Place, x: seq<nat>, d: Disk, e: Disk)
    requires TableOp(g, p, q, x, d, e)
    ensures DiskOf(g, d) && DiskOf(g, e)
  {
    hide Fat, Sectors, GoodSectors, Geometry.Ok;
    FitsMeans(g, p, d);
    FitsMeans(g, q, e);
  }

  lemma LocatedStaticFat(g: Geometry, f: seq<nat>, s: nat, q: Place)
    requires Located(g, f, s, q)
    ensures q.Static? ==> g.fatType != Fat32
  {
  }

  lemma MkdirDisks(g: Geometry, p: Place, q: Place, r: nat, d: Disk, e: Disk)
    requires MkdirOnly(g, p, q, r, d, e)
    ensures DiskOf(g, d) && DiskOf(g, e)
  {
    hide Fat, Sectors, GoodSectors, Geometry.Ok;
  }

  /** f_mkdir. */
  lemma MkdirFiles(g: Geometry, d: Disk, e: Disk, n: Known, s: nat, q: Place, r: nat)
    requires SoundAs(g, d, n) && s in n.dirs && MkdirOnly(g, n.dirs[s].p, q, r, d, e) && Located(g, Fat(g, e), s, q)
    ensures StillStored(g, e, n, {})
  {
    hide Fat, Sound, MkdirOnly, Located, Filed, Housed, Part, Confined, TableChains, Covers, Geometry.Ok;
    var p := n.dirs[s].p;
    SoundHoused(g, d, n, s);
    MkdirDisks(g, p, q, r, d, e);
    var dom := Part(Fat(g, d), TableChains(p));
    PartIs(Fat(g, d), TableChains(p));
    LocatedStaticFat(g, Fat(g, e), s, q);
    MkdirWithin(g, d, e, p, q, r, dom);
    assert TableChains(p) + FileChains([]) == TableChains(p);
    FilesStay(g, d, e, n, (0, 0), p, [], dom, p.Static?);
  }

  /** An operation on the open file at `k`. */
  lemma FileOpFiles(g: Geometry, d: Disk, e: Disk, n: Known, k: Spot, ch: seq<nat>, dom: set<nat>)
    requires SoundAs(g, d, n) && k in n.tree.open && n.tree.open[k] == End0(ch)
    requires Owns(Fat(g, d), ch, dom) && FileOp(g, dom, d, e)
    ensures StillStored(g, e, n, {k})
  {
    hide Fat, Housed, WellOwned, Reflects, HeadsOf, Linked, Filed, Owns, IsChain;
    OpenObject(n.tree, k);
    OwnsMeans(g, d, ch, dom);
    FileOpConfined(g, d, e, dom);
    OwnsCovers(Fat(g, d), ch, dom);
    assert TableChains(Static) + FileChains(ch) == FileChains(ch);
    FilesStay(g, d, e, n, k, Static, ch, dom, false);
  }

  /** f_sync of the open file at `k`. */
  lemma SyncFiles(fil: Fil, d: Disk, e: Disk, n: Known, k: Spot, ch: seq<nat>, size: dword, tim: dword)
    requires SoundAs(fil.fs.g, d, n) && k in n.tree.open && n.tree.open[k] == End0(ch)
    requires EntryOf(fil, n.dirs, k.0, k.1) && Synced(fil, ch, size, tim, d, e)
    ensures StillStored(fil.fs.g, e, n, {k})
  {
    hide Fat, Housed, WellOwned, Reflects, HeadsOf, Linked, Filed, Owns, IsChain, Synced, Points;
    var g, p := fil.fs.g, n.dirs[k.0].p;
    var mine := TableChains(p) + FileChains(ch);
    var dom := Part(Fat(g, d), mine);
    OpenObject(n.tree, k);
    SyncedOwns(fil, ch, size, tim, d, e);
    OwnsMeans(g, d, ch, fil.dom);
    PartIs(Fat(g, d), mine);
    SoundHoused(g, d, n, k.0);
    SyncConfined(fil, d, e, n.dirs, k, ch, size, tim);
    FilesStay(g, d, e, n, k, p, ch, dom, p.Static?);
  }

  lemma SyncedOwns(fil: Fil, ch: seq<nat>, size: dword, tim: dword, d: Disk, e: Disk)
    requires Synced(fil, ch, size, tim, d, e)
    ensures DiskOf(fil.fs.g, d) && DiskOf(fil.fs.g, e) && Owns(Fat(fil.fs.g, d), ch, fil.dom)
  {
    hide Fat, Owns, Recorded, Home;
  }

  /** f_sync stores into the file's own sectors and into one of the table that has its entry. */
  lemma SyncConfined(fil: Fil, d: Disk, e: Disk, dirs: Folders, k: Spot, ch: seq<nat>, size: dword, tim: dword)
    requires EntryOf(fil, dirs, k.0, k.1) && Synced(fil, ch, size, tim, d, e) && Housed(fil.fs.g, d, k.0, dirs[k.0])
    ensures var p := dirs[k.0].p;
      Confined(fil.fs.g, d, e, Part(Fat(fil.fs.g, d), TableChains(p) + FileChains(ch)), p.Static?)
  {
    hide Fat, Owns, Recorded, Sectors, Points, SectorOf, Geometry.Ok, GoodSectors, TableAt, DirRuns.Good, DotsIn;
    var g, p := fil.fs.g, dirs[k.0].p;
    var mine := TableChains(p) + FileChains(ch);
    var dom := Part(Fat(g, d), mine);
    FitsMeans(g, p, d);
    var clust :| Points(g, p, k.1, clust, fil.dirSect, fil.dirPtr);
    PointsInfo(g, p, k.1, clust, fil.dirSect, fil.dirPtr);
    FatSame(g, d, e);
    FatAreaHolds(g);
    forall z: nat | g.FatEnd() <= z < |d| && !Home(g, dom, z) && (p.Static? ==> g.database <= z) ensures e[z] == d[z] {
      HomeInPart(g, Fat(g, d), ch, fil.dom, p, z);
      if z == fil.dirSect { EntrySectorHome(g, Fat(g, d), p, ch, z); }
    }
  }

  lemma FatSame(g: Geometry, d: Disk, e: Disk)
    requires DiskOf(g, d) && DiskOf(g, e) && Fat(g, e) == Fat(g, d)
    ensures forall c: nat :: 2 <= c < g.maxClust ==> c < |Fat(g, d)| && Fat(g, e)[c] == Fat(g, d)[c]
  {
    FatLength(g, d);
  }

  /** The clusters that a file may use are among the free ones and those of its chain. */
  lemma HomeInPart(g: Geometry, f: seq<nat>, ch: seq<nat>, dom: set<nat>, p: Place, z: nat)
    requires Owns(f, ch, dom)
    ensures Home(g, dom, z) ==> Home(g, Part(f, TableChains(p) + FileChains(ch)), z)
  {
    hide SectorOf, IsChain, NoOnes;
    var mine := TableChains(p) + FileChains(ch);
    forall c | c in dom ensures c in Part(f, mine) {
      InBoth(p, ch, c);
      PartIs(f, mine);
    }
  }

  lemma EntrySectorHome(g: Geometry, f: seq<nat>, p: Place, ch: seq<nat>, z: nat)
    requires g.Ok() && |f| == g.maxClust && (p.Chain? ==> InRange(g, p.ch)) && z in Sectors(g, p)
    requires p.Static? ==> g.fatType != Fat32 && g.database <= z
    ensures Home(g, Part(f, TableChains(p) + FileChains(ch)), z)
  {
    hide SectorOf, Geometry.Ok, Sectors;
    var mine := TableChains(p) + FileChains(ch);
    if p.Chain? {
      var c := TableSectorHome(g, p.ch, z);
      InBoth(p, ch, c);
      PartIs(f, mine);
    } else {
      StaticSectors(g, z);
    }
  }

  // ----- what the operations do to the contents -----

  /** The contents after a step; `c` is what a file that is closed holds. */
  function FilesAfter(files: Contents, op: TreeOp, c: seq<byte>): Contents
  {
    match op
    case MakeFile(k) => files[k := []]
    case Clear(k) => files[k := []]
    case Open(k) => files - {k}
    case Close(k) => files[k := c]
    case Drop(k) => files - {k}
    case _ => files
  }

  lemma FiledAfter(g: Geometry, d: Disk, e: Disk, v: DirTree, files: Contents, op: TreeOp, c: seq<byte>, w: DirTree)
    requires Filed(g, d, v, files) && TreeStep(v, op, w) && FilesOpen(v) && DiskOf(g, e)
    requires forall j :: j in files && j != op.k ==> j in v.objs && FileStored(g, e, v.objs[j], files[j])
    requires op.Close? && op.k in v.objs ==> FileStored(g, e, v.objs[op.k], c)
    ensures Filed(g, e, w, FilesAfter(files, op, c))
  {
    hide FileStored, FilesOpen;
    EmptyStored(g, e);
    var files' := FilesAfter(files, op, c);
    StepSaid(v, op, w);
    ClosedAfter(v, files, op, c, w);
    forall j | j in files' && j in w.objs ensures FileStored(g, e, w.objs[j], files'[j]) {
      if j != op.k {
        assert j in files;
      } else {
        OwnAfter(v, files, op, c, w);
      }
    }
  }

  /** What is said of the object itself. */
  lemma OwnAfter(v: DirTree, files: Contents, op: TreeOp, c: seq<byte>, w: DirTree)
    requires TreeStep(v, op, w) && files.Keys == Closed(v) && FilesOpen(v) && op.k in FilesAfter(files, op, c)
    requires op.k in w.objs
    ensures if op.Close? then op.k in v.objs && w.objs[op.k] == v.objs[op.k] && FilesAfter(files, op, c)[op.k] == c
      else (op.MakeFile? || op.Clear?) && w.objs[op.k] == Object(false, 0, 0) && FilesAfter(files, op, c)[op.k] == []
  {
  }

  lemma ClosedAfter(v: DirTree, files: Contents, op: TreeOp, c: seq<byte>, w: DirTree)
    requires TreeStep(v, op, w) && files.Keys == Closed(v) && FilesOpen(v)
    ensures FilesAfter(files, op, c).Keys == Closed(w)
  {
    StepSaid(v, op, w);
    var files' := FilesAfter(files, op, c);
    forall j ensures j in files' <==> j in Closed(w) {
      if j != op.k { assert j in files <==> j in Closed(v); }
    }
  }

  lemma EmptyStored(g: Geometry, d: Disk)
    requires DiskOf(g, d)
    ensures FileStored(g, d, Object(false, 0, 0), [])
  {
    hide Fat, Geometry.Ok;
    assert FileStoredIn(g, d, Object(false, 0, 0), [], []);
  }

  // ----- what another reader finds -----

  /** What is known of a file that is not open is what its entry says: `SizeIn` many bytes of the chain that begins with
      `ClusterIn`. */
  lemma EntryHolds(g: Geometry, d: Disk, n: Known, k: Spot) returns (e: Entry, ch: seq<nat>)
    requires SoundAs(g, d, n) && k in n.files
    ensures k.0 in n.dirs && Fits(g, n.dirs[k.0].p, d) && k.1 < |TableAt(g, n.dirs[k.0].p, d)|
    ensures e == TableAt(g, n.dirs[k.0].p, d)[k.1] && !IsDirectory(e) && |n.files[k]| == SizeIn(e)
    ensures DiskOf(g, d) && InRange(g, ch) && HasChain(Fat(g, d), e, ch) && SizeIn(e) <= |ChainBytes(g, d, ch)|
    ensures n.files[k] == ChainBytes(g, d, ch)[..SizeIn(e)]
  {
    hide Fat, Linked, HeadsOf, WellOwned, IsChain, IsDirectory, ClusterIn, SizeIn, DotsNamed, ChainBytes, TableAt, Fits,
         Located, DirRuns.Good, DotsIn;
    assert k in Closed(n.tree);
    ch :| FileStoredIn(g, d, n.tree.objs[k], n.files[k], ch);
    e := n.dirs[k.0].x.t[k.1];
    assert Housed(g, d, k.0, n.dirs[k.0]);
  }
}
