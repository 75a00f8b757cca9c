/** The operations of the driver on a sound volume: each of them leaves it sound, and changes the tree of directories
    by the step that it stands for. */
module TreeOps {
  import opened Bytes
  import opened Geometry
  import opened FatTable
  import opened Chains
  import opened ChainRuns
  import opened FileBytes
  import opened FileModel
  import opened Volume
  import opened Results
  import opened Lfn
  import opened ShortName
  import opened DirTable
  import opened DirDisk
  import opened DirFind
  import opened DirModel
  import opened DirObject
  import opened DirMake
  import opened DirRead
  import DirRuns
  import opened FileObject
  import opened FileOpen
  import opened FileUnlink
  import opened Tree
  import opened TreeDisk
  import opened TreeFiles
  import opened TreeContents
  import opened TreeUnlink

  /** `sclust` is the start cluster of directory `s`. That of the root directory is 0, and on FAT32 its cluster as
      well. */
  ghost predicate AtDir(g: Geometry, sclust: nat, s: nat) { sclust == s || (s == 0 && sclust == RootHead(g)) }

  /** The directory object is at a directory of the volume, with a name to look for in it. */
  ghost predicate InDir(dj: Dir, s: nat, name: seq<word>, n: Known)
    reads dj, dj.fs, dj.fs.win
  {
    && dj.Valid() && SoundAs(dj.fs.g, dj.fs.image, n)
    && AtDir(dj.fs.g, dj.sclust, s) && s in n.dirs && dj.place == n.dirs[s].p
    && dj.HoldsName(name) && dj.fn == FormOf(name) && dj.lfnOn
  }

  lemma InDirTable(dj: Dir, s: nat, name: seq<word>, n: Known)
    requires InDir(dj, s, name, n)
    ensures Fits(dj.fs.g, dj.place, dj.fs.image) && Ascii(name)
    ensures var x := n.dirs[s].x; dj.Entries() == x.t && WellFormed(x.t, x.names, x.zero)
  {
    hide Fat, Linked, Reflects, HeadsOf, WellOwned, WellFormed, TableAt, Located, FatFs.Valid, Filed, DotsNamed;
    ProperIsAscii(name);
    assert Housed(dj.fs.g, dj.fs.image, s, n.dirs[s]);
  }

  /** The cluster that f_mkdir stores into ".." is 0 exactly for the root directory, however that is given. */
  lemma ParentIs(g: Geometry, d: Disk, n: Known, sclust: nat, s: nat)
    requires SoundAs(g, d, n) && s in n.dirs && AtDir(g, sclust, s)
    ensures ParentOf(g, sclust) == s
  {
    hide Fat, Linked, Reflects, HeadsOf, WellOwned, Filed, Housed, DotsNamed;
    FolderStart(g, d, n.dirs, n.chains, n.tree, s);
    HousedKey(g, d, s, n.dirs[s]);
  }

  lemma HousedKey(g: Geometry, d: Disk, s: nat, f: Folder)
    requires Housed(g, d, s, f)
    ensures f.p.Static? ==> g.fatType != Fat32
  {
    hide Fat, TableAt, Fits, DirRuns.Good, DotsIn;
  }

  lemma LocatedAs(g: Geometry, f: seq<nat>, sclust: nat, s: nat, p: Place)
    requires Located(g, f, sclust, p) && AtDir(g, sclust, s)
    ensures Located(g, f, s, p)
  {
    hide IsChain, NoOnes, Geometry.Ok;
  }

  /** The same where the directory object is. */
  lemma DirLocated(dj: Dir, s: nat)
    requires dj.Valid() && AtDir(dj.fs.g, dj.sclust, s)
    ensures DiskOf(dj.fs.g, dj.fs.image) && Fits(dj.fs.g, dj.place, dj.fs.image)
    ensures Located(dj.fs.g, Fat(dj.fs.g, dj.fs.image), s, dj.place)
  {
    hide Fat, Located, FatFs.Valid, Fits;
    FitsMeans(dj.fs.g, dj.place, dj.fs.image);
    LocatedAs(dj.fs.g, Fat(dj.fs.g, dj.fs.image), dj.sclust, s, dj.place);
  }

  /** f_mkdir. */
  method MakeDirectory(dj: Dir, ghost s: nat, ghost name: seq<word>, tim: dword, ghost n: Known)
    returns (res: FResult, r: nat, ghost m: Known)
    requires Ascii(name) && InDir(dj, s, name, n) && dj.Entries() != []
    requires var x := n.dirs[s].x; forall a :: !Matches(x.t, x.names, KeyOf(name), a)
    modifies dj`index, dj`clust, dj`sect, dj`ofs, dj`place, dj`lfnIdx, dj`fn, dj`lfnOn
    modifies dj.fs`disk, dj.fs`wflag, dj.fs`winsect, dj.fs`image, dj.fs`lastClust, dj.fs`freeClust, dj.fs`fsiFlag
    modifies dj.fs.win
    ensures dj.Valid() && SoundAs(dj.fs.g, dj.fs.image, m)
    ensures if res == Ok then TreeStep(n.tree, MakeDir((s, dj.index), r), m.tree) else m.tree == n.tree
    ensures m.files == n.files
    ensures res == Ok ==> s in m.dirs && r in m.dirs && Dotted(r, s, m.dirs[r].x.t)
  {
    hide Fat, Linked, Reflects, HeadsOf, WellOwned, WellFormed, TableAt, Located, FatFs.Valid, Matches, FormOf,
         Points, NewTable, MadeDirectory, MkdirOnly, FatKept, MkdirTable, Enlarged, Extra, ClustersMore, NoRoom,
         FatFs.Exact, NoneFree, Housed, TableOp, TreeStep, Fits, ParentOf, Longer, Proper, Holds, Geometry.Ok, Mask,
         SoundAs, AtDir, Dotted;
    ghost var g, d := dj.fs.g, dj.fs.image;
    ghost var a := n.dirs[s];
    InDirTable(dj, s, name, n);
    ParentIs(g, d, n, dj.sclust, s);
    assert Fits(g, a.p, d);
    res, r := Mkdir(dj, name, a.x.names, a.x.zero, tim);
    DirLocated(dj, s);
    FitsMeans(g, dj.place, dj.fs.image);
    m := MkdirKnown(g, d, dj.fs.image, s, dj.place, name, dj.fn, dj.index, tim, r, res, n);
  }

  /** What f_mkdir ensures. */
  ghost predicate MkdirDone(g: Geometry, d: Disk, e: Disk, a: Folder, s: nat, q: Place, name: seq<word>, f: Form,
        at: nat, tim: dword, r: nat, res: FResult)
  {
    && DiskOf(g, e)
    && if res == Ok then Mkdired(g, d, e, a, s, q, name, f, at, tim, r, s)
       else if r == 0 then e == d
       else
         && MkdirOnly(g, a.p, q, r, d, e) && FatKept(g, q, d, e) && Fits(g, a.p, d) && Fits(g, q, e)
         && Located(g, Fat(g, e), s, q) && Longer(a.x.t, TableAt(g, q, e))
  }

  /** What is known then. */
  lemma MkdirKnown(g: Geometry, d: Disk, e: Disk, s: nat, q: Place, name: seq<word>, f: Form, at: nat, tim: dword,
        r: nat, res: FResult, n: Known)
    returns (m: Known)
    requires SoundAs(g, d, n) && s in n.dirs && MkdirDone(g, d, e, n.dirs[s], s, q, name, f, at, tim, r, res)
    ensures SoundAs(g, e, m) && m.files == n.files
    ensures if res == Ok then TreeStep(n.tree, MakeDir((s, at), r), m.tree) else m.tree == n.tree
    ensures res == Ok ==> s in m.dirs && r in m.dirs && Dotted(r, s, m.dirs[r].x.t)
  {
    hide SoundAs, TreeStep, Fat, TableAt, MkdirOnly, FatKept, Fits, Located, Longer, TableOp, Dotted, Mkdired;
    m := n;
    if res == Ok {
      m := MadeKnown(g, d, e, s, q, name, f, at, tim, r, n);
    } else if r != 0 {
      FailedMkdirIsOp(g, d, e, n.dirs[s].p, q, r);
      m := LongerKnown(g, d, e, n, s, q);
    }
  }

  lemma MadeKnown(g: Geometry, d: Disk, e: Disk, s: nat, q: Place, name: seq<word>, f: Form, at: nat, tim: dword,
        r: nat, n: Known)
    returns (m: Known)
    requires SoundAs(g, d, n) && s in n.dirs && DiskOf(g, e)
    requires Mkdired(g, d, e, n.dirs[s], s, q, name, f, at, tim, r, s)
    ensures SoundAs(g, e, m) && m.files == n.files && TreeStep(n.tree, MakeDir((s, at), r), m.tree)
    ensures s in m.dirs && r in m.dirs && Dotted(r, s, m.dirs[r].x.t)
  {
    hide Sound, TreeStep, Fat, TableAt, MkdirOnly, Fits, Located, Filed, Dotted, MadeDirectory, NewTable;
    var chains, w := MkdirSound(g, d, e, n.dirs, n.chains, n.tree, s, q, name, f, at, tim, r, s);
    MkdirFiles(g, d, e, n, s, q, r);
    FilesKnown(g, d, e, n, MakeDir((s, at), r), [], w);
    m := Known(WithDir(g, e, n.dirs, s, q, name, at, r), chains, w, n.files);
    MkdirNamed(g, e, m, s, at, r, n.tree);
  }

  /** What is known once a table was stretched and nothing else came of it. */
  lemma LongerKnown(g: Geometry, d: Disk, e: Disk, n: Known, s: nat, q: Place) returns (m: Known)
    requires SoundAs(g, d, n) && s in n.dirs && TableOp(g, n.dirs[s].p, q, [], d, e) && Located(g, Fat(g, e), s, q)
    requires Fits(g, q, e) && Longer(n.dirs[s].x.t, TableAt(g, q, e))
    ensures SoundAs(g, e, m) && m.tree == n.tree && m.files == n.files
  {
    hide Sound, Fat, TableAt, Located, Longer, TableOp, Filed, Fits;
    var chains := LongerSound(g, d, e, n.dirs, n.chains, n.tree, s, q);
    m := Known(n.dirs[s := Folder(q, n.dirs[s].x.(t := TableAt(g, q, e)))], chains, n.tree, n.files);
    TableOpFiles(g, d, e, n, s, q, (s, 0), []);
    FilesSame(g, d, e, n);
  }

  /** The contents of the files after a step. */
  lemma FilesKnown(g: Geometry, d: Disk, e: Disk, n: Known, op: TreeOp, c: seq<byte>, w: DirTree)
    requires SoundAs(g, d, n) && TreeStep(n.tree, op, w) && DiskOf(g, e) && StillStored(g, e, n, {op.k})
    requires op.Close? && op.k in n.tree.objs ==> FileStored(g, e, n.tree.objs[op.k], c)
    ensures Filed(g, e, w, FilesAfter(n.files, op, c))
  {
    hide Fat, Linked, Reflects, HeadsOf, WellOwned, Housed, TreeStep, DotsNamed, FileStored;
    TreeFilesOpen(g, d, n);
    FiledAfter(g, d, e, n.tree, n.files, op, c, w);
  }

  lemma FilesSame(g: Geometry, d: Disk, e: Disk, n: Known)
    requires SoundAs(g, d, n) && StillStored(g, e, n, {})
    ensures Filed(g, e, n.tree, n.files)
  {
    hide Sound, FileStored;
  }

  /** The dot entries of a directory that was just made. */
  lemma MkdirNamed(g: Geometry, e: Disk, m: Known, s: nat, at: nat, r: nat, v: DirTree)
    requires SoundAs(g, e, m) && TreeStep(v, MakeDir((s, at), r), m.tree) && r in m.dirs
    ensures Dotted(r, s, m.dirs[r].x.t)
  {
    hide Fat, Linked, Reflects, HeadsOf, WellOwned, Housed, Filed, Dotted;
  }

  // ----- open files -----

  /** The file object stands for the object at `k`: it has its chain and its size, which the entry names unless there is
      something to synchronise. */
  ghost predicate FileIn(fil: Fil, k: Spot, n: Known)
    reads fil, fil.fs, fil.fs.win, fil.buf
  {
    && fil.Valid() && SoundAs(fil.fs.g, fil.fs.image, n) && EntryOf(fil, n.dirs, k.0, k.1)
    && k in n.tree.open && n.tree.open[k] == End0(fil.chain)
    && (fil.written || (!fil.dirty && k in n.tree.objs && Names(n.tree.objs[k], fil.chain, fil.fsize)))
  }

  /** The entry names the chain and the size. */
  ghost predicate Names(o: Object, ch: seq<nat>, size: nat) { o.start == End0(ch) && o.size == size }

  /** What is known once an operation on an open file has changed the disk. */
  lemma FileKnown(g: Geometry, d: Disk, e: Disk, k: Spot, ch: seq<nat>, ch': seq<nat>, dom: set<nat>, n: Known)
    returns (m: Known)
    requires SoundAs(g, d, n) && k in n.tree.open && n.tree.open[k] == End0(ch)
    requires DiskOf(g, d) && DiskOf(g, e) && Owns(Fat(g, d), ch, dom) && Owns(Fat(g, e), ch', dom)
    requires OthersSame(g, dom, d, e) && (ch <= ch' || ch' <= ch)
    ensures SoundAs(g, e, m) && m.dirs == n.dirs && m.files == n.files && Rechained(n.tree, k, ch, ch', m.tree)
    ensures k in m.tree.open && m.tree.open[k] == End0(ch') && m.tree.objs == n.tree.objs
  {
    hide Sound, Fat, Owns, Home, Filed;
    var chains, w := FileOpSound(g, d, e, n.dirs, n.chains, n.tree, k, ch, ch', dom);
    m := Known(n.dirs, chains, w, n.files);
    FileOpFiles(g, d, e, n, k, ch, dom);
    RechainedFiles(g, d, e, n, k, ch, ch', w);
  }

  /** The file at `k` is open, and the contents of the others stay. */
  lemma RechainedFiles(g: Geometry, d: Disk, e: Disk, n: Known, k: Spot, ch: seq<nat>, ch': seq<nat>, w: DirTree)
    requires SoundAs(g, d, n) && DiskOf(g, e) && Rechained(n.tree, k, ch, ch', w) && k in n.tree.open
    requires StillStored(g, e, n, {k})
    ensures Filed(g, e, w, n.files)
  {
    hide Sound, TreeStep, FileStored;
    if ch == [] && ch' != [] {
      FilesKnown(g, d, e, n, Begin(k, ch'[0]), [], w);
    } else if ch != [] && ch' == [] {
      FilesKnown(g, d, e, n, End(k), [], w);
    } else {
      assert k !in Closed(n.tree);
    }
  }

  /** Clusters that reach as far as `x` are enough for it. */
  lemma ClustersReach(g: Geometry, x: nat, n: nat)
    requires g.Ok() && x <= Times(n, g.csize) * 512
    ensures ClustersFor(g, x) <= n
  {
    hide ClustersFor, Geometry.Ok;
    ChainedClusters(g);
    ClustersGrow(g, x, Times(n, g.csize) * 512);
    TimesIsProduct(n, g.csize);
    if n == 0 {
      ClustersForPosition(g, 0, x);
    } else {
      TimesIsProduct(n - 1, g.csize);
      assert (n - 1) * g.csize + g.csize == n * g.csize;
      ClustersForPosition(g, n - 1, Times(n, g.csize) * 512);
    }
  }

  /** f_write. */
  method WriteFile(fil: Fil, b: seq<byte>, ghost k: Spot, ghost n: Known)
    returns (res: FResult, bw: nat, ghost m: Known)
    requires fil.Valid() && |b| < 0x1_0000_0000
    requires FileIn(fil, k, n)
    modifies fil, fil.fs`disk, fil.fs`wflag, fil.fs`winsect, fil.fs`image, fil.fs`lastClust, fil.fs`freeClust
    modifies fil.fs`fsiFlag, fil.fs.win, fil.buf
    ensures fil.Valid() && bw <= |b|
    ensures fil.Content() == FileModel.Overwrite(old(fil.Content()), old(fil.fptr), b[..bw])
    ensures FileIn(fil, k, m) && Rechained(n.tree, k, old(fil.chain), fil.chain, m.tree) && m.files == n.files
  {
    hide Fat, SoundAs, EntryOf, Owns, OthersSame, FatFs.Valid, Rechained, Fil.Content, FileModel.Overwrite, Fil.Full,
         GrownTo, Fil.Placed, Fil.Loaded, Fil.Coherent, Geometry.Ok, Home;
    fil.CoreFacts();
    ghost var ch, d := fil.chain, fil.fs.image;
    res, bw := fil.Write(b);
    fil.CoreFacts();
    m := FileKnown(fil.fs.g, d, fil.fs.image, k, ch, fil.chain, fil.dom, n);
    EntryStill(fil, k, n, m);
  }

  lemma EntryStill(fil: Fil, k: Spot, n: Known, m: Known)
    requires EntryOf(fil, n.dirs, k.0, k.1) && m.dirs == n.dirs
    ensures EntryOf(fil, m.dirs, k.0, k.1)
  {
  }

  /** f_lseek. */
  method SeekFile(fil: Fil, ofs: dword, ghost k: Spot, ghost n: Known) returns (res: FResult, ghost m: Known)
    requires fil.Valid()
    requires FileIn(fil, k, n)
    modifies fil, fil.fs`disk, fil.fs`wflag, fil.fs`winsect, fil.fs`image, fil.fs`lastClust, fil.fs`freeClust
    modifies fil.fs`fsiFlag, fil.fs.win, fil.buf
    ensures fil.Valid() && old(fil.fsize) <= fil.fsize
    ensures fil.Content()[..old(fil.fsize)] == old(fil.Content())
    ensures FileIn(fil, k, m) && Rechained(n.tree, k, old(fil.chain), fil.chain, m.tree) && m.files == n.files
  {
    hide Fat, SoundAs, EntryOf, Owns, OthersSame, FatFs.Valid, Rechained, Fil.Content, FileModel.Overwrite, Fil.Full,
         GrownTo, Fil.Placed, Fil.Loaded, Fil.Coherent, Geometry.Ok, Home, ClustersFor;
    fil.CoreFacts();
    fil.CoreGeometry();
    ghost var ch, d, size := fil.chain, fil.fs.image, fil.fsize;
    res := fil.Lseek(ofs);
    fil.CoreFacts();
    if fil.fptr <= size { ClustersReach(fil.fs.g, fil.fptr, |ch|); }
    m := FileKnown(fil.fs.g, d, fil.fs.image, k, ch, fil.chain, fil.dom, n);
    EntryStill(fil, k, n, m);
  }

  /** f_read. */
  method ReadFile(fil: Fil, rbuff: array<byte>, count: nat, ghost k: Spot, ghost n: Known)
    returns (res: FResult, br: nat, ghost m: Known)
    requires fil.Valid() && fil.Outside(rbuff) && count <= rbuff.Length
    requires FileIn(fil, k, n)
    modifies fil`currClust, fil`csect, fil`ci, fil`dirty, fil`fptr, fil`dsect, fil.buf, rbuff
    modifies fil.fs`disk, fil.fs`wflag, fil.fs`winsect, fil.fs`image, fil.fs.win
    ensures fil.Valid() && fil.Content() == old(fil.Content()) && old(fil.fptr) <= fil.fptr == old(fil.fptr) + br
    ensures res == Ok ==> br == if count <= fil.fsize - old(fil.fptr) then count else fil.fsize - old(fil.fptr)
    ensures br <= rbuff.Length && rbuff[..br] == fil.Content()[old(fil.fptr)..fil.fptr]
    ensures FileIn(fil, k, m) && m.tree == n.tree && m.files == n.files
  {
    hide Fat, SoundAs, EntryOf, Owns, OthersSame, FatFs.Valid, Rechained, Fil.Content, Fil.Placed, Fil.Loaded,
         Fil.Coherent, Geometry.Ok, Home;
    fil.CoreFacts();
    ghost var ch, d := fil.chain, fil.fs.image;
    res, br := fil.Read(rbuff, count);
    fil.CoreFacts();
    m := FileKnown(fil.fs.g, d, fil.fs.image, k, ch, fil.chain, fil.dom, n);
    RechainedNot(n.tree, k, ch, m.tree);
    EntryStill(fil, k, n, m);
  }

  lemma RechainedNot(v: DirTree, k: Spot, ch: seq<nat>, w: DirTree)
    requires Rechained(v, k, ch, ch, w)
    ensures w == v
  {
  }

  /** f_truncate. */
  method TruncateFile(fil: Fil, ghost k: Spot, ghost n: Known) returns (res: FResult, ghost m: Known)
    requires fil.Valid()
    requires FileIn(fil, k, n)
    modifies fil`fsize, fil`written, fil`chain, fil`orgClust
    modifies fil.fs`disk, fil.fs`wflag, fil.fs`winsect, fil.fs`image, fil.fs`freeClust, fil.fs`fsiFlag, fil.fs.win
    ensures fil.Valid() && fil.fsize <= old(fil.fsize)
    ensures fil.Content() == old(fil.Content())[..fil.fsize]
    ensures FileIn(fil, k, m) && Rechained(n.tree, k, old(fil.chain), fil.chain, m.tree) && m.files == n.files
  {
    hide Fat, SoundAs, EntryOf, Owns, OthersSame, FatFs.Valid, Rechained, Fil.Content, Fil.Placed, Fil.Loaded,
         Fil.Coherent, Geometry.Ok, Home, ClustersFor, Truncated, Cut;
    fil.CoreFacts();
    ghost var ch, d := fil.chain, fil.fs.image;
    res := fil.Truncate();
    fil.CoreFacts();
    m := FileKnown(fil.fs.g, d, fil.fs.image, k, ch, fil.chain, fil.dom, n);
    EntryStill(fil, k, n, m);
  }

  /** What is known once f_sync has written the directory entry. */
  lemma SyncKnown(fil: Fil, d: Disk, e: Disk, k: Spot, ch: seq<nat>, size: dword, tim: dword, n: Known)
    returns (m: Known)
    requires SoundAs(fil.fs.g, d, n) && k in n.tree.open && n.tree.open[k] == End0(ch)
    requires EntryOf(fil, n.dirs, k.0, k.1) && Synced(fil, ch, size, tim, d, e)
    ensures SoundAs(fil.fs.g, e, m) && TreeStep(n.tree, Sync(k, size), m.tree) && EntryOf(fil, m.dirs, k.0, k.1)
    ensures m.files == n.files
  {
    hide Sound, Fat, Synced, TreeStep, Points, TableAt, Fits, Filed;
    var s := k.0;
    var chains, w := SyncSound(fil, d, e, n.dirs, n.chains, n.tree, s, k.1, ch, size, tim);
    assert k == (s, k.1);
    m := Known(n.dirs[s := n.dirs[s].(x := n.dirs[s].x.(t := TableAt(fil.fs.g, n.dirs[s].p, e)))], chains, w, n.files);
    SyncFiles(fil, d, e, n, k, ch, size, tim);
    SyncedOwns(fil, ch, size, tim, d, e);
    FilesKnown(fil.fs.g, d, e, n, Sync(k, size), [], w);
  }

  /** f_sync. */
  method SyncOpen(fil: Fil, tim: dword, ghost k: Spot, ghost n: Known) returns (ghost m: Known)
    requires FileIn(fil, k, n)
    modifies fil`written, fil`dirty, fil.fs`disk, fil.fs`image, fil.fs`wflag, fil.fs`winsect, fil.fs`fsiFlag, fil.fs.win
    ensures FileIn(fil, k, m) && !fil.written
    ensures if old(fil.written) then TreeStep(n.tree, Sync(k, fil.fsize), m.tree) else m == n
    ensures fil.Content() == old(fil.Content()) && m.files == n.files
  {
    hide Fat, SoundAs, EntryOf, Owns, FatFs.Valid, Fil.Content, Fil.Placed, Fil.Loaded, Fil.Coherent, Geometry.Ok, Home,
         Recorded, FsInfo;
    fil.CoreFacts();
    fil.CoreGeometry();
    fil.DirApart();
    FatAreaHolds(fil.fs.g);
    ghost var d := fil.fs.image;
    m := n;
    var was := fil.written;
    fil.SyncFile(tim);
    fil.CoreFacts();
    if was { m := SyncKnown(fil, d, fil.fs.image, k, fil.chain, fil.fsize, tim, n); }
  }

  /** The tree may change without the volume. */
  lemma TreeOnly(g: Geometry, d: Disk, n: Known, op: TreeOp, c: seq<byte>, w: DirTree)
    requires SoundAs(g, d, n) && TreeStep(n.tree, op, w)
    requires w.objs == n.tree.objs && w.depth == n.tree.depth && w.heads == n.tree.heads
    requires !op.MakeDir? && (op.Close? && op.k in n.tree.objs ==> FileStored(g, d, n.tree.objs[op.k], c))
    ensures SoundAs(g, d, n.(tree := w, files := FilesAfter(n.files, op, c)))
  {
    hide Fat, Linked, Reflects, Housed, HeadsOf, WellOwned, TreeStep, DotsNamed, FileStored;
    StepElsewhere(n.tree, op, w);
    StepKeepsTree(n.tree, op, w);
    ReflectsOnly(n.dirs, n.tree, w);
    DotsSame(n.dirs, n.tree, op, w);
    FilesKnown(g, d, d, n, op, c, w);
  }

  /** What a clean file object has is what its chain holds. */
  lemma CleanContent(fil: Fil, o: Object)
    requires fil.Valid() && !fil.dirty && Names(o, fil.chain, fil.fsize)
    ensures FileStored(fil.fs.g, fil.fs.image, o, fil.Content())
  {
    fil.CoreDisk();
    hide Fat, FatFs.Valid, Home, NoOnes, IsChain, Geometry.Ok;
    ChainInRange(fil.fs.g, Fat(fil.fs.g, fil.fs.image), fil.chain, fil.dom);
    assert FileStoredIn(fil.fs.g, fil.fs.image, o, fil.Content(), fil.chain);
  }

  /** f_close: f_sync, and then the file object stands for nothing any more. What it held is what the entry and its
      chain say from then on. */
  method CloseFile(fil: Fil, tim: dword, ghost k: Spot, ghost n: Known) returns (ghost m: Known)
    requires FileIn(fil, k, n)
    modifies fil`written, fil`dirty, fil.fs`disk, fil.fs`image, fil.fs`wflag, fil.fs`winsect, fil.fs`fsiFlag, fil.fs.win
    ensures fil.fs.Valid() && SoundAs(fil.fs.g, fil.fs.image, m) && k !in m.tree.open
    ensures TreeRun(n.tree, if old(fil.written) then [Sync(k, fil.fsize), Close(k)] else [Close(k)], m.tree)
    ensures m.files == n.files[k := old(fil.Content())]
  {
    hide Fat, SoundAs, EntryOf, Owns, FatFs.Valid, Fil.Content, Fil.Placed, Fil.Loaded, Fil.Coherent, Geometry.Ok, Home,
         TreeRun, FileStored;
    ghost var was := fil.written;
    m := SyncOpen(fil, tim, k, n);
    ghost var v := m.tree;
    ghost var w := v.(open := v.open - {k});
    CleanContent(fil, v.objs[k]);
    TreeOnly(fil.fs.g, fil.fs.image, m, Close(k), fil.Content(), w);
    RunOne(v, Close(k), w);
    assert [Sync(k, fil.fsize)] + [Close(k)] == [Sync(k, fil.fsize), Close(k)];
    if was { RunFirst(n.tree, Sync(k, fil.fsize), v, [Close(k)], w); }
    m := m.(tree := w, files := n.files[k := fil.Content()]);
  }

  // ----- objects that are found -----

  /** The object that a name finds is no dot entry. */
  lemma FoundIsListed(s: nat, x: DirRuns.State, name: seq<word>, a: nat)
    requires DotsIn(s, x) && Proper(name) && Ascii(name) && FoundAt(x.t, x.names, name, a)
    ensures Alive(x, a)
  {
    hide FormOf, SameName;
    FormIsShort(name);
    if MatchesShort(x.t, x.names, KeyOf(name), a) { assert Short(x.t[a])[0] == FormOf(name).fn[0]; }
  }

  /** The chain of an object that is not open, and the table if it is a directory. */
  lemma ObjectChain(g: Geometry, d: Disk, n: Known, s: nat, a: nat) returns (ch: seq<nat>)
    requires SoundAs(g, d, n) && s in n.dirs && Alive(n.dirs[s].x, a) && (s, a) !in n.tree.open && DiskOf(g, d)
    ensures HasChain(Fat(g, d), n.dirs[s].x.t[a], ch) && forall c :: c in ch ==> !InPlace(n.dirs[s].p, c)
    ensures IsDirectory(n.dirs[s].x.t[a]) ==>
      ch != [] && ch[0] in n.dirs && SubDir(g, d, ch, n.dirs[ch[0]].x.names, n.dirs[ch[0]].x.zero) &&
      n.dirs[ch[0]].x.t == TableAt(g, Chain(ch), d)
  {
    hide Fat, Linked, Reflects, Housed, WellOwned, IsChain, IsDirectory, ClusterIn, Fits, Located;
    var k, v := (s, a), n.tree;
    ObjectSaid(n.dirs, v, s, a);
    ch := [];
    if v.Start(k) != 0 {
      StartIsHead(v, k);
      ch :| ch in n.chains && ch != [] && ch[0] == v.Start(k);
      OneOfOwned(Fat(g, d), n.chains, ch);
      NotItsTable(g, d, n, s, a, ch);
    }
    if v.objs[k].dir {
      DirNamed(v, k);
      SubFolder(g, d, n.dirs, n.chains, v, k, ch);
      HousedLaid(g, d, ch[0], n.dirs[ch[0]]);
    }
  }

  lemma HousedLaid(g: Geometry, d: Disk, s: nat, f: Folder)
    requires Housed(g, d, s, f)
    ensures Fits(g, f.p, d) && f.x.t == TableAt(g, f.p, d) && Laid(f.x.t, f.x.names, f.x.zero)
  {
    hide Fat, TableAt, DotsIn, Located, Laid, Unique, Fits;
  }

  /** No cluster of an object in a directory is one of the directory's table. */
  lemma NotItsTable(g: Geometry, d: Disk, n: Known, s: nat, a: nat, ch: seq<nat>)
    requires SoundAs(g, d, n) && s in n.dirs && Alive(n.dirs[s].x, a) && DiskOf(g, d)
    requires (s, a) in n.tree.objs && n.tree.objs[(s, a)] == Said(n.dirs[s].x.t[a])
    requires ch != [] && ch in n.chains && IsChain(Fat(g, d), ch) && n.tree.Start((s, a)) == ch[0] != 0
    ensures forall c :: c in ch ==> !InPlace(n.dirs[s].p, c)
  {
    hide Fat, Linked, Reflects, Housed, WellOwned, IsChain, IsDirectory, ClusterIn, Fits, Located;
    var k, v, p := (s, a), n.tree, n.dirs[s].p;
    if p.Chain? {
      if v.objs[k].dir {
        SubFolder(g, d, n.dirs, n.chains, v, k, ch);
        assert s in n.dirs - {ch[0]};
      } else {
        FileChain(g, d, n.dirs, n.chains, v, k, ch);
      }
      DifferentChains(Fat(g, d), n.chains, ch, p.ch);
    }
  }

  // ----- f_unlink -----

  /** The object that `name` finds in directory `s`, if any, is not open. */
  ghost predicate NotOpen(n: Known, s: nat, name: seq<word>)
    requires s in n.dirs && Ascii(name)
  {
    forall a: nat :: FoundAt(n.dirs[s].x.t, n.dirs[s].x.names, name, a) ==> (s, a) !in n.tree.open
  }

  /** It has no long name, or was looked for by that. */
  ghost predicate WellNamed(x: DirRuns.State, name: seq<word>, a: nat)
  {
    a in x.names && (x.names[a] == [] || LongFinds(name, x.names[a]))
  }

  /** The object that `name` finds in directory `s`, its chain, and its own objects if it is a directory. */
  lemma UnlinkParts(g: Geometry, d: Disk, n: Known, s: nat, name: seq<word>)
    returns (a: nat, ch: seq<nat>, sub: Names, zero: nat)
    requires SoundAs(g, d, n) && s in n.dirs && DiskOf(g, d) && Ascii(name) && Proper(name) && NotOpen(n, s, name)
    ensures var f := n.dirs[s];
      Parts(g, d, f.p, f.x.t, f.x.names, name, ch, sub, zero)
    ensures (exists b: nat :: FoundAt(n.dirs[s].x.t, n.dirs[s].x.names, name, b)) ==>
      FoundParts(g, d, n, s, name, a, ch, sub)
  {
    hide Fat, Linked, Reflects, HeadsOf, WellOwned, WellFormed, TableAt, Located, FormOf, Matches, PartsOf, Proper,
         Fits, DotsIn, Alive;
    var x := n.dirs[s].x;
    assert Housed(g, d, s, n.dirs[s]);
    a, ch, sub, zero := 0, [], map[], 0;
    if b: nat :| FoundAt(x.t, x.names, name, b) {
      FoundIsListed(s, x, name, b);
      a := b;
      ch := ObjectChain(g, d, n, s, a);
      if IsDirectory(x.t[a]) { sub, zero := n.dirs[ch[0]].x.names, n.dirs[ch[0]].x.zero; }
      PartsAre(g, d, n.dirs[s].p, x.t[a], ch, sub, zero);
      forall c: nat | FoundAt(x.t, x.names, name, c) ensures c == a { FoundOnce(x, name, a, c); }
    }
  }

  lemma PartsAre(g: Geometry, d: Disk, p: Place, e: Entry, ch: seq<nat>, sub: Names, zero: nat)
    requires DiskOf(g, d) && HasChain(Fat(g, d), e, ch) && forall c :: c in ch ==> !InPlace(p, c)
    requires IsDirectory(e) && ch != [] ==> SubDir(g, d, ch, sub, zero)
    ensures PartsOf(g, d, p, e, ch, sub, zero)
  {
    hide Fat, HasChain, SubDir, IsDirectory, ReadOnly;
  }

  lemma FoundOnce(x: DirRuns.State, name: seq<word>, a: nat, b: nat)
    requires DirRuns.Good(x) && Ascii(name) && FoundAt(x.t, x.names, name, a) && FoundAt(x.t, x.names, name, b)
    ensures a == b
  {
    hide Laid, Unique, FormOf, Matches;
    AtMostOne(x.t, x.names, name, a, b);
  }

  ghost predicate FoundParts(g: Geometry, d: Disk, n: Known, s: nat, name: seq<word>, a: nat, ch: seq<nat>, sub: Names)
    requires s in n.dirs && DiskOf(g, d) && Ascii(name)
  {
    var x := n.dirs[s].x;
    && FoundAt(x.t, x.names, name, a) && Alive(x, a) && HasChain(Fat(g, d), x.t[a], ch)
    && (IsDirectory(x.t[a]) ==>
          && ch != [] && ch[0] in n.dirs && sub == n.dirs[ch[0]].x.names
          && Fits(g, Chain(ch), d) && n.dirs[ch[0]].x.t == TableAt(g, Chain(ch), d))
  }

  /** What is known once an object that `name` finds was removed. */
  lemma UnlinkKnown(g: Geometry, d: Disk, e: Disk, s: nat, name: seq<word>, a: nat, ch: seq<nat>, n: Known)
    returns (m: Known)
    requires SoundAs(g, d, n) && s in n.dirs && DiskOf(g, d) && Ascii(name)
    requires Alive(n.dirs[s].x, a) && (s, a) !in n.tree.open
    requires FoundAt(n.dirs[s].x.t, n.dirs[s].x.names, name, a) && WellNamed(n.dirs[s].x, name, a)
    requires UnlinkOnly(g, n.dirs[s].p, ch, d, e) && Located(g, Fat(g, e), s, n.dirs[s].p)
    requires HasChain(Fat(g, d), n.dirs[s].x.t[a], ch)
    requires Deleted(n.dirs[s].x.t, n.dirs[s].x.names, n.dirs[s].x.zero, TableAt(g, n.dirs[s].p, e), name)
    requires IsDirectory(n.dirs[s].x.t[a]) ==>
      ch != [] && ch[0] in n.dirs && NoneListed(n.dirs[ch[0]].x.t, n.dirs[ch[0]].x.names, 2)
    ensures SoundAs(g, e, m)
    ensures TreeStep(n.tree, if IsDirectory(n.dirs[s].x.t[a]) then DropDir((s, a)) else Drop((s, a)), m.tree)
    ensures m.files == n.files - {(s, a)}
  {
    hide Sound, Fat, TreeStep, UnlinkOnly, TableAt, Located, ClusterIn, IsDirectory, RemovedAt, Matches, FormOf,
         IsChain, NoneListed, Alive, Filed, HasChain;
    var x, p := n.dirs[s].x, n.dirs[s].p;
    assert Unlinks(g, d, e, s, n.dirs[s], a, ch);
    UnlinkIsOp(g, d, e, p, ch);
    ObjectStarts(g, d, n, s, a, ch);
    TableOpFiles(g, d, e, n, s, p, (s, a), ch);
    if IsDirectory(x.t[a]) {
      var chains, w := DropDirSound(g, d, e, n.dirs, n.chains, n.tree, s, a, ch);
      FilesKnown(g, d, e, n, DropDir((s, a)), [], w);
      m := Known(n.dirs[s := n.dirs[s].(x := Less(x, TableAt(g, p, e), a))] - {ch[0]}, chains, w, n.files);
      assert (s, a) !in n.files by { NoDirFile(g, d, n, (s, a), w); }
    } else {
      var chains, w := DropSound(g, d, e, n.dirs, n.chains, n.tree, s, a, ch);
      FilesKnown(g, d, e, n, Drop((s, a)), [], w);
      m := Known(n.dirs[s := n.dirs[s].(x := Less(x, TableAt(g, p, e), a))], chains, w, n.files - {(s, a)});
    }
  }

  lemma NoDirFile(g: Geometry, d: Disk, n: Known, k: Spot, w: DirTree)
    requires SoundAs(g, d, n) && TreeStep(n.tree, DropDir(k), w)
    ensures k !in n.files && n.files - {k} == n.files
  {
    hide Sound, FileStored;
    assert k !in Closed(n.tree);
  }

  /** The chain that an entry names begins where its object in the tree does. */
  lemma ObjectStarts(g: Geometry, d: Disk, n: Known, s: nat, a: nat, ch: seq<nat>)
    requires SoundAs(g, d, n) && s in n.dirs && Alive(n.dirs[s].x, a) && (s, a) !in n.tree.open && DiskOf(g, d)
    requires HasChain(Fat(g, d), n.dirs[s].x.t[a], ch)
    ensures ch != [] ==> IsChain(Fat(g, d), ch) && (s, a) in n.tree.objs && n.tree.Start((s, a)) == ch[0] && ch[0] != 0
  {
    hide Fat, Linked, Reflects, Housed, WellOwned, IsChain, IsDirectory, ClusterIn, SizeIn, Filed, HeadsOf, DotsNamed;
    ObjectSaid(n.dirs, n.tree, s, a);
    if ch != [] { ChainHead(g, d, ch); }
  }

  /** What f_unlink leaves: the volume without the object, unless that was found by its short name only and has a long
      one; then entries of that are left behind. */
  ghost predicate Removed(dj: Dir, d: Disk, name: seq<word>, n: Known, s: nat, res: FResult, m: Known)
    requires s in n.dirs && Ascii(name)
    reads dj, dj.fs, dj.fs.win
  {
    var x := n.dirs[s].x;
    if res != Ok then dj.fs.image == d && m == n
    else exists a: nat {:trigger FoundAt(x.t, x.names, name, a)} ::
      && FoundAt(x.t, x.names, name, a)
      && (WellNamed(x, name, a) ==>
            && SoundAs(dj.fs.g, dj.fs.image, m)
            && TreeStep(n.tree, if IsDirectory(x.t[a]) then DropDir((s, a)) else Drop((s, a)), m.tree)
            && m.files == n.files - {(s, a)})
  }

  /** f_unlink. */
  method UnlinkObject(dj: Dir, ghost s: nat, ghost name: seq<word>, lfnbuf: array<word>, ghost n: Known)
    returns (res: FResult, ghost m: Known)
    requires Ascii(name) && InDir(dj, s, name, n) && NotOpen(n, s, name) && lfnbuf.Length == MAX_LFN + 1
    modifies dj`index, dj`clust, dj`sect, dj`ofs, dj`place, dj`lfnIdx, lfnbuf
    modifies dj.fs`disk, dj.fs`wflag, dj.fs`winsect, dj.fs`image, dj.fs`lastClust, dj.fs`freeClust, dj.fs`fsiFlag
    modifies dj.fs.win
    ensures dj.Valid() && Removed(dj, old(dj.fs.image), name, n, s, res, m)
  {
    hide Fat, Sound, WellFormed, TableAt, Located, FatFs.Valid, Matches, FormOf, Points, FatFs.Exact, Fits, Proper,
         Holds, Geometry.Ok, UnlinkOnly, Deleted, PartsOf, TreeStep, IsDirectory, ClusterIn, DotsIn, SubDir,
         SoundAs, AtDir;
    ghost var g, d := dj.fs.g, dj.fs.image;
    ghost var f := n.dirs[s];
    InDirTable(dj, s, name, n);
    FitsMeans(g, dj.place, d);
    m := n;
    ghost var a, ch, sub, zero := UnlinkParts(g, d, n, s, name);
    res := Unlink(dj, name, f.x.names, f.x.zero, lfnbuf, ch, sub, zero);
    DirLocated(dj, s);
    if res == Ok && WellNamed(f.x, name, a) {
      m := UnlinkKnown(g, d, dj.fs.image, s, name, a, ch, n);
    }
  }

  // ----- f_open -----

  /** The chain that f_open removes, and where the object is that `name` finds. */
  lemma OpenParts(g: Geometry, d: Disk, n: Known, s: nat, name: seq<word>) returns (a: nat, ch: seq<nat>)
    requires SoundAs(g, d, n) && s in n.dirs && DiskOf(g, d) && Ascii(name) && Proper(name) && NotOpen(n, s, name)
    ensures var f := n.dirs[s];
      && Removes(Fat(g, d), f.x.t, f.x.names, name, f.p, ch)
      && forall b: nat :: FoundAt(f.x.t, f.x.names, name, b) ==> b == a && HasChain(Fat(g, d), f.x.t[a], ch)
  {
    hide Fat, Linked, Reflects, HeadsOf, WellOwned, WellFormed, TableAt, Located, FormOf, Matches, Proper, Fits, DotsIn,
         Alive, SubDir, ReadOnly, HasChain;
    var x := n.dirs[s].x;
    assert Housed(g, d, s, n.dirs[s]);
    a, ch := 0, [];
    if b: nat :| FoundAt(x.t, x.names, name, b) {
      FoundIsListed(s, x, name, b);
      a := b;
      ch := ObjectChain(g, d, n, s, a);
      forall c: nat | FoundAt(x.t, x.names, name, c) ensures c == a { FoundOnce(x, name, a, c); }
    }
  }

  /** What f_open ensures where it succeeds. */
  ghost predicate Opened(g: Geometry, d: Disk, e: Disk, f: Folder, s: nat, q: Place, name: seq<word>, fm: Form, at: nat,
        tim: dword, ch: seq<nat>, found: bool)
    requires Ascii(name)
  {
    && OpenOnly(g, f.p, q, ch, d, e) && Located(g, Fat(g, e), s, q)
    && if found then
         && q == f.p && (ch != [] ==> Fat(g, e) == Cut(Fat(g, d), ch[0]))
         && FileOpen.Replaced(f.x.t, f.x.names, f.x.zero, TableAt(g, q, e), name, at, tim)
       else ch == [] && Added(f.x.t, f.x.names, f.x.zero, TableAt(g, q, e), name, fm, at, tim)
  }

  /** What is known then. */
  lemma OpenKnown(g: Geometry, d: Disk, e: Disk, s: nat, q: Place, name: seq<word>, fm: Form, at: nat, tim: dword,
        ch: seq<nat>, found: bool, n: Known)
    returns (m: Known)
    requires SoundAs(g, d, n) && s in n.dirs && Ascii(name) && NotOpen(n, s, name)
    requires Opened(g, d, e, n.dirs[s], s, q, name, fm, at, tim, ch, found)
    requires found ==> at < |n.dirs[s].x.t| && HasChain(Fat(g, d), n.dirs[s].x.t[at], ch)
    ensures SoundAs(g, e, m) && s in m.dirs && m.dirs[s].p == q && m.files == n.files[(s, at) := []]
    ensures TreeStep(n.tree, if found then Clear((s, at)) else MakeFile((s, at)), m.tree)
  {
    hide Sound, Fat, TreeStep, OpenOnly, TableAt, Located, HasChain, Added, Cut, FileOpen.Replaced, Fits, NotOpen,
         Filed, TableOp;
    var f := n.dirs[s];
    OpenFits(g, d, e, f.p, q, ch);
    OpenedFiles(g, d, e, s, q, name, fm, at, tim, ch, found, n);
    if found {
      assert (s, at) !in n.tree.open by { ReplacedFound(f, TableAt(g, q, e), name, at, tim, n, s); }
      var chains, w := OverwriteSound(g, d, e, n.dirs, n.chains, n.tree, s, name, at, tim, ch);
      FilesKnown(g, d, e, n, Clear((s, at)), [], w);
      m := Known(n.dirs[s := f.(x := f.x.(t := TableAt(g, q, e)))], chains, w, n.files[(s, at) := []]);
    } else {
      var chains, w := NewFileSound(g, d, e, n.dirs, n.chains, n.tree, s, q, name, fm, at, tim);
      FilesKnown(g, d, e, n, MakeFile((s, at)), [], w);
      m := Known(n.dirs[s := Folder(q, Joined(f.x, TableAt(g, q, e), name, at))], chains, w, n.files[(s, at) := []]);
    }
  }

  /** f_open in create-always mode touches no other file. */
  lemma OpenedFiles(g: Geometry, d: Disk, e: Disk, s: nat, q: Place, name: seq<word>, fm: Form, at: nat, tim: dword,
        ch: seq<nat>, found: bool, n: Known)
    requires SoundAs(g, d, n) && s in n.dirs && Ascii(name) && NotOpen(n, s, name)
    requires Opened(g, d, e, n.dirs[s], s, q, name, fm, at, tim, ch, found)
    requires found ==> at < |n.dirs[s].x.t| && HasChain(Fat(g, d), n.dirs[s].x.t[at], ch)
    ensures StillStored(g, e, n, {(s, at)}) && DiskOf(g, e)
  {
    hide Sound, Fat, OpenOnly, TableAt, Located, Added, Cut, FileOpen.Replaced, Fits, NotOpen, Filed, TableOp, IsChain,
         ClusterIn, FileStored;
    var f := n.dirs[s];
    OpenDisks(g, d, e, f.p, q, ch);
    if found {
      SoundHoused(g, d, n, s);
      ReplacedFound(f, TableAt(g, q, e), name, at, tim, n, s);
      ReplacedAlive(g, d, s, f, TableAt(g, q, e), name, at, tim);
      ObjectStarts(g, d, n, s, at, ch);
      if ch != [] { FreedChain(g, d, e, ch); }
    }
    OpenIsOp(g, d, e, f.p, q, ch);
    TableOpFiles(g, d, e, n, s, q, (s, at), ch);
  }

  lemma OpenDisks(g: Geometry, d: Disk, e: Disk, p: Place, q: Place, ch: seq<nat>)
    requires OpenOnly(g, p, q, ch, d, e)
    ensures DiskOf(g, d) && DiskOf(g, e) && Fits(g, q, e)
  {
    hide Fat, Sectors, GoodSectors, Geometry.Ok;
    FitsMeans(g, p, d);
    FitsMeans(g, q, e);
  }

  lemma ReplacedAlive(g: Geometry, d: Disk, s: nat, f: Folder, u: Table, name: seq<word>, at: nat, tim: dword)
    requires Housed(g, d, s, f) && Ascii(name)
    requires FileOpen.Replaced(f.x.t, f.x.names, f.x.zero, u, name, at, tim)
    ensures Alive(f.x, at)
  {
    hide Fat, TableAt, Located, Fits, DirRuns.Good, DotsIn, FileOpen.Replaced, Alive;
    ReplacedStays(s, f.x, u, name, at, tim);
  }

  lemma OpenFits(g: Geometry, d: Disk, e: Disk, p: Place, q: Place, ch: seq<nat>)
    requires OpenOnly(g, p, q, ch, d, e)
    ensures Fits(g, q, e)
  {
    hide Fat, Sectors, GoodSectors;
  }

  lemma ReplacedFound(f: Folder, u: Table, name: seq<word>, at: nat, tim: dword, n: Known, s: nat)
    requires s in n.dirs && n.dirs[s] == f && Ascii(name) && NotOpen(n, s, name)
    requires FileOpen.Replaced(f.x.t, f.x.names, f.x.zero, u, name, at, tim)
    ensures (s, at) !in n.tree.open
  {
    hide WellFormed, Created0, Emptied, ClusterIn, SizeIn, FormOf;
  }

  /** What is known once f_open stands for the object at `k`. */
  lemma OpenedKnown(g: Geometry, d: Disk, k: Spot, found: bool, v: DirTree, n: Known) returns (m: Known)
    requires SoundAs(g, d, n) && TreeStep(v, if found then Clear(k) else MakeFile(k), n.tree) && FilesOpen(v)
    ensures SoundAs(g, d, m) && m.dirs == n.dirs && k in m.tree.open && m.tree.open[k] == 0 && m.files == n.files - {k}
    ensures TreeRun(v, [if found then Clear(k) else MakeFile(k), Open(k)], m.tree)
  {
    hide Fat, Linked, Reflects, HeadsOf, WellOwned, Housed, TreeRun, DotsNamed, Filed;
    var op, w := if found then Clear(k) else MakeFile(k), n.tree.(open := n.tree.open[k := 0]);
    TreeOnly(g, d, n, Open(k), [], w);
    m := n.(tree := w, files := n.files - {k});
    RunOne(n.tree, Open(k), w);
    RunFirst(v, op, n.tree, [Open(k)], w);
    assert [op] + [Open(k)] == [op, Open(k)];
  }

  lemma TreeFilesOpen(g: Geometry, d: Disk, n: Known)
    requires SoundAs(g, d, n)
    ensures FilesOpen(n.tree)
  {
    hide Fat, ChainsNamed, NamesOwn, DirsNamed, Reflects, HeadsOf, WellOwned, Housed, DotsNamed, Filed;
  }

  lemma EntryIs(fil: Fil, dirs: Folders, s: nat, at: nat, clust: nat)
    requires s in dirs && fil.fs.g.Ok() && (dirs[s].p.Chain? ==> InRange(fil.fs.g, dirs[s].p.ch))
    requires Points(fil.fs.g, dirs[s].p, at, clust, fil.dirSect, fil.dirPtr)
    ensures EntryOf(fil, dirs, s, at)
  {
  }

  /** From what `OpenFile` ensures. */
  lemma OpenedIs(g: Geometry, d: Disk, e: Disk, f: Folder, s: nat, q: Place, name: seq<word>, fm: Form, at: nat,
        tim: dword, ch: seq<nat>, found: bool, a: Alloc, b: Alloc, first: nat)
    requires Ascii(name) && OpenOnly(g, f.p, q, ch, d, e) && Located(g, Fat(g, e), s, q) && Fits(g, q, e)
    requires DiskOf(g, d) && a.fat == Fat(g, d) && b.fat == Fat(g, e)
    requires Removes(Fat(g, d), f.x.t, f.x.names, name, f.p, ch)
    requires found <==> exists c :: Matches(f.x.t, f.x.names, KeyOf(name), c)
    requires if found then FileOpen.Replaced(f.x.t, f.x.names, f.x.zero, TableAt(g, q, e), name, at, tim)
      else Added(f.x.t, f.x.names, f.x.zero, TableAt(g, q, e), name, fm, at, tim)
    requires OpenedTable(g, found, ch, a, f.p, f.x.t, b, q, TableAt(g, q, e), at)
    requires forall c: nat :: FoundAt(f.x.t, f.x.names, name, c) ==> c == first && HasChain(Fat(g, d), f.x.t[first], ch)
    ensures Opened(g, d, e, f, s, q, name, fm, at, tim, ch, found)
    ensures found ==> at < |f.x.t| && HasChain(Fat(g, d), f.x.t[at], ch)
  {
    hide Fat, OpenOnly, Located, Fits, TableAt, Matches, FormOf, HasChain, Added, Cut, Created0, Emptied, ClusterIn,
         SizeIn, PlaceGrown, Enlarged, Extra, ClustersMore, WellFormed;
  }

  /** f_open in create-always mode. */
  method OpenAlways(dj: Dir, ghost s: nat, ghost name: seq<word>, tim: dword, ghost n: Known)
    returns (res: FResult, fil: Fil?, ghost found: bool, ghost m: Known)
    requires Ascii(name) && InDir(dj, s, name, n) && NotOpen(n, s, name)
    modifies dj`index, dj`clust, dj`sect, dj`ofs, dj`place, dj`lfnIdx, dj`fn, dj`lfnOn
    modifies dj.fs`disk, dj.fs`wflag, dj.fs`winsect, dj.fs`image, dj.fs`lastClust, dj.fs`freeClust, dj.fs`fsiFlag
    modifies dj.fs.win
    ensures dj.Valid() && (res == Ok <==> fil != null)
    ensures fil == null ==> SoundAs(dj.fs.g, dj.fs.image, m) && m.tree == n.tree && m.files == n.files
    ensures fil != null ==>
      var k := (s, dj.index);
      && fil.Valid() && fil.Content() == [] && m.files == n.files - {k}
      && fresh(fil) && fresh(fil.buf) && fil.fs == dj.fs && FileIn(fil, k, m)
      && TreeRun(n.tree, [if found then Clear(k) else MakeFile(k), Open(k)], m.tree)
  {
    hide Fat, Sound, WellFormed, TableAt, Located, FatFs.Valid, Matches, FormOf, Points, FatFs.Exact, Fits, Proper,
         Holds, Geometry.Ok, OpenOnly, TreeStep, TreeRun, ClusterIn, DotsIn, Lengthened, OpenedTable, Dir.GrownFrom,
         Added, Removes, FileOpen.Replaced, HasChain, Cut, Opened, EntryOf, Fil.Content, Fil.Core, Fil.Placed,
         Fil.Loaded, FreeOf, TableOp, Longer, SoundAs, AtDir;
    ghost var g, d := dj.fs.g, dj.fs.image;
    ghost var f := n.dirs[s];
    InDirTable(dj, s, name, n);
    FitsMeans(g, dj.place, d);
    ghost var a0 := dj.fs.Table();
    ghost var a, ch := OpenParts(g, d, n, s, name);
    res, fil, found := OpenFile(dj, name, f.x.names, f.x.zero, tim, ch);
    ghost var e := dj.fs.image;
    DirLocated(dj, s);
    if res != Ok {
      FailedOpenIsOp(g, d, e, f.p, dj.place);
      m := LongerKnown(g, d, e, n, s, dj.place);
    } else {
      FitsMeans(g, dj.place, e);
      OpenedIs(g, d, e, f, s, dj.place, name, dj.fn, dj.index, tim, ch, found, a0, dj.fs.Table(), a);
      m := OpenKnown(g, d, e, s, dj.place, name, dj.fn, dj.index, tim, ch, found, n);
      EntryIs(fil, m.dirs, s, dj.index, dj.clust);
      TreeFilesOpen(g, d, n);
      m := OpenedKnown(g, e, (s, dj.index), found, n.tree, m);
    }
  }

  /** What is known of a file that a name finds: it is among the closed ones, with the chain that its entry names. */
  lemma StoredAt(g: Geometry, d: Disk, n: Known, s: nat, a: nat, ch: seq<nat>)
    requires SoundAs(g, d, n) && s in n.dirs && DiskOf(g, d) && Alive(n.dirs[s].x, a) && (s, a) !in n.tree.open
    requires !IsDirectory(n.dirs[s].x.t[a]) && HasChain(Fat(g, d), n.dirs[s].x.t[a], ch)
    ensures (s, a) in n.files && (s, a) in n.tree.objs && n.tree.objs[(s, a)] == Said(n.dirs[s].x.t[a])
    ensures FileStoredIn(g, d, n.tree.objs[(s, a)], n.files[(s, a)], ch)
  {
    hide Fat, Linked, Reflects, Housed, WellOwned, IsChain, IsDirectory, ClusterIn, SizeIn, HeadsOf, DotsNamed,
         FileStoredIn;
    ObjectSaid(n.dirs, n.tree, s, a);
    assert (s, a) in Closed(n.tree);
    var ch' :| FileStoredIn(g, d, n.tree.objs[(s, a)], n.files[(s, a)], ch');
    OneChain(g, d, n.tree.objs[(s, a)], n.files[(s, a)], ch', ch);
  }

  lemma OneChain(g: Geometry, d: Disk, o: Object, c: seq<byte>, ch: seq<nat>, x: seq<nat>)
    requires FileStoredIn(g, d, o, c, ch) && o.start == End0(x) && (x != [] ==> IsChain(Fat(g, d), x))
    ensures x == ch
  {
    hide Fat, IsChain;
    if x != [] { ChainHead(g, d, x); }
    if ch != [] { ChainHead(g, d, ch); }
    if x != [] && ch != [] { SameHead(Fat(g, d), x, ch); }
  }

  /** A clean file object on that entry shows what the file holds. */
  lemma ContentIs(fil: Fil, o: Object, c: seq<byte>)
    requires fil.Valid() && !fil.dirty && fil.fsize == o.size
    requires FileStoredIn(fil.fs.g, fil.fs.image, o, c, fil.chain)
    ensures fil.Content() == c && o.start == End0(fil.chain)
  {
    hide Fat, FatFs.Valid, Home, NoOnes, IsChain, Geometry.Ok;
  }

  /** The length of what is stored. */
  lemma StoredFits(g: Geometry, d: Disk, p: Place, t: Table, a: nat, ch: seq<nat>, o: Object, c: seq<byte>)
    requires FileStoredIn(g, d, o, c, ch) && a < |t| && o == Said(t[a]) && HasChain(Fat(g, d), t[a], ch)
    requires forall x :: x in ch ==> !InPlace(p, x)
    ensures FileAt(g, Fat(g, d), p, t, a, ch)
  {
    hide Fat, IsChain, ClusterIn, SizeIn, IsDirectory;
  }

  /** A file that the name finds. */
  lemma FoundFile(g: Geometry, d: Disk, n: Known, s: nat, name: seq<word>, a: nat, ch: seq<nat>)
    requires SoundAs(g, d, n) && s in n.dirs && DiskOf(g, d) && Ascii(name) && Proper(name) && NotOpen(n, s, name)
    requires Removes(Fat(g, d), n.dirs[s].x.t, n.dirs[s].x.names, name, n.dirs[s].p, ch)
    requires forall b: nat :: FoundAt(n.dirs[s].x.t, n.dirs[s].x.names, name, b) ==>
               b == a && HasChain(Fat(g, d), n.dirs[s].x.t[a], ch)
    ensures var x := n.dirs[s].x;
      forall b: nat :: FoundAt(x.t, x.names, name, b) && !IsDirectory(x.t[b]) ==>
        && FileAt(g, Fat(g, d), n.dirs[s].p, x.t, b, ch)
        && (s, b) in n.files && (s, b) in n.tree.objs && n.tree.objs[(s, b)] == Said(x.t[b])
        && FileStoredIn(g, d, n.tree.objs[(s, b)], n.files[(s, b)], ch)
  {
    hide Fat, Sound, Filed, FormOf, Matches, Proper, HasChain, IsDirectory, ClusterIn, SizeIn, FileStoredIn, ReadOnly,
         FileAt, Housed, Alive, DotsIn;
    var x := n.dirs[s].x;
    SoundHoused(g, d, n, s);
    if b: nat :| FoundAt(x.t, x.names, name, b) && !IsDirectory(x.t[b]) {
      HousedDots(g, d, s, n.dirs[s]);
      FoundIsListed(s, x, name, b);
      StoredAt(g, d, n, s, b, ch);
      StoredFits(g, d, n.dirs[s].p, x.t, b, ch, n.tree.objs[(s, b)], n.files[(s, b)]);
    }
  }

  /** What is known once a file object stands for the file at `k`. */
  lemma OpenedIdle(g: Geometry, d: Disk, n: Known, k: Spot) returns (m: Known)
    requires SoundAs(g, d, n) && k in n.files
    ensures SoundAs(g, d, m) && m.dirs == n.dirs && m.files == n.files - {k} && TreeStep(n.tree, Open(k), m.tree)
    ensures k in m.tree.open && k in n.tree.objs && m.tree.open[k] == n.tree.objs[k].start && m.tree.objs == n.tree.objs
  {
    hide Sound, FileStored;
    assert k in Closed(n.tree);
    var w := n.tree.(open := n.tree.open[k := n.tree.Start(k)]);
    TreeOnly(g, d, n, Open(k), [], w);
    m := n.(tree := w, files := n.files - {k});
  }

  /** f_open without a create mode: the file object shows what the file holds. */
  method OpenToRead(dj: Dir, ghost s: nat, ghost name: seq<word>, read: bool, write: bool, ghost n: Known)
    returns (res: FResult, fil: Fil?, ghost m: Known)
    requires Ascii(name) && InDir(dj, s, name, n) && NotOpen(n, s, name)
    modifies dj`index, dj`clust, dj`sect, dj`ofs, dj`place, dj`lfnIdx
    modifies dj.fs`disk, dj.fs`wflag, dj.fs`winsect, dj.fs`image, dj.fs`lastClust, dj.fs`freeClust, dj.fs`fsiFlag
    modifies dj.fs.win
    ensures dj.Valid() && dj.fs.image == old(dj.fs.image) && (res == Ok <==> fil != null)
    ensures var x := n.dirs[s].x;
      if exists b: nat :: FoundAt(x.t, x.names, name, b)
      then FoundAt(x.t, x.names, name, dj.index) && OpenAnswer(x.t[dj.index], write, res)
      else res == NoFile || (res == IntErr && x.t == [])
    ensures fil == null ==> m == n
    ensures fil != null ==>
      var k := (s, dj.index);
      && fil.Valid() && k in n.files && fil.Content() == n.files[k] && fil.fptr == 0 && m.files == n.files - {k}
      && fresh(fil) && fresh(fil.buf) && fil.fs == dj.fs && fil.canRead == read && fil.canWrite == write
      && FileIn(fil, k, m) && TreeStep(n.tree, Open(k), m.tree)
  {
    hide Fat, Sound, WellFormed, TableAt, Located, FatFs.Valid, Matches, FormOf, Points, FatFs.Exact, Fits, Proper,
         Holds, Geometry.Ok, TreeStep, ClusterIn, SizeIn, DotsIn, Removes, HasChain, EntryOf, Fil.Content, Fil.Core,
         Fil.Placed, Fil.Loaded, SoundAs, AtDir, FileStoredIn, Alive, IsDirectory, ReadOnly;
    ghost var g, d := dj.fs.g, dj.fs.image;
    ghost var f := n.dirs[s];
    InDirTable(dj, s, name, n);
    FitsMeans(g, dj.place, d);
    ghost var a, ch := OpenParts(g, d, n, s, name);
    FoundFile(g, d, n, s, name, a, ch);
    res, fil := OpenExisting(dj, name, f.x.names, f.x.zero, read, write, ch);
    m := n;
    if fil != null {
      ghost var k := (s, dj.index);
      assert FoundAt(f.x.t, f.x.names, name, dj.index);
      ContentIs(fil, n.tree.objs[k], n.files[k]);
      m := OpenedIdle(g, d, n, k);
      EntryIs(fil, m.dirs, s, dj.index, dj.clust);
    }
  }
}
