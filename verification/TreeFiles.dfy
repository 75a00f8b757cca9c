/** What the operations on files do to the tree of directories: opening, writing, cutting, synchronising and removing
    them. */
module TreeFiles {
  import opened Bytes
  import opened Geometry
  import opened FatTable
  import opened Chains
  import opened ChainRuns
  import opened FileBytes
  import opened FileModel
  import opened Lfn
  import opened ShortName
  import opened DirTable
  import opened DirDisk
  import opened DirFind
  import opened DirModel
  import opened DirMake
  import DirRuns
  import opened FileObject
  import opened FileOpen
  import opened Tree
  import opened TreeDisk

  // ----- the chain of a file -----

  /** Two chains with the same first cluster are the same. */
  lemma SameHead(f: seq<nat>, a: seq<nat>, b: seq<nat>)
    requires IsChain(f, a) && IsChain(f, b) && a[0] == b[0]
    ensures a == b
  {
    if |a| <= |b| { SameUpTo(f, a, b, |a|); } else { SameUpTo(f, b, a, |b|); }
  }

  lemma {:induction false} SameUpTo(f: seq<nat>, a: seq<nat>, b: seq<nat>, n: nat)
    requires IsChain(f, a) && IsChain(f, b) && a[0] == b[0] && n <= |a| <= |b|
    ensures a[..n] == b[..n] && (n == |a| ==> |a| == |b|)
  {
    hide Distinct;
    if n > 0 {
      SameUpTo(f, a, b, n - 1);
      if n > 1 {
        assert Links(f, a, n - 2) && Links(f, b, n - 2) && a[..n - 1][n - 2] == b[..n - 1][n - 2];
      }
      assert n < |b| ==> Links(f, b, n);
      assert Links(f, a, n - 1) && Links(f, b, n - 1);
    }
  }

  /** A live chain that is no directory's table. */
  ghost predicate NoTable(dirs: Folders, chains: seq<seq<nat>>, ch: seq<nat>)
  {
    ch in chains && forall z :: z in dirs && dirs[z].p.Chain? ==> dirs[z].p.ch != ch
  }

  /** The chain that a file names is one of the volume's, and no directory's. */
  lemma FileChain(g: Geometry, d: Disk, dirs: Folders, chains: seq<seq<nat>>, v: DirTree, k: Spot, ch: seq<nat>)
    requires Sound(g, d, dirs, chains, v) && k in v.objs && !v.objs[k].dir
    requires ch != [] && IsChain(Fat(g, d), ch) && v.Start(k) == ch[0] && ch[0] != 0
    ensures ch[0] in v.heads && ch[0] != v.root && NoTable(dirs, chains, ch)
  {
    hide Fat, Reflects, Housed, WellOwned, IsChain, DirsNamed, FilesOpen;
    StartIsHead(v, k);
    NamedChain(g, d, dirs, chains, v, k, ch);
    forall z | z in dirs && dirs[z].p.Chain? ensures dirs[z].p.ch != ch {
      FolderStart(g, d, dirs, chains, v, z);
      DepthKeys(dirs, v);
      if z != 0 { NotADirectory(v, k, z); }
    }
  }

  lemma DepthKeys(dirs: Folders, v: DirTree)
    requires Reflects(dirs, v)
    ensures dirs.Keys == v.depth.Keys
  {
  }

  lemma OneOfOwned(f: seq<nat>, chains: seq<seq<nat>>, ch: seq<nat>)
    requires WellOwned(f, chains) && ch in chains
    ensures IsChain(f, ch)
  {
  }

  lemma StartIsHead(v: DirTree, k: Spot)
    requires Linked(v) && k in v.objs && v.Start(k) != 0
    ensures v.Start(k) in v.heads && v.Start(k) != v.root
  {
  }

  // ----- what a sound volume is -----

  /** No cluster is lost: with no file open, every used cluster is in a chain that begins where the root directory
      does or where an entry of a directory says. */
  lemma NoLostCluster(g: Geometry, d: Disk, dirs: Folders, chains: seq<seq<nat>>, v: DirTree, c: nat)
    returns (ch: seq<nat>, k: Spot)
    requires Sound(g, d, dirs, chains, v) && v.open == map[] && 2 <= c < g.maxClust && Fat(g, d)[c] != 0
    ensures IsChain(Fat(g, d), ch) && c in ch
    ensures ch[0] == RootHead(g) ||
      (k.0 in dirs && Alive(dirs[k.0].x, k.1) && ClusterIn(dirs[k.0].x.t[k.1]) == ch[0])
  {
    hide Fat, Linked, Housed, IsChain, ClusterIn, DirRuns.Good, Disjoint;
    var i :| 0 <= i < |chains| && c in chains[i];
    ch := chains[i];
    k := (0, 0);
    assert ch in chains;
    if ch[0] != v.root { k := HeadNamed(v, ch[0]); }
  }

  lemma HeadNamed(v: DirTree, c: nat) returns (k: Spot)
    requires Linked(v) && c in v.heads && c != v.root
    ensures k in v.objs && v.Start(k) == c
  {
    k := v.owner[c];
  }

  /** No cluster is in the chains of two entries. */
  lemma NoCrossLink(g: Geometry, d: Disk, dirs: Folders, chains: seq<seq<nat>>, v: DirTree, j: Spot, k: Spot,
        a: seq<nat>, b: seq<nat>, c: nat)
    requires Sound(g, d, dirs, chains, v) && v.open == map[] && j.0 in dirs && k.0 in dirs
    requires Alive(dirs[j.0].x, j.1) && Alive(dirs[k.0].x, k.1) && IsChain(Fat(g, d), a) && IsChain(Fat(g, d), b)
    requires a[0] == ClusterIn(dirs[j.0].x.t[j.1]) && b[0] == ClusterIn(dirs[k.0].x.t[k.1]) && c in a && c in b
    ensures j == k
  {
    hide Fat, Linked, Housed, IsChain, ClusterIn, WellOwned, Reflects;
    ObjectSaid(dirs, v, j.0, j.1);
    ObjectSaid(dirs, v, k.0, k.1);
    ChainHead(g, d, a);
    ChainHead(g, d, b);
    NamedChain(g, d, dirs, chains, v, j, a);
    NamedChain(g, d, dirs, chains, v, k, b);
    if a != b { DifferentChains(Fat(g, d), chains, a, b); }
    NothingLost(v, a[0]);
  }

  /** The chain that begins where an object says is a live one. */
  lemma NamedChain(g: Geometry, d: Disk, dirs: Folders, chains: seq<seq<nat>>, v: DirTree, k: Spot, ch: seq<nat>)
    requires Sound(g, d, dirs, chains, v) && k in v.objs && IsChain(Fat(g, d), ch) && ch != []
    requires v.Start(k) == ch[0] && ch[0] != 0
    ensures ch in chains
  {
    hide Fat, Reflects, Housed, WellOwned, IsChain, Linked;
    StartIsHead(v, k);
    var x :| x in chains && x != [] && x[0] == ch[0];
    OneOfOwned(Fat(g, d), chains, x);
    SameHead(Fat(g, d), x, ch);
  }

  lemma DifferentChains(f: seq<nat>, chains: seq<seq<nat>>, a: seq<nat>, b: seq<nat>)
    requires WellOwned(f, chains) && a in chains && b in chains && a != b
    ensures forall c :: c in a ==> c !in b
  {
    hide IsChain;
    var i :| 0 <= i < |chains| && chains[i] == a;
    var j :| 0 <= j < |chains| && chains[j] == b;
    forall c | c in a ensures c !in b { assert c in chains[i]; }
  }

  /** A file does not name a directory's cluster. */
  lemma NotADirectory(v: DirTree, k: Spot, z: nat)
    requires Linked(v) && k in v.objs && !v.objs[k].dir && z in v.depth && z != 0
    ensures v.Start(k) != z
  {
    assert Named(v, z);
  }

  /** A chain that is about to go apart from all others and from that of directory `s`; the other directories, but
      those that go, are among these. */
  lemma FileApart(g: Geometry, d: Disk, dirs: Folders, chains: seq<seq<nat>>, v: DirTree, s: nat, ch: seq<nat>,
        gone: set<nat>)
    returns (others: seq<seq<nat>>)
    requires Sound(g, d, dirs, chains, v) && s in dirs - gone
    requires ch == [] || NoTable(dirs - gone, chains, ch)
    ensures WellOwned(Fat(g, d), others + (TableChains(dirs[s].p) + FileChains(ch)))
    ensures forall x :: x in chains <==> x in others || x in TableChains(dirs[s].p) + FileChains(ch)
    ensures ch != [] ==> ch !in others && ch !in TableChains(dirs[s].p)
    ensures forall z :: z in dirs - gone && z != s ==>
      if dirs[z].p.Chain? then dirs[z].p.ch in others else !dirs[s].p.Static?
  {
    hide Fat, WellOwned, Linked, Reflects, HeadsOf, Housed;
    others := FolderApart(g, d, dirs, chains, v, s);
    if ch == [] {
      assert TableChains(dirs[s].p) + [] == TableChains(dirs[s].p);
    } else {
      assert ch in others by { assert ch !in TableChains(dirs[s].p); }
      others := SetApart(Fat(g, d), others, TableChains(dirs[s].p), ch);
      assert FileChains(ch) == [ch];
    }
  }

  // ----- an operation on a directory -----

  /** What an operation on a directory changes from disk `d` to `e` behind the FATs: sectors of its table, which was
      at `p` and is at `q`, and of free clusters; and in the FATs: entries of the table's clusters and of a file's
      chain `ch`, which it frees. */
  ghost predicate TableOp(g: Geometry, p: Place, q: Place, ch: seq<nat>, d: Disk, e: Disk)
  {
    && Fits(g, p, d) && Fits(g, q, e) && Grew(p, q)
    && (forall s :: g.FatEnd() <= s < |d| && s !in Sectors(g, q) && !Home(g, FreeOf(Fat(g, d)), s) ==> e[s] == d[s])
    && (forall c: nat :: 2 <= c < g.maxClust && !InPlace(q, c) && c !in ch ==> Fat(g, e)[c] == Fat(g, d)[c])
    && (forall c: nat :: InPlace(q, c) && !InPlace(p, c) ==> 2 <= c < g.maxClust && Fat(g, d)[c] == 0)
    && (forall c :: c in ch ==> 2 <= c < g.maxClust && Fat(g, e)[c] == 0)
  }

  lemma TableOpWithin(g: Geometry, d: Disk, e: Disk, p: Place, q: Place, ch: seq<nat>, dom: set<nat>)
    requires TableOp(g, p, q, ch, d, e) && Covers(Fat(g, d), TableChains(p) + FileChains(ch), dom)
    requires q.Static? ==> g.fatType != Fat32
    ensures Confined(g, d, e, dom, p.Static?)
  {
    hide Fat, ChainSectors, Geometry.Ok, SectorOf, Sectors, GoodSectors;
    FitsMeans(g, p, d);
    FitsMeans(g, q, e);
    FatAreaHolds(g);
    var f, mine := Fat(g, d), TableChains(p) + FileChains(ch);
    forall c: nat ensures ChainRuns.OwnedBy(mine, c) <==> InPlace(p, c) || c in ch { InBoth(p, ch, c); }
    forall z | g.FatEnd() <= z < |d| && !Home(g, dom, z) && (p.Static? ==> g.database <= z) ensures e[z] == d[z] {
      if z in Sectors(g, q) {
        GrownSectorHome(g, f, p, q, dom, z);
        if q.Static? { StaticSectors(g, z); }
      }
      HomeInMore(g, FreeOf(f), dom, z);
    }
  }

  lemma HomeInMore(g: Geometry, dom: set<nat>, more: set<nat>, z: nat)
    requires forall c :: c in dom ==> c in more
    ensures Home(g, dom, z) ==> Home(g, more, z)
  {
    hide SectorOf;
  }

  lemma InBoth(p: Place, ch: seq<nat>, c: nat)
    ensures ChainRuns.OwnedBy(TableChains(p) + FileChains(ch), c) <==> InPlace(p, c) || c in ch
  {
    OwnedInBoth(TableChains(p), FileChains(ch), c);
    InTableChains(p, c);
    if c in ch { assert c in FileChains(ch)[0]; }
  }

  lemma TableOpOwned(g: Geometry, d: Disk, e: Disk, p: Place, q: Place, ch: seq<nat>, s: nat, dom: set<nat>,
        others: seq<seq<nat>>)
    requires TableOp(g, p, q, ch, d, e) && Located(g, Fat(g, d), s, p) && Located(g, Fat(g, e), s, q)
    requires dom == Part(Fat(g, d), TableChains(p) + FileChains(ch))
    requires WellOwned(Fat(g, d), others + (TableChains(p) + FileChains(ch)))
    ensures WellOwned(Fat(g, e), others + TableChains(q))
  {
    hide Fat, Sectors, GoodSectors, Geometry.Ok, WellOwned, IsChain, Disjoint, ChainSectors;
    var f, f', mine := Fat(g, d), Fat(g, e), TableChains(p) + FileChains(ch);
    PartIs(f, mine);
    forall c: nat ensures ChainRuns.OwnedBy(mine, c) <==> InPlace(p, c) || c in ch { InBoth(p, ch, c); }
    forall c: nat ensures ChainRuns.OwnedBy(TableChains(q), c) <==> InPlace(q, c) { InTableChains(q, c); }
    UsedTable(g, e, s, q);
    assert Covers(f', TableChains(q), dom);
    assert Disjoint(TableChains(q)) by { OneDisjoint(q); }
    PartKeepsOwned(f, f', others, mine, TableChains(q), dom);
  }

  lemma UsedTable(g: Geometry, e: Disk, s: nat, q: Place)
    requires DiskOf(g, e) && Located(g, Fat(g, e), s, q)
    ensures forall c: nat :: InPlace(q, c) ==> 2 <= c < g.maxClust && Fat(g, e)[c] != 0
    ensures forall i :: 0 <= i < |TableChains(q)| ==> IsChain(Fat(g, e), TableChains(q)[i])
  {
    hide Fat, IsChain;
    if q.Chain? { ChainUses(Fat(g, e), q.ch); }
  }

  /** The first clusters once chain `ch` is gone and the table at `p` is at `q`. */
  lemma HeadsWithout(f: seq<nat>, chains: seq<seq<nat>>, others: seq<seq<nat>>, p: Place, q: Place, ch: seq<nat>,
        heads: set<nat>)
    requires HeadsOf(chains, heads) && WellOwned(f, chains) && Grew(p, q) && (p.Chain? ==> p.ch != []) && 0 !in heads
    requires forall x :: x in chains <==> x in others || x in TableChains(p) + FileChains(ch)
    requires ch != [] ==> ch !in others && ch !in TableChains(p)
    ensures HeadsOf(others + TableChains(q), heads - {End0(ch)})
  {
    hide WellOwned, IsChain;
    if ch == [] {
      HeadsAfter(chains, others, p, q, heads);
    } else {
      assert ch in FileChains(ch);
      forall x | x in chains && x != ch ensures x != [] && x[0] != ch[0] {
        OneOfOwned(f, chains, x);
        OneOfOwned(f, chains, ch);
        if x[0] == ch[0] { SameHead(f, x, ch); }
      }
      HeadsAfter(others + TableChains(p), others, p, q, heads - {ch[0]});
    }
  }

  /** An operation on directory `s` that frees at most one chain, that of a file or of a directory that goes, keeps
      the volume sound, if the tree changes as the directory's objects do. */
  lemma TableOpSound(g: Geometry, d: Disk, e: Disk, dirs: Folders, chains: seq<seq<nat>>, v: DirTree, s: nat, f: Folder,
        ch: seq<nat>, gone: set<nat>, w: DirTree)
    returns (chains': seq<seq<nat>>)
    requires Sound(g, d, dirs, chains, v) && s in dirs - gone && (ch == [] || NoTable(dirs - gone, chains, ch))
    requires TableOp(g, dirs[s].p, f.p, ch, d, e) && Housed(g, e, s, f)
    requires Linked(w) && w.root == v.root && w.heads == v.heads - {End0(ch)} && Reflects(dirs[s := f] - gone, w)
    requires DotsNamed(dirs[s := f] - gone, w)
    ensures Sound(g, e, dirs[s := f] - gone, chains', w)
  {
    hide Fat, WellOwned, TableAt, Fits, ChainSectors, DirRuns.Good, DotsIn, HeadsOf, Reflects, NoOnes, Covers, Confined,
         Geometry.Ok, TableOp, Located, DirsNamed, FilesOpen, NamesOwn, DotsNamed;
    var p := dirs[s].p;
    var mine := TableChains(p) + FileChains(ch);
    var dom := Part(Fat(g, d), mine);
    assert Housed(g, d, s, dirs[s]);
    var others := FileApart(g, d, dirs, chains, v, s, ch, gone);
    PartIs(Fat(g, d), mine);
    OpParts(g, d, e, p, f.p, ch, s);
    TableOpWithin(g, d, e, p, f.p, ch, dom);
    TableOpOwned(g, d, e, p, f.p, ch, s, dom, others);
    OthersHoused(g, d, e, dirs - gone, s, others, mine, dom, p.Static?);
    HeadsWithout(Fat(g, d), chains, others, p, f.p, ch, v.heads);
    chains' := others + TableChains(f.p);
    var dirs' := dirs[s := f] - gone;
    forall z | z in dirs' ensures Housed(g, e, z, dirs'[z]) { assert z != s ==> z in dirs - gone; }
    forall z | z in dirs' && dirs'[z].p.Chain? ensures dirs'[z].p.ch in chains' {
      if z == s { ChainedStart(g, Fat(g, e), s, f.p); }
    }
  }

  /** The same where no directory goes. */
  lemma EntryOpSound(g: Geometry, d: Disk, e: Disk, dirs: Folders, chains: seq<seq<nat>>, v: DirTree, s: nat, f: Folder,
        ch: seq<nat>, w: DirTree)
    returns (chains': seq<seq<nat>>)
    requires Sound(g, d, dirs, chains, v) && s in dirs && (ch == [] || NoTable(dirs, chains, ch))
    requires TableOp(g, dirs[s].p, f.p, ch, d, e) && Housed(g, e, s, f)
    requires Linked(w) && w.root == v.root && w.heads == v.heads - {End0(ch)} && Reflects(dirs[s := f], w)
    requires DotsNamed(dirs[s := f], w)
    ensures Sound(g, e, dirs[s := f], chains', w)
  {
    hide Sound, TableOp, Housed, Linked, Reflects, NoTable, DotsNamed;
    assert dirs - {} == dirs && dirs[s := f] - {} == dirs[s := f];
    chains' := TableOpSound(g, d, e, dirs, chains, v, s, f, ch, {}, w);
  }

  /** The dot entries stay where one object of a directory comes or changes. */
  lemma DotsKept(dirs: Folders, v: DirTree, s: nat, f: Folder, at: nat, op: TreeOp, w: DirTree)
    requires TreeOf(dirs, v) && TreeStep(v, op, w) && !op.MakeDir? && !op.DropDir? && s in dirs
    requires DotsIn(s, dirs[s].x) && SameBut(dirs[s].x, f.x, at)
    requires at in dirs[s].x.names ==> at < |dirs[s].x.t| && dirs[s].x.t[at][0] != DOT
    ensures DotsNamed(dirs[s := f], w)
  {
    hide Linked, DotsIn, SameBut, DotsStill, DotsNamed;
    DotsUnder(s, dirs[s].x, f.x, at);
    forall z | z in dirs && z != s && z != 0 ensures DotsStill(dirs[z].x.t, dirs[z].x.t) { DotsStillSelf(dirs[z].x.t); }
    DotsAfter(dirs, dirs[s := f], v, op, w);
  }

  lemma OpParts(g: Geometry, d: Disk, e: Disk, p: Place, q: Place, ch: seq<nat>, s: nat)
    requires TableOp(g, p, q, ch, d, e) && Located(g, Fat(g, d), s, p) && Located(g, Fat(g, e), s, q)
    ensures (q.Static? ==> g.fatType != Fat32) && NoOnes(Fat(g, e)) && (p.Chain? ==> p.ch != []) && Grew(p, q)
    ensures DiskOf(g, d) && DiskOf(g, e) && (q.Chain? ==> q.ch != [])
  {
    hide Fat, Sectors, GoodSectors, Geometry.Ok, NoOnes;
    FitsMeans(g, p, d);
    FitsMeans(g, q, e);
  }

  // ----- f_open -----

  /** What f_open does to the table when it creates a file. */
  lemma MadeFileJoins(s: nat, x: DirRuns.State, u: Table, name: seq<word>, f: Form, at: nat, tim: dword)
    requires DirRuns.Good(x) && DotsIn(s, x) && Ascii(name)
    requires Added(x.t, x.names, x.zero, u, name, f, at, tim)
    ensures var y := Joined(x, u, name, at);
      SameBut(x, y, at) && Alive(y, at) && at !in x.names && Said(u[at]) == Object(false, 0, 0) &&
      DirRuns.Good(y) && DotsIn(s, y)
  {
    hide WellFormed, Matches, FormOf, AddedTo, ShortEntry, Created0, ClusterIn, SizeIn;
    var v :| AddedTo(x.t, v, if FormOf(name).lfn then name else [], ShortEntry(f), at) &&
      at < |v| && u == v[at := Created0(v[at], tim)];
    AddedStays(x, v, if FormOf(name).lfn then name else [], ShortEntry(f), at);
    CreatedStart(v[at], tim);
    ShortStart(f);
    JoinedIs(x, u, name, at);
    DotsStay(s, x, Joined(x, u, name, at), at);
  }

  lemma CreatedStart(e: Entry, tim: dword)
    ensures Created0(e, tim)[0] == e[0] && !IsDirectory(Created0(e, tim))
  {
  }

  /** f_open in create-always mode that creates a file keeps the volume sound. */
  lemma NewFileSound(g: Geometry, d: Disk, e: Disk, dirs: Folders, chains: seq<seq<nat>>, v: DirTree, s: nat, q: Place,
        name: seq<word>, f: Form, at: nat, tim: dword)
    returns (chains': seq<seq<nat>>, w: DirTree)
    requires Sound(g, d, dirs, chains, v) && s in dirs && Ascii(name)
    requires OpenOnly(g, dirs[s].p, q, [], d, e) && Located(g, Fat(g, e), s, q)
    requires Added(dirs[s].x.t, dirs[s].x.names, dirs[s].x.zero, TableAt(g, q, e), name, f, at, tim)
    ensures Sound(g, e, dirs[s := Folder(q, Joined(dirs[s].x, TableAt(g, q, e), name, at))], chains', w)
    ensures TreeStep(v, MakeFile((s, at)), w)
  {
    hide Fat, WellOwned, TableAt, Sectors, GoodSectors, DirRuns.Good, DotsIn, HeadsOf, Reflects, Geometry.Ok,
         TableOp, Located, Linked, Added, Joined, SameBut, Alive, Said, DotsNamed;
    var x, y := dirs[s].x, Joined(dirs[s].x, TableAt(g, q, e), name, at);
    assert Housed(g, d, s, dirs[s]);
    MadeFileJoins(s, x, TableAt(g, q, e), name, f, at, tim);
    JoinedIs(x, TableAt(g, q, e), name, at);
    OpenIsOp(g, d, e, dirs[s].p, q, []);
    w := Put(v, (s, at), Object(false, 0, 0));
    ReflectsPut(dirs, v, s, Folder(q, y), at);
    NotThere(dirs, v, s, at);
    StepKeepsTree(v, MakeFile((s, at)), w);
    DotsKept(dirs, v, s, Folder(q, y), at, MakeFile((s, at)), w);
    ZeroIsNoHead(v);
    chains' := EntryOpSound(g, d, e, dirs, chains, v, s, Folder(q, y), [], w);
  }

  lemma ZeroIsNoHead(v: DirTree)
    requires Linked(v)
    ensures 0 !in v.heads
  {
  }

  lemma NotThere(dirs: Folders, v: DirTree, s: nat, at: nat)
    requires Reflects(dirs, v) && s in dirs && at !in dirs[s].x.names
    ensures (s, at) !in v.objs && s in v.depth
  {
  }

  lemma OpenIsOp(g: Geometry, d: Disk, e: Disk, p: Place, q: Place, ch: seq<nat>)
    requires OpenOnly(g, p, q, ch, d, e) && forall c :: c in ch ==> 2 <= c < g.maxClust && Fat(g, e)[c] == 0
    ensures TableOp(g, p, q, ch, d, e) && Fits(g, q, e) && DiskOf(g, e)
  {
    hide Fat, Sectors, GoodSectors, Geometry.Ok;
    FitsMeans(g, p, d);
    FatAreaHolds(g);
  }

  /** The object that f_open overwrites is a file, and stays one. */
  lemma ReplacedStays(s: nat, x: DirRuns.State, u: Table, name: seq<word>, at: nat, tim: dword)
    requires DirRuns.Good(x) && DotsIn(s, x) && Ascii(name)
    requires FileOpen.Replaced(x.t, x.names, x.zero, u, name, at, tim)
    ensures at < |x.t| && Alive(x, at) && !IsDirectory(x.t[at])
    ensures var y := x.(t := u);
      SameBut(x, y, at) && Alive(y, at) && Said(u[at]) == Object(false, 0, 0) && DirRuns.Good(y) && DotsIn(s, y)
  {
    hide WellFormed, Matches, FormOf, Created0, ClusterIn, SizeIn, Emptied, IsBlank;
    InTable(x);
    CreatedStart(Emptied(x.t[at]), tim);
    EmptiedStart(x.t[at]);
    DotsStay(s, x, x.(t := u), at);
  }

  lemma EmptiedStart(e: Entry)
    ensures Emptied(e)[0] == e[0]
  {
  }

  /** f_open in create-always mode that overwrites a file, which is not open, keeps the volume sound. */
  lemma OverwriteSound(g: Geometry, d: Disk, e: Disk, dirs: Folders, chains: seq<seq<nat>>, v: DirTree, s: nat,
        name: seq<word>, at: nat, tim: dword, ch: seq<nat>)
    returns (chains': seq<seq<nat>>, w: DirTree)
    requires Sound(g, d, dirs, chains, v) && s in dirs && Ascii(name) && (s, at) !in v.open
    requires OpenOnly(g, dirs[s].p, dirs[s].p, ch, d, e) && Located(g, Fat(g, e), s, dirs[s].p)
    requires FileOpen.Replaced(dirs[s].x.t, dirs[s].x.names, dirs[s].x.zero, TableAt(g, dirs[s].p, e), name, at, tim)
    requires HasChain(Fat(g, d), dirs[s].x.t[at], ch) && (ch != [] ==> Fat(g, e) == Cut(Fat(g, d), ch[0]))
    ensures Sound(g, e, dirs[s := dirs[s].(x := dirs[s].x.(t := TableAt(g, dirs[s].p, e)))], chains', w)
    ensures TreeStep(v, Clear((s, at)), w)
  {
    hide Fat, WellOwned, TableAt, Sectors, GoodSectors, DirRuns.Good, DotsIn, HeadsOf, Reflects, Geometry.Ok,
         TableOp, Located, Linked, FileOpen.Replaced, SameBut, IsChain, ClusterIn, IsDirectory, Cut, DotsNamed;
    var x, p, k := dirs[s].x, dirs[s].p, (s, at);
    var u := TableAt(g, p, e);
    var f := Folder(p, x.(t := u));
    assert Housed(g, d, s, dirs[s]);
    ReplacedStays(s, x, u, name, at, tim);
    ObjectSaid(dirs, v, s, at);
    if ch != [] {
      FreedChain(g, d, e, ch);
      FileChain(g, d, dirs, chains, v, k, ch);
    }
    OpenIsOp(g, d, e, p, p, ch);
    w := Lost(Put(v, k, Object(false, 0, 0)), v.Start(k));
    ReflectsPut(dirs, v, s, f, at);
    ReflectsOnly(dirs[s := f], Put(v, k, Object(false, 0, 0)), w);
    StepKeepsTree(v, Clear(k), w);
    DotsKept(dirs, v, s, f, at, Clear(k), w);
    chains' := EntryOpSound(g, d, e, dirs, chains, v, s, f, ch, w);
  }

  lemma ObjectSaid(dirs: Folders, v: DirTree, s: nat, at: nat)
    requires Reflects(dirs, v) && s in dirs && Alive(dirs[s].x, at)
    ensures (s, at) in v.objs && v.objs[(s, at)] == Said(dirs[s].x.t[at]) && s in v.depth
  {
  }

  lemma FreedChain(g: Geometry, d: Disk, e: Disk, ch: seq<nat>)
    requires DiskOf(g, d) && DiskOf(g, e) && IsChain(Fat(g, d), ch) && ch != []
    requires Fat(g, e) == Cut(Fat(g, d), ch[0])
    ensures forall c :: c in ch ==> 2 <= c < g.maxClust && Fat(g, e)[c] == 0
    ensures 2 <= ch[0]
  {
    hide Fat, Cut, CutCount, CutMeetsOne, IsChain;
    ChainUses(Fat(g, d), ch);
    CutChain(Fat(g, d), ch);
    ChainHead(g, d, ch);
  }

  /** A directory whose table was stretched, though no object came of it. */
  lemma LongerSound(g: Geometry, d: Disk, e: Disk, dirs: Folders, chains: seq<seq<nat>>, v: DirTree, s: nat, q: Place)
    returns (chains': seq<seq<nat>>)
    requires Sound(g, d, dirs, chains, v) && s in dirs
    requires TableOp(g, dirs[s].p, q, [], d, e) && Located(g, Fat(g, e), s, q) && Longer(dirs[s].x.t, TableAt(g, q, e))
    ensures Sound(g, e, dirs[s := Folder(q, dirs[s].x.(t := TableAt(g, q, e)))], chains', v)
  {
    hide Fat, WellOwned, TableAt, Sectors, GoodSectors, DirRuns.Good, DotsIn, HeadsOf, Reflects, Geometry.Ok, Located,
         Linked, DotsNamed, ClusterIn;
    var x, u := dirs[s].x, TableAt(g, q, e);
    assert Housed(g, d, s, dirs[s]);
    LongerTable(s, x, |u| - |x.t|);
    LongerDots(dirs, v, s, Folder(q, x.(t := u)));
    ReflectsSame(dirs, v, s, Folder(q, x.(t := u)));
    ZeroIsNoHead(v);
    chains' := EntryOpSound(g, d, e, dirs, chains, v, s, Folder(q, x.(t := u)), [], v);
  }

  lemma LongerDots(dirs: Folders, v: DirTree, s: nat, f: Folder)
    requires DotsNamed(dirs, v) && s in dirs && Longer(dirs[s].x.t, f.x.t)
    ensures DotsNamed(dirs[s := f], v)
  {
    hide ClusterIn;
    if s != 0 {
      var t, u := dirs[s].x.t, f.x.t;
      assert u[0] == t[0] && u[1] == t[1];
      assert Dotted(s, v.owner[s].0, u);
    }
  }

  /** f_open that fails is such an operation. */
  lemma FailedOpenIsOp(g: Geometry, d: Disk, e: Disk, p: Place, q: Place)
    requires Lengthened(g, p, q, d, e)
    ensures TableOp(g, p, q, [], d, e) && Longer(TableAt(g, p, d), TableAt(g, q, e))
  {
    hide Fat, TableAt, TableOnly, Sectors, GoodSectors, Changed, OpenOnly, TableOp;
    LengthenedIs(g, p, q, d, e);
    OpenChanged(g, p, q, [], d, e);
    OpenIsOp(g, d, e, p, q, []);
  }

  /** And so is f_mkdir, once it has given its cluster back. */
  lemma FailedMkdirIsOp(g: Geometry, d: Disk, e: Disk, p: Place, q: Place, r: nat)
    requires MkdirOnly(g, p, q, r, d, e) && FatKept(g, q, d, e) && Fits(g, p, d) && Fits(g, q, e)
    ensures TableOp(g, p, q, [], d, e)
  {
    hide Fat, Sectors, GoodSectors, Geometry.Ok, SectorOf;
    FatAreaHolds(g);
    InfoInFront(g);
    forall s | g.FatEnd() <= s < |d| && s !in Sectors(g, q) && !Home(g, FreeOf(Fat(g, d)), s) ensures e[s] == d[s] {
      assert r in FreeOf(Fat(g, d));
      assert Untouched(g, q, r, s);
    }
  }

  lemma LongerTable(s: nat, x: DirRuns.State, n: nat)
    requires DirRuns.Good(x) && DotsIn(s, x)
    ensures var y := x.(t := Stretched(x.t, n));
      DirRuns.Good(y) && DotsIn(s, y) && (forall a: nat :: Alive(y, a) <==> Alive(x, a)) &&
      forall a: nat :: Alive(y, a) ==> y.t[a] == x.t[a]
  {
    hide WellFormed;
    InTable(x);
    DirTable.StretchKeeps(x.t, x.names, x.zero, n);
  }

  // ----- an open file -----

  /** What an operation on an open file changes: sectors and FAT entries of `dom`, and sectors in front of the FATs. */
  ghost predicate FileOp(g: Geometry, dom: set<nat>, d: Disk, e: Disk)
  {
    && DiskOf(g, d) && DiskOf(g, e)
    && (forall s :: g.FatEnd() <= s < |d| && !Home(g, dom, s) ==> e[s] == d[s])
    && (forall c :: 2 <= c < g.maxClust && c !in dom ==> Fat(g, e)[c] == Fat(g, d)[c])
  }

  /** The chain of a file apart from all others; all directories are among these. */
  lemma OpenApart(g: Geometry, d: Disk, dirs: Folders, chains: seq<seq<nat>>, v: DirTree, ch: seq<nat>)
    returns (others: seq<seq<nat>>)
    requires Sound(g, d, dirs, chains, v) && (ch == [] || NoTable(dirs, chains, ch))
    ensures WellOwned(Fat(g, d), others + FileChains(ch)) && (ch != [] ==> ch !in others)
    ensures forall x :: x in chains <==> x in others || x in FileChains(ch)
    ensures forall z :: z in dirs && dirs[z].p.Chain? ==> dirs[z].p.ch in others
  {
    hide Fat, WellOwned, Linked, Reflects, HeadsOf, Housed;
    if ch == [] {
      others := chains;
      assert others + [] == chains;
    } else {
      assert chains + [] == chains && [] + [ch] == [ch];
      others := SetApart(Fat(g, d), chains, [], ch);
    }
  }

  /** How the tree changes when the file at `k`, which is open, has the chain `ch'` instead of `ch`. */
  ghost predicate Rechained(v: DirTree, k: Spot, ch: seq<nat>, ch': seq<nat>, w: DirTree)
  {
    if ch == [] && ch' != [] then TreeStep(v, Begin(k, ch'[0]), w)
    else if ch != [] && ch' == [] then TreeStep(v, End(k), w)
    else w == v
  }

  /** The first clusters once the chain of a file is another. */
  lemma HeadsWith(f: seq<nat>, chains: seq<seq<nat>>, others: seq<seq<nat>>, ch: seq<nat>, ch': seq<nat>,
        heads: set<nat>)
    requires HeadsOf(chains, heads) && WellOwned(f, chains) && 0 !in heads && (ch != [] ==> ch !in others)
    requires forall x :: x in chains <==> x in others || x in FileChains(ch)
    ensures HeadsOf(others + FileChains(ch'), if ch' == [] then heads - {End0(ch)} else heads - {End0(ch)} + {ch'[0]})
  {
    hide WellOwned;
    HeadsWithout(f, chains, others, Static, Static, ch, heads);
    assert others + [] == others;
    if ch' != [] {
      var rest := heads - {End0(ch)};
      assert ch' in FileChains(ch');
      forall c | c in rest + {ch'[0]} ensures exists x :: x in others + FileChains(ch') && x != [] && x[0] == c {
        if c == ch'[0] {
          assert ch' in others + FileChains(ch');
        } else {
          var x :| x in others && x != [] && x[0] == c;
          assert x in others + FileChains(ch');
        }
      }
    }
  }

  /** An operation on an open file keeps the volume sound: only its first cluster may come or go. */
  lemma FileOpSound(g: Geometry, d: Disk, e: Disk, dirs: Folders, chains: seq<seq<nat>>, v: DirTree, k: Spot,
        ch: seq<nat>, ch': seq<nat>, dom: set<nat>)
    returns (chains': seq<seq<nat>>, w: DirTree)
    requires Sound(g, d, dirs, chains, v) && k in v.open && v.open[k] == End0(ch)
    requires Owns(Fat(g, d), ch, dom) && DiskOf(g, e) && Owns(Fat(g, e), ch', dom) && FileOp(g, dom, d, e)
    requires ch <= ch' || ch' <= ch
    ensures Sound(g, e, dirs, chains', w) && Rechained(v, k, ch, ch', w)
  {
    hide Fat, WellOwned, Reflects, Housed, HeadsOf, Linked, FileOp, Owns, TreeStep, Covers, Confined, NoOnes, IsChain,
         DotsNamed;
    OpenObject(v, k);
    OwnsMeans(g, d, ch, dom);
    OwnsMeans(g, e, ch', dom);
    if ch != [] { FileChain(g, d, dirs, chains, v, k, ch); }
    var others := OpenApart(g, d, dirs, chains, v, ch);
    FileOpConfined(g, d, e, dom);
    OwnsCovers(Fat(g, d), ch, dom);
    FileKeepsOwned(Fat(g, d), Fat(g, e), others, ch, ch', dom);
    OthersHoused(g, d, e, dirs, -1, others, FileChains(ch), dom, false);
    ZeroIsNoHead(v);
    HeadsWith(Fat(g, d), chains, others, ch, ch', v.heads);
    chains' := others + FileChains(ch');
    if ch == [] && ch' != [] { FreeIsFresh(g, d, dirs, chains, v, ch'[0]); }
    w := Rechain(dirs, v, k, ch, ch');
  }

  lemma OpenObject(v: DirTree, k: Spot)
    requires Linked(v) && k in v.open
    ensures k in v.objs && !v.objs[k].dir && v.Start(k) == v.open[k]
  {
  }

  lemma OwnsMeans(g: Geometry, d: Disk, ch: seq<nat>, dom: set<nat>)
    requires DiskOf(g, d) && Owns(Fat(g, d), ch, dom)
    ensures NoOnes(Fat(g, d))
    ensures ch != [] ==> IsChain(Fat(g, d), ch) && 2 <= ch[0] < g.maxClust && ch[0] in dom
    ensures forall c :: c in dom && 2 <= c < g.maxClust && c !in ch ==> Fat(g, d)[c] == 0
  {
    hide Fat, IsChain, NoOnes;
    if ch != [] { ChainHead(g, d, ch); }
  }

  lemma FileOpConfined(g: Geometry, d: Disk, e: Disk, dom: set<nat>)
    requires FileOp(g, dom, d, e)
    ensures Confined(g, d, e, dom, false)
    ensures forall c :: 2 <= c < g.maxClust && c !in dom ==> Fat(g, e)[c] == Fat(g, d)[c]
  {
    hide Fat, Home;
  }

  lemma Rechain(dirs: Folders, v: DirTree, k: Spot, ch: seq<nat>, ch': seq<nat>) returns (w: DirTree)
    requires TreeOf(dirs, v) && k in v.open && v.open[k] == End0(ch)
    requires if ch == [] then ch' != [] ==> Fresh(v, ch'[0]) else ch[0] in v.heads
    requires ch <= ch' || ch' <= ch
    ensures Rechained(v, k, ch, ch', w) && TreeOf(dirs, w) && w.root == v.root
    ensures w.heads == if ch' == [] then v.heads - {End0(ch)} else v.heads - {End0(ch)} + {ch'[0]}
  {
    hide Reflects, Linked, DotsNamed;
    ZeroIsNoHead(v);
    w := v;
    if ch == [] && ch' != [] {
      w := Gained(v, ch'[0], k).(open := v.open[k := ch'[0]]);
      StepKeepsTree(v, Begin(k, ch'[0]), w);
      ReflectsOnly(dirs, v, w);
      DotsSame(dirs, v, Begin(k, ch'[0]), w);
    } else if ch != [] && ch' == [] {
      w := Lost(v, v.open[k]).(open := v.open[k := 0]);
      StepKeepsTree(v, End(k), w);
      ReflectsOnly(dirs, v, w);
      DotsSame(dirs, v, End(k), w);
    }
  }

  /** No table changes. */
  lemma DotsSame(dirs: Folders, v: DirTree, op: TreeOp, w: DirTree)
    requires TreeOf(dirs, v) && TreeStep(v, op, w) && !op.MakeDir? && w.depth == v.depth
    ensures DotsNamed(dirs, w)
  {
    hide Linked, DotsNamed, DotsStill, TreeStep;
    DepthKeys(dirs, v);
    forall z | z in dirs && z != 0 ensures DotsStill(dirs[z].x.t, dirs[z].x.t) { DotsStillSelf(dirs[z].x.t); }
    DotsAfter(dirs, dirs, v, op, w);
  }

  // ----- f_sync -----

  /** The entry `n` takes the place of `e`: it has the same name, is of the same kind and was created at the same
      time, and names cluster `org` and the size. */
  ghost predicate Renewed(e: Entry, n: Entry, org: nat, size: nat)
  {
    && IsShort(n) && Short(n) == Short(e) && IsDirectory(n) == IsDirectory(e) && ReadOnly(n) == ReadOnly(e)
    && n[12..20] == e[12..20] && ClusterIn(n) == org && SizeIn(n) == size
  }

  /** What f_sync records in the sector of the directory entry makes a short entry with the same name, of the file's
      start cluster and size. */
  lemma RecordedEntry(o: nat, s: Sector, r: Sector, size: nat, org: nat, tim: dword)
    requires Recorded(o, s, r, size, org, tim) && IsShort(s[o..o + 32])
    ensures var e, n: Entry := s[o..o + 32], r[o..o + 32]; r == Splice(s, o, n) && Renewed(e, n, org, size)
  {
    var e, n: Entry := s[o..o + 32], r[o..o + 32];
    assert forall i :: 0 <= i < 32 ==> n[i] == r[o + i] && e[i] == s[o + i];
    assert r == Splice(s, o, n);
    EntryRenewed(e, n);
  }

  lemma EntryRenewed(e: Entry, n: Entry)
    requires IsShort(e) && forall i :: 0 <= i < 20 && i != 11 ==> n[i] == e[i]
    requires n[11] as int % 0x20 == e[11] as int % 0x20
    ensures IsShort(n) && Short(n) == Short(e) && IsDirectory(n) == IsDirectory(e) && ReadOnly(n) == ReadOnly(e)
    ensures n[12..20] == e[12..20]
  {
    assert Short(n) == Short(e);
    LowBits(n[11], e[11]);
  }

  lemma LowBits(a: byte, b: byte)
    requires a as int % 0x20 == b as int % 0x20
    ensures a as int / 0x10 % 2 == b as int / 0x10 % 2 && a as int / 0x08 % 2 == b as int / 0x08 % 2
    ensures a as int % 2 == b as int % 2
  {
    LowBitsOf(a);
    LowBitsOf(b);
  }

  lemma LowBitsOf(a: byte)
    ensures var r := a as int % 0x20;
      a as int / 0x10 % 2 == r / 0x10 && a as int / 0x08 % 2 == r / 0x08 % 2 && a as int % 2 == r % 2
  {
    var q, r := a as int / 0x20, a as int % 0x20;
    assert a as int == 0x20 * q + r;
    DivUnique(a as int, 0x10, 2 * q + r / 0x10, r % 0x10);
    DivUnique(a as int, 0x08, 4 * q + r / 0x08, r % 0x08);
  }

  /** What f_sync ensures where there was something to synchronise. */
  ghost predicate Synced(fil: Fil, ch: seq<nat>, size: dword, tim: dword, d: Disk, e: Disk)
  {
    && DiskOf(fil.fs.g, d) && DiskOf(fil.fs.g, e) && fil.dirSect < fil.fs.g.nSectors && fil.dirPtr + 32 <= 512
    && fil.fs.g.FatEnd() <= fil.dirSect
    && Owns(Fat(fil.fs.g, d), ch, fil.dom) && Fat(fil.fs.g, e) == Fat(fil.fs.g, d)
    && !Home(fil.fs.g, fil.dom, fil.dirSect)
    && Recorded(fil.dirPtr, d[fil.dirSect], e[fil.dirSect], size, End0(ch), tim)
    && forall z :: fil.fs.g.FatEnd() <= z < fil.fs.g.nSectors && z != fil.dirSect && !Home(fil.fs.g, fil.dom, z) ==>
         e[z] == d[z]
  }

  /** The directory entry of the file is that of index `at` in the table of directory `s`. */
  ghost predicate EntryOf(fil: Fil, dirs: Folders, s: nat, at: nat)
  {
    && s in dirs && fil.fs.g.Ok() && (dirs[s].p.Chain? ==> InRange(fil.fs.g, dirs[s].p.ch))
    && exists clust :: Points(fil.fs.g, dirs[s].p, at, clust, fil.dirSect, fil.dirPtr)
  }

  /** The disk with all that f_sync stores but the directory entry. */
  lemma Flushed(fil: Fil, d: Disk, e: Disk, ch: seq<nat>, size: dword, tim: dword) returns (m: Disk)
    requires Synced(fil, ch, size, tim, d, e)
    ensures m == e[fil.dirSect := d[fil.dirSect]] && DiskOf(fil.fs.g, m) && DiskOf(fil.fs.g, d)
    ensures Fat(fil.fs.g, m) == Fat(fil.fs.g, d) && Fat(fil.fs.g, e) == Fat(fil.fs.g, m)
    ensures Owns(Fat(fil.fs.g, d), ch, fil.dom) && FileOp(fil.fs.g, fil.dom, d, m)
  {
    hide Fat, Home, Owns, Recorded;
    m := e[fil.dirSect := d[fil.dirSect]];
    FatUntouched(fil.fs.g, e, m);
  }

  /** An open file has an entry in its directory. */
  lemma OpenInTable(dirs: Folders, v: DirTree, s: nat, at: nat)
    requires Reflects(dirs, v) && Linked(v) && (s, at) in v.open
    ensures s in dirs && Alive(dirs[s].x, at) && !IsDirectory(dirs[s].x.t[at])
  {
    hide IsDirectory, ClusterIn;
    OpenObject(v, (s, at));
  }

  lemma EntryStored(fil: Fil, m: Disk, e: Disk, p: Place, at: nat, clust: nat, r: Sector, size: dword, org: nat,
        tim: dword)
    returns (n: Entry)
    requires DiskOf(fil.fs.g, m) && Fits(fil.fs.g, p, m) && Points(fil.fs.g, p, at, clust, fil.dirSect, fil.dirPtr)
    requires at < |TableAt(fil.fs.g, p, m)| && IsShort(TableAt(fil.fs.g, p, m)[at])
    requires fil.dirSect < |m| && fil.dirPtr + 32 <= 512
    requires e == m[fil.dirSect := r] && Recorded(fil.dirPtr, m[fil.dirSect], r, size, org, tim)
    ensures Fits(fil.fs.g, p, e) && TableOp(fil.fs.g, p, p, [], m, e) && Fat(fil.fs.g, e) == Fat(fil.fs.g, m)
    ensures TableAt(fil.fs.g, p, e) == TableAt(fil.fs.g, p, m)[at := n]
    ensures Renewed(TableAt(fil.fs.g, p, m)[at], n, org, size)
  {
    hide Fat, TableAt, Sectors, GoodSectors, Geometry.Ok, Points, Splice, IsShort, Short, IsDirectory, ClusterIn,
         Recorded, OpenOnly, Changed, Rewritten, Renewed;
    var g, o := fil.fs.g, fil.dirPtr;
    EntryInSector(g, p, m, at, clust, fil.dirSect, o);
    RecordedEntry(o, m[fil.dirSect], r, size, org, tim);
    n := r[o..o + 32];
    StoreAtEntry(g, p, m, at, clust, fil.dirSect, o, 0, n);
    SpliceWhole(TableAt(g, p, m)[at], n);
    RewrittenIsChanged(g, p, m, e);
    RewrittenFits(g, p, m, e);
    OpenChanged(g, p, p, [], m, e);
    OpenIsOp(g, m, e, p, p, []);
  }

  lemma SpliceWhole(e: Entry, n: Entry)
    ensures Splice(e, 0, n) == n
  {
  }

  lemma EntrySynced(s: nat, x: DirRuns.State, at: nat, n: Entry, org: nat, size: nat)
    requires DirRuns.Good(x) && DotsIn(s, x) && Alive(x, at) && !IsDirectory(x.t[at]) && Renewed(x.t[at], n, org, size)
    ensures var y := x.(t := x.t[at := n]);
      DirRuns.Good(y) && DotsIn(s, y) && SameBut(x, y, at) && Alive(y, at) && Said(y.t[at]) == Object(false, org, size)
  {
    hide WellFormed, IsShort, IsDirectory, ClusterIn, SizeIn, ReadOnly;
    InTable(x);
    UpdateKeeps(x.t, x.names, x.zero, at, n);
    SameStart(x.t[at], n);
    DotsStay(s, x, x.(t := x.t[at := n]), at);
  }

  lemma SameStart(e: Entry, n: Entry)
    requires Short(n) == Short(e)
    ensures n[0] == e[0]
  {
    assert Short(n)[0] == n[0] && Short(e)[0] == e[0];
  }

  /** The table of a directory has another entry. */
  lemma HousedAgain(g: Geometry, m: Disk, e: Disk, s: nat, f: Folder, u: Table)
    requires Housed(g, m, s, f) && DiskOf(g, e) && Fits(g, f.p, e) && Fat(g, e) == Fat(g, m) && u == TableAt(g, f.p, e)
    requires DirRuns.Good(f.x.(t := u)) && DotsIn(s, f.x.(t := u))
    ensures Housed(g, e, s, f.(x := f.x.(t := u)))
  {
    hide Fat, TableAt, Sectors, GoodSectors, DirRuns.Good, DotsIn, Geometry.Ok, Located;
  }

  /** f_sync keeps the volume sound: the entry names the file's chain then. */
  lemma SyncSound(fil: Fil, d: Disk, e: Disk, dirs: Folders, chains: seq<seq<nat>>, v: DirTree, s: nat, at: nat,
        ch: seq<nat>, size: dword, tim: dword)
    returns (chains': seq<seq<nat>>, w: DirTree)
    requires Sound(fil.fs.g, d, dirs, chains, v) && (s, at) in v.open && v.open[(s, at)] == End0(ch)
    requires EntryOf(fil, dirs, s, at) && Synced(fil, ch, size, tim, d, e)
    ensures Fits(fil.fs.g, dirs[s].p, e)
    ensures Sound(fil.fs.g, e, dirs[s := dirs[s].(x := dirs[s].x.(t := TableAt(fil.fs.g, dirs[s].p, e)))], chains', w)
    ensures TreeStep(v, Sync((s, at), size), w)
  {
    hide Fat, WellOwned, TableAt, Sectors, GoodSectors, DirRuns.Good, DotsIn, HeadsOf, Reflects, Geometry.Ok, Located,
         Linked, Synced, Points, Alive, Said, SameBut, Owns, FileOp, TableOp, Recorded, IsShort, IsDirectory,
         IsChain, Renewed, DotsNamed;
    var g, p, x, k, org := fil.fs.g, dirs[s].p, dirs[s].x, (s, at), End0(ch);
    var m := Flushed(fil, d, e, ch, size, tim);
    var chains1, v1 := FileOpSound(g, d, m, dirs, chains, v, k, ch, ch, fil.dom);
    assert Housed(g, m, s, dirs[s]);
    OpenInTable(dirs, v, s, at);
    ShortThere(x, at);
    SyncedStore(fil, d, m, e, ch, size, tim);
    var clust :| Points(g, p, at, clust, fil.dirSect, fil.dirPtr);
    var n := EntryStored(fil, m, e, p, at, clust, e[fil.dirSect], size, org, tim);
    EntrySynced(s, x, at, n, org, size);
    w := Put(v, k, Object(false, org, size));
    StepKeepsTree(v, Sync(k, size), w);
    var f := dirs[s].(x := x.(t := TableAt(g, p, e)));
    ReflectsPut(dirs, v, s, f, at);
    DotsKept(dirs, v, s, f, at, Sync(k, size), w);
    HousedAgain(g, m, e, s, dirs[s], TableAt(g, p, e));
    ZeroIsNoHead(v);
    chains' := EntryOpSound(g, m, e, dirs, chains1, v, s, f, [], w);
  }

  lemma ShortThere(x: DirRuns.State, at: nat)
    requires DirRuns.Good(x) && Alive(x, at)
    ensures at < |x.t| && IsShort(x.t[at]) && x.t[at][0] != DOT
  {
    hide WellFormed;
    ObjectIsShort(x.t, x.names, x.zero, at);
  }

  lemma SyncedStore(fil: Fil, d: Disk, m: Disk, e: Disk, ch: seq<nat>, size: dword, tim: dword)
    requires Synced(fil, ch, size, tim, d, e) && m == e[fil.dirSect := d[fil.dirSect]]
    ensures fil.dirSect < |m| && fil.dirPtr + 32 <= 512 && e == m[fil.dirSect := e[fil.dirSect]]
    ensures Recorded(fil.dirPtr, m[fil.dirSect], e[fil.dirSect], size, End0(ch), tim)
  {
    hide Fat, Home, Recorded, Owns;
  }
}
