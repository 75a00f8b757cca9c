/** The tree of directories on a disk: the tables, the allocation table and the tree agree, and every operation on the
    volume keeps it so. */
module TreeDisk {
  import opened Bytes
  import opened Geometry
  import opened FatTable
  import opened Chains
  import opened ChainRuns
  import opened FileBytes
  import opened FileModel
  import opened Lfn
  import opened ShortName
  import opened DirTable
  import opened DirDisk
  import opened DirFind
  import opened DirModel
  import opened DirMake
  import DirRuns
  import FileOpen
  import opened Tree

  /** A directory: where its table is, and its objects. */
  datatype Folder = Folder(p: Place, x: DirRuns.State)

  type Folders = map<nat, Folder>

  // ----- the tree and the tables -----

  ghost predicate Alive(x: DirRuns.State, a: nat) { Listed(x.t, x.names, a) }

  function Said(e: Entry): Object { Object(IsDirectory(e), ClusterIn(e), FileOpen.SizeIn(e)) }

  /** A subdirectory begins with its dot entries, and nowhere else are any. */
  ghost predicate DotsIn(s: nat, x: DirRuns.State)
  {
    && (s != 0 ==> 2 <= |x.t| && 0 in x.names && 1 in x.names && x.t[0][0] == DOT && x.t[1][0] == DOT)
    && (forall a :: a in x.names && a < |x.t| && x.t[a][0] == DOT ==>
          s != 0 && a < 2 && x.names[a] == [] && IsDirectory(x.t[a]))
  }

  /** The first two entries of the table of directory `s` name `s` itself and `up`. */
  ghost predicate Dotted(s: nat, up: nat, t: Table) { 2 <= |t| && ClusterIn(t[0]) == s && ClusterIn(t[1]) == up }

  /** The dot entries of every subdirectory name it and the directory that holds its entry, 0 if that is the root. */
  ghost predicate DotsNamed(dirs: Folders, v: DirTree)
  {
    forall s :: s in dirs && s != 0 ==> s in v.owner && Dotted(s, v.owner[s].0, dirs[s].x.t)
  }

  /** The first two entries stay. */
  ghost predicate DotsStill(t: Table, u: Table) { 2 <= |t| ==> 2 <= |u| && u[0] == t[0] && u[1] == t[1] }

  /** Operations that leave the dot entries alone keep them right, as no directory gets another parent. */
  lemma DotsAfter(dirs: Folders, dirs': Folders, v: DirTree, op: TreeOp, w: DirTree)
    requires DotsNamed(dirs, v) && Linked(v) && TreeStep(v, op, w)
    requires dirs.Keys == v.depth.Keys && dirs'.Keys == w.depth.Keys
    requires forall s :: s in dirs && s in dirs' && s != 0 ==> DotsStill(dirs[s].x.t, dirs'[s].x.t)
    requires op.MakeDir? && op.r in dirs' ==> Dotted(op.r, op.k.0, dirs'[op.r].x.t)
    ensures DotsNamed(dirs', w)
  {
    hide Linked, TreeStep, ClusterIn;
    StepOwners(v, op, w);
    forall s | s in dirs' && s != 0 ensures s in w.owner && Dotted(s, w.owner[s].0, dirs'[s].x.t) {
      assert s in w.depth;
      if s in v.depth {
        assert s in dirs && Dotted(s, v.owner[s].0, dirs[s].x.t);
      }
    }
  }

  /** The dot entries stay where another object of the directory changes. */
  lemma DotsUnder(s: nat, x: DirRuns.State, y: DirRuns.State, at: nat)
    requires DotsIn(s, x) && SameBut(x, y, at) && (at in x.names ==> at < |x.t| && x.t[at][0] != DOT)
    ensures s != 0 ==> DotsStill(x.t, y.t)
  {
  }

  /** Where the dot entries of a subdirectory lead. */
  lemma DotsLead(g: Geometry, d: Disk, dirs: Folders, chains: seq<seq<nat>>, v: DirTree, s: nat) returns (k: Spot)
    requires Sound(g, d, dirs, chains, v) && s in dirs && s != 0
    ensures 2 <= |dirs[s].x.t| && ClusterIn(dirs[s].x.t[0]) == s
    ensures k.0 in dirs && Alive(dirs[k.0].x, k.1)
    ensures IsDirectory(dirs[k.0].x.t[k.1]) && ClusterIn(dirs[k.0].x.t[k.1]) == s
    ensures ClusterIn(dirs[s].x.t[1]) == k.0 && (k.0 != 0 ==> k.0 != RootHead(g))
  {
    hide Fat, ChainsNamed, NamesOwn, HeadsOf, WellOwned, Housed, IsDirectory, ClusterIn;
    assert Named(v, s);
    k := v.owner[s];
    assert k !in v.open;
    FolderStart(g, d, dirs, chains, v, k.0);
    NotRoot(v, k.0);
    assert v.Start(k) == s by { OwnerStarts(v, s); }
  }

  lemma OwnerStarts(v: DirTree, s: nat)
    requires ChainsNamed(v) && s in v.owner
    ensures v.owner[s] in v.objs && v.Start(v.owner[s]) == s
  {
  }

  /** The objects of the tree are those of the tables. */
  ghost predicate Reflects(dirs: Folders, v: DirTree)
  {
    && dirs.Keys == v.depth.Keys
    && (forall k: Spot :: k in v.objs <==> k.0 in dirs && Alive(dirs[k.0].x, k.1))
    && (forall k: Spot :: k in v.objs && k.0 in dirs && Alive(dirs[k.0].x, k.1) ==>
          v.objs[k] == Said(dirs[k.0].x.t[k.1]))
  }

  /** From table `x` to `y` no object changed but at index `at`. */
  ghost predicate SameBut(x: DirRuns.State, y: DirRuns.State, at: nat)
  {
    && |x.t| <= |y.t|
    && forall a: nat :: a != at ==>
         (a in y.names <==> a in x.names) &&
         (a in x.names && a in y.names ==> a < |x.t| && y.t[a] == x.t[a] && y.names[a] == x.names[a])
  }

  lemma AliveElsewhere(x: DirRuns.State, y: DirRuns.State, at: nat)
    requires SameBut(x, y, at)
    ensures forall a: nat :: a != at ==>
      (Alive(y, a) <==> Alive(x, a)) && (Alive(x, a) ==> Alive(y, a) && y.t[a] == x.t[a])
  {
  }

  /** The object at index `at` of directory `s` is another or is new. */
  lemma ReflectsPut(dirs: Folders, v: DirTree, s: nat, f: Folder, at: nat)
    requires Reflects(dirs, v) && s in dirs && SameBut(dirs[s].x, f.x, at) && Alive(f.x, at)
    ensures Reflects(dirs[s := f], Put(v, (s, at), Said(f.x.t[at])))
  {
    AliveElsewhere(dirs[s].x, f.x, at);
    hide Alive, SameBut, Said;
  }

  /** The object at index `at` of directory `s` is gone. */
  lemma ReflectsGone(dirs: Folders, v: DirTree, s: nat, f: Folder, at: nat)
    requires Reflects(dirs, v) && s in dirs && SameBut(dirs[s].x, f.x, at) && !Alive(f.x, at)
    ensures Reflects(dirs[s := f], v.(objs := v.objs - {(s, at)}))
  {
    AliveElsewhere(dirs[s].x, f.x, at);
    hide Alive, SameBut, Said;
  }

  /** An object comes or goes, or its entry changes; the dot entries stay. */
  lemma DotsStay(s: nat, x: DirRuns.State, y: DirRuns.State, at: nat)
    requires DotsIn(s, x) && SameBut(x, y, at)
    requires (at in x.names ==> at < |x.t| && x.t[at][0] != DOT) && (at in y.names ==> at < |y.t| && y.t[at][0] != DOT)
    ensures DotsIn(s, y)
  {
  }

  /** The directory `s` has the objects it had. */
  lemma ReflectsSame(dirs: Folders, v: DirTree, s: nat, f: Folder)
    requires Reflects(dirs, v) && s in dirs
    requires forall a: nat :: Alive(f.x, a) <==> Alive(dirs[s].x, a)
    requires forall a: nat :: Alive(f.x, a) && Alive(dirs[s].x, a) ==> f.x.t[a] == dirs[s].x.t[a]
    ensures Reflects(dirs[s := f], v)
  {
    hide Alive, Said;
  }

  /** A directory without objects is there. */
  lemma ReflectsNew(dirs: Folders, v: DirTree, r: nat, f: Folder, depth: nat)
    requires Reflects(dirs, v) && r !in dirs && forall a: nat :: !Alive(f.x, a)
    ensures Reflects(dirs[r := f], v.(depth := v.depth[r := depth]))
  {
    hide Alive, Said;
  }

  // ----- the invariant of a volume -----

  /** The table of directory `s` is where it belongs, and what is said of it. */
  ghost predicate Housed(g: Geometry, d: Disk, s: nat, f: Folder)
  {
    && DiskOf(g, d) && Located(g, Fat(g, d), s, f.p) && Fits(g, f.p, d) && f.x.t == TableAt(g, f.p, d)
    && DirRuns.Good(f.x) && DotsIn(s, f.x)
  }

  /** The first clusters of the chains. */
  ghost predicate HeadsOf(chains: seq<seq<nat>>, heads: set<nat>)
  {
    && (forall ch :: ch in chains ==> ch != [] && ch[0] in heads)
    && (forall c :: c in heads ==> exists ch :: ch in chains && ch != [] && ch[0] == c)
  }

  function RootHead(g: Geometry): nat { if g.fatType == Fat32 then g.dirbase else 0 }

  /** The volume is sound: its used clusters are exactly its live chains, and these are exactly the tables of its
      directories and the files, each named by one entry; and every directory names itself and its parent. */
  ghost predicate Sound(g: Geometry, d: Disk, dirs: Folders, chains: seq<seq<nat>>, v: DirTree)
  {
    && DiskOf(g, d) && Linked(v) && v.root == RootHead(g) && Reflects(dirs, v) && DotsNamed(dirs, v)
    && (forall s :: s in dirs ==> Housed(g, d, s, dirs[s]))
    && WellOwned(Fat(g, d), chains) && HeadsOf(chains, v.heads)
    && (forall s :: s in dirs && dirs[s].p.Chain? ==> dirs[s].p.ch in chains)
  }

  // ----- what an operation does not touch -----

  /** From disk `d` to `e` nothing changed behind the FATs but in clusters of `dom` and, if `root` is set, in the
      static root directory; and no FAT entry of other clusters. */
  ghost predicate Confined(g: Geometry, d: Disk, e: Disk, dom: set<nat>, root: bool)
  {
    && DiskOf(g, d) && DiskOf(g, e)
    && (forall s :: g.FatEnd() <= s < |d| && !Home(g, dom, s) && (root ==> g.database <= s) ==> e[s] == d[s])
    && (forall c: nat :: 2 <= c < g.maxClust && c !in dom ==> Fat(g, e)[c] == Fat(g, d)[c])
  }

  /** The sectors of a chained table are in its clusters. */
  lemma TableSectorHome(g: Geometry, ch: seq<nat>, s: nat) returns (c: nat)
    requires g.Ok() && InRange(g, ch) && s in Sectors(g, Chain(ch))
    ensures c in ch && 2 <= c < g.maxClust && SectorOf(g, c, s)
  {
    hide ChainSectors;
    var k :| 0 <= k < |Sectors(g, Chain(ch))| && Sectors(g, Chain(ch))[k] == s;
    SplitSector(g, ch, k);
    SectorOfIntro(g, ch[k / g.csize], k % g.csize);
    c := ch[k / g.csize];
  }

  /** A directory none of whose clusters was touched is what it was. */
  lemma HousedStays(g: Geometry, d: Disk, e: Disk, dom: set<nat>, root: bool, s: nat, f: Folder)
    requires Confined(g, d, e, dom, root) && Housed(g, d, s, f) && NoOnes(Fat(g, e))
    requires if f.p.Chain? then forall c :: c in f.p.ch ==> c !in dom else !root
    ensures Housed(g, e, s, f)
  {
    hide Fat, ChainSectors, DirRuns.Good, DotsIn, TableAt, Geometry.Ok, NoOnes, SectorOf;
    LocatedIsGood(g, Fat(g, d), s, f.p);
    forall z | z in Sectors(g, f.p) ensures z < |d| && e[z] == d[z] {
      UntouchedSector(g, d, e, dom, root, s, f.p, z);
    }
    TableUnder(g, f.p, d, e);
    if f.p.Chain? {
      assert forall k :: 0 <= k < |f.p.ch| ==> f.p.ch[k] in f.p.ch;
      ChainFrame(Fat(g, d), Fat(g, e), f.p.ch);
    }
  }

  lemma UntouchedSector(g: Geometry, d: Disk, e: Disk, dom: set<nat>, root: bool, s: nat, p: Place, z: nat)
    requires Confined(g, d, e, dom, root) && Located(g, Fat(g, d), s, p) && (p.Chain? ==> InRange(g, p.ch))
    requires GoodSectors(g, Sectors(g, p)) && z in Sectors(g, p)
    requires if p.Chain? then forall c :: c in p.ch ==> c !in dom else !root
    ensures z < |d| && e[z] == d[z]
  {
    hide Fat, ChainSectors, Located, SectorOf;
    FatAreaHolds(g);
    if p.Chain? {
      var c := TableSectorHome(g, p.ch, z);
      ClusterHolds(g, c, z);
      if Home(g, dom, z) {
        var c' :| c' in dom && 2 <= c' < g.maxClust && SectorOf(g, c', z);
        SectorOfOne(g, c, c', z);
      }
    } else {
      LocatedStatic(g, Fat(g, d), s, p);
      StaticSectors(g, z);
      if Home(g, dom, z) { HomeInRange(g, dom, z); }
    }
  }

  lemma ClusterHolds(g: Geometry, c: nat, z: nat)
    requires g.Ok() && 2 <= c < g.maxClust && SectorOf(g, c, z)
    ensures g.database <= z < g.nSectors
  {
    ClusterInRange(g, c);
  }

  lemma StaticSectors(g: Geometry, z: nat)
    requires g.Ok() && g.fatType != Fat32 && z in Sectors(g, Static)
    ensures g.FatEnd() <= z < g.database
  {
  }

  // ----- what the directory operations do to a table -----

  lemma InTable(x: DirRuns.State)
    requires DirRuns.Good(x)
    ensures forall a :: a in x.names ==> a < |x.t| && !IsBlank(x.t[a])
  {
    hide WellFormed;
    forall a | a in x.names ensures a < |x.t| && !IsBlank(x.t[a]) { FileOpen.ObjectIsShort(x.t, x.names, x.zero, a); }
  }

  /** An object that was added changes no other. */
  lemma AddedStays(x: DirRuns.State, u: Table, long: seq<word>, e: Entry, at: nat)
    requires DirRuns.Good(x) && AddedTo(x.t, u, long, e, at)
    ensures |x.t| <= |u| && at < |u| && u[at] == e && forall a :: a in x.names ==> a < |x.t| && u[a] == x.t[a]
  {
    hide Laid, Registered, FirstFit, WellFormed, IsBlank;
    InTable(x);
    WellFormedIsLaid(x.t, x.names, x.zero);
    var n := |u| - |x.t|;
    LaidStretched(x.t, x.names, x.zero, n);
    AddedEntry(x.t, u, long, e, at);
    forall a | a in x.names ensures u[a] == x.t[a] {
      ShortStays(Stretched(x.t, n), x.names, x.zero, u, long, e, at, a);
    }
  }

  /** What f_mkdir does to the parent's table. */
  lemma MadeDirJoins(s: nat, x: DirRuns.State, u: Table, name: seq<word>, f: Form, at: nat, tim: dword, r: nat)
    requires DirRuns.Good(x) && DotsIn(s, x) && Ascii(name)
    requires MadeDirectory(x.t, x.names, x.zero, u, name, f, at, tim, r)
    ensures var y := DirRuns.State(u, x.names[at := if FormOf(name).lfn then name else []], ZeroAfter(x.zero, at));
      && SameBut(x, y, at) && Alive(y, at) && at !in x.names && Said(u[at]) == Object(true, r, 0)
      && DirRuns.Good(y) && DotsIn(s, y)
  {
    hide WellFormed, Matches, FormOf, AddedTo, ShortEntry, DirectoryEntry, ClusterIn, LeastNumber, ShortUsed,
         FileOpen.SizeIn;
    var v :| AddedTo(x.t, v, if FormOf(name).lfn then name else [], ShortEntry(f), at) &&
      at < |v| && u == v[at := DirectoryEntry(v[at], tim, r)];
    AddedStays(x, v, if FormOf(name).lfn then name else [], ShortEntry(f), at);
    EntryStart(v[at], tim, r);
    ShortStart(f);
    FileOpen.NoCluster(f);
    var y := DirRuns.State(u, x.names[at := if FormOf(name).lfn then name else []], ZeroAfter(x.zero, at));
    DotsStay(s, x, y, at);
  }

  lemma EntryStart(e: Entry, tim: dword, r: nat)
    ensures DirectoryEntry(e, tim, r)[0] == e[0] && FileOpen.SizeIn(DirectoryEntry(e, tim, r)) == FileOpen.SizeIn(e)
  {
    hide Byte0, Byte1, Byte2, Byte3;
    var n := DirectoryEntry(e, tim, r);
    assert n[28] == e[28] && n[29] == e[29] && n[30] == e[30] && n[31] == e[31];
  }

  lemma ShortStart(f: Form)
    requires |f.fn| == 11
    ensures ShortEntry(f)[0] == f.fn[0]
  {
  }

  // ----- chains -----

  /** `b` is `a` in another order: its `j`-th chain is number `to[j]` of `a`, and that of `a` is number `fro[j]` of
      `b`. */
  ghost predicate Reordered(a: seq<seq<nat>>, b: seq<seq<nat>>, to: seq<nat>, fro: seq<nat>)
  {
    && |a| == |b| == |to| == |fro|
    && (forall j :: 0 <= j < |a| ==> to[j] < |a| && b[j] == a[to[j]] && fro[to[j]] == j)
    && (forall j :: 0 <= j < |a| ==> fro[j] < |a| && a[j] == b[fro[j]])
  }

  lemma ReorderedOwns(a: seq<seq<nat>>, b: seq<seq<nat>>, to: seq<nat>, fro: seq<nat>, c: nat)
    requires Reordered(a, b, to, fro)
    ensures ChainRuns.OwnedBy(b, c) <==> ChainRuns.OwnedBy(a, c)
  {
    if ChainRuns.OwnedBy(b, c) {
      var j :| 0 <= j < |b| && c in b[j];
      assert c in a[to[j]];
    }
    if ChainRuns.OwnedBy(a, c) {
      var j :| 0 <= j < |a| && c in a[j];
      assert c in b[fro[j]];
    }
  }

  lemma ReorderedKeeps(f: seq<nat>, a: seq<seq<nat>>, b: seq<seq<nat>>, to: seq<nat>, fro: seq<nat>)
    requires WellOwned(f, a) && Reordered(a, b, to, fro)
    ensures WellOwned(f, b)
  {
    hide IsChain;
    forall j, k, c | 0 <= j < |b| && 0 <= k < |b| && c in b[j] && c in b[k] ensures j == k {
      assert c in a[to[j]] && c in a[to[k]];
    }
    hide Reordered, ChainRuns.OwnedBy;
    forall c: nat | 2 <= c < |f| ensures f[c] != 0 <==> ChainRuns.OwnedBy(b, c) { ReorderedOwns(a, b, to, fro, c); }
  }

  /** The chain `ch` brought to the end of the list, which ends with `tail`. */
  lemma SetApart(f: seq<nat>, chains: seq<seq<nat>>, tail: seq<seq<nat>>, ch: seq<nat>) returns (others: seq<seq<nat>>)
    requires WellOwned(f, chains + tail) && ch in chains
    ensures WellOwned(f, others + (tail + [ch])) && ch !in others && forall x :: x in chains <==> x in others || x == ch
  {
    hide WellOwned, IsChain;
    var i :| 0 <= i < |chains| && chains[i] == ch;
    var m, n := |chains|, |chains + tail|;
    others := Without(chains, i);
    var all := others + (tail + [ch]);
    var to := seq(n, j requires 0 <= j < n => if j + 1 == n then i else if j < i then j else j + 1);
    var fro := seq(n, j requires 0 <= j < n => if j == i then n - 1 else if j < i then j else j - 1);
    assert Reordered(chains + tail, all, to, fro);
    ReorderedKeeps(f, chains + tail, all, to, fro);
    OnlyOnce(f, others + tail, ch) by { assert all == (others + tail) + [ch]; }
    forall x ensures x in chains <==> x in others || x == ch {
      if x in chains {
        var j :| 0 <= j < m && chains[j] == x;
        assert j != i ==> others[if j < i then j else j - 1] == x;
      }
    }
  }

  lemma OnlyOnce(f: seq<nat>, others: seq<seq<nat>>, ch: seq<nat>)
    requires WellOwned(f, others + [ch])
    ensures ch !in others
  {
    hide IsChain;
    var chains := others + [ch];
    assert chains[|others|] == ch && IsChain(f, ch);
    ChainNotEmpty(f, ch);
    forall j | 0 <= j < |others| ensures others[j] != ch {
      assert chains[j] == others[j];
      assert ch[0] in chains[|others|];
    }
  }

  lemma ChainNotEmpty(f: seq<nat>, ch: seq<nat>)
    requires IsChain(f, ch)
    ensures ch != []
  {
  }

  /** The clusters of other chains are in use, and not among those of an operation. */
  lemma NotTouched(f: seq<nat>, others: seq<seq<nat>>, mine: seq<seq<nat>>, dom: set<nat>, ch: seq<nat>)
    requires WellOwned(f, others + mine) && Covers(f, mine, dom) && ch in others
    ensures forall c :: c in ch ==> c !in dom
  {
    hide WellOwned, Covers;
    var j :| 0 <= j < |others| && others[j] == ch;
    forall c | c in ch ensures c !in dom { OthersOutside(f, others, mine, dom, j, c); }
  }

  /** Directories lie in different chains. */
  lemma PlacesDiffer(g: Geometry, d: Disk, dirs: Folders, chains: seq<seq<nat>>, v: DirTree, s: nat, z: nat)
    requires Sound(g, d, dirs, chains, v) && s in dirs && z in dirs && s != z
    ensures dirs[s].p.Chain? && dirs[z].p.Chain? ==> dirs[s].p.ch != dirs[z].p.ch
    ensures !(dirs[s].p.Static? && dirs[z].p.Static?)
  {
    hide Fat, Linked, Reflects, Housed, WellOwned, HeadsOf;
    FolderStart(g, d, dirs, chains, v, s);
    FolderStart(g, d, dirs, chains, v, z);
  }

  /** Where a directory's chain begins. */
  lemma FolderStart(g: Geometry, d: Disk, dirs: Folders, chains: seq<seq<nat>>, v: DirTree, s: nat)
    requires Sound(g, d, dirs, chains, v) && s in dirs
    ensures dirs[s].p.Static? ==> s == 0
    ensures dirs[s].p.Chain? ==>
      dirs[s].p.ch != [] && dirs[s].p.ch[0] == (if s == 0 then RootHead(g) else s) && (s != 0 ==> s != RootHead(g))
  {
    hide Fat, Linked, WellOwned, HeadsOf, Fits, TableAt, DirRuns.Good, DotsIn, NoOnes;
    assert Housed(g, d, s, dirs[s]);
    assert s in v.depth;
    NotRoot(v, s);
    ChainedStart(g, Fat(g, d), s, dirs[s].p);
  }

  lemma ChainedStart(g: Geometry, f: seq<nat>, s: nat, p: Place)
    requires Located(g, f, s, p)
    ensures p.Static? ==> s == 0
    ensures p.Chain? ==> p.ch != [] && p.ch[0] == if s == 0 then RootHead(g) else s
  {
  }

  lemma NotRoot(v: DirTree, s: nat)
    requires Linked(v) && s in v.depth
    ensures s != 0 ==> s != v.root && s in v.heads
  {
    if s != 0 { assert Named(v, s); }
  }

  /** Directories whose chains an operation does not touch stay what they are; `skip` is the one it works on, if any. */
  lemma OthersHoused(g: Geometry, d: Disk, e: Disk, dirs: Folders, skip: int, others: seq<seq<nat>>,
        mine: seq<seq<nat>>, dom: set<nat>, root: bool)
    requires forall z :: z in dirs ==> Housed(g, d, z, dirs[z])
    requires Confined(g, d, e, dom, root) && NoOnes(Fat(g, e))
    requires WellOwned(Fat(g, d), others + mine) && Covers(Fat(g, d), mine, dom)
    requires forall z :: z in dirs && z != skip ==> if dirs[z].p.Chain? then dirs[z].p.ch in others else !root
    ensures forall z :: z in dirs && z != skip ==> Housed(g, e, z, dirs[z])
  {
    hide Fat, Housed, WellOwned, Covers, Confined, NoOnes;
    forall z | z in dirs && z != skip ensures Housed(g, e, z, dirs[z]) {
      ConfinedDisks(g, d, e, dom, root);
      if dirs[z].p.Chain? { NotTouched(Fat(g, d), others, mine, dom, dirs[z].p.ch); }
      HousedStays(g, d, e, dom, root, z, dirs[z]);
    }
  }

  lemma ConfinedDisks(g: Geometry, d: Disk, e: Disk, dom: set<nat>, root: bool)
    requires Confined(g, d, e, dom, root)
    ensures DiskOf(g, d) && DiskOf(g, e)
  {
  }

  /** The chain of a directory apart from all others, and the other directories among these. */
  lemma FolderApart(g: Geometry, d: Disk, dirs: Folders, chains: seq<seq<nat>>, v: DirTree, s: nat)
    returns (others: seq<seq<nat>>)
    requires Sound(g, d, dirs, chains, v) && s in dirs
    ensures WellOwned(Fat(g, d), others + TableChains(dirs[s].p))
    ensures forall x :: x in chains <==> x in others || x in TableChains(dirs[s].p)
    ensures dirs[s].p.Chain? ==> dirs[s].p.ch !in others
    ensures forall z :: z in dirs && z != s ==> if dirs[z].p.Chain? then dirs[z].p.ch in others else !dirs[s].p.Static?
  {
    hide Fat, WellOwned, Linked, Reflects, HeadsOf, Housed;
    FolderStart(g, d, dirs, chains, v, s);
    if dirs[s].p.Chain? {
      assert chains + [] == chains;
      others := SetApart(Fat(g, d), chains, [], dirs[s].p.ch);
      assert [] + [dirs[s].p.ch] == [dirs[s].p.ch];
      assert TableChains(dirs[s].p) == [dirs[s].p.ch];
    } else {
      others := chains;
      assert others + [] == chains;
    }
    forall z | z in dirs && z != s ensures if dirs[z].p.Chain? then dirs[z].p.ch in others else !dirs[s].p.Static? {
      PlacesDiffer(g, d, dirs, chains, v, s, z);
    }
  }

  // ----- f_mkdir -----

  /** A sector of a table that was at `p` and grew to `q` is in a cluster it had or took. */
  lemma GrownSectorHome(g: Geometry, f: seq<nat>, p: Place, q: Place, dom: set<nat>, z: nat)
    requires g.Ok() && |f| == g.maxClust && (q.Chain? ==> InRange(g, q.ch))
    requires forall c: nat :: 2 <= c < g.maxClust && (f[c] == 0 || InPlace(p, c)) ==> c in dom
    requires forall c: nat :: InPlace(q, c) && !InPlace(p, c) ==> 2 <= c < g.maxClust && f[c] == 0
    requires z in Sectors(g, q)
    ensures q.Chain? ==> Home(g, dom, z)
  {
    hide ChainSectors, Geometry.Ok, SectorOf;
    if q.Chain? {
      var c := TableSectorHome(g, q.ch, z);
      assert c in dom;
    }
  }

  lemma MkdirWithin(g: Geometry, d: Disk, e: Disk, p: Place, q: Place, r: nat, dom: set<nat>)
    requires MkdirOnly(g, p, q, r, d, e) && Covers(Fat(g, d), TableChains(p), dom)
    requires q.Static? ==> g.fatType != Fat32
    ensures Confined(g, d, e, dom, p.Static?)
  {
    hide Fat, ChainSectors, Geometry.Ok, SectorOf, Sectors;
    FatAreaHolds(g);
    assert r in dom;
    forall c: nat ensures ChainRuns.OwnedBy(TableChains(p), c) <==> InPlace(p, c) { InTableChains(p, c); }
    forall z | g.FatEnd() <= z < |d| && !Home(g, dom, z) && (p.Static? ==> g.database <= z) ensures e[z] == d[z] {
      if z in Sectors(g, q) {
        GrownSectorHome(g, Fat(g, d), p, q, dom, z);
        StaticSectors(g, z);
      }
      InfoInFront(g);
      assert Untouched(g, q, r, z);
    }
  }

  lemma InfoInFront(g: Geometry)
    requires g.Ok()
    ensures g.fatType == Fat32 ==> g.fsiSector < g.FatEnd()
  {
    FatAreaHolds(g);
  }

  /** The first clusters once the chains `mine` took the place of the chain at `p`, which may have grown to `q`. */
  lemma HeadsAfter(chains: seq<seq<nat>>, others: seq<seq<nat>>, p: Place, q: Place, heads: set<nat>)
    requires HeadsOf(chains, heads) && Grew(p, q) && (p.Chain? ==> p.ch != [])
    requires forall x :: x in chains <==> x in others || x in TableChains(p)
    ensures HeadsOf(others + TableChains(q), heads)
  {
    forall c | c in heads ensures exists ch :: ch in others + TableChains(q) && ch != [] && ch[0] == c {
      var ch :| ch in chains && ch != [] && ch[0] == c;
      if ch in others {
        assert ch in others + TableChains(q);
      } else {
        assert ch == p.ch && q.ch in TableChains(q) && q.ch[0] == c;
      }
    }
    if p.Chain? { assert p.ch in TableChains(p); }
  }

  lemma HeadsMore(chains: seq<seq<nat>>, r: nat, heads: set<nat>)
    requires HeadsOf(chains, heads)
    ensures HeadsOf(chains + [[r]], heads + {r})
  {
    assert [r] in chains + [[r]];
    forall c | c in heads ensures exists ch :: ch in chains + [[r]] && ch != [] && ch[0] == c {
      var ch :| ch in chains && ch != [] && ch[0] == c;
      assert ch in chains + [[r]];
    }
  }

  /** A free cluster begins no chain, and no directory. */
  lemma FreeIsFresh(g: Geometry, d: Disk, dirs: Folders, chains: seq<seq<nat>>, v: DirTree, r: nat)
    requires Sound(g, d, dirs, chains, v) && 2 <= r < g.maxClust && Fat(g, d)[r] == 0
    ensures Fresh(v, r) && r !in dirs
  {
    hide Fat, Linked, Housed, WellOwned, HeadsOf;
    if r in v.heads { HeadIsUsed(Fat(g, d), chains, v.heads, r); }
    if r in dirs { NotRoot(v, r); }
  }

  lemma HeadIsUsed(f: seq<nat>, chains: seq<seq<nat>>, heads: set<nat>, c: nat)
    requires WellOwned(f, chains) && HeadsOf(chains, heads) && c in heads && 2 <= c < |f|
    ensures f[c] != 0
  {
    hide IsChain, Disjoint;
    var ch :| ch in chains && ch != [] && ch[0] == c;
    var i :| 0 <= i < |chains| && chains[i] == ch;
    assert c in chains[i];
  }

  /** The new directory. */
  function NewFolder(t: Table, r: nat): Folder
  {
    Folder(Chain([r]), DirRuns.State(t, map[0 := [], 1 := []], 2))
  }

  lemma NewFolderHoused(g: Geometry, e: Disk, r: nat, tim: dword, parent: nat, s: nat, q: Place)
    requires NewTable(g, e, r, tim, parent) && Located(g, Fat(g, e), s, q) && parent < 0x1_0000_0000
    ensures Fits(g, Chain([r]), e) && Dotted(r, parent, TableAt(g, Chain([r]), e))
    ensures var n := NewFolder(TableAt(g, Chain([r]), e), r); Housed(g, e, r, n) && forall a: nat :: !Alive(n.x, a)
  {
    hide Fat, DirRuns.Good, DotEntry, ChainSectors, NoOnes, IsChain;
    NewTableIsGood(g, e, r, tim, parent);
    DotEntryIs(1, tim, r);
    DotEntryIs(2, tim, parent);
    var t := TableAt(g, Chain([r]), e);
    assert t[0] == DotEntry(1, tim, r) && t[1] == DotEntry(2, tim, parent);
  }

  /** Start clusters fit their fields. */
  lemma FolderBound(g: Geometry, d: Disk, s: nat, f: Folder)
    requires Housed(g, d, s, f)
    ensures s < 0x1_0000_0000
  {
    hide Fat, Fits, TableAt, DirRuns.Good, DotsIn, NoOnes;
    if f.p.Chain? { assert Links(Fat(g, d), f.p.ch, 0); }
  }

  /** What `Dir.Mkdir` ensures where it succeeds in directory `s`. */
  ghost predicate Mkdired(g: Geometry, d: Disk, e: Disk, a: Folder, s: nat, q: Place, name: seq<word>, f: Form, at: nat,
        tim: dword, r: nat, parent: nat)
  {
    && MkdirOnly(g, a.p, q, r, d, e) && Fits(g, q, e) && Located(g, Fat(g, e), s, q)
    && NewTable(g, e, r, tim, parent) && !InPlace(q, r) && Ascii(name)
    && MadeDirectory(a.x.t, a.x.names, a.x.zero, TableAt(g, q, e), name, f, at, tim, r)
  }

  /** The directories after f_mkdir. */
  ghost function WithDir(g: Geometry, e: Disk, dirs: Folders, s: nat, q: Place, name: seq<word>, at: nat, r:
        nat): Folders
    requires s in dirs && Fits(g, q, e) && Ascii(name) && Fits(g, Chain([r]), e)
  {
    dirs[s := Folder(q, Joined(dirs[s].x, TableAt(g, q, e), name, at))][r := NewFolder(TableAt(g, Chain([r]), e), r)]
  }

  /** f_mkdir keeps the volume sound. */
  lemma MkdirSound(g: Geometry, d: Disk, e: Disk, dirs: Folders, chains: seq<seq<nat>>, v: DirTree, s: nat, q: Place,
        name: seq<word>, f: Form, at: nat, tim: dword, r: nat, parent: nat)
    returns (chains': seq<seq<nat>>, w: DirTree)
    requires Sound(g, d, dirs, chains, v) && s in dirs
    requires Mkdired(g, d, e, dirs[s], s, q, name, f, at, tim, r, parent) && parent == s
    ensures Fits(g, Chain([r]), e)
    ensures Sound(g, e, WithDir(g, e, dirs, s, q, name, at, r), chains', w)
    ensures TreeStep(v, MakeDir((s, at), r), w)
  {
    hide Fat, Linked, WellOwned, MkdirOnly, NewTable, MadeDirectory, TableAt, Fits, ChainSectors, DirRuns.Good,
         DotsIn, Located, HeadsOf, Reflects, FormOf, Said, Alive, SameBut, NoOnes, Covers, Confined, Geometry.Ok,
         Joined, TreeStep, DotsNamed, Dotted, DotsStill;
    var p, x, y := dirs[s].p, dirs[s].x, Joined(dirs[s].x, TableAt(g, q, e), name, at);
    var others := FolderApart(g, d, dirs, chains, v, s);
    var dom := Part(Fat(g, d), TableChains(p));
    assert Housed(g, d, s, dirs[s]);
    MkdirParts(g, d, e, p, q, r, tim, parent, s, dom, others);
    FreeIsFresh(g, d, dirs, chains, v, r);
    OthersHoused(g, d, e, dirs, s, others, TableChains(p), dom, p.Static?);
    assert dirs[s] == Folder(p, x);
    MadeDirJoins(s, x, TableAt(g, q, e), name, f, at, tim, r);
    JoinedIs(x, TableAt(g, q, e), name, at);
    assert Housed(g, e, s, Folder(q, y));
    FolderBound(g, d, s, dirs[s]);
    NewFolderHoused(g, e, r, tim, parent, s, q);
    chains' := others + (TableChains(q) + [[r]]);
    assert chains' == (others + TableChains(q)) + [[r]];
    HeadsAfter(chains, others, p, q, v.heads);
    HeadsMore(others + TableChains(q), r, v.heads);
    var n := NewFolder(TableAt(g, Chain([r]), e), r);
    w := MkdirTree(dirs, v, s, at, r, Folder(q, y), n);
    var dirs' := dirs[s := Folder(q, y)][r := n];
    forall z | z in dirs' ensures Housed(g, e, z, dirs'[z]) {}
    forall z | z in dirs' && dirs'[z].p.Chain? ensures dirs'[z].p.ch in chains' {}
  }

  /** The parent's table with one object more. */
  function Joined(x: DirRuns.State, u: Table, name: seq<word>, at: nat): DirRuns.State
    requires Ascii(name)
  {
    DirRuns.State(u, x.names[at := if FormOf(name).lfn then name else []], ZeroAfter(x.zero, at))
  }

  lemma JoinedIs(x: DirRuns.State, u: Table, name: seq<word>, at: nat)
    requires Ascii(name)
    ensures Joined(x, u, name, at) ==
      DirRuns.State(u, x.names[at := if FormOf(name).lfn then name else []], ZeroAfter(x.zero, at))
    ensures Joined(x, u, name, at).t == u
  {
  }

  lemma MkdirParts(g: Geometry, d: Disk, e: Disk, p: Place, q: Place, r: nat, tim: dword, parent: nat, s: nat,
        dom: set<nat>, others: seq<seq<nat>>)
    requires MkdirOnly(g, p, q, r, d, e) && Located(g, Fat(g, e), s, q) && Located(g, Fat(g, d), s, p) && !InPlace(q, r)
    requires NewTable(g, e, r, tim, parent) && dom == Part(Fat(g, d), TableChains(p))
    requires WellOwned(Fat(g, d), others + TableChains(p))
    ensures Covers(Fat(g, d), TableChains(p), dom) && Confined(g, d, e, dom, p.Static?) && NoOnes(Fat(g, e))
    ensures WellOwned(Fat(g, e), others + (TableChains(q) + [[r]])) && Grew(p, q) && (p.Chain? ==> p.ch != [])
    ensures 2 <= r < g.maxClust && Fat(g, d)[r] == 0 && DiskOf(g, e)
  {
    hide Fat, WellOwned, IsChain, NoOnes, ChainSectors, Part;
    PartIs(Fat(g, d), TableChains(p));
    MkdirWithin(g, d, e, p, q, r, dom);
    MkdirKeepsOwned(g, p, q, r, d, e, s, others);
    ChainedStart(g, Fat(g, d), s, p);
  }

  ghost predicate DotsGiven(dirs: Folders, v: DirTree, s: nat, r: nat, t: Table)
  {
    DotsNamed(dirs, v) && s in dirs && DotsIn(s, dirs[s].x) && Dotted(r, s, t)
  }

  ghost predicate TreeOf(dirs: Folders, v: DirTree) { Linked(v) && Reflects(dirs, v) && DotsNamed(dirs, v) }

  /** Directory `s` has one more entry, that of the new directory with first cluster `r`. */
  ghost predicate NewDirJoins(dirs: Folders, v: DirTree, s: nat, at: nat, r: nat, f: Folder, n: Folder)
  {
    && s in dirs && SameBut(dirs[s].x, f.x, at) && Alive(f.x, at)
    && at !in dirs[s].x.names && Said(f.x.t[at]) == Object(true, r, 0) && Fresh(v, r) && r !in dirs
    && (forall a: nat :: !Alive(n.x, a)) && DotsGiven(dirs, v, s, r, n.x.t)
  }

  lemma MkdirTree(dirs: Folders, v: DirTree, s: nat, at: nat, r: nat, f: Folder, n: Folder) returns (w: DirTree)
    requires TreeOf(dirs, v) && NewDirJoins(dirs, v, s, at, r, f, n)
    ensures TreeOf(dirs[s := f][r := n], w) && TreeStep(v, MakeDir((s, at), r), w)
    ensures w.root == v.root && w.heads == v.heads + {r}
  {
    hide Linked, SameBut, Said, DotsNamed, Dotted, DotsIn, DotsGiven;
    ReflectsPut(dirs, v, s, f, at);
    var m := Put(v, (s, at), Object(true, r, 0));
    ReflectsNew(dirs[s := f], m, r, n, v.depth[s] + 1);
    w := Gained(m, r, (s, at)).(depth := v.depth[r := v.depth[s] + 1]);
    ReflectsOnly(dirs[s := f][r := n], m.(depth := m.depth[r := v.depth[s] + 1]), w);
    StepKeepsTree(v, MakeDir((s, at), r), w);
    FolderKeys(dirs, v, dirs[s := f][r := n], w, s, r);
    MkdirDots(dirs, v, s, at, r, f, n, w);
  }

  /** The new directory names itself and its parent. */
  lemma MkdirDots(dirs: Folders, v: DirTree, s: nat, at: nat, r: nat, f: Folder, n: Folder, w: DirTree)
    requires DotsGiven(dirs, v, s, r, n.x.t) && Linked(v) && dirs.Keys == v.depth.Keys && r !in dirs
    requires TreeStep(v, MakeDir((s, at), r), w) && dirs.Keys + {r} == w.depth.Keys
    requires SameBut(dirs[s].x, f.x, at) && at !in dirs[s].x.names
    ensures DotsNamed(dirs[s := f][r := n], w)
  {
    hide Linked, TreeStep, DotsIn, SameBut, Dotted, DotsStill, DotsNamed;
    assert dirs[s := f][r := n].Keys == dirs.Keys + {r};
    DotsUnder(s, dirs[s].x, f.x, at);
    forall z | z in dirs && z != s && z != 0 ensures DotsStill(dirs[z].x.t, dirs[z].x.t) { DotsStillSelf(dirs[z].x.t); }
    DotsAfter(dirs, dirs[s := f][r := n], v, MakeDir((s, at), r), w);
  }

  lemma FolderKeys(dirs: Folders, v: DirTree, dirs': Folders, w: DirTree, s: nat, r: nat)
    requires Reflects(dirs, v) && Reflects(dirs', w) && dirs'.Keys == dirs.Keys + {s, r} && s in dirs
    ensures dirs.Keys == v.depth.Keys && dirs.Keys + {r} == w.depth.Keys
  {
  }

  lemma DotsStillSelf(t: Table)
    ensures DotsStill(t, t)
  {
  }

  lemma ReflectsOnly(dirs: Folders, v: DirTree, w: DirTree)
    requires Reflects(dirs, v) && w.objs == v.objs && w.depth == v.depth
    ensures Reflects(dirs, w)
  {
  }
}
