/** What f_unlink does to the tree of directories: a file goes with its clusters, and an empty directory with its
    table. */
module TreeUnlink {
  import opened Geometry
  import opened FatTable
  import opened ChainRuns
  import opened DirTable
  import opened DirDisk
  import opened DirFind
  import opened DirModel
  import opened DirMake
  import opened DirRead
  import DirRuns
  import opened FileOpen
  import opened FileUnlink
  import opened Tree
  import opened TreeDisk
  import opened TreeFiles

  lemma UnlinkIsOp(g: Geometry, d: Disk, e: Disk, p: Place, ch: seq<nat>)
    requires UnlinkOnly(g, p, ch, d, e)
    ensures TableOp(g, p, p, ch, d, e) && Fits(g, p, e) && DiskOf(g, e)
  {
    hide Fat, Sectors, GoodSectors, Geometry.Ok;
    FitsMeans(g, p, d);
    FatAreaHolds(g);
    InfoInFront(g);
  }

  /** The directory without the object at index `at`, its table being `u`. */
  function Less(x: DirRuns.State, u: Table, at: nat): DirRuns.State { DirRuns.State(u, x.names - {at}, x.zero) }

  /** The other objects stay where they are. */
  lemma RemovedStays(s: nat, x: DirRuns.State, u: Table, at: nat)
    requires DirRuns.Good(x) && DotsIn(s, x) && Alive(x, at) && RemovedAt(x.t, x.names, x.zero, u, at)
    ensures SameBut(x, Less(x, u, at), at) && !Alive(Less(x, u, at), at) && DirRuns.Good(Less(x, u, at))
    ensures DotsIn(s, Less(x, u, at))
  {
    hide WellFormed, NameGone, IsBlank, DotsIn, Erased;
    OthersStay(x, u, at);
    DotsStay(s, x, Less(x, u, at), at);
  }

  lemma OthersStay(x: DirRuns.State, u: Table, at: nat)
    requires DirRuns.Good(x) && at in x.names && 0 <= First(x.names, at) && Erased(x.t, u, First(x.names, at), at)
    ensures |u| == |x.t| && forall b :: b in x.names && b != at ==> b < |x.t| && u[b] == x.t[b]
  {
    hide WellFormed, IsBlank;
    InTable(x);
    WellFormedIsLaid(x.t, x.names, x.zero);
    forall b | b in x.names && b != at ensures b < |x.t| && u[b] == x.t[b] {
      NotErased(x.t, x.names, x.zero, at, b);
    }
  }

  lemma NotErased(t: Table, names: Names, zero: nat, a: nat, b: nat)
    requires Laid(t, names, zero) && a in names && b in names && a != b
    ensures !(First(names, a) <= b <= a)
  {
    hide Objects, Covered, ZeroTail;
    assert DirTable.OwnedBy(names, b, b);
    assert First(names, a) <= b <= a ==> DirTable.OwnedBy(names, a, b);
  }

  /** What f_unlink leaves of directory `s`. */
  ghost predicate Unlinks(g: Geometry, d: Disk, e: Disk, s: nat, f: Folder, at: nat, ch: seq<nat>)
  {
    && Alive(f.x, at) && UnlinkOnly(g, f.p, ch, d, e) && Located(g, Fat(g, e), s, f.p)
    && HasChain(Fat(g, d), f.x.t[at], ch) && RemovedAt(f.x.t, f.x.names, f.x.zero, TableAt(g, f.p, e), at)
  }

  /** The directory that it leaves is where it was. */
  lemma UnlinkedHoused(g: Geometry, d: Disk, e: Disk, s: nat, f: Folder, at: nat, ch: seq<nat>)
    requires Housed(g, d, s, f) && Unlinks(g, d, e, s, f, at, ch)
    ensures Fits(g, f.p, e)
    ensures var n := f.(x := Less(f.x, TableAt(g, f.p, e), at));
      Housed(g, e, s, n) && SameBut(f.x, n.x, at) && !Alive(n.x, at)
    ensures TableOp(g, f.p, f.p, ch, d, e)
  {
    hide Fat, TableAt, Sectors, GoodSectors, DirRuns.Good, DotsIn, Geometry.Ok, Located, TableOp, Alive, SameBut,
         RemovedAt, HasChain;
    UnlinkIsOp(g, d, e, f.p, ch);
    RemovedStays(s, f.x, TableAt(g, f.p, e), at);
  }

  /** Removing a file that is not open keeps the volume sound. */
  lemma DropSound(g: Geometry, d: Disk, e: Disk, dirs: Folders, chains: seq<seq<nat>>, v: DirTree, s: nat, at: nat,
        ch: seq<nat>)
    returns (chains': seq<seq<nat>>, w: DirTree)
    requires Sound(g, d, dirs, chains, v) && s in dirs && (s, at) !in v.open
    requires Unlinks(g, d, e, s, dirs[s], at, ch) && !IsDirectory(dirs[s].x.t[at])
    ensures Fits(g, dirs[s].p, e)
    ensures Sound(g, e, dirs[s := dirs[s].(x := Less(dirs[s].x, TableAt(g, dirs[s].p, e), at))], chains', w)
    ensures TreeStep(v, Drop((s, at)), w)
  {
    hide Fat, WellOwned, TableAt, Fits, DirRuns.Good, DotsIn, HeadsOf, Reflects, Geometry.Ok, TableOp, Located, Linked,
         SameBut, IsChain, ClusterIn, IsDirectory, UnlinkOnly, RemovedAt, Housed, DotsNamed;
    var k, f := (s, at), dirs[s];
    assert Housed(g, d, s, f);
    UnlinkedHoused(g, d, e, s, f, at, ch);
    ObjectSaid(dirs, v, s, at);
    if ch != [] {
      HousedDisk(g, d, s, f);
      ChainHead(g, d, ch);
      FileChain(g, d, dirs, chains, v, k, ch);
    }
    var n := f.(x := Less(f.x, TableAt(g, f.p, e), at));
    var m := v.(objs := v.objs - {k});
    w := Lost(m, v.Start(k));
    ReflectsGone(dirs, v, s, n, at);
    ReflectsOnly(dirs[s := n], m, w);
    StepKeepsTree(v, Drop(k), w);
    HousedDots(g, d, s, f);
    DotsKept(dirs, v, s, n, at, Drop(k), w);
    chains' := EntryOpSound(g, d, e, dirs, chains, v, s, n, ch, w);
  }

  lemma HousedDisk(g: Geometry, d: Disk, s: nat, f: Folder)
    requires Housed(g, d, s, f)
    ensures DiskOf(g, d)
  {
  }

  lemma HousedDots(g: Geometry, d: Disk, s: nat, f: Folder)
    requires Housed(g, d, s, f)
    ensures DotsIn(s, f.x)
  {
    hide Fat, Fits, TableAt, DirRuns.Good, DotsIn, Located;
  }

  /** A directory without objects but its dot entries. */
  lemma NothingIn(r: nat, x: DirRuns.State, a: nat)
    requires DotsIn(r, x) && r != 0 && NoneListed(x.t, x.names, 2)
    ensures !Alive(x, a)
  {
  }

  lemma ReflectsLess(dirs: Folders, v: DirTree, r: nat)
    requires Reflects(dirs, v) && forall k :: k in v.objs ==> k.0 != r
    ensures Reflects(dirs - {r}, v.(depth := v.depth - {r}))
  {
    hide Alive, Said;
  }

  /** The table of a directory that an entry names is at the chain that the entry names, and at no other's. */
  lemma SubFolder(g: Geometry, d: Disk, dirs: Folders, chains: seq<seq<nat>>, v: DirTree, k: Spot, ch: seq<nat>)
    requires Sound(g, d, dirs, chains, v) && k in v.objs && v.objs[k].dir && ch != [] && v.Start(k) == ch[0]
    requires IsChain(Fat(g, d), ch)
    ensures ch[0] in dirs && ch[0] != k.0 && ch[0] != 0 && dirs[ch[0]].p == Chain(ch) && k !in v.open
    ensures NoTable(dirs - {ch[0]}, chains, ch) && Housed(g, d, ch[0], dirs[ch[0]])
  {
    hide Fat, WellOwned, Reflects, HeadsOf, ChainsNamed, NamesOwn, IsChain, Fits, TableAt, DirRuns.Good, DotsIn, Housed;
    var r := ch[0];
    DirNamed(v, k);
    DepthKeys(dirs, v);
    FolderStart(g, d, dirs, chains, v, r);
    HousedChain(g, d, r, dirs[r]);
    SameHead(Fat(g, d), dirs[r].p.ch, ch);
    forall z | z in dirs - {r} && dirs[z].p.Chain? ensures dirs[z].p.ch != ch {
      PlacesDiffer(g, d, dirs, chains, v, r, z);
    }
  }

  lemma DirNamed(v: DirTree, k: Spot)
    requires Linked(v) && k in v.objs && v.objs[k].dir
    ensures v.Start(k) in v.depth && v.Start(k) != 0 && v.Start(k) != k.0 && k !in v.open
  {
    assert Named(v, v.Start(k));
  }

  lemma HousedChain(g: Geometry, d: Disk, s: nat, f: Folder)
    requires Housed(g, d, s, f)
    ensures f.p.Chain? ==> IsChain(Fat(g, d), f.p.ch)
  {
    hide Fat, IsChain, Fits, TableAt, DirRuns.Good, DotsIn;
  }

  /** Removing an empty directory keeps the volume sound. */
  lemma DropDirSound(g: Geometry, d: Disk, e: Disk, dirs: Folders, chains: seq<seq<nat>>, v: DirTree, s: nat, at: nat,
        ch: seq<nat>)
    returns (chains': seq<seq<nat>>, w: DirTree)
    requires Sound(g, d, dirs, chains, v) && s in dirs
    requires Unlinks(g, d, e, s, dirs[s], at, ch) && IsDirectory(dirs[s].x.t[at]) && ch != []
    requires ch[0] in dirs ==> NoneListed(dirs[ch[0]].x.t, dirs[ch[0]].x.names, 2)
    ensures Fits(g, dirs[s].p, e)
    ensures Sound(g, e, dirs[s := dirs[s].(x := Less(dirs[s].x, TableAt(g, dirs[s].p, e), at))] - {ch[0]}, chains', w)
    ensures TreeStep(v, DropDir((s, at)), w)
  {
    hide Fat, WellOwned, TableAt, Fits, DirRuns.Good, DotsIn, HeadsOf, Reflects, Geometry.Ok, TableOp, Located, Linked,
         SameBut, IsChain, ClusterIn, IsDirectory, UnlinkOnly, RemovedAt, Housed, NoneListed, NoTable, DotsNamed;
    var k, f, r := (s, at), dirs[s], ch[0];
    assert Housed(g, d, s, f);
    UnlinkedHoused(g, d, e, s, f, at, ch);
    ObjectSaid(dirs, v, s, at);
    DirNamed(v, k);
    SubFolder(g, d, dirs, chains, v, k, ch);
    NobodyIn(g, d, dirs, v, r);
    var n := f.(x := Less(f.x, TableAt(g, f.p, e), at));
    var m := v.(objs := v.objs - {k});
    w := Lost(m.(depth := m.depth - {r}), r);
    ReflectsGone(dirs, v, s, n, at);
    ReflectsLess(dirs[s := n], m, r);
    ReflectsOnly(dirs[s := n] - {r}, m.(depth := m.depth - {r}), w);
    StepKeepsTree(v, DropDir(k), w);
    HousedDots(g, d, s, f);
    DotsLess(dirs, v, s, n, at, r, w);
    chains' := TableOpSound(g, d, e, dirs, chains, v, s, n, ch, {r}, w);
  }

  /** The dot entries of the directories that are left. */
  lemma DotsLess(dirs: Folders, v: DirTree, s: nat, f: Folder, at: nat, r: nat, w: DirTree)
    requires TreeOf(dirs, v) && TreeStep(v, DropDir((s, at)), w) && s in dirs && v.Start((s, at)) == r
    requires DotsIn(s, dirs[s].x) && SameBut(dirs[s].x, f.x, at) && Alive(dirs[s].x, at)
    ensures DotsNamed(dirs[s := f] - {r}, w)
  {
    hide Linked, DotsIn, SameBut, DotsStill, DotsNamed;
    DotsUnder(s, dirs[s].x, f.x, at);
    forall z | z in dirs && z != s && z != 0 ensures DotsStill(dirs[z].x.t, dirs[z].x.t) { DotsStillSelf(dirs[z].x.t); }
    assert (dirs[s := f] - {r}).Keys == w.depth.Keys by { assert dirs[s := f].Keys == dirs.Keys; }
    DotsAfter(dirs, dirs[s := f] - {r}, v, DropDir((s, at)), w);
  }

  lemma NobodyIn(g: Geometry, d: Disk, dirs: Folders, v: DirTree, r: nat)
    requires Reflects(dirs, v) && r in dirs && r != 0 && Housed(g, d, r, dirs[r])
    requires NoneListed(dirs[r].x.t, dirs[r].x.names, 2)
    ensures forall k :: k in v.objs ==> k.0 != r
  {
    hide Fat, Fits, TableAt, DirRuns.Good, Located, DotsIn, NoneListed;
    forall k | k in v.objs ensures k.0 != r {
      NothingIn(r, dirs[r].x, k.1);
    }
  }
}
