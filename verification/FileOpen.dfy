/** f_open with FA_CREATE_ALWAYS, from the point where the path is followed: the name is searched for in its
    directory, a file of that name is overwritten, and otherwise an object is registered. */
module FileOpen {
  import opened Bytes
  import opened Geometry
  import opened FatTable
  import opened Chains
  import opened ChainRuns
  import opened FileBytes
  import opened FileModel
  import opened FileObject
  import opened Volume
  import opened Results
  import opened Lfn
  import opened ShortName
  import opened DirTable
  import opened DirDisk
  import opened DirFind
  import opened DirModel
  import opened DirObject
  import opened DirMake

  function Bytes4(v: dword): (s: seq<byte>)
    ensures |s| == 4
  {
    [Byte0(v), Byte1(v), Byte2(v), Byte3(v)]
  }

  /** An entry without clusters: f_open sets the start cluster and the size to 0. */
  function Emptied(e: Entry): (r: Entry)
  {
    Splice(Splice(Splice(e, 20, [0, 0]), 26, [0, 0]), 28, [0, 0, 0, 0])
  }

  /** The entry of a file that was created: attribute and creation time. */
  function Created0(e: Entry, tim: dword): (r: Entry) { Splice(Splice(e, 11, [0]), 14, Bytes4(tim)) }

  /** The file size that the entry names. */
  function SizeIn(e: Entry): nat { LdDword(e, 28) }

  /** The object may not be overwritten: it is read-only or a directory. */
  predicate Guarded(e: Entry) { ReadOnly(e) || IsDirectory(e) }

  /** The clusters that the entry names are those of `ch`. */
  ghost predicate HasChain(f: seq<nat>, e: Entry, ch: seq<nat>)
  {
    ClusterIn(e) == End0(ch) && (ch != [] ==> IsChain(f, ch))
  }

  /** The first cluster of a chain, 0 if it has none. */
  function End0(ch: seq<nat>): nat { if ch == [] then 0 else ch[0] }

  // ----- removing the chain of a file that is overwritten -----

  /** The table once f_open has removed the chain: the next search starts in front of it. */
  function Unlinked(a: Alloc, ch: seq<nat>): Alloc
    requires ch != [] ==> 0 < ch[0]
  {
    if ch == [] then a
    else Alloc(Cut(a.fat, ch[0]), ch[0] - 1, Raised(a.free, CutCount(a.fat, ch[0])))
  }

  /** Removing a chain that has no cluster of a table leaves the table as it is. */
  lemma CutKeepsTable(g: Geometry, d: Disk, e: Disk, sclust: nat, p: Place, ch: seq<nat>)
    requires Fits(g, p, d) && DiskOf(g, e) && SameData(g, d, e) && Located(g, Fat(g, d), sclust, p)
    requires IsChain(Fat(g, d), ch) && Fat(g, e) == Cut(Fat(g, d), ch[0]) && forall c :: c in ch ==> !InPlace(p, c)
    ensures Fits(g, p, e) && TableAt(g, p, e) == TableAt(g, p, d) && Located(g, Fat(g, e), sclust, p)
    ensures forall c: nat :: 2 <= c < g.maxClust && c !in ch ==> Fat(g, e)[c] == Fat(g, d)[c]
    ensures forall c: nat :: c in ch ==> 2 <= c < g.maxClust && Fat(g, e)[c] == 0
    ensures !CutMeetsOne(Fat(g, d), ch[0]) && 2 <= ch[0] < g.maxClust
  {
    hide Fat, ChainSectors, TableAt, Cut, CutMeetsOne, CutCount;
    TableUnder(g, p, d, e);
    var f := Fat(g, d);
    ChainHead(g, d, ch);
    ChainUses(f, ch);
    CutChain(f, ch);
    if p.Chain? { ChainFrame(f, Fat(g, e), p.ch); }
  }

  /** What f_open changes from disk `d` to `e`: sectors of the directory's table, which was at `p` and is at `q`, and
      FAT entries of its clusters and of the file's chain `ch`. Clusters that the table gained were free. */
  ghost predicate OpenOnly(g: Geometry, p: Place, q: Place, ch: seq<nat>, d: Disk, e: Disk)
  {
    && Fits(g, p, d) && Fits(g, q, e) && Grew(p, q)
    && (forall s :: 0 <= s < |d| && (s < g.fatbase || g.FatEnd() <= s) && s !in Sectors(g, q) ==> e[s] == d[s])
    && (forall c: nat :: 2 <= c < g.maxClust && !InPlace(q, c) && c !in ch ==> Fat(g, e)[c] == Fat(g, d)[c])
    && (forall c: nat :: InPlace(q, c) && !InPlace(p, c) ==> 2 <= c < g.maxClust && Fat(g, d)[c] == 0)
  }

  lemma OpenSelf(g: Geometry, p: Place, ch: seq<nat>, d: Disk)
    requires Fits(g, p, d)
    ensures OpenOnly(g, p, p, ch, d, d)
  {
  }

  lemma OpenChanged(g: Geometry, p: Place, q: Place, ch: seq<nat>, d: Disk, e: Disk)
    requires Changed(g, p, q, d, e)
    ensures OpenOnly(g, p, q, ch, d, e)
  {
    hide Fat, Sectors, GoodSectors;
  }

  lemma OpenThen(g: Geometry, p: Place, q: Place, ch: seq<nat>, d: Disk, e: Disk, h: Disk)
    requires OpenOnly(g, p, q, ch, d, e) && Rewritten(g, q, e, h)
    ensures OpenOnly(g, p, q, ch, d, h)
  {
    hide Fat, Sectors, GoodSectors;
  }

  lemma OpenCut(g: Geometry, p: Place, ch: seq<nat>, d: Disk, e: Disk, h: Disk)
    requires OpenOnly(g, p, p, ch, d, e) && DiskOf(g, h) && SameData(g, e, h) && Fits(g, p, h)
    requires forall c: nat :: 2 <= c < g.maxClust && c !in ch ==> Fat(g, h)[c] == Fat(g, e)[c]
    ensures OpenOnly(g, p, p, ch, d, h)
  {
    hide Fat, Sectors, GoodSectors, Geometry.Ok;
    forall s | 0 <= s < |d| && (s < g.fatbase || g.FatEnd() <= s) && s !in Sectors(g, p) ensures h[s] == d[s] {
      assert h[s] == e[s];
    }
  }

  /** The entry cleared of its clusters, in the window. */
  method ClearEntry(dj: Dir)
    requires dj.Valid() && dj.At(dj.index) && dj.fs.winsect == dj.sect
    modifies dj.fs`wflag, dj.fs`image, dj.fs.win
    ensures dj.Valid() && dj.At(dj.index) && dj.fs.winsect == dj.sect
    ensures Rewritten(dj.fs.g, dj.place, old(dj.fs.image), dj.fs.image)
    ensures dj.index < |old(dj.Entries())|
    ensures dj.Entries() == old(dj.Entries())[dj.index := Emptied(old(dj.Entries())[dj.index])]
    ensures old(dj.fs.Exact()) ==> dj.fs.Exact()
  {
    hide FatFs.Exact, FatFs.Valid, Located, Points, Fits, TableAt, Rewritten, Splice, Fat;
    ghost var g, p, d := dj.fs.g, dj.place, dj.fs.image;
    dj.Put(20, [0, 0]);
    ghost var d1 := dj.fs.image;
    dj.Put(26, [0, 0]);
    RewrittenTwice(g, p, d, d1, dj.fs.image);
    ghost var d2 := dj.fs.image;
    dj.Put(28, [0, 0, 0, 0]);
    RewrittenTwice(g, p, d, d2, dj.fs.image);
  }

  /** The overwriting of f_open: the entry loses its clusters, its chain is removed, and the next search for a free
      cluster starts in front of that. */
  method Overwrite(dj: Dir, ghost ch: seq<nat>)
    requires dj.Valid() && dj.At(dj.index) && dj.fs.winsect == dj.sect && dj.index < |dj.Entries()|
    requires HasChain(Fat(dj.fs.g, dj.fs.image), dj.Entries()[dj.index], ch)
    requires forall c :: c in ch ==> !InPlace(dj.place, c)
    modifies dj.fs`disk, dj.fs`wflag, dj.fs`winsect, dj.fs`image, dj.fs`lastClust, dj.fs`freeClust, dj.fs`fsiFlag
    modifies dj.fs.win
    ensures dj.Valid() && dj.At(dj.index) && dj.fs.winsect == dj.sect
    ensures dj.Entries() == old(dj.Entries())[dj.index := Emptied(old(dj.Entries())[dj.index])]
    ensures ch != [] ==> 0 < ch[0]
    ensures dj.fs.Table() == Unlinked(old(dj.fs.Table()), ch)
    ensures OpenOnly(dj.fs.g, dj.place, dj.place, ch, old(dj.fs.image), dj.fs.image)
    ensures old(dj.fs.Exact()) ==> dj.fs.Exact()
  {
    hide FatFs.Exact, FatFs.Valid, Located, Points, Fits, TableAt, Rewritten, OpenOnly, Fat, Emptied, Cut, CutCount,
         CutMeetsOne, SameData, ClusterIn, IsChain, Geometry.Ok;
    ghost var g, p, d := dj.fs.g, dj.place, dj.fs.image;
    FitsMeans(g, p, d);
    OpenSelf(g, p, ch, d);
    if ch != [] { ChainHead(g, d, ch); }
    var e := dj.Load();
    var cl := ClusterIn(e);
    ClearEntry(dj);
    FitsMeans(g, p, dj.fs.image);
    RewrittenFits(g, p, d, dj.fs.image);
    OpenThen(g, p, p, ch, d, d, dj.fs.image);
    if cl != 0 {
      ghost var m := dj.fs.image;
      var res := dj.fs.RemoveChain(cl);
      dj.fs.ValidDisk();
      assert Fat(g, m) == Fat(g, d);
      ChainHead(g, m, ch);
      CutKeepsTable(g, m, dj.fs.image, dj.sclust, p, ch);
      OpenCut(g, p, ch, d, m, dj.fs.image);
      ClusterSize(e);
      dj.fs.lastClust := cl - 1;
    }
    var _ := dj.Load();
  }

  lemma ChainHead(g: Geometry, d: Disk, ch: seq<nat>)
    requires DiskOf(g, d) && IsChain(Fat(g, d), ch)
    ensures 2 <= ch[0] < g.maxClust
  {
    hide Fat;
    assert Links(Fat(g, d), ch, 0);
  }

  lemma ClusterSize(e: Entry)
    ensures ClusterIn(e) < 0x1_0000_0000
  {
    hide Byte0, Byte1;
  }

  // ----- f_open -----

  lemma Created0Is(e: Entry, tim: dword)
    requires !IsBlank(e)
    ensures var r := Created0(e, tim); IsShort(r) && Short(r) == Short(e) && r[11] == 0
    ensures ClusterIn(Created0(e, tim)) == ClusterIn(e) && SizeIn(Created0(e, tim)) == SizeIn(e)
  {
    var r := Created0(e, tim);
    assert Short(r) == Short(e) && r[0] == e[0];
    assert r[20] == e[20] && r[21] == e[21] && r[26] == e[26] && r[27] == e[27];
    assert r[28] == e[28] && r[29] == e[29] && r[30] == e[30] && r[31] == e[31];
  }

  lemma EmptiedIs(e: Entry)
    ensures ClusterIn(Emptied(e)) == 0 && SizeIn(Emptied(e)) == 0 && Short(Emptied(e)) == Short(e)
  {
    var r := Emptied(e);
    assert r[20] == 0 && r[21] == 0 && r[26] == 0 && r[27] == 0;
    assert r[28] == 0 && r[29] == 0 && r[30] == 0 && r[31] == 0;
    assert Short(r) == Short(e);
  }

  /** The last stores of f_open into the entry: attribute and creation time. */
  method ResetEntry(dj: Dir, tim: dword)
    requires dj.Valid() && dj.At(dj.index) && dj.fs.winsect == dj.sect
    modifies dj.fs`wflag, dj.fs`image, dj.fs.win
    ensures dj.Valid() && dj.At(dj.index) && dj.fs.winsect == dj.sect
    ensures Rewritten(dj.fs.g, dj.place, old(dj.fs.image), dj.fs.image)
    ensures dj.index < |old(dj.Entries())|
    ensures dj.Entries() == old(dj.Entries())[dj.index := Created0(old(dj.Entries())[dj.index], tim)]
    ensures old(dj.fs.Exact()) ==> dj.fs.Exact()
  {
    hide FatFs.Exact, FatFs.Valid, Located, Points, Fits, TableAt, Rewritten, Splice, Fat, Bytes4;
    ghost var g, p, d := dj.fs.g, dj.place, dj.fs.image;
    dj.Put(11, [0]);
    ghost var d1 := dj.fs.image;
    dj.Put(14, Bytes4(tim));
    RewrittenTwice(g, p, d, d1, dj.fs.image);
  }

  /** A new file was registered: its object was added to the table, and its entry reset. */
  ghost predicate MadeFile(t: Table, u: Table, name: seq<word>, f: Form, at: nat, tim: dword)
    requires Ascii(name) && |f.fn| == 11
  {
    exists v ::
      && AddedTo(t, v, if FormOf(name).lfn then name else [], ShortEntry(f), at)
      && at < |v| && u == v[at := Created0(v[at], tim)]
  }

  lemma MadeFileIs(t: Table, names: Names, zero: nat, v: Table, names': Names, zero': nat, name: seq<word>, f: Form,
        at: nat, tim: dword)
    requires Ascii(name) && |f.fn| == 11 && at < |v| && v[at] == ShortEntry(f) && Chosen(t, names, name, f)
    requires AddedTo(t, v, if FormOf(name).lfn then name else [], ShortEntry(f), at)
    requires WellFormed(v, names', zero') && NewName(t, names, v, names', name, at)
    ensures var u := v[at := Created0(v[at], tim)];
      && MadeFile(t, u, name, f, at, tim) && WellFormed(u, names', zero') && NewName(t, names, u, names', name, at)
      && ClusterIn(u[at]) == 0 && SizeIn(u[at]) == 0
  {
    ChosenShort(t, names, name, f);
    NoCluster(f);
    hide WellFormed, NewName, Chosen, FormOf, Created0, ClusterIn, SizeIn, Short, ShortEntry, AddedTo;
    Created0Is(v[at], tim);
    NewNameSet(t, names, v, names', zero', name, at, Created0(v[at], tim));
  }

  /** A registered entry names no cluster yet. */
  lemma NoCluster(f: Form)
    requires |f.fn| == 11
    ensures ClusterIn(ShortEntry(f)) == 0 && SizeIn(ShortEntry(f)) == 0
  {
    var e := ShortEntry(f);
    assert e[20] == 0 && e[21] == 0 && e[26] == 0 && e[27] == 0;
    assert e[28] == 0 && e[29] == 0 && e[30] == 0 && e[31] == 0;
  }

  lemma OverwrittenIs(t: Table, names: Names, zero: nat, a: nat, tim: dword)
    requires WellFormed(t, names, zero) && a in names && a < |t|
    ensures WellFormed(t[a := Created0(Emptied(t[a]), tim)], names, zero)
    ensures ClusterIn(Created0(Emptied(t[a]), tim)) == 0 && SizeIn(Created0(Emptied(t[a]), tim)) == 0
  {
    hide WellFormed, Created0, ClusterIn, SizeIn, Emptied, IsShort, Short;
    ObjectIsShort(t, names, zero, a);
    EmptiedIs(t[a]);
    EmptiedShort(t[a]);
    Created0Is(Emptied(t[a]), tim);
    UpdateKeeps(t, names, zero, a, Created0(Emptied(t[a]), tim));
  }

  lemma ObjectIsShort(t: Table, names: Names, zero: nat, a: nat)
    requires WellFormed(t, names, zero) && a in names
    ensures a < |t| && IsShort(t[a]) && !IsBlank(t[a])
  {
    hide NameEntries, SumOf;
    assert IsObject(t, a, names[a]);
  }

  lemma EmptiedShort(e: Entry)
    requires !IsBlank(e)
    ensures !IsBlank(Emptied(e))
  {
    assert Emptied(e)[0] == e[0];
  }

  /** The object at `a` is the one that the name finds. */
  ghost predicate FoundAt(t: Table, names: Names, name: seq<word>, a: nat)
    requires Ascii(name)
  {
    a in names && a < |t| && Matches(t, names, KeyOf(name), a)
  }

  predicate GuardedAt(t: Table, a: nat) { a < |t| && Guarded(t[a]) }

  ghost predicate ChainAt(f: seq<nat>, t: Table, a: nat, ch: seq<nat>)
  {
    a < |t| && (!Guarded(t[a]) ==> HasChain(f, t[a], ch))
  }

  /** What f_open leaves in the directory when the name was found: its entry without clusters. */
  ghost predicate Replaced(t: Table, names: Names, zero: nat, u: Table, name: seq<word>, at: nat, tim: dword)
    requires Ascii(name)
  {
    && FoundAt(t, names, name, at) && !Guarded(t[at])
    && u == t[at := Created0(Emptied(t[at]), tim)] && WellFormed(u, names, zero)
    && ClusterIn(u[at]) == 0 && SizeIn(u[at]) == 0
  }

  /** And when it was not: a new object whose entry names no cluster. */
  ghost predicate Added(t: Table, names: Names, zero: nat, u: Table, name: seq<word>, f: Form, at: nat, tim: dword)
    requires Ascii(name)
  {
    var names' := names[at := if FormOf(name).lfn then name else []];
    && |f.fn| == 11 && Chosen(t, names, name, f) && at < |u|
    && ClusterIn(u[at]) == 0 && SizeIn(u[at]) == 0
    && WellFormed(u, names', ZeroAfter(zero, at)) && NewName(t, names, u, names', name, at)
    && MadeFile(t, u, name, f, at, tim)
  }

  /** f_open on an object that was found. */
  method Replace(dj: Dir, ghost name: seq<word>, ghost names: Names, ghost zero: nat, tim: dword, ghost ch: seq<nat>)
    returns (res: FResult)
    requires dj.Valid() && dj.At(dj.index) && dj.fs.winsect == dj.sect && Ascii(name)
    requires WellFormed(dj.Entries(), names, zero) && FoundAt(dj.Entries(), names, name, dj.index)
    requires ChainAt(Fat(dj.fs.g, dj.fs.image), dj.Entries(), dj.index, ch)
    requires forall c :: c in ch ==> !InPlace(dj.place, c)
    modifies dj.fs`disk, dj.fs`wflag, dj.fs`winsect, dj.fs`image, dj.fs`lastClust, dj.fs`freeClust, dj.fs`fsiFlag
    modifies dj.fs.win
    ensures dj.Valid() && OpenOnly(dj.fs.g, dj.place, dj.place, ch, old(dj.fs.image), dj.fs.image)
    ensures res == if GuardedAt(old(dj.Entries()), dj.index) then Denied else Ok
    ensures res != Ok ==> dj.fs.image == old(dj.fs.image) && dj.fs.Hints() == old(dj.fs.Hints())
    ensures res == Ok ==> dj.At(dj.index) && dj.fs.winsect == dj.sect
    ensures res == Ok ==> Replaced(old(dj.Entries()), names, zero, dj.Entries(), name, dj.index, tim)
    ensures res == Ok ==> (ch != [] ==> 0 < ch[0]) && dj.fs.Table() == Unlinked(old(dj.fs.Table()), ch)
    ensures old(dj.fs.Exact()) ==> dj.fs.Exact()
  {
    hide FatFs.Exact, FatFs.Valid, Located, Points, Fits, TableAt, WellFormed, Matches, Rewritten, Fat, Created0,
         Emptied, ClusterIn, SizeIn, OpenOnly, Geometry.Ok, Sectors, SizeOf, Unlinked, HasChain, KeyOf;
    ghost var g, p, d, t := dj.fs.g, dj.place, dj.fs.image, dj.Entries();
    FitsMeans(g, p, d);
    OpenSelf(g, p, ch, d);
    var e := dj.Load();
    if Guarded(e) { return Denied; }
    Overwrite(dj, ch);
    FitsMeans(g, p, dj.fs.image);
    ghost var m, a, u := dj.fs.image, dj.fs.Table(), dj.Entries();
    ResetEntry(dj, tim);
    FitsMeans(g, p, dj.fs.image);
    RewrittenFits(g, p, m, dj.fs.image);
    OpenThen(g, p, p, ch, d, m, dj.fs.image);
    OverwrittenIs(t, names, zero, dj.index, tim);
    assert dj.Entries() == t[dj.index := Created0(Emptied(t[dj.index]), tim)];
    res := Ok;
  }

  /** f_open on a name that was not found. */
  method Create(dj: Dir, ghost name: seq<word>, ghost names: Names, ghost zero: nat, tim: dword)
    returns (res: FResult)
    requires dj.Valid() && dj.HoldsName(name) && WellFormed(dj.Entries(), names, zero) && Ascii(name)
    requires dj.fn == FormOf(name) && dj.lfnOn && forall a :: !Matches(dj.Entries(), names, KeyOf(name), a)
    modifies dj`index, dj`clust, dj`sect, dj`ofs, dj`place, dj`lfnIdx, dj`fn, dj`lfnOn
    modifies dj.fs`disk, dj.fs`wflag, dj.fs`winsect, dj.fs`image, dj.fs`lastClust, dj.fs`freeClust, dj.fs`fsiFlag
    modifies dj.fs.win
    ensures dj.Valid() && Changed(dj.fs.g, old(dj.place), dj.place, old(dj.fs.image), dj.fs.image)
    ensures res == Ok ==> dj.At(dj.index) && dj.fs.winsect == dj.sect
    ensures res == Ok ==> Added(old(dj.Entries()), names, zero, dj.Entries(), name, dj.fn, dj.index, tim)
    ensures res == Ok ==>
      Extra(old(dj.place), dj.place) == ClustersMore(|old(dj.Entries())|, dj.index + 1, 16 * dj.fs.g.csize)
    ensures dj.GrownFrom(old(dj.fs.Table()), old(dj.place))
    ensures Enlarged(dj.fs.g, old(dj.place), |old(dj.Entries())|, dj.place, |dj.Entries()|)
    ensures res != Ok ==> WellFormed(dj.Entries(), names, zero)
    ensures res != Ok ==> Lengthened(dj.fs.g, old(dj.place), dj.place, old(dj.fs.image), dj.fs.image)
    ensures res != Ok ==> res == Denied || res == NoFile || (res == IntErr && old(dj.Entries()) == [])
    ensures old(dj.fs.Exact()) ==> dj.fs.Exact()
  {
    hide FatFs.Exact, FatFs.Valid, Located, Points, Fits, TableAt, WellFormed, Laid, Matches, FormOf, Chosen, Changed,
         Lengthened, Rewritten, NewName, ShortEntry, Proper, Holds, Fat, Created0, ClusterIn, SizeIn, AddedTo,
         MadeFile, Enlarged, Extra, ClustersMore, NoRoom, NumbersTaken, NoneFree, PlaceGrown, Geometry.Ok, Sectors,
         GoodSectors, SizeOf, IsShort, Short, ZeroAfter, KeyOf;
    ghost var g, p, d, t := dj.fs.g, dj.place, dj.fs.image, dj.Entries();
    res := dj.Register(name, names, zero);
    if res != Ok { return; }
    FitsMeans(g, dj.place, dj.fs.image);
    ghost var m, u := dj.fs.image, dj.Entries();
    ResetEntry(dj, tim);
    FitsMeans(g, dj.place, dj.fs.image);
    RewrittenFits(g, dj.place, m, dj.fs.image);
    RewrittenIsChanged(g, dj.place, m, dj.fs.image);
    ChangedTwice(g, p, dj.place, d, m, dj.fs.image);
    ChosenShort(t, names, name, dj.fn);
    MadeFileIs(t, names, zero, u, names[dj.index := if FormOf(name).lfn then name else []], ZeroAfter(zero, dj.index),
        name, dj.fn, dj.index, tim);
  }

  lemma ChangedTwice(g: Geometry, p: Place, q: Place, d: Disk, m: Disk, e: Disk)
    requires Changed(g, p, q, d, m) && Changed(g, q, q, m, e)
    ensures Changed(g, p, q, d, e)
  {
    hide TableOnly, Sectors, GoodSectors;
    TableOnlyTwice(g, p, q, q, d, m, e);
  }

  /** What f_open leaves of the allocation table `a` and the place `p` when the name was found, and when it was not. */
  ghost predicate OpenedTable(g: Geometry, found: bool, ch: seq<nat>, a: Alloc, p: Place, t: Table, b: Alloc, q: Place,
        u: Table, at: nat)
  {
    if found then q == p && (ch != [] ==> 0 < ch[0]) && b == Unlinked(a, ch)
    else
      && PlaceGrown(a, p, Mask(g.fatType, 0xFFF_FFFF), b, q) && Enlarged(g, p, |t|, q, |u|)
      && 1 <= g.csize && Extra(p, q) == ClustersMore(|t|, at + 1, 16 * g.csize)
  }

  /** The chain that f_open removes: that of the file the name finds, none if it finds no object. */
  ghost predicate Removes(f: seq<nat>, t: Table, names: Names, name: seq<word>, p: Place, ch: seq<nat>)
    requires Ascii(name)
  {
    && (forall a :: FoundAt(t, names, name, a) ==> ChainAt(f, t, a, ch))
    && (forall c :: c in ch ==> !InPlace(p, c))
    && ((forall a :: !Matches(t, names, KeyOf(name), a)) ==> ch == [])
  }

  /** The directory work of f_open in create-always mode: a file that is found is emptied, unless it is read-only or a
      directory; a name that is not found is registered. Either way its entry names no cluster then. */
  method OpenEntry(dj: Dir, ghost name: seq<word>, ghost names: Names, ghost zero: nat, tim: dword, ghost ch: seq<nat>)
    returns (res: FResult, ghost found: bool)
    requires dj.Valid() && dj.HoldsName(name) && WellFormed(dj.Entries(), names, zero) && Ascii(name)
    requires dj.fn == FormOf(name) && dj.lfnOn
    requires Removes(Fat(dj.fs.g, dj.fs.image), dj.Entries(), names, name, dj.place, ch)
    modifies dj`index, dj`clust, dj`sect, dj`ofs, dj`place, dj`lfnIdx, dj`fn, dj`lfnOn
    modifies dj.fs`disk, dj.fs`wflag, dj.fs`winsect, dj.fs`image, dj.fs`lastClust, dj.fs`freeClust, dj.fs`fsiFlag
    modifies dj.fs.win
    ensures dj.Valid() && OpenOnly(dj.fs.g, old(dj.place), dj.place, ch, old(dj.fs.image), dj.fs.image)
    ensures found <==> exists a :: Matches(old(dj.Entries()), names, KeyOf(name), a)
    ensures res == Ok ==> dj.At(dj.index) && dj.fs.winsect == dj.sect
    ensures res == Ok ==>
      if found then Replaced(old(dj.Entries()), names, zero, dj.Entries(), name, dj.index, tim)
      else Added(old(dj.Entries()), names, zero, dj.Entries(), name, dj.fn, dj.index, tim)
    ensures res == Ok ==>
      OpenedTable(dj.fs.g, found, ch, old(dj.fs.Table()), old(dj.place), old(dj.Entries()), dj.fs.Table(), dj.place,
                  dj.Entries(), dj.index)
    ensures res != Ok ==> WellFormed(dj.Entries(), names, zero) && dj.GrownFrom(old(dj.fs.Table()), old(dj.place))
    ensures res != Ok ==> Lengthened(dj.fs.g, old(dj.place), dj.place, old(dj.fs.image), dj.fs.image)
    ensures old(dj.fs.Exact()) ==> dj.fs.Exact()
  {
    hide FatFs.Exact, FatFs.Valid, Located, Points, Fits, TableAt, WellFormed, Laid, Matches, FormOf, Changed,
         Lengthened, Proper, Holds, Fat, OpenOnly, Added, Replaced, Enlarged, Extra, ClustersMore, PlaceGrown,
         Geometry.Ok, Sectors, GoodSectors, SizeOf, Unlinked, ChainAt, Unique, SameName, MatchesLong, MatchesShort;
    ghost var g, p, d, t := dj.fs.g, dj.place, dj.fs.image, dj.Entries();
    FitsMeans(g, p, d);
    WellFormedIsLaid(t, names, zero);
    LengthenedSelf(g, p, d);
    OpenSelf(g, p, ch, d);
    dj.GrownNot();
    res := dj.Find(name, names, zero);
    AnswerTells(t, names, zero, name, res, dj.index, dj.lfnIdx);
    found := res == Ok;
    if res == Ok {
      FoundHere(dj, name, names);
      res := Replace(dj, name, names, zero, tim, ch);
    } else if res == NoFile {
      res := Create(dj, name, names, zero, tim);
      OpenChanged(g, p, dj.place, ch, d, dj.fs.image);
    }
  }

  lemma FoundHere(dj: Dir, name: seq<word>, names: Names)
    requires dj.Valid() && dj.At(dj.index) && Ascii(name) && dj.index in names
    requires Matches(dj.Entries(), names, KeyOf(name), dj.index)
    ensures FoundAt(dj.Entries(), names, name, dj.index)
  {
    hide FatFs.Valid, Located, Fat, Matches, FormOf;
    FitsMeans(dj.fs.g, dj.place, dj.fs.image);
    PointsBound(dj.fs.g, dj.place, dj.index, dj.clust, dj.sect, dj.ofs);
  }

  // ----- the file object -----

  /** The free clusters of a table. */
  function FreeOf(f: seq<nat>): set<nat> { set c: nat | 2 <= c < |f| && f[c] == 0 }

  lemma FreeOwns(f: seq<nat>)
    requires NoOnes(f)
    ensures Owns(f, [], FreeOf(f))
  {
  }

  /** A directory's table lies in no free cluster. */
  lemma TableNotFree(g: Geometry, d: Disk, sclust: nat, p: Place, s: nat)
    requires Fits(g, p, d) && Located(g, Fat(g, d), sclust, p) && s in Sectors(g, p)
    ensures !Home(g, FreeOf(Fat(g, d)), s)
  {
    hide Fat, Sectors, GoodSectors, Geometry.Ok, SectorOf, IsChain;
    var f := Fat(g, d);
    if p.Chain? { ChainUses(f, p.ch); }
    forall c: nat | c in FreeOf(f) && 2 <= c < g.maxClust ensures !SectorOf(g, c, s) {
      NotInCluster(g, p, d, c);
    }
  }

  lemma EntryPlace(dj: Dir)
    requires dj.Valid() && dj.At(dj.index)
    ensures DiskOf(dj.fs.g, dj.fs.image) && NoOnes(Fat(dj.fs.g, dj.fs.image))
    ensures dj.sect in Sectors(dj.fs.g, dj.place) && dj.ofs + 32 <= 512
    ensures dj.fs.g.FatEnd() <= dj.sect < dj.fs.g.nSectors
  {
    hide FatFs.Valid, Fat, Points;
    FitsMeans(dj.fs.g, dj.place, dj.fs.image);
    PointsInfo(dj.fs.g, dj.place, dj.index, dj.clust, dj.sect, dj.ofs);
  }

  /** The end of f_open on the entry that the directory object points at, which names no cluster. */
  method EmptyFile(dj: Dir) returns (fil: Fil)
    requires dj.Valid() && dj.At(dj.index) && dj.fs.winsect == dj.sect && dj.index < |dj.Entries()|
    requires ClusterIn(dj.Entries()[dj.index]) == 0 && SizeIn(dj.Entries()[dj.index]) == 0
    modifies dj.fs`disk, dj.fs`wflag, dj.fs`winsect, dj.fs.win
    ensures dj.Valid() && fresh(fil) && fresh(fil.buf) && fil.Valid() && fil.fs == dj.fs && fil.chain == []
    ensures fil.Content() == [] && fil.dom == FreeOf(Fat(dj.fs.g, dj.fs.image)) && fil.written && !fil.failed
    ensures fil.canWrite && fil.fptr == 0 && fil.dirSect == dj.sect && fil.dirPtr == dj.ofs
  {
    hide FatFs.Valid, Located, Points, Fits, TableAt, Fat, Geometry.Ok, Sectors, GoodSectors, SizeOf, FreeOf, Home;
    var e := dj.Load();
    EntryPlace(dj);
    FreeOwns(Fat(dj.fs.g, dj.fs.image));
    TableNotFree(dj.fs.g, dj.fs.image, dj.sclust, dj.place, dj.sect);
    fil := new Fil(dj.fs, false, true, dj.fs.winsect, dj.ofs, ClusterIn(e), SizeIn(e), [],
                   FreeOf(Fat(dj.fs.g, dj.fs.image)));
    fil.written := true;
  }

  /** f_open with FA_WRITE and FA_CREATE_ALWAYS: the directory work, and then an empty file on the entry. */
  method OpenFile(dj: Dir, ghost name: seq<word>, ghost names: Names, ghost zero: nat, tim: dword, ghost ch: seq<nat>)
    returns (res: FResult, fil: Fil?, ghost found: bool)
    requires dj.Valid() && dj.HoldsName(name) && WellFormed(dj.Entries(), names, zero) && Ascii(name)
    requires dj.fn == FormOf(name) && dj.lfnOn
    requires Removes(Fat(dj.fs.g, dj.fs.image), dj.Entries(), names, name, dj.place, ch)
    modifies dj`index, dj`clust, dj`sect, dj`ofs, dj`place, dj`lfnIdx, dj`fn, dj`lfnOn
    modifies dj.fs`disk, dj.fs`wflag, dj.fs`winsect, dj.fs`image, dj.fs`lastClust, dj.fs`freeClust, dj.fs`fsiFlag
    modifies dj.fs.win
    ensures dj.Valid() && OpenOnly(dj.fs.g, old(dj.place), dj.place, ch, old(dj.fs.image), dj.fs.image)
    ensures res == Ok <==> fil != null
    ensures fil != null ==>
      && fresh(fil) && fresh(fil.buf) && fil.Valid() && fil.fs == dj.fs && fil.chain == [] && fil.Content() == []
      && fil.dom == FreeOf(Fat(dj.fs.g, dj.fs.image)) && fil.written && !fil.failed && fil.canWrite && fil.fptr == 0
      && dj.At(dj.index) && fil.dirSect == dj.sect && fil.dirPtr == dj.ofs
    ensures found <==> exists a :: Matches(old(dj.Entries()), names, KeyOf(name), a)
    ensures res == Ok ==>
      if found then Replaced(old(dj.Entries()), names, zero, dj.Entries(), name, dj.index, tim)
      else Added(old(dj.Entries()), names, zero, dj.Entries(), name, dj.fn, dj.index, tim)
    ensures res == Ok ==>
      OpenedTable(dj.fs.g, found, ch, old(dj.fs.Table()), old(dj.place), old(dj.Entries()), dj.fs.Table(), dj.place,
                  dj.Entries(), dj.index)
    ensures res != Ok ==> WellFormed(dj.Entries(), names, zero) && dj.GrownFrom(old(dj.fs.Table()), old(dj.place))
    ensures res != Ok ==> Lengthened(dj.fs.g, old(dj.place), dj.place, old(dj.fs.image), dj.fs.image)
    ensures old(dj.fs.Exact()) ==> dj.fs.Exact()
  {
    hide FatFs.Exact, FatFs.Valid, Located, Points, Fits, TableAt, WellFormed, Matches, FormOf, Lengthened, Proper,
         Holds, Fat, OpenOnly, OpenedTable, Dir.GrownFrom, Geometry.Ok, Sectors, GoodSectors, SizeOf, KeyOf, FreeOf,
         Home, MadeFile, NewName, Chosen, Created0, Emptied, FoundAt, ZeroAfter, Fil.Valid, Fil.Content, ClusterIn,
         SizeIn;
    res, found := OpenEntry(dj, name, names, zero, tim, ch);
    fil := null;
    if res == Ok {
      var file := EmptyFile(dj);
      fil := file;
    }
  }

  // ----- opening an existing file -----

  /** The clusters that a file with the chain `ch` may use: its own and the free ones. */
  function UsableBy(f: seq<nat>, ch: seq<nat>): set<nat> { set c: nat | 2 <= c < |f| && (f[c] == 0 || c in ch) }

  lemma UsableOwns(f: seq<nat>, ch: seq<nat>)
    requires NoOnes(f) && (ch != [] ==> IsChain(f, ch))
    ensures Owns(f, ch, UsableBy(f, ch))
  {
  }

  /** A directory's table lies in none of them. */
  lemma TableNotUsed(g: Geometry, d: Disk, sclust: nat, p: Place, ch: seq<nat>, s: nat)
    requires Fits(g, p, d) && Located(g, Fat(g, d), sclust, p) && s in Sectors(g, p)
    requires forall c :: c in ch ==> !InPlace(p, c)
    ensures !Home(g, UsableBy(Fat(g, d), ch), s)
  {
    hide Fat, Sectors, GoodSectors, Geometry.Ok, SectorOf, IsChain;
    var f := Fat(g, d);
    if p.Chain? { ChainUses(f, p.ch); }
    forall c: nat | c in UsableBy(f, ch) && 2 <= c < g.maxClust ensures !SectorOf(g, c, s) {
      NotInCluster(g, p, d, c);
    }
  }

  /** The file at `a` has the chain `ch`, which is long enough for its size. */
  ghost predicate FileAt(g: Geometry, f: seq<nat>, p: Place, t: Table, a: nat, ch: seq<nat>)
  {
    && a < |t| && HasChain(f, t[a], ch) && SizeIn(t[a]) <= Times(|ch|, g.csize) * 512
    && forall c :: c in ch ==> !InPlace(p, c)
  }

  /** What f_open answers about an entry that is there: no file if it is a directory, and a read-only file is not opened
      for writing. */
  ghost predicate OpenAnswer(e: Entry, write: bool, res: FResult)
  {
    res == if IsDirectory(e) then NoFile else if write && ReadOnly(e) then Denied else Ok
  }

  /** f_open without a create mode, from the point where the path is followed. */
  method OpenExisting(dj: Dir, ghost name: seq<word>, ghost names: Names, ghost zero: nat, read: bool, write: bool,
        ghost ch: seq<nat>)
    returns (res: FResult, fil: Fil?)
    requires dj.Valid() && dj.HoldsName(name) && WellFormed(dj.Entries(), names, zero) && Ascii(name)
    requires dj.fn == FormOf(name) && dj.lfnOn
    requires forall a: nat :: FoundAt(dj.Entries(), names, name, a) && !IsDirectory(dj.Entries()[a]) ==>
               FileAt(dj.fs.g, Fat(dj.fs.g, dj.fs.image), dj.place, dj.Entries(), a, ch)
    modifies dj`index, dj`clust, dj`sect, dj`ofs, dj`place, dj`lfnIdx
    modifies dj.fs`disk, dj.fs`wflag, dj.fs`winsect, dj.fs`image, dj.fs`lastClust, dj.fs`freeClust, dj.fs`fsiFlag
    modifies dj.fs.win
    ensures dj.Valid() && dj.place == old(dj.place) && dj.fs.image == old(dj.fs.image)
    ensures if exists b: nat :: FoundAt(dj.Entries(), names, name, b)
      then FoundAt(dj.Entries(), names, name, dj.index) && OpenAnswer(dj.Entries()[dj.index], write, res)
      else res == NoFile || (res == IntErr && dj.Entries() == [])
    ensures res == Ok <==> fil != null
    ensures fil != null ==>
      && FoundAt(dj.Entries(), names, name, dj.index) && !IsDirectory(dj.Entries()[dj.index])
      && fresh(fil) && fresh(fil.buf) && fil.Valid() && fil.fs == dj.fs && fil.chain == ch
      && fil.fsize == SizeIn(dj.Entries()[dj.index]) && !fil.written && !fil.dirty && !fil.failed && fil.fptr == 0
      && fil.canRead == read && fil.canWrite == write
      && dj.At(dj.index) && fil.dirSect == dj.sect && fil.dirPtr == dj.ofs
    ensures old(dj.fs.Exact()) ==> dj.fs.Exact()
  {
    hide FatFs.Exact, FatFs.Valid, Located, Points, Fits, TableAt, WellFormed, Laid, Fat, Matches, FormOf, Geometry.Ok,
         Proper, Holds, IsChain, MatchesLong, MatchesShort, UsableBy, Home, Sectors, GoodSectors, ClusterIn, SizeIn,
         NoOnes, Owns;
    ghost var t := dj.Entries();
    WellFormedIsLaid(t, names, zero);
    fil := null;
    res := dj.Find(name, names, zero);
    AnswerTells(t, names, zero, name, res, dj.index, dj.lfnIdx);
    if res != Ok { return; }
    FoundHere(dj, name, names);
    var e := dj.Load();
    if IsDirectory(e) { return NoFile, null; }
    if write && ReadOnly(e) { return Denied, null; }
    EntryPlace(dj);
    UsableOwns(Fat(dj.fs.g, dj.fs.image), ch);
    TableNotUsed(dj.fs.g, dj.fs.image, dj.sclust, dj.place, ch, dj.sect);
    SizeFits(e);
    var file := new Fil(dj.fs, read, write, dj.fs.winsect, dj.ofs, ClusterIn(e), SizeIn(e), ch,
                        UsableBy(Fat(dj.fs.g, dj.fs.image), ch));
    fil := file;
  }

  lemma SizeFits(e: Entry)
    ensures SizeIn(e) < 0x1_0000_0000
  {
  }
}
