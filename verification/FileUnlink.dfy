/** f_unlink, from the point where the path is followed: the name is searched for in its directory, the object must be
    neither read-only nor a directory with objects in it, and then its entry and its clusters go. */
module FileUnlink {
  import opened Bytes
  import opened Geometry
  import opened FatTable
  import opened Chains
  import opened ChainRuns
  import opened Volume
  import opened Results
  import opened Lfn
  import opened ShortName
  import opened DirTable
  import opened DirDisk
  import opened DirFind
  import opened DirModel
  import opened DirObject
  import opened DirMake
  import opened DirRead
  import opened FileOpen

  /** The subdirectory at chain `ch` is made of whole objects. */
  ghost predicate SubDir(g: Geometry, d: Disk, ch: seq<nat>, sub: Names, zero: nat)
  {
    Fits(g, Chain(ch), d) && Laid(TableAt(g, Chain(ch), d), sub, zero)
  }

  /** The answer of f_unlink about the object of entry `e`, whose chain is `ch`. */
  ghost function Answered(g: Geometry, d: Disk, e: Entry, ch: seq<nat>, sub: Names): FResult
  {
    if ReadOnly(e) then Denied
    else if !IsDirectory(e) then Ok
    else if ch == [] then IntErr
    else if Fits(g, Chain(ch), d) && NoneListed(TableAt(g, Chain(ch), d), sub, 2) then Ok else Denied
  }

  /** A chained table holds entry 2. */
  lemma ChainHolds(g: Geometry, d: Disk, ch: seq<nat>)
    requires Fits(g, Chain(ch), d) && ch != []
    ensures 2 < |TableAt(g, Chain(ch), d)|
  {
    hide ChainSectors;
    FitsMeans(g, Chain(ch), d);
    TimesIsProduct(|ch|, g.csize);
    SizeIs(g, Chain(ch), 2);
  }

  /** The test of f_unlink whether a subdirectory is empty. */
  method CheckEmpty(fs: FatFs, dclst: nat, lfnbuf: array<word>, ghost ch: seq<nat>, ghost sub: Names, ghost zero: nat)
    returns (res: FResult)
    requires fs.Valid() && ch != [] && IsChain(Fat(fs.g, fs.image), ch) && dclst == ch[0] && NoOnes(Fat(fs.g, fs.image))
    requires SubDir(fs.g, fs.image, ch, sub, zero) && lfnbuf.Length == MAX_LFN + 1
    modifies lfnbuf
    modifies fs`disk, fs`wflag, fs`winsect, fs`image, fs`lastClust, fs`freeClust, fs`fsiFlag, fs.win
    ensures fs.Valid() && fs.image == old(fs.image) && fs.Hints() == old(fs.Hints())
    ensures old(fs.Exact()) ==> fs.Exact()
    ensures res == if NoneListed(TableAt(fs.g, Chain(ch), fs.image), sub, 2) then NoFile else Denied
  {
    hide FatFs.Exact, FatFs.Valid, Points, Fits, TableAt, Laid, Fat, Geometry.Ok, Sectors, SizeOf, GoodSectors,
         FatFs.Shape, IsChain, NoOnes, NoneListed;
    fs.ValidDisk();
    ChainHead(fs.g, fs.image, ch);
    ChainHolds(fs.g, fs.image, ch);
    var sdj := new Dir(fs, dclst, Chain(ch));
    res := sdj.Seek(2);
    EntryInSector(fs.g, sdj.place, fs.image, sdj.index, sdj.clust, sdj.sect, sdj.ofs);
    res := Read(sdj, lfnbuf, sub, zero);
    if res == Ok { res := Denied; }
  }

  /** The FSInfo sector. */
  predicate IsInfo(g: Geometry, s: nat) { g.fatType == Fat32 && s == g.fsiSector }

  /** What f_unlink changes from disk `d` to `e`: the table at `p`, FSInfo, and the FAT entries of `ch`, which are
      free then. */
  ghost predicate UnlinkOnly(g: Geometry, p: Place, ch: seq<nat>, d: Disk, e: Disk)
  {
    && Fits(g, p, d) && Fits(g, p, e)
    && (forall s :: 0 <= s < |d| && (s < g.fatbase || g.FatEnd() <= s) && s !in Sectors(g, p) && !IsInfo(g, s) ==>
          e[s] == d[s])
    && (forall c: nat :: 2 <= c < g.maxClust && c !in ch ==> Fat(g, e)[c] == Fat(g, d)[c])
    && (forall c :: c in ch ==> 2 <= c < g.maxClust && Fat(g, e)[c] == 0)
  }

  lemma UnlinkRewrites(g: Geometry, p: Place, d: Disk, e: Disk)
    requires Rewritten(g, p, d, e)
    ensures UnlinkOnly(g, p, [], d, e)
  {
    hide Fat, Sectors, GoodSectors;
  }

  lemma UnlinkCut(g: Geometry, p: Place, ch: seq<nat>, d: Disk, e: Disk, h: Disk)
    requires UnlinkOnly(g, p, [], d, e) && DiskOf(g, h) && SameData(g, e, h) && Fits(g, p, h)
    requires forall c: nat :: 2 <= c < g.maxClust && c !in ch ==> Fat(g, h)[c] == Fat(g, e)[c]
    requires forall c :: c in ch ==> 2 <= c < g.maxClust && Fat(g, h)[c] == 0
    ensures UnlinkOnly(g, p, ch, d, h)
  {
    hide Fat, Sectors, GoodSectors, Geometry.Ok;
  }

  lemma UnlinkSync(g: Geometry, p: Place, ch: seq<nat>, d: Disk, e: Disk, h: Disk)
    requires UnlinkOnly(g, p, ch, d, e) && Fits(g, p, h) && |h| == |e| && |d| == |e| && Fat(g, h) == Fat(g, e)
    requires forall s :: 0 <= s < |d| && !IsInfo(g, s) ==> h[s] == e[s]
    ensures UnlinkOnly(g, p, ch, d, h)
  {
    hide Fat, Sectors, GoodSectors, Geometry.Ok;
  }

  /** The sync at the end. */
  method SyncTable(dj: Dir)
    requires dj.Valid()
    modifies dj.fs`disk, dj.fs`wflag, dj.fs`winsect, dj.fs`image, dj.fs`fsiFlag, dj.fs.win
    ensures dj.Valid() && dj.Entries() == old(dj.Entries()) && dj.fs.disk == dj.fs.image && !dj.fs.wflag
    ensures Fat(dj.fs.g, dj.fs.image) == Fat(dj.fs.g, old(dj.fs.image))
    ensures |dj.fs.image| == |old(dj.fs.image)| == dj.fs.g.nSectors
    ensures forall s :: 0 <= s < |dj.fs.image| && !IsInfo(dj.fs.g, s) ==> dj.fs.image[s] == old(dj.fs.image)[s]
    ensures old(dj.fs.Exact()) ==> dj.fs.Exact()
  {
    hide FreeExact, FatFs.Valid, Located, Fits, TableAt, Fat, FsInfo;
    FitsMeans(dj.fs.g, dj.place, dj.fs.image);
    InfoSector(dj.fs.g);
    if dj.fs.g.fatType == Fat32 {
      SyncKeeps(dj.fs.g, dj.fs.image, dj.fs.g.fsiSector, FsInfo(dj.fs.freeClust, dj.fs.lastClust), dj.place);
    }
    dj.fs.Sync();
  }

  /** dir_remove of what the search found, and removal of its clusters. */
  method Discard(dj: Dir, dclst: nat, ghost name: seq<word>, ghost names: Names, ghost zero: nat, ghost ch: seq<nat>)
    returns (res: FResult)
    requires dj.Valid() && dj.At(dj.index) && Ascii(name) && name != [] && WellFormed(dj.Entries(), names, zero)
    requires Answer(dj.Entries(), names, KeyOf(name), FResult.Ok, dj.index, dj.lfnIdx)
    requires forall b :: Matches(dj.Entries(), names, KeyOf(name), b) ==> b == dj.index
    requires dclst == End0(ch) && (ch != [] ==> IsChain(Fat(dj.fs.g, dj.fs.image), ch))
    requires forall c :: c in ch ==> !InPlace(dj.place, c)
    modifies dj`index, dj`clust, dj`sect, dj`ofs, dj`place
    modifies dj.fs`disk, dj.fs`wflag, dj.fs`winsect, dj.fs`image, dj.fs`lastClust, dj.fs`freeClust, dj.fs`fsiFlag
    modifies dj.fs.win
    ensures dj.Valid() && dj.place == old(dj.place) && res == Ok
    ensures UnlinkOnly(dj.fs.g, dj.place, ch, old(dj.fs.image), dj.fs.image)
    ensures Deleted(old(dj.Entries()), names, zero, dj.Entries(), name)
    ensures dj.fs.disk == dj.fs.image && !dj.fs.wflag
    ensures old(dj.fs.Exact()) ==> dj.fs.Exact()
  {
    hide FatFs.Exact, FatFs.Valid, Located, Points, Fits, TableAt, WellFormed, Laid, Rewritten, Fat, Erased, NameGone,
         Matches, FormOf, IsChain, Cut, CutCount, CutMeetsOne, SameData, Geometry.Ok, UnlinkOnly, Answer, RemovedAt,
         Sectors;
    ghost var g, p, d, t, a := dj.fs.g, dj.place, dj.fs.image, dj.Entries(), dj.index;
    ghost var from := RemoveFrom(dj.lfnIdx, a);
    FitsMeans(g, p, d);
    if ch != [] { ChainHead(g, d, ch); }
    dj.PositionBound();
    RemoveStartsFirst(t, names, zero, name, a, dj.lfnIdx);
    res := dj.Remove(names, zero);
    DeletedIs(t, names, zero, dj.Entries(), name, a, from);
    UnlinkRewrites(g, p, d, dj.fs.image);
    RewrittenFits(g, p, d, dj.fs.image);
    FitsMeans(g, p, dj.fs.image);
    ghost var m := dj.fs.image;
    if dclst != 0 {
      ChainHead(g, m, ch);
      res := dj.fs.RemoveChain(dclst);
      dj.fs.ValidDisk();
      CutKeepsTable(g, m, dj.fs.image, dj.sclust, p, ch);
      UnlinkCut(g, p, ch, d, m, dj.fs.image);
    }
    m := dj.fs.image;
    SyncTable(dj);
    FitsMeans(g, p, dj.fs.image);
    UnlinkSync(g, p, ch, d, m, dj.fs.image);
  }

  lemma DeletedIs(t: Table, names: Names, zero: nat, u: Table, name: seq<word>, a: nat, from: nat)
    requires a in names && Ascii(name) && WellFormed(t, names, zero)
    requires forall b :: Matches(t, names, KeyOf(name), b) ==> b == a
    requires from == First(names, a) <==> names[a] == [] || LongFinds(name, names[a])
    requires Erased(t, u, from, a)
    requires from == First(names, a) ==> WellFormed(u, names - {a}, zero) && NameGone(t, names, u, a)
    requires from != First(names, a) ==> forall names', zero' :: !Laid(u, names', zero')
    ensures Deleted(t, names, zero, u, name)
  {
    hide WellFormed, Laid, Matches, FormOf, SameName, Erased, NameGone;
  }

  /** What `ch` and `sub` are for the object of entry `e` in the directory at `p`, unless that is read-only: its
      clusters, and its objects if it is a directory. */
  ghost predicate PartsOf(g: Geometry, d: Disk, p: Place, e: Entry, ch: seq<nat>, sub: Names, subZero: nat)
    requires DiskOf(g, d)
  {
    !ReadOnly(e) ==>
      && HasChain(Fat(g, d), e, ch) && (forall c :: c in ch ==> !InPlace(p, c))
      && (IsDirectory(e) && ch != [] ==> SubDir(g, d, ch, sub, subZero))
  }

  /** The same for the object that `name` finds in the table `t`. */
  ghost predicate Parts(g: Geometry, d: Disk, p: Place, t: Table, names: Names, name: seq<word>, ch: seq<nat>,
        sub: Names, subZero: nat)
    requires Ascii(name)
  {
    DiskOf(g, d) && forall a: nat :: FoundAt(t, names, name, a) ==> PartsOf(g, d, p, t[a], ch, sub, subZero)
  }

  /** What f_unlink answers. */
  ghost predicate Outcome(g: Geometry, d: Disk, t: Table, names: Names, name: seq<word>, ch: seq<nat>, sub: Names,
        res: FResult)
    requires Ascii(name)
  {
    && (forall a: nat :: FoundAt(t, names, name, a) ==> res == Answered(g, d, t[a], ch, sub))
    && ((forall a: nat :: !FoundAt(t, names, name, a)) ==> res == NoFile || (res == IntErr && t == []))
  }

  /** f_unlink of what the search found. */
  method UnlinkFound(dj: Dir, ghost name: seq<word>, ghost names: Names, ghost zero: nat, lfnbuf: array<word>,
        ghost ch: seq<nat>, ghost sub: Names, ghost subZero: nat)
    returns (res: FResult)
    requires dj.Valid() && dj.At(dj.index) && Ascii(name) && name != [] && WellFormed(dj.Entries(), names, zero)
    requires Answer(dj.Entries(), names, KeyOf(name), FResult.Ok, dj.index, dj.lfnIdx) && dj.index < |dj.Entries()|
    requires forall b :: Matches(dj.Entries(), names, KeyOf(name), b) ==> b == dj.index
    requires DiskOf(dj.fs.g, dj.fs.image) && NoOnes(Fat(dj.fs.g, dj.fs.image)) && lfnbuf.Length == MAX_LFN + 1
    requires PartsOf(dj.fs.g, dj.fs.image, dj.place, dj.Entries()[dj.index], ch, sub, subZero)
    modifies dj`index, dj`clust, dj`sect, dj`ofs, dj`place, lfnbuf
    modifies dj.fs`disk, dj.fs`wflag, dj.fs`winsect, dj.fs`image, dj.fs`lastClust, dj.fs`freeClust, dj.fs`fsiFlag
    modifies dj.fs.win
    ensures dj.Valid() && dj.place == old(dj.place)
    ensures res == Answered(dj.fs.g, old(dj.fs.image), old(dj.Entries()[dj.index]), ch, sub)
    ensures res == Ok ==> UnlinkOnly(dj.fs.g, dj.place, ch, old(dj.fs.image), dj.fs.image)
    ensures res == Ok ==> Deleted(old(dj.Entries()), names, zero, dj.Entries(), name)
    ensures res == Ok ==> dj.fs.disk == dj.fs.image && !dj.fs.wflag
    ensures res != Ok ==> dj.fs.image == old(dj.fs.image) && dj.fs.Hints() == old(dj.fs.Hints())
    ensures old(dj.fs.Exact()) ==> dj.fs.Exact()
  {
    hide FatFs.Exact, FatFs.Valid, Located, Points, Fits, TableAt, WellFormed, Laid, Fat, Matches, FormOf, IsChain,
         Geometry.Ok, UnlinkOnly, Answer, Deleted, ClusterIn, NoOnes, NoneListed;
    var e := dj.Load();
    if ReadOnly(e) { return Denied; }
    var dclst := ClusterIn(e);
    if ch != [] { ChainHead(dj.fs.g, dj.fs.image, ch); }
    if IsDirectory(e) {
      if dclst < 2 { return IntErr; }
      res := CheckEmpty(dj.fs, dclst, lfnbuf, ch, sub, subZero);
      if res != NoFile { return; }
    }
    res := Discard(dj, dclst, name, names, zero, ch);
  }

  /** f_unlink: the name finds an object that is neither read-only nor a directory in use, or nothing changes. */
  method Unlink(dj: Dir, ghost name: seq<word>, ghost names: Names, ghost zero: nat, lfnbuf: array<word>,
        ghost ch: seq<nat>, ghost sub: Names, ghost subZero: nat)
    returns (res: FResult)
    requires dj.Valid() && dj.HoldsName(name) && WellFormed(dj.Entries(), names, zero) && Ascii(name)
    requires dj.fn == FormOf(name) && dj.lfnOn && lfnbuf.Length == MAX_LFN + 1
    requires Parts(dj.fs.g, dj.fs.image, dj.place, dj.Entries(), names, name, ch, sub, subZero)
    modifies dj`index, dj`clust, dj`sect, dj`ofs, dj`place, dj`lfnIdx, lfnbuf
    modifies dj.fs`disk, dj.fs`wflag, dj.fs`winsect, dj.fs`image, dj.fs`lastClust, dj.fs`freeClust, dj.fs`fsiFlag
    modifies dj.fs.win
    ensures dj.Valid() && dj.place == old(dj.place)
    ensures Outcome(dj.fs.g, old(dj.fs.image), old(dj.Entries()), names, name, ch, sub, res)
    ensures res == Ok ==> UnlinkOnly(dj.fs.g, dj.place, ch, old(dj.fs.image), dj.fs.image)
    ensures res == Ok ==> Deleted(old(dj.Entries()), names, zero, dj.Entries(), name)
    ensures res == Ok ==> dj.fs.disk == dj.fs.image && !dj.fs.wflag
    ensures res != Ok ==> dj.fs.image == old(dj.fs.image) && dj.fs.Hints() == old(dj.fs.Hints())
    ensures old(dj.fs.Exact()) ==> dj.fs.Exact()
  {
    hide FatFs.Exact, FatFs.Valid, Points, Fits, TableAt, WellFormed, Laid, Fat, Matches, FormOf, Geometry.Ok,
         UnlinkOnly, Deleted, PartsOf, NoOnes, Proper, Holds, Answered, IsChain, MatchesLong, MatchesShort;
    ghost var t := dj.Entries();
    ProperIsAscii(name);
    WellFormedIsLaid(t, names, zero);
    res := dj.Find(name, names, zero);
    AnswerTells(t, names, zero, name, res, dj.index, dj.lfnIdx);
    if res != Ok { return; }
    FoundHere(dj, name, names);
    dj.fs.ValidDisk();
    res := UnlinkFound(dj, name, names, zero, lfnbuf, ch, sub, subZero);
  }
}
