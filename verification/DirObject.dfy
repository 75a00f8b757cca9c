/** The directory object (DIR of ff.h): seeking and stepping through a directory table, finding, registering and
    removing the objects in it. */
module DirObject {
  import opened Bytes
  import opened Geometry
  import opened FatTable
  import opened Chains
  import opened ChainRuns
  import opened FileBytes
  import opened Volume
  import opened Results
  import opened Lfn
  import opened ShortName
  import opened NumName
  import opened DirTable
  import opened DirDisk
  import opened DirFind
  import opened DirModel

  class Dir {
    const fs: FatFs
    var sclust: nat      // table start cluster, 0 for the root directory
    var index: nat       // current index
    var clust: nat       // its cluster, 0 in a static table
    var sect: nat        // its sector
    var ofs: nat         // offset of the entry in the window
    var fn: Form         // the name looked for, in directory form
    var lfn: seq<word>   // the LFN working buffer
    var lfnOn: bool      // whether the pointer to it is set
    var lfnIdx: nat      // index of the first entry of the matched long name, or 0xFFFF
    ghost var place: Place

    ghost predicate Valid()
      reads `sclust, `place, fs`disk, fs`image, fs`winsect, fs`wflag, fs.win
    {
      && fs.Valid() && Fits(fs.g, place, fs.image) && Located(fs.g, Fat(fs.g, fs.image), sclust, place)
    }

    /** The entries of the table. */
    ghost function Entries(): (t: Table)
      requires Fits(fs.g, place, fs.image)
      reads `place, fs`image
      ensures |t| == SizeOf(Sectors(fs.g, place))
    {
      TableAt(fs.g, place, fs.image)
    }

    /** The object points at entry `i`. */
    ghost predicate At(i: nat)
      requires Fits(fs.g, place, fs.image)
      reads `place, `index, `clust, `sect, `ofs, fs`image
    {
      index == i && Points(fs.g, place, i, clust, sect, ofs)
    }

    /** The table has grown to where it is from `p`, on the allocation table `a`, cluster by cluster. */
    ghost predicate GrownFrom(a: Alloc, p: Place)
      requires DiskOf(fs.g, fs.image)
      reads `place, fs`image, fs`lastClust, fs`freeClust
    {
      PlaceGrown(a, p, Mask(fs.g.fatType, 0xFFF_FFFF), fs.Table(), place)
    }

    lemma GrownNot()
      requires DiskOf(fs.g, fs.image)
      ensures GrownFrom(fs.Table(), place)
    {
      PlaceGrownSelf(fs.Table(), place, Mask(fs.g.fatType, 0xFFF_FFFF));
    }

    lemma GrownIs(a: Alloc, p: Place)
      requires DiskOf(fs.g, fs.image) && GrownFrom(a, p)
      ensures PlaceGrown(a, p, Mask(fs.g.fatType, 0xFFF_FFFF), fs.Table(), place)
    {
    }

    /** Growing in two steps, the second from the allocation table `b` and the place `q`. */
    lemma GrownOn(a: Alloc, p: Place, b: Alloc, q: Place)
      requires DiskOf(fs.g, fs.image) && GrownFrom(b, q)
      requires PlaceGrown(a, p, Mask(fs.g.fatType, 0xFFF_FFFF), b, q)
      ensures GrownFrom(a, p)
    {
      PlaceGrownTwice(a, p, Mask(fs.g.fatType, 0xFFF_FFFF), b, q, fs.Table(), place);
    }

    /** A directory object for the table of start cluster `sclust`, with nothing looked for yet. */
    constructor (fs: FatFs, sclust: nat, ghost place: Place)
      requires fs.Valid() && Located(fs.g, Fat(fs.g, fs.image), sclust, place)
      ensures Valid() && this.fs == fs && this.sclust == sclust && this.place == place
    {
      LocatedIsGood(fs.g, Fat(fs.g, fs.image), sclust, place);
      this.fs := fs;
      this.sclust := sclust;
      this.place := place;
      index, clust, sect, ofs := 0, 0, 0, 0;
      fn := Form(Blanks(11), false, false, false, false);
      lfn := [];
      lfnOn, lfnIdx := false, NO_LFN;
    }

    /** The loop of dir_seek that follows the chain. */
    method Follow(start: nat, idx: nat) returns (ok: bool, clst: nat, rest: nat, ghost k: nat)
      requires Valid() && place.Chain? && start == place.ch[0]
      modifies fs`disk, fs`wflag, fs`winsect, fs.win
      ensures Valid()
      ensures ok <==> idx < 16 * |Sectors(fs.g, place)|
      ensures ok ==>
        k < |place.ch| && clst == place.ch[k] && idx == 16 * Times(k, fs.g.csize) + rest && rest < 16 * fs.g.csize
    {
      hide FatFs.Valid, Fat, Located, Times, Sectors;
      clst, rest := start, idx;
      var ic := 16 * fs.g.csize;
      k := 0;
      assert Times(0, fs.g.csize) == 0 by { TimesIsProduct(0, fs.g.csize); }
      LocatedIsGood(fs.g, Fat(fs.g, fs.image), sclust, place);
      ChainLink(fs.g, Fat(fs.g, fs.image), sclust, place.ch, 0);
      while rest >= ic
        invariant Valid() && k < |place.ch| && clst == place.ch[k]
        invariant idx == 16 * Times(k, fs.g.csize) + rest
        decreases rest
      {
        ChainLink(fs.g, Fat(fs.g, fs.image), sclust, place.ch, k);
        FollowedFar(fs.g, place.ch, k, idx, rest);
        clst := fs.GetFat(clst);
        if clst < 2 || clst >= fs.g.maxClust {
          return false, clst, rest, k;
        }
        rest := rest - ic;
        k := k + 1;
      }
      ok := true;
      FollowedFar(fs.g, place.ch, k, idx, rest);
    }

    /** dir_seek: succeeds exactly for the indices inside the table, and then points at that entry. */
    method Seek(idx: nat) returns (res: FResult)
      requires Valid() && idx < MAX_ENTRIES
      modifies this`index, this`clust, this`sect, this`ofs, fs`disk, fs`wflag, fs`winsect, fs.win
      ensures Valid()
      ensures res == if idx < |Entries()| then Ok else IntErr
      ensures res == Ok ==> At(idx)
    {
      hide FatFs.Valid, Fat, Times, Located, Points, Sectors, SizeOf, Fits, TableAt, GoodSectors, InRange;
      FitsMeans(fs.g, place, fs.image);
      StartCluster(fs.g, Fat(fs.g, fs.image), sclust, place);
      index := idx;
      var clst := sclust;
      if clst == 0 && fs.g.fatType == Fat32 { clst := fs.g.dirbase; }
      if clst == 0 {
        clust := clst;
        StaticPoints(fs.g, idx);
        if idx >= fs.g.nRootdir { return IntErr; }
        sect := fs.g.dirbase + idx / 16;
      } else {
        var ok, c, rest, k := Follow(clst, idx);
        SizeIs(fs.g, place, idx);
        if !ok { return IntErr; }
        clust := c;
        ChainLink(fs.g, Fat(fs.g, fs.image), sclust, place.ch, k);
        PointsInChain(fs.g, place.ch, k, idx, rest);
        sect := fs.Clust2Sect(c) + rest / 16;
      }
      ofs := OffsetOf(idx);
      res := Ok;
    }

    /** The stretch in dir_next: 0 if no cluster is free, else a new cluster, cleared, at the end of the chain. */
    method Stretch() returns (clst: nat)
      requires Valid() && place.Chain? && place.ch != [] && clust == Last(place.ch) && |Entries()| < MAX_ENTRIES
      modifies this`place, fs`disk, fs`wflag, fs`winsect, fs`image, fs`lastClust, fs`freeClust, fs`fsiFlag, fs.win
      ensures Valid() && Lengthened(fs.g, old(place), place, old(fs.image), fs.image)
      ensures clst == 0 ==> place == old(place) && NoneFree(Fat(fs.g, fs.image))
      ensures clst != 0 ==> place == Chain(old(place.ch) + [clst])
      ensures Created(old(fs.Table()), clust, clst, Mask(fs.g.fatType, 0xFFF_FFFF), fs.Table())
      ensures GrownFrom(old(fs.Table()), old(place))
      ensures Extra(old(place), place) <= 1 && Enlarged(fs.g, old(place), |old(Entries())|, place, |Entries()|)
      ensures old(fs.Exact()) ==> fs.Exact()
    {
      hide FreeExact, FatFs.Valid, Fat, Located, Lengthened, Cleared, Created, SameData, GoodSectors, Sectors, GrownTo,
           Mask;
      ghost var d, a, ch := fs.image, fs.Table(), place.ch;
      LengthenedSelf(fs.g, place, d);
      GrownByNone(a, ch, Mask(fs.g.fatType, 0xFFF_FFFF));
      clst := fs.CreateChain(clust);
      fs.ValidDisk();
      TableGrows(fs.g, a, sclust, ch, clst, fs.Table());
      if clst != 0 {
        GrownByOne(a, ch, clst, Mask(fs.g.fatType, 0xFFF_FFFF), fs.Table());
        ghost var m := fs.image;
        fs.ClearCluster(clst);
        fs.ValidDisk();
        ClearedCluster(fs.g, m, fs.image, clst);
        StretchedTable(fs.g, d, m, fs.image, sclust, ch, clst);
        place := Chain(ch + [clst]);
        OneClusterMore(fs.g, ch, clst);
        LengthenedFits(fs.g, Chain(ch), place, d, fs.image);
      }
    }

    /** The step of dir_next from the last entry of a cluster to the next cluster. */
    method NextLink(i: nat, ghost s: nat, stretch: bool) returns (res: FResult)
      requires Valid() && Points(fs.g, place, index, clust, s, ofs)
      requires i == index + 1 < MAX_ENTRIES && i % 16 == 0 && BeginsCluster(fs.g, i) && place.Chain?
      modifies this`place, this`clust, this`sect
      modifies fs`disk, fs`wflag, fs`winsect, fs`image, fs`lastClust, fs`freeClust, fs`fsiFlag, fs.win
      ensures Valid()
      ensures Stepped(fs.g, old(place), place, old(fs.image), fs.image, i, old(|Entries()|), stretch, res, clust, sect)
      ensures GrownFrom(old(fs.Table()), old(place))
      ensures old(fs.Exact()) ==> fs.Exact()
    {
      hide Enlarged, GrownFrom, PlaceGrown, Created, FatFs.Table, FatFs.Exact, FatFs.Valid, Fat, Located, Lengthened,
           ChainSectors, GoodSectors, Points, TableAt, NoneFree, Sectors, SizeOf, Times, Fits, InRange, BeginsCluster,
           ClusterNo, OffsetOf;
      FitsMeans(fs.g, place, fs.image);
      GrownNot();
      EnlargedSelf(fs.g, place, |Entries()|);
      NextCluster(fs.g, place.ch, index, clust, s, ofs);
      ghost var ch, j: nat := place.ch, ClusterNo(fs.g, index);
      ChainLink(fs.g, Fat(fs.g, fs.image), sclust, ch, j);
      LengthenedSelf(fs.g, place, fs.image);
      var clst := fs.GetFat(clust);
      res := Ok;
      if clst >= fs.g.maxClust {
        if !stretch { return NoFile; }
        clst := Stretch();
        if clst == 0 { return Denied; }
        FitsMeans(fs.g, place, fs.image);
        LastInChain(fs.g, place.ch, i);
        StretchedRange(fs.g, place.ch);
      }
      clust := clst;
      sect := fs.Clust2Sect(clst);
    }

    /** The step of dir_next to the next sector. */
    method NextSector(i: nat, stretch: bool) returns (res: FResult)
      requires Valid() && At(index) && i == index + 1 < MAX_ENTRIES && i % 16 == 0
      modifies this`clust, this`sect, this`place
      modifies fs`disk, fs`wflag, fs`winsect, fs`image, fs`lastClust, fs`freeClust, fs`fsiFlag, fs.win
      ensures Valid()
      ensures Stepped(fs.g, old(place), place, old(fs.image), fs.image, i, old(|Entries()|), stretch, res, clust, sect)
      ensures GrownFrom(old(fs.Table()), old(place))
      ensures old(fs.Exact()) ==> fs.Exact()
    {
      hide GrownFrom, FatFs.Table, FatFs.Exact, FatFs.Valid, Fat, Located, Stepped, TableAt, Fits, Points,
           Geometry.Ok, Geometry.FatEnd, BeginsCluster;
      ghost var s := sect;
      sect := sect + 1;
      FitsMeans(fs.g, place, fs.image);
      GrownNot();
      PointsInfo(fs.g, place, index, clust, s, ofs);
      ChainedClusters(fs.g);
      if clust != 0 && BeginsCluster(fs.g, i) {
        res := NextLink(i, s, stretch);
        return;
      }
      SteppedPlainly(fs.g, place, fs.image, index, stretch, clust, s, ofs);
      res := if clust == 0 && i >= fs.g.nRootdir then NoFile else Ok;
    }

    /** dir_next: points at the next entry; at the end of the table it reports that, or stretches the table by a
        cleared cluster. The last index is 65535. */
    method Next(stretch: bool) returns (res: FResult)
      requires Valid() && At(index)
      modifies this`index, this`clust, this`sect, this`ofs, this`place
      modifies fs`disk, fs`wflag, fs`winsect, fs`image, fs`lastClust, fs`freeClust, fs`fsiFlag, fs.win
      ensures Valid() && Lengthened(fs.g, old(place), place, old(fs.image), fs.image)
      ensures res == Ok ==> At(old(index) + 1)
      ensures old(index) + 1 < |old(Entries())| ==> place == old(place) && res == Ok
      ensures old(index) + 1 >= |old(Entries())| ==> old(index) + 1 == |old(Entries())|
      ensures old(index) + 1 == |old(Entries())| ==> AtEnd(stretch, place == old(place), Fat(fs.g, fs.image), res)
      ensures Extra(old(place), place) <= 1 && Enlarged(fs.g, old(place), |old(Entries())|, place, |Entries()|)
      ensures res == NoFile ==> place == old(place) && (place.Chain? && stretch ==> |Entries()| == MAX_ENTRIES)
      ensures GrownFrom(old(fs.Table()), old(place))
      ensures old(fs.Exact()) ==> fs.Exact()
    {
      hide GrownFrom, FatFs.Table, FatFs.Exact, FatFs.Valid, Fat, Located, Lengthened, GoodSectors, TableAt, NoneFree,
           Sectors, Fits, Points, InRange, Geometry.Ok, ClusterSector, OffsetOf;
      FitsMeans(fs.g, place, fs.image);
      LengthenedSelf(fs.g, place, fs.image);
      GrownNot();
      EnlargedSelf(fs.g, place, |Entries()|);
      PointsInfo(fs.g, place, index, clust, sect, ofs);
      var i := (index + 1) % 0x1_0000;
      if i == 0 || sect == 0 { return NoFile; }
      if i % 16 == 0 {
        var r := NextSector(i, stretch);
        if r != Ok { return r; }
      } else {
        NextInSector(fs.g, place, index, clust, sect, ofs);
      }
      index := i;
      ofs := OffsetOf(i);
      res := Ok;
    }

    /** dir_next without stretching: nothing changes but the position. */
    method Step() returns (res: FResult)
      requires Valid() && At(index)
      modifies this`index, this`clust, this`sect, this`ofs, this`place
      modifies fs`disk, fs`wflag, fs`winsect, fs`image, fs`lastClust, fs`freeClust, fs`fsiFlag, fs.win
      ensures Valid() && place == old(place) && fs.image == old(fs.image) && fs.Hints() == old(fs.Hints())
      ensures res == if old(index) + 1 < |Entries()| then Ok else NoFile
      ensures res == Ok ==> At(old(index) + 1)
      ensures old(index) + 1 <= |Entries()|
      ensures old(fs.Exact()) ==> fs.Exact()
    {
      hide GrownFrom, PlaceGrown, FatFs.Exact, FatFs.Valid, Located, Points, Fits, TableAt, Lengthened;
      fs.ValidDisk();
      ghost var a := fs.Table();
      res := Next(false);
      LengthenedFits(fs.g, old(place), place, old(fs.image), fs.image);
      GrownIs(a, place);
      NotGrown(a, place, Mask(fs.g.fatType, 0xFFF_FFFF), fs.Table());
    }

    /** Stepping from entry 0, which comes to the same position as seeking, for exactly the same indices. */
    method SeekByStepping(idx: nat) returns (ok: bool)
      requires Valid() && idx < MAX_ENTRIES
      modifies this`index, this`clust, this`sect, this`ofs, this`place
      modifies fs`disk, fs`wflag, fs`winsect, fs`image, fs`lastClust, fs`freeClust, fs`fsiFlag, fs.win
      ensures Valid() && place == old(place) && fs.image == old(fs.image) && fs.Hints() == old(fs.Hints())
      ensures ok <==> idx < |Entries()|
      ensures ok ==> At(idx)
      ensures old(fs.Exact()) ==> fs.Exact()
    {
      hide FatFs.Exact, FatFs.Valid, Located, Points, Fits, TableAt;
      var res := Seek(0);
      if res != Ok { return false; }
      var n := 0;
      while n < idx
        invariant old(fs.Exact()) ==> fs.Exact()
        invariant Valid() && place == old(place) && fs.image == old(fs.image) && fs.Hints() == old(fs.Hints())
        invariant n <= idx && At(n)
      {
        res := Step();
        if res != Ok { return false; }
        n := n + 1;
      }
      ok := true;
      FitsMeans(fs.g, place, fs.image);
      PointsBound(fs.g, place, idx, clust, sect, ofs);
    }

    /** The entry pointed at, brought into the window. */
    method Load() returns (e: Entry)
      requires Valid() && At(index)
      modifies fs`disk, fs`wflag, fs`winsect, fs.win
      ensures Valid() && fs.winsect == sect && index < |Entries()| && e == Entries()[index]
    {
      hide Located, Points, Fits, TableAt, Mirrored, Store;
      EntryInSector(fs.g, place, fs.image, index, clust, sect, ofs);
      fs.MoveWindow(sect);
      e := fs.win[ofs..ofs + 32];
      assert e == fs.win[..][ofs..ofs + 32];
    }

    /** Bytes stored into the entry pointed at, whose sector is in the window. */
    method Put(at: nat, bs: seq<byte>)
      requires Valid() && At(index) && fs.winsect == sect && at + |bs| <= 32
      modifies fs`wflag, fs`image, fs.win
      ensures Valid() && Rewritten(fs.g, place, old(fs.image), fs.image) && At(index) && fs.winsect == sect
      ensures index < |old(Entries())| && Entries() == old(Entries())[index := Splice(old(Entries())[index], at, bs)]
      ensures old(fs.Exact()) ==> fs.Exact()
    {
      hide FreeExact, FatFs.Valid, Located, Points, Fits, TableAt, Splice, Fat;
      StoreAtEntry(fs.g, place, fs.image, index, clust, sect, ofs, at, bs);
      EntryInSector(fs.g, place, fs.image, index, clust, sect, ofs);
      fs.StoreData(ofs + at, bs);
      RewrittenFits(fs.g, place, old(fs.image), fs.image);
    }

    // ----- finding -----

    /** The key that a search looks for: the short name unless it is lossy, and the long name if there is one. */
    ghost function Sought(name: seq<word>): Key
      reads `fn, `lfnOn
    {
      Key(fn.fn, fn.loss, if lfnOn then name else [])
    }

    /** The LFN buffer holds `name`. */
    ghost predicate HoldsName(name: seq<word>)
      reads `lfn
    {
      Proper(name) && Holds(lfn, name)
    }

    /** One pass of the loop of dir_find: the end of the table, the entry looked for, or one to go on from. */
    method Examine(ghost name: seq<word>, ghost names: Names, ghost zero: nat, s: Auto)
      returns (end: bool, found: bool, s': Auto)
      requires Valid() && HoldsName(name) && Laid(Entries(), names, zero) && At(index) && |lfn| == MAX_LFN + 1
      requires Tracks(Entries(), names, lfn, lfnOn, index, s)
      modifies fs`disk, fs`wflag, fs`winsect, fs.win
      ensures Valid() && fs.winsect == sect && index < |Entries()|
      ensures end ==> Entries()[index][0] == 0
      ensures !end && found ==> index in names && Matches(Entries(), names, Sought(name), index)
      ensures !end && found ==>
        s'.lfnIdx == if MatchesLong(names, Sought(name), index) then First(names, index) else NO_LFN
      ensures !end && !found ==>
        !Matches(Entries(), names, Sought(name), index) && Tracks(Entries(), names, lfn, lfnOn, index + 1, s')
    {
      hide FatFs.Valid, Located, Points, Fits, TableAt, Laid, Proper, Tracks, Matches, MatchesLong, Holds;
      ghost var t := Entries();
      var e := Load();
      end, found, s' := e[0] == 0, false, s;
      if !end { found, s' := Look(t, names, zero, name, fn.fn, fn.loss, lfn, lfnOn, index, e, s); }
    }

    /** dir_find on a table of whole objects: finds the first object that matches, or that there is none. */
    method Find(ghost name: seq<word>, ghost names: Names, ghost zero: nat) returns (res: FResult)
      requires Valid() && HoldsName(name) && Laid(Entries(), names, zero)
      modifies this`index, this`clust, this`sect, this`ofs, this`place, this`lfnIdx
      modifies fs`disk, fs`wflag, fs`winsect, fs`image, fs`lastClust, fs`freeClust, fs`fsiFlag, fs.win
      ensures Valid() && place == old(place) && fs.image == old(fs.image) && fs.Hints() == old(fs.Hints())
      ensures Answer(Entries(), names, Sought(name), res, index, lfnIdx)
      ensures res == Ok ==> At(index) && fs.winsect == sect
      ensures old(fs.Exact()) ==> fs.Exact()
    {
      hide Geometry.Ok, Sectors, SizeOf, GoodSectors, FatFs.Shape, Fat, MatchesShort, FatFs.Exact, FatFs.Valid, Located,
           Points, Fits, TableAt, Laid, Proper, Tracks, Matches, MatchesLong, Holds;
      ghost var t, k := Entries(), Sought(name);
      res := Seek(0);
      if res != Ok { return; }
      HoldsBuffer(lfn, name);
      FirstInTable(t, names, zero);
      StartTracks(t, names, lfn, lfnOn, Auto(NONE, NONE, lfnIdx));
      var s := Auto(NONE, NONE, lfnIdx);
      while true
        invariant old(fs.Exact()) ==> fs.Exact()
        invariant Valid() && place == old(place) && fs.image == old(fs.image) && fs.Hints() == old(fs.Hints())
        invariant At(index) && lfnIdx == s.lfnIdx
        invariant res == Ok
        invariant Tracks(t, names, lfn, lfnOn, index, s) && forall a :: 0 <= a < index ==> !Matches(t, names, k, a)
        invariant index < |t|
        decreases |t| - index
      {
        var end, found;
        end, found, s := Examine(name, names, zero, s);
        if end {
          NoneFrom(t, names, zero, k, index);
          return NoFile;
        }
        lfnIdx := s.lfnIdx;
        if found { return; }
        ghost var i := index;
        var r := Step();
        if r != Ok {
          NoneFrom(t, names, zero, k, i + 1);
          return r;
        }
      }
    }

    // ----- registering -----

    method NameLength(ghost name: seq<word>) returns (n: nat)
      requires HoldsName(name)
      ensures n == |name| && n <= |lfn| && lfn[..n] == name
    {
      hide Proper;
      ProperIsLfn(name);
      n := 0;
      while lfn[n] != 0
        invariant 0 <= n <= |name|
        decreases |name| - n
      {
        n := n + 1;
      }
    }

    /** One pass of that loop: the numbered name is looked for, by its short form only. */
    method TryNumber(ghost name: seq<word>, ghost names: Names, ghost zero: nat, src: seq<byte>, len: nat, n: word)
      returns (res: FResult)
      requires Valid() && HoldsName(name) && Laid(Entries(), names, zero) && |src| == 11 && !lfnOn
      requires 0 < len <= |lfn| && lfn[..len] == name
      modifies this`index, this`clust, this`sect, this`ofs, this`place, this`lfnIdx, this`fn
      modifies fs`disk, fs`wflag, fs`winsect, fs`image, fs`lastClust, fs`freeClust, fs`fsiFlag, fs.win
      ensures Valid() && place == old(place) && fs.image == old(fs.image) && fs.Hints() == old(fs.Hints())
      ensures fn == Form(NumberedWith(src, name, n), false, false, false, false)
      ensures match res
        case Ok => ShortUsed(Entries(), names, fn.fn)
        case NoFile => !ShortUsed(Entries(), names, fn.fn)
        case _ => res == IntErr && Entries() == []
      ensures old(fs.Exact()) ==> fs.Exact()
    {
      hide FatFs.Exact, FatFs.Valid, Located, Points, Fits, TableAt, Laid, NumberedWith, MatchesShort, MatchesLong,
           Proper, Fat;
      var d := GenNumName(src, lfn[..len], n);
      fn := Form(d, false, false, false, false);
      res := Find(name, names, zero);
      ShortAnswer(Entries(), names, d, res, index, lfnIdx);
    }

    /** The loop of dir_register that numbers a lossy name: tries the numbers 1 to 99 until one gives a short name that
        no object has. */
    method PickNumber(ghost name: seq<word>, ghost names: Names, ghost zero: nat)
      returns (res: FResult, ghost num: word)
      requires Valid() && HoldsName(name) && Laid(Entries(), names, zero) && |fn.fn| == 11 && lfnOn
      modifies this`index, this`clust, this`sect, this`ofs, this`place, this`lfnIdx, this`fn, this`lfnOn
      modifies fs`disk, fs`wflag, fs`winsect, fs`image, fs`lastClust, fs`freeClust, fs`fsiFlag, fs.win
      ensures Valid() && place == old(place) && fs.image == old(fs.image) && fs.Hints() == old(fs.Hints())
      ensures res == NoFile ==>
        lfnOn && fn == old(fn).(fn := fn.fn) && LeastNumber(Entries(), names, old(fn).fn, name, num, fn.fn)
      ensures res == NoFile ==> Given(old(fn).fn, name, num, fn.fn)
      ensures res == NoFile ==> !ShortUsed(Entries(), names, fn.fn)
      ensures res != NoFile ==> res == Denied || (res == IntErr && Entries() == [])
      ensures res == Denied ==> NumbersTaken(Entries(), names, old(fn).fn, name, 100)
      ensures old(fs.Exact()) ==> fs.Exact()
    {
      hide FatFs.Exact, FatFs.Valid, Located, Points, Fits, TableAt, Laid, NumberedWith, NumbersTaken, ShortUsed,
           Proper, Fat, Given;
      var sn := fn;
      var len := NameLength(name);
      ProperIsLfn(name);
      lfnOn := false;
      num := 1;
      var n: word := 1;
      NoneTaken(Entries(), names, sn.fn, name);
      while n < 100
        invariant 1 <= n <= 100 && Valid() && place == old(place) && fs.image == old(fs.image) && !lfnOn
        invariant fs.Hints() == old(fs.Hints())
        invariant NumbersTaken(Entries(), names, sn.fn, name, n)
        invariant old(fs.Exact()) ==> fs.Exact()
      {
        res := TryNumber(name, names, zero, sn.fn, len, n);
        if res != Ok {
          num := n;
          NumberGiven(sn.fn, name, n);
          if res == NoFile {
            fn := sn.(fn := fn.fn);
            lfnOn := true;
          }
          return;
        }
        TakenOneMore(Entries(), names, sn.fn, name, n);
        n := n + 1;
      }
      res := Denied;
    }

    lemma PositionBound()
      requires Valid() && At(index)
      ensures index < MAX_ENTRIES
    {
      hide FatFs.Valid, Fat, Located, Points;
      FitsMeans(fs.g, place, fs.image);
      PointsInfo(fs.g, place, index, clust, sect, ofs);
    }

    /** The table went from `n0` entries at `p0` to its size by whole clusters, and entry `i` is in the last of them. */
    ghost predicate RoomFor(p0: Place, n0: nat, i: nat)
      requires Fits(fs.g, place, fs.image)
      reads `place, fs`image
    {
      && Enlarged(fs.g, p0, n0, place, |Entries()|)
      && (Extra(p0, place) > 0 ==> |Entries()| <= i + 16 * fs.g.csize)
    }

    lemma RoomBegins()
      requires Valid()
      ensures DiskOf(fs.g, fs.image) && Lengthened(fs.g, place, place, fs.image, fs.image)
      ensures GrownFrom(fs.Table(), place) && RoomFor(place, |Entries()|, 0) && Extra(place, place) == 0
    {
      hide FatFs.Valid, Located, Fat, Lengthened;
      FitsMeans(fs.g, place, fs.image);
      LengthenedSelf(fs.g, place, fs.image);
      GrownNot();
    }

    lemma RoomFound(p0: Place, n0: nat)
      requires Valid() && At(index) && RoomFor(p0, n0, index)
      ensures Enlarged(fs.g, p0, n0, place, |Entries()|)
      ensures 1 <= fs.g.csize && Extra(p0, place) == ClustersMore(n0, index + 1, 16 * fs.g.csize)
    {
      hide FatFs.Valid, Located, Fat, Points, TableAt;
      FitsMeans(fs.g, place, fs.image);
      ChainedClusters(fs.g);
      PointsInfo(fs.g, place, index, clust, sect, ofs);
      EnlargedToReach(fs.g, p0, n0, place, |Entries()|, index + 1);
    }

    /** The step of that search to the next entry. */
    method NextRoom(ghost ne: nat, ghost n: nat, ghost p0: Place, ghost n0: nat, ghost a0: Alloc, ghost d0: Disk)
      returns (res: FResult)
      requires Valid() && At(index) && Lengthened(fs.g, p0, place, d0, fs.image)
      requires RoomSoFar(Entries(), ne, index + 1, n)
      requires GrownFrom(a0, p0) && RoomFor(p0, n0, index)
      modifies this`index, this`clust, this`sect, this`ofs, this`place
      modifies fs`disk, fs`wflag, fs`winsect, fs`image, fs`lastClust, fs`freeClust, fs`fsiFlag, fs.win
      ensures Valid() && Lengthened(fs.g, p0, place, d0, fs.image) && GrownFrom(a0, p0)
      ensures RoomFor(p0, n0, old(index) + 1)
      ensures res == Ok ==> At(index) && index == old(index) + 1 && RoomSoFar(Entries(), ne, index, n)
      ensures res == NoFile ==> NoRoom(Entries(), ne) && (place.Chain? ==> |Entries()| == MAX_ENTRIES)
      ensures res == Ok || res == NoFile || (res == Denied && NoneFree(Fat(fs.g, fs.image)))
      ensures old(fs.Exact()) ==> fs.Exact()
    {
      hide FatFs.Exact, FatFs.Valid, Located, Points, Fits, TableAt, Lengthened, RoomSoFar, Fat, NoneFree, Geometry.Ok,
           Sectors, SizeOf, GoodSectors, FatFs.Shape, FatFs.Table, GrownFrom, Enlarged, Grew, Extra, NoRoom;
      FitsMeans(fs.g, place, fs.image);
      ghost var p, d, t, a := place, fs.image, Entries(), fs.Table();
      GrownIs(a0, p0);
      LengthenedGrew(fs.g, p0, p, d0, d);
      res := Next(true);
      FitsMeans(fs.g, place, fs.image);
      GrownOn(a0, p0, a, p);
      LengthenedGrew(fs.g, p, place, d, fs.image);
      EnlargedStep(fs.g, p0, n0, p, |t|, place, |Entries()|, old(index) + 1);
      LengthenedTwice(fs.g, p0, p, place, d0, d, fs.image);
      LengthenedTable(fs.g, p, place, d, fs.image);
      RoomStretched(t, ne, old(index) + 1, n, |Entries()| - |t|);
      if res == NoFile { RoomEnd(Entries(), ne, n); }
    }

    /** The search of dir_register for `ne` blank entries in a row, stretching the table where it ends, by exactly as
        many clusters as the entries need. */
    method Reserve(ne: nat) returns (res: FResult, start: nat)
      requires Valid() && 1 <= ne
      modifies this`index, this`clust, this`sect, this`ofs, this`place
      modifies fs`disk, fs`wflag, fs`winsect, fs`image, fs`lastClust, fs`freeClust, fs`fsiFlag, fs.win
      ensures Valid() && Lengthened(fs.g, old(place), place, old(fs.image), fs.image)
      ensures GrownFrom(old(fs.Table()), old(place))
      ensures Enlarged(fs.g, old(place), |old(Entries())|, place, |Entries()|)
      ensures res == Ok ==> At(index) && start + ne == index + 1 <= |Entries()| && FirstFit(Entries(), ne, start)
      ensures res == Ok ==> forall k :: start <= k <= index ==> IsBlank(Entries()[k])
      ensures res == Ok ==> Extra(old(place), place) == ClustersMore(|old(Entries())|, index + 1, 16 * fs.g.csize)
      ensures res == NoFile ==> NoRoom(Entries(), ne) && (place.Chain? ==> |Entries()| == MAX_ENTRIES)
      ensures res != Ok ==>
        (res == IntErr && Entries() == []) || res == NoFile || (res == Denied && NoneFree(Fat(fs.g, fs.image)))
      ensures old(fs.Exact()) ==> fs.Exact()
    {
      hide FatFs.Exact, FatFs.Valid, Located, Points, Fits, TableAt, Lengthened, FirstFit, RoomSoFar, Fat, NoneFree,
           Geometry.Ok, Sectors, SizeOf, GoodSectors, FatFs.Shape, FatFs.Table, GrownFrom, Enlarged, Grew, Extra,
           ClustersMore, NoRoom;
      RoomBegins();
      ghost var p0, n0, a0, d0 := place, |Entries()|, fs.Table(), fs.image;
      start := 0;
      res := Seek(0);
      if res != Ok { return; }
      var n := 0;
      RoomStart(Entries(), ne);
      while true
        invariant old(fs.Exact()) ==> fs.Exact()
        invariant Valid() && At(index) && res == Ok && Lengthened(fs.g, p0, place, d0, fs.image)
        invariant RoomSoFar(Entries(), ne, index, n) && (n > 0 ==> start + n == index)
        invariant DiskOf(fs.g, fs.image) && GrownFrom(a0, p0) && RoomFor(p0, n0, index)
        decreases MAX_ENTRIES - index
      {
        PositionBound();
        var e := Load();
        RoomStep(Entries(), ne, index, n);
        if IsBlank(e) {
          if n == 0 { start := index; }
          n := n + 1;
          if n == ne {
            RoomFound(p0, n0);
            return;
          }
        } else {
          n := 0;
        }
        res := NextRoom(ne, n, p0, n0, a0, d0);
        fs.ValidDisk();
        if res != Ok { return; }
      }
    }

    /** The loop of dir_register that stores the entries of a long name, last segment first. */
    method StoreLong(ghost name: seq<word>, sum: byte, count: nat)
      requires Valid() && HoldsName(name) && At(index) && count == Segments(name) && index + count < |Entries()|
      modifies this`index, this`clust, this`sect, this`ofs, this`place
      modifies fs`disk, fs`wflag, fs`winsect, fs`image, fs`lastClust, fs`freeClust, fs`fsiFlag, fs.win
      ensures Valid() && place == old(place) && At(old(index) + count) && fs.Hints() == old(fs.Hints())
      ensures Rewritten(fs.g, place, old(fs.image), fs.image)
      ensures Stored(old(Entries()), Entries(), old(index), count, count, name, sum)
      ensures old(fs.Exact()) ==> fs.Exact()
    {
      hide FatFs.Exact, FatFs.Valid, Located, Points, Fits, TableAt, Rewritten, Proper, Holds, IsPiece, Fat, Stored,
           Splice;
      RewrittenSelf(fs.g, place, fs.image);
      ProperIsLfn(name);
      StoredNone(Entries(), index, count, name, sum);
      ghost var start := index;
      var ne := count;
      while ne > 0
        invariant old(fs.Exact()) ==> fs.Exact()
        invariant 0 <= ne <= count && Valid() && place == old(place) && At(index) && index == start + count - ne
        invariant Rewritten(fs.g, place, old(fs.image), fs.image) && |Entries()| == |old(Entries())|
        invariant fs.Hints() == old(fs.Hints())
        invariant Stored(old(Entries()), Entries(), start, count, count - ne, name, sum)
      {
        var e := Load();
        ghost var d := fs.image;
        e := FitLfn(lfn, e, ne, sum, name);
        StoredNext(old(Entries()), Entries(), start, count, count - ne, name, sum, e);
        Put(0, e);
        RewrittenTwice(fs.g, place, old(fs.image), d, fs.image);
        var r := Step();
        ne := ne - 1;
      }
    }

    /** The last part of dir_register: the entries of the long name, if it gets one, and the short entry. */
    method WriteObject(ghost name: seq<word>, ghost long: seq<word>, ne: nat, start: nat)
      requires Valid() && HoldsName(name) && (long == [] || long == name) && ne == Segments(long) + 1
      requires At(start + ne - 1) && start + ne <= |Entries()| && |fn.fn| == 11 && Short(ShortEntry(fn)) == fn.fn
      requires forall k :: start <= k < start + ne ==> IsBlank(Entries()[k])
      modifies this`index, this`clust, this`sect, this`ofs, this`place
      modifies fs`disk, fs`wflag, fs`winsect, fs`image, fs`lastClust, fs`freeClust, fs`fsiFlag, fs.win
      ensures Valid() && place == old(place) && At(start + ne - 1) && fs.winsect == sect
      ensures Rewritten(fs.g, place, old(fs.image), fs.image) && fs.Hints() == old(fs.Hints())
      ensures Registered(old(Entries()), Entries(), long, ShortEntry(fn), start + ne - 1)
      ensures old(fs.Exact()) ==> fs.Exact()
    {
      hide FatFs.Exact, FatFs.Valid, Located, Points, Fits, TableAt, Rewritten, Proper, Holds, Fat, Stored, Splice,
           ShortEntry, Registered, SumOf, Short;
      RewrittenSelf(fs.g, place, fs.image);
      StoredNothing(Entries(), start, ShortEntry(fn));
      ghost var t := Entries();
      if ne > 1 {
        var sum := SumSfn(fn.fn);
        assert fn.fn[..11] == fn.fn;
        var r := Seek(start);
        StoreLong(name, sum, ne - 1);
      }
      ghost var u, d := Entries(), fs.image;
      var _ := Load();
      Put(0, ShortEntry(fn));
      RewrittenTwice(fs.g, place, old(fs.image), d, fs.image);
      RegisteredNow(t, u, Entries(), start, long, ShortEntry(fn));
    }

    /** The first part of dir_register: a short name that no object has. */
    method ChooseForm(ghost name: seq<word>, ghost names: Names, ghost zero: nat) returns (res: FResult)
      requires Valid() && HoldsName(name) && Laid(Entries(), names, zero) && fn == FormOf(name) && lfnOn
      requires forall a :: !Matches(Entries(), names, KeyOf(name), a)
      modifies this`index, this`clust, this`sect, this`ofs, this`place, this`lfnIdx, this`fn, this`lfnOn
      modifies fs`disk, fs`wflag, fs`winsect, fs`image, fs`lastClust, fs`freeClust, fs`fsiFlag, fs.win
      ensures Valid() && place == old(place) && fs.image == old(fs.image) && fs.Hints() == old(fs.Hints())
      ensures res == NoFile ==> Chosen(Entries(), names, name, fn) && lfnOn
      ensures res != NoFile ==> res == Denied || (res == IntErr && Entries() == [])
      ensures res == Denied ==> FormOf(name).loss && NumbersTaken(Entries(), names, FormOf(name).fn, name, 100)
      ensures old(fs.Exact()) ==> fs.Exact()
    {
      hide FatFs.Exact, FatFs.Valid, Located, Fits, TableAt, Laid, NumbersTaken, LeastNumber, MatchesShort, Matches,
           Proper, Fat, FormOf, Chosen;
      ProperIsAscii(name);
      if fn.loss {
        ghost var num;
        res, num := PickNumber(name, names, zero);
        if res == NoFile { ChosenNumbered(Entries(), names, name, num, fn.fn); }
      } else {
        ChosenPlain(Entries(), names, name);
        res := NoFile;
      }
    }

    /** dir_register once the short name is chosen: makes room, and writes the object. */
    method RegisterAs(ghost name: seq<word>, ghost names: Names, ghost zero: nat) returns (res: FResult)
      requires Valid() && HoldsName(name) && WellFormed(Entries(), names, zero) && Ascii(name)
      requires Chosen(Entries(), names, name, fn) && forall a :: !Matches(Entries(), names, KeyOf(name), a)
      modifies this`index, this`clust, this`sect, this`ofs, this`place
      modifies fs`disk, fs`wflag, fs`winsect, fs`image, fs`lastClust, fs`freeClust, fs`fsiFlag, fs.win
      ensures Valid() && Changed(fs.g, old(place), place, old(fs.image), fs.image)
      ensures res == Ok ==> At(index) && fs.winsect == sect
      ensures res == Ok ==> index < |Entries()| && |fn.fn| == 11 && Entries()[index] == ShortEntry(fn)
      ensures res == Ok ==>
        var names' := names[index := if FormOf(name).lfn then name else []];
        WellFormed(Entries(), names', ZeroAfter(zero, index)) &&
          NewName(old(Entries()), names, Entries(), names', name, index)
      ensures res == Ok ==>
        AddedTo(old(Entries()), Entries(), if FormOf(name).lfn then name else [], ShortEntry(fn), index)
      ensures res == Ok ==> Extra(old(place), place) == ClustersMore(|old(Entries())|, index + 1, 16 * fs.g.csize)
      ensures res == NoFile ==>
        && NoRoom(Entries(), Segments(if FormOf(name).lfn then name else []) + 1)
        && (place.Chain? ==> |Entries()| == MAX_ENTRIES)
      ensures GrownFrom(old(fs.Table()), old(place))
      ensures Enlarged(fs.g, old(place), |old(Entries())|, place, |Entries()|)
      ensures res != Ok ==>
        Lengthened(fs.g, old(place), place, old(fs.image), fs.image) && WellFormed(Entries(), names, zero)
      ensures res != Ok ==>
        (res == IntErr && old(Entries()) == []) || res == NoFile || (res == Denied && NoneFree(Fat(fs.g, fs.image)))
      ensures old(fs.Exact()) ==> fs.Exact()
    {
      hide FatFs.Exact, FatFs.Valid, Located, Points, Fits, TableAt, WellFormed, Matches, Proper, Holds, Fat, FormOf,
           Chosen, Changed, Lengthened, Rewritten, Registered, FirstFit, NewName, ShortEntry, Short, NoneFree, AddedTo,
           NoRoom, Enlarged, Extra, ClustersMore, PlaceGrown, Geometry.Ok, Sectors, GoodSectors, Stretched;
      ghost var t0 := Entries();
      ChosenLong(t0, names, name, fn);
      var ne := 1;
      if fn.lfn {
        var len := NameLength(name);
        ne := (len + 25) / 13;
      }
      ghost var long := if fn.lfn then name else [];
      var start;
      res, start := Reserve(ne);
      LengthenedTable(fs.g, old(place), place, old(fs.image), fs.image);
      StretchedKeeps(t0, names, zero, Entries());
      LengthenedIs(fs.g, old(place), place, old(fs.image), fs.image);
      if res != Ok { return; }
      ghost var t, m := Entries(), fs.image;
      WriteObject(name, long, ne, start);
      RewrittenFits(fs.g, place, m, fs.image);
      ChangedBy(fs.g, old(place), place, old(fs.image), m, fs.image);
      AddedIs(t0, t, Entries(), long, ShortEntry(fn), index);
      RegisterDone(t0, names, zero, t, Entries(), name, fn, index, long);
    }

    /** dir_register of a name that the search did not find: unless there is no room or no free number, the name is in
        the table from then on, and all other names are found as before. */
    method Register(ghost name: seq<word>, ghost names: Names, ghost zero: nat) returns (res: FResult)
      requires Valid() && HoldsName(name) && WellFormed(Entries(), names, zero) && fn == FormOf(name)
      requires lfnOn
      requires forall a :: !Matches(Entries(), names, KeyOf(name), a)
      modifies this`index, this`clust, this`sect, this`ofs, this`place, this`lfnIdx, this`fn, this`lfnOn
      modifies fs`disk, fs`wflag, fs`winsect, fs`image, fs`lastClust, fs`freeClust, fs`fsiFlag, fs.win
      ensures Valid() && Changed(fs.g, old(place), place, old(fs.image), fs.image)
      ensures res == Ok ==> At(index) && fs.winsect == sect && Chosen(old(Entries()), names, name, fn)
      ensures res == Ok ==> index < |Entries()| && Entries()[index] == ShortEntry(fn)
      ensures res == Ok ==>
        var names' := names[index := if FormOf(name).lfn then name else []];
        WellFormed(Entries(), names', ZeroAfter(zero, index)) &&
          NewName(old(Entries()), names, Entries(), names', name, index)
      ensures res == Ok ==>
        AddedTo(old(Entries()), Entries(), if FormOf(name).lfn then name else [], ShortEntry(fn), index)
      ensures res == Ok ==> Extra(old(place), place) == ClustersMore(|old(Entries())|, index + 1, 16 * fs.g.csize)
      ensures res == NoFile ==>
        && NoRoom(Entries(), Segments(if FormOf(name).lfn then name else []) + 1)
        && (place.Chain? ==> |Entries()| == MAX_ENTRIES)
      ensures GrownFrom(old(fs.Table()), old(place))
      ensures Enlarged(fs.g, old(place), |old(Entries())|, place, |Entries()|)
      ensures res != Ok ==>
        Lengthened(fs.g, old(place), place, old(fs.image), fs.image) && WellFormed(Entries(), names, zero)
      ensures res != Ok ==> res == Denied || res == NoFile || (res == IntErr && old(Entries()) == [])
      ensures res == Denied ==>
        || (FormOf(name).loss && NumbersTaken(old(Entries()), names, FormOf(name).fn, name, 100))
        || NoneFree(Fat(fs.g, fs.image))
      ensures old(fs.Exact()) ==> fs.Exact()
    {
      hide FatFs.Exact, FatFs.Valid, Located, Points, Fits, TableAt, WellFormed, Laid, Unique, Matches, Proper, Holds,
           Fat, FormOf, Chosen, Changed, Lengthened, Rewritten, Registered, FirstFit, NewName, ShortEntry, Short,
           NoneFree, NumbersTaken, AddedTo, NoRoom, Enlarged, Extra, ClustersMore, GrownFrom;
      ProperIsAscii(name);
      FitsMeans(fs.g, place, fs.image);
      GrownNot();
      EnlargedSelf(fs.g, place, |Entries()|);
      LengthenedSelf(fs.g, place, fs.image);
      LengthenedIs(fs.g, place, place, fs.image, fs.image);
      WellFormedIsLaid(Entries(), names, zero);
      res := ChooseForm(name, names, zero);
      if res != NoFile { return; }
      res := RegisterAs(name, names, zero);
    }

    // ----- removing -----

    /** dir_remove of the object that dir_find came to. If it was found by its long name, or has none, the table keeps
        its form, the name is gone and all others are found as before; if not, its long-name entries are left behind. */
    method Remove(ghost names: Names, ghost zero: nat) returns (res: FResult)
      requires Valid() && At(index) && WellFormed(Entries(), names, zero)
      requires index in names && (lfnIdx == NO_LFN || lfnIdx == First(names, index))
      modifies this`index, this`clust, this`sect, this`ofs, this`place
      modifies fs`disk, fs`wflag, fs`winsect, fs`image, fs`lastClust, fs`freeClust, fs`fsiFlag, fs.win
      ensures Valid() && place == old(place) && Rewritten(fs.g, place, old(fs.image), fs.image) && res == Ok
      ensures fs.Hints() == old(fs.Hints())
      ensures Erased(old(Entries()), Entries(), RemoveFrom(lfnIdx, old(index)), old(index))
      ensures RemoveFrom(lfnIdx, old(index)) == First(names, old(index)) ==>
        WellFormed(Entries(), names - {old(index)}, zero) && NameGone(old(Entries()), names, Entries(), old(index))
      ensures RemoveFrom(lfnIdx, old(index)) != First(names, old(index)) ==>
        forall names', zero' :: !Laid(Entries(), names', zero')
      ensures old(fs.Exact()) ==> fs.Exact()
    {
      hide FatFs.Exact, FatFs.Valid, Located, Points, Fits, TableAt, WellFormed, Laid, Rewritten, Fat, Splice, ErasedTo,
           Erased, NameGone, Segments, Sectors, SizeOf, GoodSectors, Geometry.Ok, FatFs.Shape, IsBlank, Short;
      RewrittenSelf(fs.g, place, fs.image);
      PositionBound();
      ghost var t := Entries();
      var i := index;
      var from := RemoveFrom(lfnIdx, i);
      RemoveStart(t, names, zero, i, lfnIdx);
      ErasedNone(t, from);
      res := Seek(from);
      while true
        invariant old(fs.Exact()) ==> fs.Exact()
        invariant Valid() && place == old(place) && At(index) && from <= index <= i && |Entries()| == |t|
        invariant Rewritten(fs.g, place, old(fs.image), fs.image) && ErasedTo(t, Entries(), from, index)
        invariant fs.Hints() == old(fs.Hints())
        decreases i - index
      {
        var _ := Load();
        ghost var d := fs.image;
        ErasedNext(t, Entries(), from, index);
        Put(0, [0xE5]);
        RewrittenTwice(fs.g, place, old(fs.image), d, fs.image);
        if index >= i { break; }
        var r := Step();
      }
      ErasedAll(t, Entries(), from, i);
      RemoveDone(t, names, zero, Entries(), i, from);
      res := Ok;
    }
  }
}
