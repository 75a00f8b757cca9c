/** Result codes of the driver (FRESULT of ff.h) that runs without disk errors can give. */
module Results {
  datatype FResult = Ok | IntErr | NoFile | NoPath | InvalidName | Denied | Exist | MkfsAborted | NoFilesystem | DiskErr
}

/** The mounted volume (FATFS of ff.h): the one-sector write-back window and the FAT access on top of it. */
module Volume {
  import opened Bytes
  import opened Geometry
  import opened FatTable
  import opened Results
  import opened Chains
  import opened ChainRuns
  import opened FileBytes

  class FatFs {
    const g: Geometry
    const win: array<byte>
    var disk: Disk
    var winsect: nat
    var wflag: bool
    var fsiFlag: bool
    var lastClust: dword
    var freeClust: dword
    ghost var image: Disk   // the logical disk: what `disk` is once the window is written back

    /** The state chk_mounted leaves: nothing cached, nothing dirty. The window still holds whatever sector
        was read last, which `w` stands for. */
    constructor (g: Geometry, disk: Disk, w: Sector, last: dword, free: dword, flag: bool)
      requires g.Ok() && |disk| == g.nSectors && Mirrored(g, disk)
      ensures Valid() && fresh(win) && this.g == g && this.disk == image == disk
      ensures winsect == 0 && !wflag && fsiFlag == flag && lastClust == last && freeClust == free
    {
      this.g := g;
      this.disk := disk;
      image := disk;
      win := new byte[512](i requires 0 <= i < 512 => w[i]);
      winsect := 0;
      wflag := false;
      fsiFlag := flag;
      lastClust := last;
      freeClust := free;
    }

    ghost predicate Shape()
      reads `disk, `image, `winsect, `wflag, win
    {
      && g.Ok() && |disk| == |image| == g.nSectors && win.Length == 512
      && winsect < g.nSectors && (wflag ==> g.Writable(winsect))
    }

    ghost predicate Valid()
      reads `disk, `image, `winsect, `wflag, win
    {
      && Shape()
      && image == (if wflag then Store(g, disk, winsect, win[..]) else disk)
      && (!wflag && winsect != 0 ==> win[..] == disk[winsect])
      && Mirrored(g, image)
    }

    lemma ValidDisk()
      requires Valid()
      ensures DiskOf(g, image) && Mirrored(g, image)
    {
    }

    /** The window shows the logical contents of its sector. */
    lemma WindowShows()
      requires Valid() && winsect != 0
      ensures win[..] == image[winsect]
    {
      if wflag { CopyIsSelf(g, winsect, winsect); }
    }

    /** Repeats the sector just written at `winsect` into the other FAT copies. */
    method WriteMirrors(ghost d0: Disk)
      requires Shape() && !wflag && g.InFat(winsect) && |d0| == |disk|
      requires disk == d0[winsect := win[..]]
      modifies this`disk
      ensures |disk| == |d0| && disk == Store(g, d0, winsect, win[..])
    {
      var wsect, nf := winsect, g.nFats;
      while nf > 1
        invariant 1 <= nf <= g.nFats && |disk| == |d0|
        invariant wsect == winsect + Times(g.nFats - nf, g.sectsFat)
        invariant forall i :: 0 <= i < |d0| ==>
                    disk[i] == if InSteps(i, winsect, g.sectsFat, g.nFats - nf + 1) then win[..] else d0[i]
      {
        ghost var k, k' := g.nFats - nf + 1, g.nFats - nf + 2;
        forall i: nat
          ensures InSteps(i, winsect, g.sectsFat, k') <==>
                  InSteps(i, winsect, g.sectsFat, k) || i == winsect + Times(k, g.sectsFat)
        {
          StepsSnoc(i, winsect, g.sectsFat, k);
        }
        wsect := wsect + g.sectsFat;
        StepsSnocAt(g, winsect, wsect, g.nFats - nf + 1);
        disk := disk[wsect := win[..]];
        nf := nf - 1;
      }
    }

    /** The write-back half of move_window: the dirty sector and its FAT mirrors. */
    method WriteBack()
      requires Valid() && wflag
      modifies this`disk, this`wflag
      ensures Valid() && !wflag
    {
      FatAreaHolds(g);
      CopyIsSelf(g, winsect, winsect);
      ghost var d0 := disk;
      disk := disk[winsect := win[..]];
      wflag := false;
      if winsect < g.fatbase + g.sectsFat {
        WriteMirrors(d0);
      }
      assert disk == image;
    }

    /** Nothing is dirty; but the window need not show its sector. */
    ghost predicate Clean()
      reads `disk, `image, `winsect, `wflag, win
    {
      Shape() && !wflag && disk == image && Mirrored(g, image)
    }

    /** The read half of move_window. */
    method LoadSector(sector: nat)
      requires Clean() && 0 < sector < g.nSectors
      modifies this`winsect, win
      ensures Valid() && winsect == sector && !wflag && win[..] == image[sector]
    {
      forall i | 0 <= i < 512 { win[i] := disk[sector][i]; }
      winsect := sector;
      assert win[..] == disk[sector];
    }

    /** move_window: brings a sector into the window, writing a dirty one back first; sector 0 only writes back. */
    method MoveWindow(sector: nat)
      requires Valid() && sector < g.nSectors
      modifies this`disk, this`wflag, this`winsect, win
      ensures Valid()
      ensures winsect == if sector == 0 then old(winsect) else sector
      ensures sector != 0 ==> win[..] == image[sector]
      ensures sector != old(winsect) ==> !wflag
      ensures sector == old(winsect) ==> disk == old(disk) && wflag == old(wflag) && win[..] == old(win[..])
      ensures sector == 0 ==> win[..] == old(win[..])
    {
      if winsect != sector {
        if wflag { WriteBack(); }
        if sector != 0 { LoadSector(sector); }
      } else if sector != 0 {
        WindowShows();
      }
    }

    /** Bytes stored into the window at `off`, and the window marked dirty. */
    method StoreBytes(off: nat, t: seq<byte>)
      requires Valid() && g.Writable(winsect) && off + |t| <= 512
      modifies this`wflag, this`image, win
      ensures Valid() && wflag
      ensures image == Store(g, old(image), winsect, Splice(old(image[winsect]), off, t))
    {
      FatAreaHolds(g);
      WindowShows();
      ghost var w: Sector := win[..];
      Copy(win, off, t);
      ghost var w': Sector := win[..];
      StoreTwice(g, disk, winsect, w, w');
      StoreKeepsMirrors(g, image, winsect, w');
      wflag := true;
      image := Store(g, image, winsect, w');
    }

    /** Brings sector `t` of the first FAT copy into the window. */
    method SeekFat(t: nat)
      requires Valid() && t < g.sectsFat
      modifies this`disk, this`wflag, this`winsect, win
      ensures Valid() && winsect == g.fatbase + t && g.InFat(winsect)
      ensures t * 512 + 512 <= |FatBytes(g, image)| && win[..] == Piece(FatBytes(g, image), t)
    {
      hide Store, Mirrored, Flat, Piece;
      FatAreaHolds(g);
      MoveWindow(g.fatbase + t);
      SectorOfFat(g, image, t);
    }

    /** One byte of the FAT, through the window. */
    method LoadFat(i: nat) returns (b: byte)
      requires Valid() && i < g.sectsFat * 512
      modifies this`disk, this`wflag, this`winsect, win
      ensures Valid() && winsect == g.fatbase + i / 512 && g.InFat(winsect)
      ensures b == FatBytes(g, image)[i]
    {
      SeekFat(i / 512);
      b := win[i % 512];
      assert b == Piece(FatBytes(g, image), i / 512)[i % 512];
    }

    /** Bytes stored into the FAT sector in the window. */
    method StoreFat(t: nat, off: nat, bs: seq<byte>)
      requires Valid() && t < g.sectsFat && winsect == g.fatbase + t && off + |bs| <= 512
      modifies this`wflag, this`image, win
      ensures Valid() && wflag
      ensures FatBytes(g, image) == Splice(FatBytes(g, old(image)), t * 512 + off, bs)
      ensures SameData(g, old(image), image)
    {
      hide Mirrored, Flat, FatBytes, SameData;
      StoreInFat(g, image, t, off, bs);
      StoreBytes(off, bs);
    }

    /** Changes byte `i` of the FAT, whose sector is in the window. */
    method StoreFatByte(i: nat, b: byte)
      requires Valid() && i < g.sectsFat * 512 && winsect == g.fatbase + i / 512
      modifies this`wflag, this`image, win
      ensures Valid() && wflag
      ensures FatBytes(g, image) == Splice(FatBytes(g, old(image)), i, [b])
      ensures SameData(g, old(image), image)
    {
      StoreFat(i / 512, i % 512, [b]);
    }

    /** The sector in the window replaced as a whole, outside the FAT area. */
    method StoreSector(w: Sector)
      requires Valid() && g.FatEnd() <= winsect
      modifies this`wflag, this`image, win
      ensures Valid() && wflag && image == old(image)[winsect := w]
    {
      FatAreaHolds(g);
      CopyIsSelf(g, winsect, winsect);
      ghost var d := image;
      StoreElsewhere(g, d, winsect, w);
      assert Splice(d[winsect], 0, w) == w;
      StoreBytes(0, w);
      assert forall i :: 0 <= i < |d| ==> CopyOf(g, winsect, i) == (i == winsect);
    }

    /** Bytes stored into the sector in the window, outside the FAT area. */
    method StoreData(off: nat, bs: seq<byte>)
      requires Valid() && g.FatEnd() <= winsect && off + |bs| <= 512
      modifies this`wflag, this`image, win
      ensures Valid() && wflag
      ensures image == old(image)[winsect := Splice(old(image)[winsect], off, bs)]
    {
      FatAreaHolds(g);
      ghost var d := image;
      StoreElsewhere(g, d, winsect, Splice(d[winsect], off, bs));
      StoreBytes(off, bs);
      assert forall i :: 0 <= i < |d| ==> CopyOf(g, winsect, i) == (i == winsect);
    }

    /** Writes the window, which is clean but not loaded from anywhere, to a sector outside the FAT area. */
    method FlushTo(sector: nat, ghost w: Sector)
      requires Clean() && g.FatEnd() <= sector < g.nSectors && win[..] == w
      modifies this`disk, this`wflag, this`winsect, this`image, win
      ensures Valid() && !wflag && winsect == sector && disk == image == old(image)[sector := w] && win[..] == w
    {
      FatAreaHolds(g);
      ZeroSector(g, disk, sector, w);
      winsect := sector;
      wflag := true;
      image := image[sector := w];
      MoveWindow(0);
    }

    /** The cleared window written to `n` sectors, and the window's address put back to the first of them. */
    method ClearSectors(dsect: nat, n: nat)
      requires Clean() && win[..] == Zeros(512)
      requires 1 <= n && g.FatEnd() <= dsect && dsect + n <= g.nSectors
      modifies this`disk, this`wflag, this`winsect, this`image, win
      ensures Valid() && winsect == dsect && Cleared(old(image), image, dsect, dsect + n)
    {
      hide Mirrored, Store, Zeros, Geometry.Ok;
      var c := 0;
      while c < n
        invariant 0 <= c <= n && Clean() && win[..] == Zeros(512)
        invariant c > 0 ==> winsect == dsect + c - 1
        invariant Cleared(old(image), image, dsect, dsect + c)
      {
        FlushTo(dsect + c, Zeros(512));
        c := c + 1;
      }
      winsect := winsect + 1 - c;
    }

    /** The writing loop of f_mkdir: `head` in the first sector, zeros in the others. The window is cleared after each
        write, so at the end it need not show the sector written last. */
    method InitSectors(dsect: nat, csize: nat, head: Sector)
      requires Clean() && win[..] == head && g.FatEnd() <= dsect && dsect + csize <= g.nSectors && 1 <= csize
      modifies this`disk, this`wflag, this`winsect, this`image, win
      ensures Clean() && winsect == dsect + csize - 1 && Initialised(old(image), image, dsect, csize, head)
    {
      hide Store, Mirrored, Zeros, Geometry.Ok;
      var n := 0;
      while n < csize
        invariant 0 <= n <= csize && Clean() && win[..] == (if n == 0 then head else Zeros(512))
        invariant n > 0 ==> winsect == dsect + n - 1
        invariant Initialised(old(image), image, dsect, n, head)
      {
        FlushTo(dsect + n, if n == 0 then head else Zeros(512));
        Fill(win, 0);
        FilledIsZeros(win[..]);
        n := n + 1;
      }
    }

    /** The table cluster of a new directory. */
    method InitCluster(clst: nat, head: Sector)
      requires Valid() && 2 <= clst < g.maxClust
      modifies this`disk, this`wflag, this`winsect, this`image, win
      ensures Clean() && winsect == ClusterSector(g, clst) + g.csize - 1
      ensures Initialised(old(image), image, ClusterSector(g, clst), g.csize, head)
    {
      hide Store, Mirrored;
      FatAreaHolds(g);
      ClusterInRange(g, clst);
      MoveWindow(0);
      Copy(win, 0, head);
      SpliceWhole(win[..], head);
      InitSectors(ClusterSector(g, clst), g.csize, head);
    }

    /** The zero fill of a new cluster in dir_next: the cleared window is written to each of its sectors. */
    method ClearCluster(clst: nat)
      requires Valid() && 2 <= clst < g.maxClust
      modifies this`disk, this`wflag, this`winsect, this`image, win
      ensures Valid() && winsect == ClusterSector(g, clst)
      ensures Cleared(old(image), image, ClusterSector(g, clst), ClusterSector(g, clst) + g.csize)
    {
      hide Store, Mirrored;
      FatAreaHolds(g);
      ClusterInRange(g, clst);
      MoveWindow(0);
      Fill(win, 0);
      assert win[..] == Zeros(512);
      ClearSectors(ClusterSector(g, clst), g.csize);
    }

    // The three cases of get_fat.

    method GetFat12(clst: nat) returns (r: nat)
      requires Valid() && g.fatType == Fat12 && clst < g.maxClust && clst + clst / 2 + 2 <= g.sectsFat * 512
      modifies this`disk, this`wflag, this`winsect, win
      ensures Valid() && r == EntryAt(g.fatType, FatBytes(g, image), clst) && g.InFat(winsect)
    {
      hide Store, Mirrored, Flat, FatBytes;
      var bc := clst;
      bc := bc + bc / 2;
      var lo := LoadFat(bc);
      bc := bc + 1;
      var hi := LoadFat(bc);
      var wc := lo as int + 0x100 * (hi as int);
      r := if clst % 2 == 1 then wc / 16 else wc % 0x1000;
    }

    method GetFat16(clst: nat) returns (r: nat)
      requires Valid() && g.fatType == Fat16 && clst < g.maxClust && 2 * clst + 2 <= g.sectsFat * 512
      modifies this`disk, this`wflag, this`winsect, win
      ensures Valid() && r == EntryAt(g.fatType, FatBytes(g, image), clst) && g.InFat(winsect)
    {
      hide Valid, Fat, Geometry.Ok, Store, Mirrored, LdWord, LdDword, EntryAt, Flat, FatBytes, Piece;
      ValidDisk();
      FitsInSector(g, clst);
      SeekFat(clst / 256);
      Entry16InWindow(FatBytes(g, image), clst);
      r := LdWord(win[..], clst % 0x1_0000 * 2 % 512);
    }

    method GetFat32(clst: nat) returns (r: nat)
      requires Valid() && g.fatType == Fat32 && clst < g.maxClust && 4 * clst + 4 <= g.sectsFat * 512
      modifies this`disk, this`wflag, this`winsect, win
      ensures Valid() && r == EntryAt(g.fatType, FatBytes(g, image), clst) && g.InFat(winsect)
    {
      hide Valid, Fat, Geometry.Ok, Store, Mirrored, LdWord, LdDword, EntryAt, Flat, FatBytes, Piece;
      ValidDisk();
      FitsInSector(g, clst);
      SeekFat(clst / 128);
      Entry32InWindow(FatBytes(g, image), clst);
      r := LdDword(win[..], clst % 0x1_0000 * 4 % 512) % 0x1000_0000;
    }

    /** get_fat: 1 for a cluster out of range, else the entry; FAT access never changes the logical disk. */
    method GetFat(clst: nat) returns (r: nat)
      requires Valid()
      modifies this`disk, this`wflag, this`winsect, win
      ensures Valid()
      ensures r == if 2 <= clst < g.maxClust then Fat(g, image)[clst] else 1
      ensures if 2 <= clst < g.maxClust then g.InFat(winsect) else winsect == old(winsect)
    {
      if clst < 2 || clst >= g.maxClust { return 1; }
      FatAt(g, image, clst);
      match g.fatType
      case Fat12 => r := GetFat12(clst);
      case Fat16 => r := GetFat16(clst);
      case Fat32 => r := GetFat32(clst);
    }

    // The three cases of put_fat: two bytes, each in its own sector when the entry straddles, or one
    // 16- or 32-bit store.

    method EditByte12(bc: nat, clst: nat, val: dword, high: bool)
      requires Valid() && bc < g.sectsFat * 512
      modifies this`disk, this`wflag, this`winsect, this`image, win
      ensures Valid() && g.InFat(winsect) && SameData(g, old(image), image)
      ensures var b := FatBytes(g, old(image));
        FatBytes(g, image) == Splice(b, bc, [if high then High12(clst, b[bc], val) else Low12(clst, b[bc], val)])
    {
      hide Store, Mirrored, Flat, FatBytes, Low12, High12, Splice, SameData;
      var p := LoadFat(bc);
      StoreFatByte(bc, if high then High12(clst, p, val) else Low12(clst, p, val));
    }

    method PutFat12(clst: nat, val: dword)
      requires Valid() && g.fatType == Fat12 && clst < g.maxClust && clst + clst / 2 + 2 <= g.sectsFat * 512
      modifies this`disk, this`wflag, this`winsect, this`image, win
      ensures Valid() && g.InFat(winsect)
      ensures FatBytes(g, image) == PutAt(g.fatType, FatBytes(g, old(image)), clst, val)
      ensures SameData(g, old(image), image)
    {
      hide Store, Mirrored, Flat, FatBytes, Low12, High12, Splice, PutAt, SameData;
      PutBytewise(FatBytes(g, image), clst, val);
      var bc := clst;
      bc := bc + bc / 2;
      EditByte12(bc, clst, val, false);
      ghost var d := image;
      bc := bc + 1;
      EditByte12(bc, clst, val, true);
      SameDataTwice(g, old(image), d, image);
    }

    method PutFat16(clst: nat, val: dword)
      requires Valid() && g.fatType == Fat16 && clst < g.maxClust && 2 * clst + 2 <= g.sectsFat * 512
      modifies this`disk, this`wflag, this`winsect, this`image, win
      ensures Valid() && g.InFat(winsect)
      ensures FatBytes(g, image) == PutAt(g.fatType, FatBytes(g, old(image)), clst, val)
      ensures SameData(g, old(image), image)
    {
      hide Store, Mirrored, Flat, FatBytes, Splice, SameData;
      FitsInSector(g, clst);
      SeekFat(clst / 256);
      StoreFat(clst / 256, clst % 0x1_0000 * 2 % 512, [val % 0x100, val / 0x100 % 0x100]);
    }

    method PutFat32(clst: nat, val: dword)
      requires Valid() && g.fatType == Fat32 && clst < g.maxClust && 4 * clst + 4 <= g.sectsFat * 512
      modifies this`disk, this`wflag, this`winsect, this`image, win
      ensures Valid() && g.InFat(winsect)
      ensures FatBytes(g, image) == PutAt(g.fatType, FatBytes(g, old(image)), clst, val)
      ensures SameData(g, old(image), image)
    {
      hide Store, Mirrored, Flat, FatBytes, Splice, SameData;
      FitsInSector(g, clst);
      SeekFat(clst / 128);
      StoreFat(clst / 128, clst % 0x1_0000 * 4 % 512,
               [val % 0x100, val / 0x100 % 0x100, val / 0x1_0000 % 0x100, val / 0x100_0000 % 0x100]);
    }

    /** put_fat: rejects a cluster out of range, else changes exactly one entry of the logical FAT, in every
        copy, and nothing outside the FAT area. */
    method PutFat(clst: nat, val: dword) returns (res: FResult)
      requires Valid()
      modifies this`disk, this`wflag, this`winsect, this`image, win
      ensures Valid()
      ensures res == if 2 <= clst < g.maxClust then Ok else IntErr
      ensures res == Ok ==> Fat(g, image) == Fat(g, old(image))[clst := Mask(g.fatType, val)]
      ensures res == Ok ==> SameData(g, old(image), image) && g.InFat(winsect)
      ensures res != Ok ==> image == old(image) && winsect == old(winsect)
    {
      if clst < 2 || clst >= g.maxClust { return IntErr; }
      EntryFits(g, clst);
      match g.fatType {
        case Fat12 => PutFat12(clst, val);
        case Fat16 => PutFat16(clst, val);
        case Fat32 => PutFat32(clst, val);
      }
      PutUpdates(g, old(image), clst, val, image);
      res := Ok;
    }

    // ----- chains -----

    ghost function Table(): Alloc
      requires DiskOf(g, image)
      reads `image, `lastClust, `freeClust
    {
      Alloc(Fat(g, image), lastClust, freeClust)
    }

    /** last_clust and free_clust. */
    ghost function Hints(): (dword, dword)
      reads `lastClust, `freeClust
    {
      (lastClust, freeClust)
    }

    /** free_clust, if known, is the number of free clusters. */
    ghost predicate Exact()
      reads `image, `freeClust
    {
      DiskOf(g, image) && FreeExact(Alloc(Fat(g, image), 0, freeClust))
    }

    /** remove_chain. */
    method RemoveChain(start: nat) returns (res: FResult)
      requires Valid()
      modifies this`disk, this`wflag, this`winsect, this`image, this`freeClust, this`fsiFlag, win
      ensures Valid() && SameData(g, old(image), image)
      ensures if 2 <= start < g.maxClust
        then Fat(g, image) == Cut(Fat(g, old(image)), start)
             && freeClust == Raised(old(freeClust), CutCount(Fat(g, old(image)), start))
             && res == (if CutMeetsOne(Fat(g, old(image)), start) then IntErr else Ok)
             && g.InFat(winsect)
        else res == IntErr && image == old(image) && freeClust == old(freeClust)
      ensures fsiFlag == (old(fsiFlag) || freeClust != old(freeClust))
      ensures old(Exact()) ==> Exact()
    {
      hide Valid, Flat, FatBytes, Store, Mirrored, Fat, Cut, CutCount, CutMeetsOne, Used, SameData, FreeExact;
      ValidDisk();
      SameDataSelf(g, image);
      if start < 2 || start >= g.maxClust { return IntErr; }
      var clst := start;
      res := Ok;
      ghost var f0 := Fat(g, image);
      while clst < g.maxClust
        invariant Valid() && DiskOf(g, image) && SameData(g, old(image), image) && res == Ok && 2 <= clst
        invariant clst == start || g.InFat(winsect)
        invariant old(freeClust) <= freeClust && fsiFlag == (old(fsiFlag) || freeClust != old(freeClust))
        invariant Cut(f0, start) == Cut(Fat(g, image), clst)
        invariant CutMeetsOne(f0, start) == CutMeetsOne(Fat(g, image), clst)
        invariant Raised(old(freeClust), CutCount(f0, start)) == Raised(freeClust, CutCount(Fat(g, image), clst))
        decreases Used(Fat(g, image))
      {
        ghost var f := Fat(g, image);
        var nxt := GetFat(clst);
        if nxt == 0 { break; }
        if nxt == 1 { res := IntErr; break; }
        CutStep(f, clst);
        ghost var d := image;
        res := PutFat(clst, 0);
        SameDataTwice(g, old(image), d, image);
        if freeClust != 0xFFFF_FFFF {
          freeClust := freeClust + 1;
          fsiFlag := true;
        }
        clst := nxt;
        ValidDisk();
      }
      CutStopped(Fat(g, image), clst);
      if old(Exact()) { CutIsExact(f0, old(freeClust), start); }
    }

    /** Nor does remove_chain make an exact count wrong. */
    lemma CutIsExact(f: seq<nat>, free: dword, start: nat)
      requires DiskOf(g, image) && |f| == g.maxClust && FreeExact(Alloc(f, 0, free))
      requires Fat(g, image) == Cut(f, start) && freeClust == Raised(free, CutCount(f, start))
      ensures Exact()
    {
      hide Fat, Geometry.Ok;
      Sizes(g);
      CountAfterCut(Alloc(f, 0, free), f, start);
    }

    /** Relinking a cluster in use keeps the count as well. */
    lemma PutIsExact(f: seq<nat>, c: nat, v: nat)
      requires DiskOf(g, image) && FreeExact(Alloc(f, 0, freeClust))
      requires 2 <= c < |f| == g.maxClust && f[c] != 0 && v != 0 && Fat(g, image) == f[c := v]
      ensures Exact()
    {
      hide Fat;
      FreeBelowUpdate(f, |f|, c, v);
    }

    /** create_chain does not make an exact count wrong. */
    lemma CreatedIsExact(a: Alloc, clst: nat, r: nat)
      requires DiskOf(g, image) && Created(a, clst, r, Mask(g.fatType, 0xFFF_FFFF), Table()) && FreeExact(a.(last := 0))
      requires |a.fat| == g.maxClust
      ensures Exact()
    {
      hide Fat, Geometry.Ok, Created;
      Sizes(g);
      MaskKeeps(g);
      CreatedKeepsCount(a, clst, r, Mask(g.fatType, 0xFFF_FFFF), Table());
    }

    /** The scan loop of create_chain, from `scl` on. */
    method FindFree(scl: nat) returns (r: nat)
      requires Valid() && 1 <= scl < g.maxClust
      modifies this`disk, this`wflag, this`winsect, win
      ensures Valid() && Scanned(Fat(g, image), scl, r)
      ensures winsect == old(winsect) || g.InFat(winsect)
      ensures r != 0 ==> g.InFat(winsect)
    {
      hide Valid, Flat, FatBytes, Store, Mirrored, Fat;
      ValidDisk();
      ghost var f := Fat(g, image);
      var ncl := scl;
      ghost var k := 0;   // clusters looked at
      while true
        invariant Valid() && 0 <= k <= if scl == 1 then g.maxClust - 2 else g.maxClust - 3
        invariant winsect == old(winsect) || g.InFat(winsect)
        invariant ncl == if scl + k < g.maxClust then scl + k else scl + k - (g.maxClust - 2)
        invariant forall c :: 2 <= c < g.maxClust && Steps(g.maxClust, scl, c) <= k ==> f[c] > 1
        decreases g.maxClust - k
      {
        ncl := ncl + 1;
        if ncl >= g.maxClust {
          ncl := 2;
          if ncl > scl { return 0; }
        }
        var cs := GetFat(ncl);
        if cs == 0 { return ncl; }
        if cs == 1 { return 1; }
        if ncl == scl { return 0; }
        k := k + 1;
      }
    }

    /** The two FAT writes of create_chain: the new cluster ends its chain, and `clst`, if any, links to it. */
    method MarkAndLink(ncl: nat, clst: nat)
      requires Valid() && 2 <= ncl < g.maxClust && (clst == 0 || 2 <= clst < g.maxClust)
      modifies this`disk, this`wflag, this`winsect, this`image, win
      ensures Valid() && SameData(g, old(image), image) && g.InFat(winsect)
      ensures var f := Fat(g, old(image))[ncl := Mask(g.fatType, 0xFFF_FFFF)];
        Fat(g, image) == if clst == 0 then f else f[clst := ncl]
    {
      hide Valid, Flat, FatBytes, Store, Mirrored, Fat;
      ValidDisk();
      MaskKeeps(g);
      var _ := PutFat(ncl, 0xFFF_FFFF);
      if clst != 0 {
        var _ := PutFat(clst, ncl);
      }
    }

    /** create_chain. */
    method CreateChain(clst: nat) returns (r: nat)
      requires Valid()
      modifies this`disk, this`wflag, this`winsect, this`image, this`lastClust, this`freeClust, this`fsiFlag, win
      ensures Valid() && SameData(g, old(image), image)
      ensures Created(old(Table()), clst, r, Mask(g.fatType, 0xFFF_FFFF), Table())
      ensures r < 2 ==> image == old(image)
      ensures fsiFlag == (old(fsiFlag) || freeClust != old(freeClust))
      ensures winsect == old(winsect) || g.InFat(winsect)
      ensures old(Exact()) ==> Exact()
    {
      hide Valid, Flat, FatBytes, Store, Mirrored, Fat, FreeExact;
      ValidDisk();
      var scl;
      if clst == 0 {
        scl := lastClust;
        if scl == 0 || scl >= g.maxClust { scl := 1; }
      } else {
        var cs := GetFat(clst);
        if cs < 2 { return 1; }
        if cs < g.maxClust { return cs; }
        scl := clst;
      }
      var ncl := FindFree(scl);
      if ncl < 2 { return ncl; }
      MarkAndLink(ncl, clst);
      lastClust := ncl;
      if freeClust != 0xFFFF_FFFF {
        freeClust := (freeClust + 0xFFFF_FFFF) % 0x1_0000_0000;
        fsiFlag := true;
      }
      r := ncl;
      ValidDisk();
      if old(Exact()) { CreatedIsExact(old(Table()), clst, r); }
    }

    // ----- f_getfree and sync -----

    /** The FAT12 scan of f_getfree, by entry, which an entry 1 ends. */
    method CountByEntry() returns (res: FResult, n: nat)
      requires Valid()
      modifies this`disk, this`wflag, this`winsect, win
      ensures Valid() && res == if 2 < g.maxClust && NoOnes(Fat(g, image)) then Ok else IntErr
      ensures res == Ok ==> n == FreeBelow(Fat(g, image), g.maxClust)
    {
      hide Valid, Flat, FatBytes, Store, Mirrored, Fat;
      ValidDisk();
      var clst := 2;
      n := 0;
      while true
        invariant Valid() && 2 <= clst && (clst == 2 || clst < g.maxClust)
        invariant clst <= g.maxClust ==> n == FreeBelow(Fat(g, image), clst)
        invariant forall c :: 2 <= c < clst && c < g.maxClust ==> Fat(g, image)[c] != 1
        decreases g.maxClust - clst
      {
        var stat := GetFat(clst);
        if stat == 1 { return IntErr, n; }
        if stat == 0 { n := n + 1; }
        clst := clst + 1;
        if clst >= g.maxClust { break; }
      }
      res := Ok;
    }

    /** The position of the raw scan before entry `k`: `s` sectors fetched, and `i` bytes of the last one,
        from `p` on, still to be read. */
    ghost predicate ScanAt(k: nat, s: nat, i: nat, p: nat)
      requires DiskOf(g, image)
      reads `image, win
    {
      && EntryByte(g.fatType, k) + i == s * 512 && i <= 512 && i % (if g.fatType == Fat32 then 4 else 2) == 0
      && (i > 0 ==> p + i == 512 && 0 < s && s * 512 <= g.sectsFat * 512
                    && win[..] == Piece(FatBytes(g, image), s - 1))
    }

    /** Fetches a sector when the last one is used up. */
    method ScanFetch(ghost k: nat, s: nat, i: nat, p: nat) returns (s': nat, i': nat, p': nat)
      requires Valid() && g.fatType != Fat12 && k < g.maxClust && ScanAt(k, s, i, p)
      modifies this`disk, this`wflag, this`winsect, win
      ensures Valid() && ScanAt(k, s', i', p') && 0 < i'
    {
      hide Valid, Flat, FatBytes, Store, Mirrored, Piece;
      ValidDisk();
      s', i', p' := s, i, p;
      if i' == 0 {
        EntryFits(g, k);
        SeekFat(s');
        s' := s' + 1;
        p' := 0;
        i' := 512;
      }
    }

    lemma ScanOn(k: nat, i: nat)
      requires g.fatType != Fat12 && i % (if g.fatType == Fat32 then 4 else 2) == 0 && i > 0
      ensures EntryWidth(g.fatType) <= i && (i - EntryWidth(g.fatType)) % (if g.fatType == Fat32 then 4 else 2) == 0
      ensures EntryByte(g.fatType, k + 1) == EntryByte(g.fatType, k) + EntryWidth(g.fatType)
    {
    }

    /** One pass of the raw scan: looks at one entry. */
    method ScanEntry(ghost k: nat, s: nat, i: nat, p: nat) returns (zero: bool, s': nat, i': nat, p': nat)
      requires Valid() && g.fatType != Fat12 && k < g.maxClust && ScanAt(k, s, i, p)
      modifies this`disk, this`wflag, this`winsect, win
      ensures Valid() && ScanAt(k + 1, s', i', p')
      ensures EntryByte(g.fatType, k) + EntryWidth(g.fatType) <= g.sectsFat * 512
      ensures zero <==> EntryAt(g.fatType, FatBytes(g, image), k) == 0
    {
      hide EntryByte, EntryWidth, Geometry.Ok, Valid, Flat, FatBytes, Store, Mirrored, Fat, RawEntry, EntryAt, Piece;
      ValidDisk();
      EntryFits(g, k);
      s', i', p' := ScanFetch(k, s, i, p);
      ScanOn(k, i');
      EntryFromWindow(g.fatType, FatBytes(g, image), s' - 1, p', k);
      zero := RawEntry(g.fatType, win[..], p') == 0;
      p', i' := p' + EntryWidth(g.fatType), i' - EntryWidth(g.fatType);
    }

    /** The FAT16/32 scan of f_getfree, by raw sector from entry 0. */
    method CountBySector() returns (n: nat)
      requires Valid() && g.fatType != Fat12
      modifies this`disk, this`wflag, this`winsect, win
      ensures Valid() && EntryByte(g.fatType, g.maxClust - 1) + EntryWidth(g.fatType) <= g.sectsFat * 512
      ensures n == ZeroEntries(g.fatType, FatBytes(g, image), g.maxClust)
    {
      hide Valid, Flat, FatBytes, Store, Mirrored, Fat, EntryAt, Piece;
      ValidDisk();
      EntriesFit(g, FatBytes(g, image));
      var clst, s, i, p := g.maxClust, 0, 0, 0;
      var zero;
      n := 0;
      while clst > 0
        invariant Valid() && 0 <= clst <= g.maxClust
        invariant s >= 0 && i >= 0 && p >= 0 && ScanAt(g.maxClust - clst, s, i, p)
        invariant n == ZeroEntries(g.fatType, FatBytes(g, image), g.maxClust - clst)
      {
        zero, s, i, p := ScanEntry(g.maxClust - clst, s, i, p);
        if zero { n := n + 1; }
        clst := clst - 1;
      }
    }

    /** f_getfree: the remembered count when it can be one, else the result of a scan. On a FAT12 table with an entry 1
        the scan fails. With a remembered count that is exact if known, and reserved entries in use, the answer is the
        number of free clusters on every type. */
    method GetFree() returns (res: FResult, n: nat)
      requires Valid()
      modifies this`disk, this`wflag, this`winsect, this`freeClust, this`fsiFlag, win
      ensures Valid()
      ensures res == if old(freeClust) > g.maxClust - 2 && g.fatType == Fat12 &&
        !(2 < g.maxClust && NoOnes(Fat(g, image))) then IntErr else Ok
      ensures if res == Ok then n == freeClust else freeClust == old(freeClust)
      ensures old(freeClust) <= g.maxClust - 2 ==> n == old(freeClust)
      ensures EntryByte(g.fatType, g.maxClust - 1) + EntryWidth(g.fatType) <= g.sectsFat * 512
      ensures res == Ok && old(freeClust) > g.maxClust - 2 ==>
        n == if g.fatType == Fat12 then FreeBelow(Fat(g, image), g.maxClust)
          else ZeroEntries(g.fatType, FatBytes(g, image), g.maxClust)
      ensures res == Ok && old(Exact()) && !ReservedClear(g.fatType, FatBytes(g, image)) ==>
        n == FreeBelow(Fat(g, image), g.maxClust) && Exact()
      ensures fsiFlag == (old(fsiFlag) || (g.fatType == Fat32 && old(freeClust) > g.maxClust - 2))
    {
      hide Valid, Flat, FatBytes, Store, Mirrored, Fat, EntryAt, ReservedClear;
      ValidDisk();
      EntriesFit(g, FatBytes(g, image));
      FreeBelowBound(Fat(g, image), g.maxClust);
      if freeClust <= g.maxClust - 2 { return Ok, freeClust; }
      if g.fatType == Fat12 {
        res, n := CountByEntry();
        if res != Ok { return; }
      } else {
        n := CountBySector();
        ZeroEntriesBound(g.fatType, FatBytes(g, image), g.maxClust);
        res := Ok;
        if !ReservedClear(g.fatType, FatBytes(g, image)) { SameCount(g, image, g.maxClust); }
      }
      freeClust := n;
      if g.fatType == Fat32 { fsiFlag := true; }
    }

    /** sync: the window written back, and on FAT32 the FSInfo sector when its numbers changed. */
    method Sync()
      requires Valid()
      modifies this`disk, this`wflag, this`winsect, this`image, this`fsiFlag, win
      ensures Valid() && !wflag && disk == image && (winsect == old(winsect) || winsect == 0)
      ensures image == if g.fatType == Fat32 && old(fsiFlag)
        then old(image)[g.fsiSector := FsInfo(freeClust, lastClust)] else old(image)
      ensures g.fatType == Fat32 ==> !fsiFlag
    {
      MoveWindow(0);
      if g.fatType == Fat32 && fsiFlag {
        winsect := 0;
        Fill(win, 0);
        FatAreaHolds(g);
        assert win[..] == Zeros(512);
        PutWord(win, 510, 0xAA55);
        PutDword(win, 0, 0x4161_5252);
        PutDword(win, 484, 0x6141_7272);
        PutDword(win, 488, freeClust);
        PutDword(win, 492, lastClust);
        disk := disk[g.fsiSector := win[..]];
        image := disk;
        fsiFlag := false;
        MirrorsElsewhere(g, old(image), g.fsiSector, win[..]);
      }
    }

    // ----- data sectors, transferred past the window -----

    /** disk_read of `n` data sectors into a buffer at `at`. */
    method ReadSectors(sect: nat, n: nat, dst: array<byte>, at: nat)
      requires Valid() && g.FatEnd() <= sect && sect + n <= g.nSectors && !(sect <= winsect < sect + n)
      requires dst != win && at + n * 512 <= dst.Length
      modifies dst
      ensures Valid() && sect + n <= |image|
      ensures dst[..] == Splice(old(dst[..]), at, Flat(image, sect, n))
    {
      DiskUnderWindow(g, disk, image, winsect, wflag, win[..], sect, n);
      Copy(dst, at, Flat(disk, sect, n));
    }

    /** disk_write of `n` data sectors. */
    method WriteSectors(sect: nat, n: nat, b: seq<byte>)
      requires Valid() && g.FatEnd() <= sect && sect + n <= g.nSectors && !(sect <= winsect < sect + n)
      requires |b| == n * 512
      modifies this`disk, this`image
      ensures Valid() && sect + n <= |old(image)|
      ensures image == PutSectors(old(image), sect, b, n)
    {
      WriteUnderWindow(g, disk, winsect, win[..], sect, b, n);
      WriteKeepsMirrors(g, image, sect, b, n);
      disk := PutSectors(disk, sect, b, n);
      image := PutSectors(image, sect, b, n);
    }

    /** clust2sect: 0 for a cluster out of range, DWORD arithmetic included. */
    function Clust2Sect(clst: dword): (s: nat)
      requires g.Ok()
      ensures s == if 2 <= clst < g.maxClust then ClusterSector(g, clst) else 0
    {
      LessTwo(clst);
      var c: nat := (clst as int + 0x1_0000_0000 - 2) % 0x1_0000_0000;
      TimesIsProduct(c, g.csize);
      if c >= g.maxClust - 2 then 0 else c * g.csize + g.database
    }
  }

  lemma LessTwo(c: dword)
    ensures (c as int + 0x1_0000_0000 - 2) % 0x1_0000_0000 == if c >= 2 then c as int - 2 else c as int + 0xFFFF_FFFE
  {
  }

  /** `e` is `d` with the sectors from `from` to before `to` cleared. */
  ghost predicate Cleared(d: Disk, e: Disk, from: nat, to: nat)
  {
    |e| == |d| && forall s :: 0 <= s < |d| ==> e[s] == if from <= s < to then Zeros(512) else d[s]
  }

  /** `e` is `d` with `head` and zeros in the `n` sectors from `from` on. */
  ghost predicate Initialised(d: Disk, e: Disk, from: nat, n: nat, head: Sector)
  {
    && |e| == |d|
    && forall s :: 0 <= s < |d| ==>
      e[s] == if from <= s < from + n then (if s == from then head else Zeros(512)) else d[s]
  }

  lemma SpliceWhole(s: seq<byte>, head: Sector)
    requires |s| == 512
    ensures Splice(s, 0, head) == head
  {
  }

  lemma FilledIsZeros(s: seq<byte>)
    requires |s| == 512 && forall i :: 0 <= i < 512 ==> s[i] == 0
    ensures s == Zeros(512)
  {
  }

  /** A sector outside the FAT area is stored without mirrors. */
  lemma ZeroSector(g: Geometry, d: Disk, s: nat, w: Sector)
    requires g.Ok() && |d| == g.nSectors && g.FatEnd() <= s < g.nSectors && Mirrored(g, d)
    ensures Store(g, d, s, w) == d[s := w] && Mirrored(g, d[s := w])
  {
    FatAreaHolds(g);
    StoreKeepsMirrors(g, d, s, w);
    assert forall i :: 0 <= i < |d| ==> CopyOf(g, s, i) == (i == s);
    assert Store(g, d, s, w) == d[s := w];
  }

  /** Sectors other than the one in the window are on the disk as they are in the image. */
  lemma DiskUnderWindow(g: Geometry, d: Disk, e: Disk, s: nat, dirty: bool, w: Sector, sect: nat, n: nat)
    requires g.Ok() && |d| == g.nSectors && (dirty ==> g.Writable(s)) && e == if dirty then Store(g, d, s, w) else d
    requires g.FatEnd() <= sect && sect + n <= g.nSectors && !(sect <= s < sect + n)
    ensures Flat(d, sect, n) == Flat(e, sect, n)
  {
    if dirty {
      StoreElsewhere(g, d, s, w);
      FlatSame(d, e, sect, n);
    }
  }

  lemma WriteUnderWindow(g: Geometry, d: Disk, s: nat, w: Sector, sect: nat, b: seq<byte>, n: nat)
    requires g.Ok() && |d| == g.nSectors && |b| == n * 512
    requires g.FatEnd() <= sect && sect + n <= g.nSectors && !(sect <= s < sect + n)
    ensures g.Writable(s) ==> PutSectors(Store(g, d, s, w), sect, b, n) == Store(g, PutSectors(d, sect, b, n), s, w)
    ensures s < |d| ==> PutSectors(d, sect, b, n)[s] == d[s]
  {
    PutSectorsAt(d, sect, b, n);
    PutSectorsAt(Store(g, d, s, w), sect, b, n);
    if g.Writable(s) {
      forall i: nat | sect <= i < sect + n ensures !CopyOf(g, s, i) { CopyIsSelf(g, s, i); }
    }
  }

  lemma WriteKeepsMirrors(g: Geometry, d: Disk, sect: nat, b: seq<byte>, n: nat)
    requires g.Ok() && |d| == g.nSectors && Mirrored(g, d) && |b| == n * 512
    requires g.FatEnd() <= sect && sect + n <= g.nSectors
    ensures Mirrored(g, PutSectors(d, sect, b, n))
  {
    PutSectorsAt(d, sect, b, n);
    var e := PutSectors(d, sect, b, n);
    forall i | g.fatbase <= i && i + g.sectsFat < g.FatEnd() ensures SameInNext(g, e, i) {
      assert SameInNext(g, d, i);
    }
  }

  /** The FSInfo sector that sync writes. */
  function FsInfo(free: nat, last: nat): Sector
  {
    StDword(StDword(StDword(StDword(StWord(Zeros(512), 510, 0xAA55), 0, 0x4161_5252), 484, 0x6141_7272), 488, free),
        492, last)
  }

  lemma MirrorsElsewhere(g: Geometry, d: Disk, s: nat, w: Sector)
    requires g.Ok() && |d| == g.nSectors && Mirrored(g, d) && s < g.fatbase
    ensures s < |d| && Mirrored(g, d[s := w])
  {
    FatAreaHolds(g);
    var e := d[s := w];
    forall i | g.fatbase <= i && i + g.sectsFat < g.FatEnd() ensures SameInNext(g, e, i) {
      assert SameInNext(g, d, i);
    }
  }

  // ----- counting free entries -----

  /** Whether one of the two reserved entries is zero. */
  predicate ReservedClear(t: FatType, b: seq<byte>)
    requires 8 <= |b|
  {
    EntryAt(t, b, 0) == 0 || EntryAt(t, b, 1) == 0
  }

  /** The zero entries among the first `n` of the raw table. */
  function ZeroEntries(t: FatType, b: seq<byte>, n: nat): nat
    requires n == 0 || EntryByte(t, n - 1) + EntryWidth(t) <= |b|
  {
    if n == 0 then 0 else ZeroEntries(t, b, n - 1) + if EntryAt(t, b, n - 1) == 0 then 1 else 0
  }

  lemma Sizes(g: Geometry)
    requires g.Ok()
    ensures 2 <= g.maxClust < UNKNOWN
  {
  }

  lemma {:induction false} ZeroEntriesBound(t: FatType, b: seq<byte>, n: nat)
    requires n == 0 || EntryByte(t, n - 1) + EntryWidth(t) <= |b|
    ensures ZeroEntries(t, b, n) <= n
  {
    if n > 1 { ZeroEntriesBound(t, b, n - 1); }
  }

  lemma EntriesFit(g: Geometry, b: seq<byte>)
    requires g.Ok() && |b| == g.sectsFat * 512
    ensures forall c :: 0 <= c < g.maxClust ==> EntryByte(g.fatType, c) + EntryWidth(g.fatType) <= |b|
  {
    forall c | 0 <= c < g.maxClust ensures EntryByte(g.fatType, c) + EntryWidth(g.fatType) <= |b| {
      EntryFits(g, c);
    }
  }

  /** A 16- or 32-bit entry as the sector scan loads it from the window. */
  function RawEntry(t: FatType, w: seq<byte>, p: nat): nat
    requires p + EntryWidth(t) <= |w|
  {
    if t == Fat16 then LdWord(w, p) else if t == Fat32 then LdDword(w, p) % 0x1000_0000 else 0
  }

  lemma EntryFromWindow(t: FatType, b: seq<byte>, s: nat, p: nat, c: nat)
    requires t != Fat12 && s * 512 + 512 <= |b| && p + EntryWidth(t) <= 512 && EntryByte(t, c) == s * 512 + p
    ensures EntryAt(t, b, c) == RawEntry(t, Piece(b, s), p)
  {
    SliceLoads(b, s, p);
  }

  /** With the reserved entries in use, both scans count the same clusters. */
  lemma {:induction false} SameCount(g: Geometry, d: Disk, n: nat)
    requires DiskOf(g, d) && 2 <= n <= g.maxClust && !ReservedClear(g.fatType, FatBytes(g, d))
    ensures EntryByte(g.fatType, n - 1) + EntryWidth(g.fatType) <= g.sectsFat * 512
    ensures ZeroEntries(g.fatType, FatBytes(g, d), n) == FreeBelow(Fat(g, d), n)
  {
    EntryFits(g, n - 1);
    FatAt(g, d, n - 1);
    if n > 2 {
      SameCount(g, d, n - 1);
    } else {
      assert ZeroEntries(g.fatType, FatBytes(g, d), 1) == 0;
    }
  }

  /** The offset the driver computes from a cluster number cut to 16 bits is that of the entry. */
  lemma Offset16(c: nat)
    ensures 2 * c == c / 256 * 512 + c % 0x1_0000 * 2 % 512
    ensures c % 0x1_0000 * 2 % 512 + 2 <= 512
  {
    assert c % 0x1_0000 % 256 == c % 256;
    var r := c % 0x1_0000;
    assert r * 2 % 512 == r % 256 * 2;
  }

  lemma Offset32(c: nat)
    ensures 4 * c == c / 128 * 512 + c % 0x1_0000 * 4 % 512
    ensures c % 0x1_0000 * 4 % 512 + 4 <= 512
  {
    assert c % 0x1_0000 % 128 == c % 128;
    var r := c % 0x1_0000;
    assert r * 4 % 512 == r % 128 * 4;
  }

  /** 16- and 32-bit entries lie within one sector. */
  lemma FitsInSector(g: Geometry, c: nat)
    requires g.Ok() && c < g.maxClust && g.fatType != Fat12
    ensures g.fatType == Fat16 ==> 2 * c == c / 256 * 512 + c % 0x1_0000 * 2 % 512
    ensures g.fatType == Fat16 ==> c / 256 < g.sectsFat && c % 0x1_0000 * 2 % 512 + 2 <= 512
    ensures g.fatType == Fat32 ==> 4 * c == c / 128 * 512 + c % 0x1_0000 * 4 % 512
    ensures g.fatType == Fat32 ==> c / 128 < g.sectsFat && c % 0x1_0000 * 4 % 512 + 4 <= 512
  {
    EntryFits(g, c);
    Offset16(c);
    Offset32(c);
  }

  lemma SliceLoads(b: seq<byte>, t: nat, off: nat)
    requires t * 512 + 512 <= |b| && off + 2 <= 512
    ensures LdWord(Piece(b, t), off) == LdWord(b, t * 512 + off)
    ensures off + 4 <= 512 ==> LdDword(Piece(b, t), off) == LdDword(b, t * 512 + off)
  {
  }

  /** What the 16- and 32-bit cases of get_fat load from the window is the entry. */
  lemma Entry16InWindow(b: seq<byte>, c: nat)
    requires |b| % 512 == 0 && 2 * c + 2 <= |b|
    ensures c / 256 * 512 + 512 <= |b| && c % 0x1_0000 * 2 % 512 + 2 <= 512
    ensures LdWord(Piece(b, c / 256), c % 0x1_0000 * 2 % 512) == EntryAt(Fat16, b, c)
  {
    Offset16(c);
    SliceLoads(b, c / 256, c % 0x1_0000 * 2 % 512);
  }

  lemma Entry32InWindow(b: seq<byte>, c: nat)
    requires |b| % 512 == 0 && 4 * c + 4 <= |b|
    ensures c / 128 * 512 + 512 <= |b| && c % 0x1_0000 * 4 % 512 + 4 <= 512
    ensures LdDword(Piece(b, c / 128), c % 0x1_0000 * 4 % 512) % 0x1000_0000 == EntryAt(Fat32, b, c)
  {
    Offset32(c);
    SliceLoads(b, c / 128, c % 0x1_0000 * 4 % 512);
  }

  /** A store into the FAT sector in the window is the same store into the table. */
  lemma StoreInFat(g: Geometry, d: Disk, t: nat, off: nat, bs: seq<byte>)
    requires DiskOf(g, d) && t < g.sectsFat && off + |bs| <= 512 && g.fatbase + t < |d|
    ensures FatBytes(g, Store(g, d, g.fatbase + t, Splice(d[g.fatbase + t], off, bs))) ==
            Splice(FatBytes(g, d), t * 512 + off, bs)
    ensures SameData(g, d, Store(g, d, g.fatbase + t, Splice(d[g.fatbase + t], off, bs)))
  {
    var w: Sector := Splice(d[g.fatbase + t], off, bs);
    StoreFatSector(g, d, t, w);
    SectorOfFat(g, d, t);
    SpliceInside(FatBytes(g, d), t * 512, d[g.fatbase + t], off, bs);
  }

  /** One more step adds exactly the sector one step further. */
  lemma {:induction false} StepsSnoc(i: nat, s: nat, step: nat, n: nat)
    requires 0 < n
    ensures InSteps(i, s, step, n + 1) <==> InSteps(i, s, step, n) || i == s + Times(n, step)
    decreases n
  {
    if n > 1 {
      StepsSnoc(i, s + step, step, n - 1);
    } else {
      assert InSteps(i, s + step, step, 1) <==> i == s + step;
      assert Times(1, step) == step + Times(0, step);
    }
  }

  /** The sector `k` steps after a FAT sector is still in the FAT area. */
  lemma StepsSnocAt(g: Geometry, s: nat, t: nat, k: nat)
    requires g.Ok() && g.InFat(s) && k < g.nFats && t == s + Times(k, g.sectsFat)
    ensures t < g.nSectors
  {
    FatAreaHolds(g);
    TimesGap(k, g.nFats, g.sectsFat);
  }
}
