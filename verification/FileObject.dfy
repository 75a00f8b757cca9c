/** An open file (FIL of ff.h): f_read, f_write, f_lseek, f_sync and f_truncate over the cluster chain and
    the private sector buffer. */
module FileObject {
  import opened Bytes
  import opened Geometry
  import opened FatTable
  import opened Results
  import opened Chains
  import opened ChainRuns
  import opened FileBytes
  import opened FileModel
  import opened Volume

  /** From sector `s` to `w` f_sync has recorded a file in the directory entry at `o`: its size, its start cluster,
      the time of writing and the archive bit. Its name, the time of creation and all other entries are what they
      were. */
  ghost predicate Recorded(o: nat, s: Sector, w: Sector, size: nat, org: nat, tim: dword)
  {
    && o + 32 <= 512 && LdDword(w, o + 28) == size && LdDword(w, o + 22) == tim
    && LdWord(w, o + 26) as int + 0x1_0000 * LdWord(w, o + 20) as int == org
    && w[o + 11] as int / 0x20 % 2 == 1 && w[o + 11] as int % 0x20 == s[o + 11] as int % 0x20
    && w[o + 11] as int / 0x40 == s[o + 11] as int / 0x40
    && forall i :: 0 <= i < 512 && i != o + 11 && !(o + 20 <= i < o + 32) ==> w[i] == s[i]
  }

  lemma ArchiveSet(a: byte)
    ensures a as int / 0x20 % 2 == 0 ==>
      var b := a as int + 0x20;
      b < 0x100 && b / 0x20 % 2 == 1 && b % 0x20 == a as int % 0x20 && b / 0x40 == a as int / 0x40
  {
  }

  class Fil {
    const fs: FatFs
    const buf: array<byte>
    const canRead: bool    // FA_READ
    const canWrite: bool   // FA_WRITE
    const dirSect: nat
    const dirPtr: nat
    var failed: bool       // FA__ERROR
    var written: bool      // FA__WRITTEN
    var dirty: bool        // FA__DIRTY
    var csect: nat
    var fptr: nat
    var fsize: nat
    var orgClust: nat
    var currClust: nat
    var dsect: nat
    ghost var chain: seq<nat>      // the file's clusters
    ghost var ci: nat              // which of them currClust is
    ghost const dom: set<nat>      // the clusters the file may use: its own and the free ones

    /** The file and its volume are consistent: all of the invariant but size, position and buffer contents. */
    ghost predicate CoreBut()
      reads `dirty, `dsect, `orgClust, `chain, fs`disk, fs`image, fs`winsect, fs`wflag, fs.win, buf
    {
      && fs.Valid() && buf.Length == 512 && buf != fs.win
      && Owns(Fat(fs.g, fs.image), chain, dom)
      && orgClust == (if chain == [] then 0 else chain[0])
      && !Home(fs.g, dom, fs.winsect)
      && fs.g.FatEnd() <= dirSect < fs.g.nSectors && dirPtr + 32 <= 512 && !Home(fs.g, dom, dirSect)
      && (dsect != 0 ==> Home(fs.g, dom, dsect))
      && (dirty ==> dsect != 0)
    }

    /** A clean private buffer is a copy of its sector. */
    ghost predicate Coherent()
      reads `dirty, `dsect, `orgClust, `chain, fs`disk, fs`image, fs`winsect, fs`wflag, fs.win, buf
    {
      !dirty && dsect != 0 ==> dsect < |fs.image| && buf[..] == fs.image[dsect]
    }

    ghost predicate Core()
      reads `dirty, `dsect, `orgClust, `chain, fs`disk, fs`image, fs`winsect, fs`wflag, fs.win, buf
    {
      CoreBut() && Coherent()
    }

    /** No cluster of the volume is free. */
    ghost predicate Full()
      requires DiskOf(fs.g, fs.image)
      reads fs`image
    {
      forall c :: 2 <= c < fs.g.maxClust ==> Fat(fs.g, fs.image)[c] != 0
    }

    lemma CoreDisk()
      requires CoreBut()
      ensures DiskOf(fs.g, fs.image) && 1 <= fs.g.csize <= 128
    {
    }

    lemma CoreGeometry()
      requires CoreBut()
      ensures fs.g.Ok()
    {
    }

    lemma CoreFacts()
      requires Core()
      ensures CoreBut() && DiskOf(fs.g, fs.image) && 1 <= fs.g.csize <= 128 && Owns(Fat(fs.g, fs.image), chain, dom)
    {
    }

    /** The bytes of the whole chain, with the private buffer in place. */
    ghost function AllBytes(): (b: seq<byte>)
      requires CoreBut()
      reads `dirty, `dsect, `orgClust, `chain, fs`disk, fs`image, fs`winsect, fs`wflag, fs.win, buf
      ensures |b| == Times(|chain|, fs.g.csize) * 512
    {
      ChainInRange(fs.g, Fat(fs.g, fs.image), chain, dom);
      assert dirty ==> dsect < |fs.image| by { if dirty { HomeInRange(fs.g, dom, dsect); } }
      ChainBytes(fs.g, View(fs.image, dirty, dsect, buf[..]), chain)
    }

    /** The sectors of the chain up to and including the current one. */
    ghost function Passed(): nat
      reads `ci, `csect
    {
      Times(ci, fs.g.csize) + csect
    }

    /** Where fptr is: at the start with no cluster entered, or in or at the end of the sector before `csect`
        of the current cluster. */
    ghost predicate Placed()
      reads `fptr, `ci, `csect, `currClust, `chain
    {
      if fptr == 0 then csect >= fs.g.csize else
        && ci < |chain| && currClust == chain[ci] && 1 <= csect <= fs.g.csize
        && Passed() * 512 - 512 < fptr <= Passed() * 512
    }

    /** In the middle of a sector, the private buffer holds that sector. */
    ghost predicate Loaded()
      reads `fptr, `csect, `currClust, `dsect
    {
      fptr % 512 != 0 ==> 2 <= currClust && dsect == ClusterSector(fs.g, currClust) + csect - 1
    }

    /** The invariant between operations. */
    ghost predicate Valid()
      reads this, fs, fs.win, buf
    {
      && Core() && Placed() && Loaded()
      && fptr <= fsize < 0x1_0000_0000 && fsize <= Times(|chain|, fs.g.csize) * 512
    }

    /** The file as a plain byte sequence. */
    ghost function Content(): (c: seq<byte>)
      requires Valid()
      reads this, fs, fs.win, buf
      ensures |c| == fsize
    {
      AllBytes()[..fsize]
    }

    /** The end of f_open: a file object on a directory entry that names `org` and `size`. */
    constructor (fs: FatFs, canRead: bool, canWrite: bool, dirSect: nat, dirPtr: nat, org: nat, size: nat,
                 ghost ch: seq<nat>, ghost dom: set<nat>)
      requires fs.Valid() && Owns(Fat(fs.g, fs.image), ch, dom)
      requires org == (if ch == [] then 0 else ch[0]) && size < 0x1_0000_0000 && size <= Times(|ch|, fs.g.csize) * 512
      requires !Home(fs.g, dom, fs.winsect)
      requires fs.g.FatEnd() <= dirSect < fs.g.nSectors && dirPtr + 32 <= 512 && !Home(fs.g, dom, dirSect)
      ensures Valid() && fresh(this) && fresh(buf) && this.fs == fs && this.dom == dom && chain == ch
      ensures this.canRead == canRead && this.canWrite == canWrite && this.dirSect == dirSect && this.dirPtr == dirPtr
      ensures !failed && !written && !dirty && fptr == 0 && fsize == size && dsect == 0
    {
      this.fs, this.canRead, this.canWrite, this.dirSect, this.dirPtr := fs, canRead, canWrite, dirSect, dirPtr;
      buf := new byte[512];
      failed, written, dirty := false, false, false;
      orgClust, fsize, fptr, csect, dsect, currClust := org, size, 0, 255, 0, 0;
      chain, ci, this.dom := ch, 0, dom;
    }

    // ----- the steps of the transfer loops -----

    /** Writes the private buffer back if it is dirty. */
    method Flush()
      requires Core()
      modifies this`dirty, fs`disk, fs`image
      ensures Core() && !dirty && AllBytes() == old(AllBytes())
      ensures OthersSame(fs.g, dom, old(fs.image), fs.image) && fs.Table() == old(fs.Table())
      ensures old(fs.Exact()) ==> fs.Exact()
    {
      if dirty {
        HomeInRange(fs.g, dom, dsect);
        OneSector(fs.image, dsect, buf[..]);
        OwnWrite(fs.g, dom, fs.image, dsect, buf[..], 1);
        fs.WriteSectors(dsect, 1, buf[..]);
        dirty := false;
      }
    }

    /** The position is at the start of sector `csect` of the current cluster. */
    ghost predicate AtSector()
      reads `fptr, `ci, `csect, `currClust, `chain
    {
      ci < |chain| && currClust == chain[ci] && csect <= fs.g.csize && Passed() * 512 == fptr
    }

    /** On a cluster boundary inside the chain, the next cluster is the first one or the `ci + 1`-st. */
    lemma BoundaryIndex()
      requires Placed() && fptr % 512 == 0 && csect >= fs.g.csize
      ensures fptr > 0 ==> ci < |chain| && currClust == chain[ci] && fptr == Times(ci + 1, fs.g.csize) * 512
      ensures fptr > 0 && fptr < Times(|chain|, fs.g.csize) * 512 ==> ci + 1 < |chain|
    {
      if fptr > 0 { assert Times(ci + 1, fs.g.csize) == fs.g.csize + Times(ci, fs.g.csize); }
    }

    /** f_read at a cluster boundary: follows the chain. The two ABORT cases of the code cannot arise. */
    method NextForRead()
      requires Core() && Placed() && fptr % 512 == 0 && csect >= fs.g.csize
      requires fptr < Times(|chain|, fs.g.csize) * 512
      modifies this`currClust, this`csect, this`ci, fs`disk, fs`wflag, fs`winsect, fs.win
      ensures Core() && AtSector() && csect == 0 && AllBytes() == old(AllBytes())
    {
      hide Home, Fat, View, ChainBytes, Store, Mirrored, FatFs.Valid, Owns;
      CoreFacts();
      BoundaryIndex();
      ghost var f := Fat(fs.g, fs.image);
      NextOfChain(f, chain, dom, if fptr == 0 then 0 else ci);
      var clst := orgClust;
      if fptr != 0 { clst := fs.GetFat(currClust); }
      assert 1 < clst < fs.g.maxClust;
      WindowInFat();
      ci := if fptr == 0 then 0 else ci + 1;
      currClust := clst;
      csect := 0;
    }

    /** A window on the FAT is on no sector of the file. */
    lemma WindowInFat()
      requires fs.g.Ok()
      ensures fs.g.InFat(fs.winsect) ==> !Home(fs.g, dom, fs.winsect)
    {
      if fs.g.InFat(fs.winsect) && Home(fs.g, dom, fs.winsect) {
        FatAreaHolds(fs.g);
        HomeInRange(fs.g, dom, fs.winsect);
      }
    }

    /** The outcome of create_chain for this file, on nothing or on its `i`-th cluster: the next cluster of the
        chain, a new last one that was free, or 0 when none is free. */
    ghost predicate Stretched(f: seq<nat>, ch: seq<nat>, clst: nat, i: nat, r: nat)
      requires fs.Valid()
      reads this, fs, fs.win
    {
      if r == 0 then chain == ch && (clst == 0 || i + 1 == |ch|) && Full()
      else
        var j := if clst == 0 then 0 else i + 1;
        && j < |chain| && r == chain[j] && 2 <= r < |f|
        && if j < |ch| then chain == ch else chain == ch + [r] && f[r] == 0
    }

    /** create_chain on the volume, as it looks from this file. */
    method StretchOnVolume(clst: nat, ghost i: nat) returns (r: nat)
      requires Core() && if clst == 0 then chain == [] else i < |chain| && clst == chain[i]
      modifies fs`disk, fs`wflag, fs`winsect, fs`image, fs`lastClust, fs`freeClust, fs`fsiFlag, fs.win
      ensures fs.Valid() && SameData(fs.g, old(fs.image), fs.image) && OthersSame(fs.g, dom, old(fs.image), fs.image)
      ensures !Home(fs.g, dom, fs.winsect)
      ensures Owns(Fat(fs.g, fs.image), NewChain(chain, clst, i, r), dom)
      ensures StretchedTo(old(fs.Table()), chain, clst, i, r, fs.Table())
      ensures Created(old(fs.Table()), clst, r, Mask(fs.g.fatType, 0xFFF_FFFF), fs.Table())
      ensures GrownTo(old(fs.Table()), chain, Mask(fs.g.fatType, 0xFFF_FFFF), fs.Table(), NewChain(chain, clst, i, r))
      ensures old(fs.Exact()) ==> fs.Exact()
    {
      hide Fat, Store, Mirrored, Flat, FatBytes, Owns, Created, StretchedTo, OthersSame, SameData, GrownTo;
      ghost var a := fs.Table();
      CoreDisk();
      r := fs.CreateChain(clst);
      fs.ValidDisk();
      StretchOutcome(fs.g, a, chain, dom, clst, i, r, fs.Table());
      FatWriteOthers(fs.g, dom, old(fs.image), fs.image);
      WindowInFat();
    }

    lemma StretchedIs(a: Alloc, ch: seq<nat>, clst: nat, i: nat, r: nat)
      requires fs.Valid() && |a.fat| == fs.g.maxClust && if clst == 0 then ch == [] else i < |ch| && clst == ch[i]
      requires StretchedTo(a, ch, clst, i, r, fs.Table()) && chain == NewChain(ch, clst, i, r)
      ensures Stretched(a.fat, ch, clst, i, r)
    {
      hide Fat, FatFs.Valid;
    }

    method Stretch(clst: nat, ghost i: nat) returns (r: nat)
      requires Core() && if clst == 0 then chain == [] else i < |chain| && clst == chain[i]
      modifies this`chain, this`orgClust, fs`disk, fs`wflag, fs`winsect, fs`image, fs`lastClust, fs`freeClust
      modifies fs`fsiFlag, fs.win
      ensures Core() && SameData(fs.g, old(fs.image), fs.image) && OthersSame(fs.g, dom, old(fs.image), fs.image)
      ensures Stretched(old(Fat(fs.g, fs.image)), old(chain), clst, i, r) && Grew(old(fs.Table()), old(chain))
      ensures old(fs.Exact()) ==> fs.Exact()
    {
      hide GrownTo, Created, FatFs.Exact, Fat, FatFs.Valid, Owns, OthersSame, Home, StretchedTo, Mask, Full, Stretched;
      CoreFacts();
      ghost var a, ch := fs.Table(), chain;
      ChainInRange(fs.g, Fat(fs.g, fs.image), chain, dom);
      if dsect != 0 { HomeInRange(fs.g, dom, dsect); }
      r := StretchOnVolume(clst, i);
      if clst == 0 { orgClust := r; }
      chain := NewChain(chain, clst, i, r);
      StretchedIs(a, ch, clst, i, r);
    }

    /** create_chain for this file: what the chain held stays as it was. */
    method FollowOrStretch(clst: nat, ghost i: nat) returns (r: nat)
      requires Core() && if clst == 0 then chain == [] else i < |chain| && clst == chain[i]
      modifies this`chain, this`orgClust, fs`disk, fs`wflag, fs`winsect, fs`image, fs`lastClust, fs`freeClust
      modifies fs`fsiFlag, fs.win
      ensures Core() && Extends(old(AllBytes()), AllBytes())
      ensures OthersSame(fs.g, dom, old(fs.image), fs.image)
      ensures Stretched(old(Fat(fs.g, fs.image)), old(chain), clst, i, r) && Grew(old(fs.Table()), old(chain))
      ensures old(fs.Exact()) ==> fs.Exact()
    {
      hide Grew, GrownTo, FatFs.Table, FatFs.Exact, Fat, View, Store, Mirrored, Flat, FatBytes;
      assert dirty ==> dsect < |fs.image| by { if dirty { HomeInRange(fs.g, dom, dsect); } }
      r := Stretch(clst, i);
      ChainInRange(fs.g, Fat(fs.g, fs.image), chain, dom);
      BytesGrow(fs.g, old(fs.image), fs.image, dirty, dsect, buf[..], old(chain), chain);
    }

    /** mem_cpy over the whole private buffer. */
    method SetBuffer(b: seq<byte>)
      requires |b| == 512 && buf.Length == 512
      modifies buf
      ensures buf[..] == b
    {
      Copy(buf, 0, b);
    }

    // ----- writing -----

    /** What writing `n` whole sectors from the current one on does to the disk and to the file's bytes. */
    lemma RunPut(b: seq<byte>, n: nat)
      requires Core() && !dirty && AtSector() && csect + n <= fs.g.csize && 0 < n && |b| == n * 512
      ensures DiskOf(fs.g, fs.image) && fs.Valid() && buf.Length == 512
      ensures 2 <= currClust < fs.g.maxClust && fptr + n * 512 <= |AllBytes()|
      ensures var s := ClusterSector(fs.g, currClust) + csect;
        && fs.g.FatEnd() <= s && s + n <= fs.g.nSectors && !(s <= fs.winsect < s + n)
        && var e := PutSectors(fs.image, s, b, n);
        && DiskOf(fs.g, e) && OthersSame(fs.g, dom, fs.image, e) && Owns(Fat(fs.g, e), chain, dom)
        && InRange(fs.g, chain)
        && Fat(fs.g, e) == Fat(fs.g, fs.image)
        && ChainBytes(fs.g, e, chain) == Splice(AllBytes(), fptr, b)
        && (dsect != 0 ==> dsect < |e| && (if s <= dsect < s + n then Piece(b, dsect - s) else buf[..]) == e[dsect])
    {
      hide Geometry.Ok, Times, Fat, Store, Mirrored, Flat, FatBytes, Owns, Splice, OthersSame, ChainBytes;
      RunWritten(fs.g, fs.image, chain, dom, ci, csect, b, n);
      HomeInRange(fs.g, dom, ClusterSector(fs.g, currClust) + csect);
      ChainInRange(fs.g, Fat(fs.g, fs.image), chain, dom);
      if dsect != 0 {
        HomeInRange(fs.g, dom, dsect);
        PutSectorsOne(fs.image, ClusterSector(fs.g, currClust) + csect, b, n, dsect);
      }
    }

    /** f_write of whole sectors within one cluster, straight from the caller's buffer; the private buffer is
        refilled when its sector is among them. */
    method WriteDirect(b: seq<byte>, n: nat)
      requires Core() && !dirty && AtSector() && 1 <= n && csect + n <= fs.g.csize && |b| == n * 512
      modifies this`csect, this`fptr, fs`disk, fs`image, buf
      ensures Core() && AtSector() && csect == old(csect) + n && fptr == old(fptr) + n * 512
      ensures fptr <= |AllBytes()| && AllBytes() == Splice(old(AllBytes()), old(fptr), b)
      ensures OthersSame(fs.g, dom, old(fs.image), fs.image) && fs.Table() == old(fs.Table())
      ensures old(fs.Exact()) ==> fs.Exact()
    {
      hide Times, Fat, FatFs.Valid, PutSectors, FatBytes, Owns, Splice, OthersSame, ChainBytes, Piece, FreeExact;
      RunPut(b, n);
      var sect := fs.Clust2Sect(currClust);
      sect := sect + csect;
      fs.WriteSectors(sect, n, b);
      if sect <= dsect < sect + n { SetBuffer(Piece(b, dsect - sect)); }
      csect := csect + n;
      fptr := fptr + n * 512;
    }

    /** The private buffer is for the sector before `csect` of the current cluster. */
    ghost predicate OnSector()
      reads `ci, `csect, `currClust, `chain, `dsect
    {
      && ci < |chain| && currClust == chain[ci] && 1 <= csect <= fs.g.csize
      && 2 <= currClust && dsect == ClusterSector(fs.g, currClust) + csect - 1
    }

    /** f_write at the start of a sector it will not fill: loads the sector, unless it is past the end of the
        file, where the old contents do not matter. */
    method LoadForWrite()
      requires Core() && !dirty && AtSector() && csect < fs.g.csize
      modifies this`dsect, this`csect, buf
      ensures CoreBut() && OnSector() && fptr == Passed() * 512 - 512
      ensures AllBytes() == old(AllBytes())
      ensures fptr < fsize ==> Coherent()
    {
      hide Fat, FatFs.Valid, Owns, OthersSame, ChainBytes, Home;
      SectorIs();
      var sect := fs.Clust2Sect(currClust);
      sect := sect + csect;
      if dsect != sect {
        if fptr < fsize { ReadToBuffer(sect); }
      }
      dsect := sect;
      csect := csect + 1;
    }

    /** disk_read of one sector into the private buffer. */
    method ReadToBuffer(sect: nat)
      requires fs.Valid() && buf.Length == 512 && buf != fs.win
      requires fs.g.FatEnd() <= sect < fs.g.nSectors && sect != fs.winsect
      modifies buf
      ensures fs.Valid() && sect < |fs.image| && buf[..] == fs.image[sect]
    {
      OneSector(fs.image, sect, fs.image[sect]);
      fs.ReadSectors(sect, 1, buf, 0);
    }

    /** The sector of the private buffer lies on the drive, in a cluster of the file's own. */
    lemma BufferAt()
      requires CoreBut() && OnSector()
      ensures fs.Valid() && DiskOf(fs.g, fs.image) && buf.Length == 512 && buf != fs.win
      ensures Owns(Fat(fs.g, fs.image), chain, dom)
      ensures 0 < dsect < |fs.image| && Home(fs.g, dom, dsect)
    {
      hide Fat, Store, Mirrored, Flat, FatBytes, Owns;
      OwnSector(fs.g, Fat(fs.g, fs.image), chain, dom, ci, csect - 1);
      HomeInRange(fs.g, dom, dsect);
      FatAreaHolds(fs.g);
    }

    /** What overwriting part of the private buffer does to the file's bytes. */
    lemma EditIs(b: seq<byte>)
      requires CoreBut() && OnSector() && (Coherent() || fptr == Passed() * 512 - 512)
      requires Passed() * 512 - 512 <= fptr && fptr + |b| <= Passed() * 512 && b != []
      ensures buf.Length == 512 && buf != fs.win && fptr % 512 + |b| <= 512 && 0 < dsect < |fs.image|
      ensures DiskOf(fs.g, fs.image) && InRange(fs.g, chain) && Passed() * 512 <= |AllBytes()|
      ensures Edited(AllBytes(), ChainBytes(fs.g, View(fs.image, true, dsect, Splice(buf[..], fptr % 512, b)), chain),
                     fptr, b, Passed() * 512, Coherent())
      ensures Home(fs.g, dom, dsect)
    {
      hide Fat, FatFs.Valid, Owns, OthersSame, ChainBytes, View, Edited, Splice, Home, Geometry.Ok, Times;
      BufferAt();
      SectorOffset(fptr, Passed());
      BufferEdited(fs.g, fs.image, chain, dom, ci, csect - 1, dirty, buf[..], fptr % 512, b);
    }

    /** f_write of part of the sector in the private buffer. In a buffer that was not loaded, what follows the
        written part within the sector is arbitrary. */
    method WriteBuffered(b: seq<byte>)
      requires CoreBut() && OnSector() && (Coherent() || fptr == Passed() * 512 - 512)
      requires Passed() * 512 - 512 <= fptr && fptr + |b| <= Passed() * 512 && b != []
      modifies this`fptr, this`dirty, buf
      ensures Core() && Placed() && Loaded() && fptr == old(fptr) + |b| && fptr <= |AllBytes()|
      ensures Edited(old(AllBytes()), AllBytes(), old(fptr), b, Passed() * 512, old(Coherent()))
    {
      hide Fat, FatFs.Valid, Owns, ChainBytes, Edited, Splice, Home;
      EditIs(b);
      Copy(buf, fptr % 512, b);
      dirty := true;
      fptr := fptr + |b|;
    }

    /** The chain has grown from `ch`, on the table `a`, cluster by cluster at its end. */
    ghost predicate Grew(a: Alloc, ch: seq<nat>)
      requires DiskOf(fs.g, fs.image)
      reads `chain, fs`image, fs`lastClust, fs`freeClust
    {
      |ch| <= |chain| && chain[..|ch|] == ch && GrownTo(a, ch, Mask(fs.g.fatType, 0xFFF_FFFF), fs.Table(), chain)
    }

    lemma GrewNothing()
      requires DiskOf(fs.g, fs.image)
      ensures Grew(fs.Table(), chain)
    {
      GrownByNone(fs.Table(), chain, Mask(fs.g.fatType, 0xFFF_FFFF));
    }

    lemma GrewIs(a: Alloc, ch: seq<nat>)
      requires DiskOf(fs.g, fs.image) && Grew(a, ch)
      ensures GrownTo(a, ch, Mask(fs.g.fatType, 0xFFF_FFFF), fs.Table(), chain)
      ensures |ch| <= |chain| && chain[..|ch|] == ch
    {
    }

    /** Growing in two steps, the second from the table `b` and the chain `ch1`. */
    lemma GrewTwice(a: Alloc, ch: seq<nat>, b: Alloc, ch1: seq<nat>)
      requires DiskOf(fs.g, fs.image) && Grew(b, ch1)
      requires GrownTo(a, ch, Mask(fs.g.fatType, 0xFFF_FFFF), b, ch1)
      ensures Grew(a, ch)
    {
      GrownTwice(a, ch, Mask(fs.g.fatType, 0xFFF_FFFF), b, ch1, fs.Table(), chain);
      GrownPrefix(a, ch, Mask(fs.g.fatType, 0xFFF_FFFF), fs.Table(), chain);
    }

    /** The clusters that the position needs are those up to the current one. */
    lemma ClustersAt()
      requires fs.g.Ok() && Placed()
      ensures ClustersFor(fs.g, fptr) == (if fptr == 0 then 0 else ci + 1) && ClustersFor(fs.g, fptr) <= |chain|
    {
      ClustersForPosition(fs.g, ci, fptr);
      if fptr > 0 { assert Times(ci + 1, fs.g.csize) == fs.g.csize + Times(ci, fs.g.csize); }
    }

    /** The cluster f_write goes on with at a cluster boundary: the next of the chain, a new one, or 0. */
    method NextCluster() returns (clst: nat)
      requires Core() && Placed() && fptr % 512 == 0 && csect >= fs.g.csize
      modifies this`chain, this`orgClust
      modifies fs`disk, fs`wflag, fs`winsect, fs`image, fs`lastClust, fs`freeClust, fs`fsiFlag, fs.win
      ensures Core() && Extends(old(AllBytes()), AllBytes())
      ensures OthersSame(fs.g, dom, old(fs.image), fs.image) && Grew(old(fs.Table()), old(chain))
      ensures clst == 0 ==> chain == old(chain) && Full()
      ensures clst != 0 ==>
        var j := if fptr == 0 then 0 else ci + 1; j < |chain| == Max(|old(chain)|, j + 1) && clst == chain[j]
      ensures old(fs.Exact()) ==> fs.Exact()
    {
      hide GrownTo, FatFs.Table, Full, Geometry.Ok, FatFs.Exact, Fat, View, ChainBytes, Store, Mirrored, Flat,
           FatBytes, OthersSame;
      BoundaryIndex();
      ChainInRange(fs.g, Fat(fs.g, fs.image), chain, dom);
      OthersSelf(fs.g, dom, fs.image);
      GrewNothing();
      clst := orgClust;
      if fptr == 0 {
        if clst == 0 { clst := FollowOrStretch(0, 0); }
      } else {
        clst := FollowOrStretch(currClust, ci);
      }
    }

    /** f_write at a cluster boundary: follows the chain, stretches it, or finds the volume full. */
    method NextForWrite() returns (full: bool)
      requires Core() && Placed() && fptr % 512 == 0 && csect >= fs.g.csize
      modifies this`chain, this`orgClust, this`currClust, this`csect, this`ci
      modifies fs`disk, fs`wflag, fs`winsect, fs`image, fs`lastClust, fs`freeClust, fs`fsiFlag, fs.win
      ensures Core() && Extends(old(AllBytes()), AllBytes())
      ensures OthersSame(fs.g, dom, old(fs.image), fs.image) && Grew(old(fs.Table()), old(chain))
      ensures !full ==> AtSector() && csect == 0 && |chain| == Max(|old(chain)|, ci + 1)
      ensures full ==> Placed() && csect == old(csect) && chain == old(chain) && Full()
      ensures old(fs.Exact()) ==> fs.Exact()
    {
      hide Grew, FatFs.Table, FatFs.Exact, Core, AllBytes, Fat, OthersSame;
      BoundaryIndex();
      var clst := NextCluster();
      if clst == 0 { return true; }
      ci := if fptr == 0 then 0 else ci + 1;
      currClust := clst;
      csect := 0;
      full := false;
    }

    /** f_write at a sector boundary: enters the next cluster if need be and writes the private buffer back. */
    method ReadyForWrite() returns (full: bool)
      requires Core() && Placed() && fptr % 512 == 0
      modifies this`chain, this`orgClust, this`currClust, this`csect, this`ci, this`dirty
      modifies fs`disk, fs`wflag, fs`winsect, fs`image, fs`lastClust, fs`freeClust, fs`fsiFlag, fs.win
      ensures Core() && Extends(old(AllBytes()), AllBytes())
      ensures OthersSame(fs.g, dom, old(fs.image), fs.image) && Grew(old(fs.Table()), old(chain))
      ensures !full ==> AtSector() && csect < fs.g.csize && !dirty && |chain| == Max(|old(chain)|, ci + 1)
      ensures full ==> Placed() && chain == old(chain) && Full()
      ensures old(fs.Exact()) ==> fs.Exact()
    {
      hide GrownTo, FatFs.Table, FatFs.Exact, AllBytes, Fat, OthersSame, Coherent, Times, Full;
      full := false;
      CoreDisk();
      GrewNothing();
      OthersSelf(fs.g, dom, fs.image);
      if csect >= fs.g.csize {
        full := NextForWrite();
        if full { return; }
      }
      ghost var d := fs.image;
      Flush();
      OthersTwice(fs.g, dom, old(fs.image), d, fs.image);
    }

    /** The direct transfer of f_write: as many whole sectors as fit into the cluster. */
    method WriteWhole(b: seq<byte>) returns (wcnt: nat)
      requires Core() && !dirty && AtSector() && csect < fs.g.csize && 512 <= |b|
      modifies this`csect, this`fptr, fs`disk, fs`image, buf
      ensures Core() && Placed() && Loaded() && 0 < wcnt <= |b| && fptr == old(fptr) + wcnt
      ensures fptr <= |AllBytes()| && AllBytes() == Splice(old(AllBytes()), old(fptr), b[..wcnt])
      ensures OthersSame(fs.g, dom, old(fs.image), fs.image) && fs.Table() == old(fs.Table())
      ensures old(fs.Exact()) ==> fs.Exact()
    {
      hide FatFs.Table, FatFs.Exact, Core, AllBytes, Fat, OthersSame, Splice;
      var cc := |b| / 512;
      if csect + cc > fs.g.csize { cc := fs.g.csize - csect; }
      wcnt := 512 * cc;
      WriteDirect(b[..wcnt], cc);
    }

    /** The buffered transfer of f_write: up to the end of the current sector. */
    method WritePart(b: seq<byte>) returns (wcnt: nat)
      requires CoreBut() && OnSector() && (Coherent() || fptr == Passed() * 512 - 512) && b != []
      requires Passed() * 512 - 512 <= fptr < Passed() * 512
      modifies this`fptr, this`dirty, buf
      ensures Core() && Placed() && Loaded() && 0 < wcnt <= |b| && fptr == old(fptr) + wcnt <= |AllBytes()|
      ensures Edited(old(AllBytes()), AllBytes(), old(fptr), b[..wcnt], Passed() * 512, old(Coherent()))
    {
      hide Core, AllBytes, Coherent, CoreBut, Edited;
      wcnt := 512 - fptr % 512;
      if wcnt > |b| { wcnt := |b|; }
      WriteBuffered(b[..wcnt]);
    }

    /** One pass of the loop of f_write: whole sectors directly, or part of one through the private buffer. */
    method WriteStep(b: seq<byte>) returns (wcnt: nat, full: bool)
      requires Core() && Placed() && Loaded() && b != [] && fptr <= |AllBytes()| && fsize <= |AllBytes()|
      modifies this`chain, this`orgClust, this`currClust, this`csect, this`ci, this`dirty, this`fptr, this`dsect, buf
      modifies fs`disk, fs`wflag, fs`winsect, fs`image, fs`lastClust, fs`freeClust, fs`fsiFlag, fs.win
      ensures Core() && Placed() && Loaded() && wcnt <= |b| && fptr == old(fptr) + wcnt <= |AllBytes()|
      ensures Updated(old(AllBytes()), AllBytes(), old(fptr), b[..wcnt], fsize)
      ensures OthersSame(fs.g, dom, old(fs.image), fs.image) && Grew(old(fs.Table()), old(chain))
      ensures |chain| == Max(|old(chain)|, ClustersFor(fs.g, fptr))
      ensures if full then wcnt == 0 && Full() else 0 < wcnt
      ensures old(fs.Exact()) ==> fs.Exact()
    {
      hide FatFs.Table, ClustersFor, FatFs.Valid, Geometry.Ok, Times, Full, FatFs.Exact, AllBytes, Fat, OthersSame,
           Coherent, Updated, Edited, CoreBut, Splice, GrownTo;
      CoreDisk();
      OthersSelf(fs.g, dom, fs.image);
      ghost var c0, p := AllBytes(), fptr;
      GrewNothing();
      CoreGeometry();
      ClustersAt();
      ExtendsSelf(c0);
      full := false;
      if fptr % 512 == 0 {
        full := ReadyForWrite();
        if full {
          UpdatedByNothing(c0, AllBytes(), fptr, fsize);
          return 0, true;
        }
        ghost var c1, d := AllBytes(), fs.image;
        if |b| / 512 > 0 {
          CoreDisk();
          wcnt := WriteWhole(b);
          UpdatedBySplice(c0, c1, AllBytes(), p, b[..wcnt], fsize);
          ClustersAt();
          CoreDisk();
          OthersTwice(fs.g, dom, old(fs.image), d, fs.image);
          return;
        }
        LoadForWrite();
      }
      ghost var c1, all := AllBytes(), Coherent();
      wcnt := WritePart(b);
      ClustersAt();
      UpdatedByEdit(c0, c1, AllBytes(), p, b[..wcnt], fsize, Passed() * 512, all);
    }

    /** The clusters the chain has gained were free in the table `f` it was owned in. */
    lemma GainedWereFree(f: seq<nat>, ch: seq<nat>)
      requires CoreBut() && |ch| <= |chain| && chain[..|ch|] == ch && Owns(f, ch, dom) && |f| == fs.g.maxClust
      ensures forall k :: |ch| <= k < |chain| ==> chain[k] < |f| && f[chain[k]] == 0
    {
      ChainInRange(fs.g, Fat(fs.g, fs.image), chain, dom);
      forall k | |ch| <= k < |chain| ensures chain[k] < |f| && f[chain[k]] == 0 {
        assert chain[k] in dom;
        assert forall j :: 0 <= j < |ch| ==> chain[j] == chain[..|ch|][j];
      }
    }

    /** The loop of f_write. */
    method WriteAll(b: seq<byte>) returns (bw: nat)
      requires Core() && Placed() && Loaded() && fptr <= |AllBytes()| && fsize <= |AllBytes()|
      modifies this`chain, this`orgClust, this`currClust, this`csect, this`ci, this`dirty, this`fptr, this`dsect, buf
      modifies fs`disk, fs`wflag, fs`winsect, fs`image, fs`lastClust, fs`freeClust, fs`fsiFlag, fs.win
      ensures Core() && Placed() && Loaded() && bw <= |b| && fptr == old(fptr) + bw <= |AllBytes()|
      ensures Updated(old(AllBytes()), AllBytes(), old(fptr), b[..bw], fsize) && fsize <= |AllBytes()|
      ensures OthersSame(fs.g, dom, old(fs.image), fs.image) && Grew(old(fs.Table()), old(chain))
      ensures |chain| == Max(|old(chain)|, ClustersFor(fs.g, fptr))
      ensures bw < |b| ==> Full()
      ensures old(fs.Exact()) ==> fs.Exact()
    {
      hide Grew, GrownTo, ClustersFor, FatFs.Table, FatFs.Exact, CoreBut, Coherent, AllBytes, Fat, OthersSame, Updated,
           Extends, Owns, Placed, Loaded;
      CoreFacts();
      CoreGeometry();
      ClustersAt();
      GrewNothing();
      ghost var c0, p, a0, ch0 := AllBytes(), fptr, fs.Table(), chain;
      OthersSelf(fs.g, dom, fs.image);
      ExtendsSelf(c0);
      UpdatedByNothing(c0, c0, p, fsize);
      bw := 0;
      assert b[..bw] == [];
      var btw, full := |b|, false;
      while btw > 0 && !full
        invariant Core() && Placed() && Loaded() && DiskOf(fs.g, fs.image) && 0 <= btw && bw + btw == |b|
        invariant fptr == p + bw <= |AllBytes()| && fsize <= |AllBytes()|
        invariant Updated(c0, AllBytes(), p, b[..bw], fsize)
        invariant OthersSame(fs.g, dom, old(fs.image), fs.image) && Grew(a0, ch0)
        invariant |chain| == Max(|ch0|, ClustersFor(fs.g, fptr))
        invariant full ==> Full()
        invariant old(fs.Exact()) ==> fs.Exact()
        decreases btw, !full
      {
        var wcnt;
        ghost var c1, d1, p1, a1, ch1 := AllBytes(), fs.image, fptr, fs.Table(), chain;
        GrewIs(a0, ch0);
        wcnt, full := WriteStep(b[bw..]);
        CoreFacts();
        GrewTwice(a0, ch0, a1, ch1);
        ClustersGrow(fs.g, p1, fptr);
        assert b[bw..][..wcnt] == b[bw..bw + wcnt];
        UpdatedTwice(c0, c1, AllBytes(), p, b, bw, bw + wcnt, fsize);
        OthersTwice(fs.g, dom, old(fs.image), d1, fs.image);
        bw := bw + wcnt;
        btw := btw - wcnt;
      }
    }

    /** f_write once its checks are passed. */
    method WriteOn(b: seq<byte>) returns (bw: nat)
      requires Valid() && fsize + |b| < 0x1_0000_0000
      modifies this, fs`disk, fs`wflag, fs`winsect, fs`image, fs`lastClust, fs`freeClust, fs`fsiFlag, fs.win, buf
      ensures Valid() && failed == old(failed) && written && bw <= |b| && fptr == old(fptr) + bw
      ensures Content() == Overwrite(old(Content()), old(fptr), b[..bw])
      ensures bw < |b| ==> Full()
      ensures OthersSame(fs.g, dom, old(fs.image), fs.image) && Grew(old(fs.Table()), old(chain))
      ensures forall k :: |old(chain)| <= k < |chain| ==>
        chain[k] < fs.g.maxClust && Fat(fs.g, old(fs.image))[chain[k]] == 0
      ensures |chain| == Max(|old(chain)|, ClustersFor(fs.g, fptr))
      ensures old(fs.Exact()) ==> fs.Exact()
    {
      hide ClustersFor, GrownTo, FatFs.Table, Updated, Splice, Times, FatFs.Exact, CoreBut, Coherent, AllBytes, Fat,
           OthersSame, Extends, Owns, Placed, Loaded, Overwrite, Full, Grew, FatFs.Valid, Geometry.Ok, InRange,
           Passed;
      CoreFacts();
      ghost var c0, p, f0, a0, ch0 := AllBytes(), fptr, Fat(fs.g, fs.image), fs.Table(), chain;
      bw := WriteAll(b);
      UpdatedContent(c0, AllBytes(), p, b[..bw], fsize);
      if fptr > fsize { fsize := fptr; }
      written := true;
      CoreFacts();
      GrewIs(a0, ch0);
      GainedWereFree(f0, ch0);
    }

    lemma WroteNothing()
      requires Valid()
      ensures DiskOf(fs.g, fs.image) && OthersSame(fs.g, dom, fs.image, fs.image) && Grew(fs.Table(), chain)
      ensures Content() == Overwrite(Content(), fptr, []) && fs.g.Ok() && ClustersFor(fs.g, fptr) <= |chain|
    {
      CoreFacts();
      OthersSelf(fs.g, dom, fs.image);
      GrewNothing();
      ClustersAt();
    }

    /** f_write: replaces exactly the bytes from fptr on and keeps every other byte; it is cut short only when
        no cluster is free or the file would reach 4GB. */
    method Write(b: seq<byte>) returns (res: FResult, bw: nat)
      requires Valid() && |b| < 0x1_0000_0000
      modifies this, fs`disk, fs`wflag, fs`winsect, fs`image, fs`lastClust, fs`freeClust, fs`fsiFlag, fs.win, buf
      ensures Valid() && failed == old(failed) && bw <= |b| && fptr == old(fptr) + bw
      ensures res == if failed then IntErr else if !canWrite then Denied else Ok
      ensures Content() == Overwrite(old(Content()), old(fptr), b[..bw])
      ensures res == Ok && bw < |b| ==>
                old(fsize) + |b| >= 0x1_0000_0000 || Full()
      ensures res == Ok && old(fsize) + |b| >= 0x1_0000_0000 ==> bw == 0
      ensures if res == Ok then written
        else bw == 0 && written == old(written) && dirty == old(dirty) && chain == old(chain) && fsize == old(fsize)
      ensures OthersSame(fs.g, dom, old(fs.image), fs.image) && Grew(old(fs.Table()), old(chain))
      ensures forall k :: |old(chain)| <= k < |chain| ==>
        chain[k] < fs.g.maxClust && Fat(fs.g, old(fs.image))[chain[k]] == 0
      ensures |chain| == Max(|old(chain)|, ClustersFor(fs.g, fptr))
      ensures old(fs.Exact()) ==> fs.Exact()
    {
      hide ClustersFor, FatFs.Table, FatFs.Exact, Core, Content, Fat, OthersSame, Placed, Loaded, Overwrite, Full, Grew,
           Geometry.Ok, Times;
      WroteNothing();
      assert b[..0] == [];
      if failed { return IntErr, 0; }
      if !canWrite { return Denied, 0; }
      var btw := |b|;
      if (fsize + btw) % 0x1_0000_0000 < fsize { btw := 0; }
      bw := WriteOn(b[..btw]);
      assert b[..btw][..bw] == b[..bw];
      res := Ok;
    }

    // ----- reading -----

    /** A caller's buffer, apart from the file's own memory. */
    predicate Outside(rbuff: array<byte>)
    {
      rbuff != buf && rbuff != fs.win
    }

    /** disk_read of a run of sectors, the dirty one among them replaced by the private buffer. */
    method ReadRun(sect: nat, n: nat, rbuff: array<byte>, at: nat)
      requires fs.Valid() && buf.Length == 512 && Outside(rbuff) && at + n * 512 <= rbuff.Length
      requires fs.g.FatEnd() <= sect && sect + n <= fs.g.nSectors && !(sect <= fs.winsect < sect + n)
      modifies rbuff
      ensures fs.Valid() && sect + n <= |fs.image|
      ensures rbuff[..] == Splice(old(rbuff[..]), at, RunUnder(fs.image, sect, n, dirty, dsect, buf[..]))
    {
      hide Store, Mirrored, Flat, Splice;
      fs.ReadSectors(sect, n, rbuff, at);
      if dirty && sect <= dsect < sect + n {
        SpliceNested(old(rbuff[..]), at, Flat(fs.image, sect, n), (dsect - sect) * 512, buf[..]);
        Copy(rbuff, at + (dsect - sect) * 512, buf[..]);
      }
    }

    /** The sectors from the current one on, as the file sees them, are its bytes from fptr on. */
    lemma RunIs(n: nat)
      requires Core() && AtSector() && csect + n <= fs.g.csize && 0 < n
      ensures DiskOf(fs.g, fs.image) && fs.Valid() && buf.Length == 512 && (dirty ==> dsect < |fs.image|)
      ensures 2 <= currClust < fs.g.maxClust && fptr + n * 512 <= |AllBytes()|
      ensures var s := ClusterSector(fs.g, currClust) + csect;
        && fs.g.FatEnd() <= s && s + n <= fs.g.nSectors && !(s <= fs.winsect < s + n)
        && RunUnder(fs.image, s, n, dirty, dsect, buf[..]) == AllBytes()[fptr..fptr + n * 512]
    {
      hide Times, Fat, Store, Mirrored, Flat, FatBytes, Owns, Splice, ChainBytes, View, RunUnder;
      if dirty { HomeInRange(fs.g, dom, dsect); }
      RunRead(fs.g, fs.image, chain, dom, ci, csect, n, dirty, dsect, buf[..]);
      HomeInRange(fs.g, dom, ClusterSector(fs.g, currClust) + csect);
      ChainInRange(fs.g, Fat(fs.g, fs.image), chain, dom);
    }

    /** f_read of whole sectors within one cluster, straight into the caller's buffer. */
    method ReadDirect(rbuff: array<byte>, at: nat, n: nat)
      requires Core() && AtSector() && 1 <= n && csect + n <= fs.g.csize && at + n * 512 <= rbuff.Length
      requires Outside(rbuff)
      modifies this`csect, this`fptr, rbuff
      ensures Core() && AtSector() && csect == old(csect) + n && fptr == old(fptr) + n * 512 <= |AllBytes()|
      ensures AllBytes() == old(AllBytes()) && rbuff[..] == Splice(old(rbuff[..]), at, AllBytes()[old(fptr)..fptr])
    {
      hide CoreBut, Coherent, AllBytes, FatFs.Valid, Splice, RunUnder;
      RunIs(n);
      var sect := fs.Clust2Sect(currClust);
      sect := sect + csect;
      ReadRun(sect, n, rbuff, at);
      csect := csect + n;
      fptr := fptr + n * 512;
    }

    /** The direct transfer of f_read: as many whole sectors as fit into the cluster. */
    method ReadWhole(rbuff: array<byte>, at: nat, btr: nat) returns (rcnt: nat)
      requires Core() && AtSector() && csect < fs.g.csize && 512 <= btr && at + btr <= rbuff.Length && Outside(rbuff)
      modifies this`csect, this`fptr, rbuff
      ensures Core() && Placed() && Loaded() && AllBytes() == old(AllBytes()) && 0 < rcnt <= btr
      ensures fptr == old(fptr) + rcnt <= |AllBytes()|
      ensures rbuff[..] == Splice(old(rbuff[..]), at, AllBytes()[old(fptr)..fptr])
    {
      hide Core, AllBytes, Splice, Outside;
      var cc := btr / 512;
      if csect + cc > fs.g.csize { cc := fs.g.csize - csect; }
      rcnt := 512 * cc;
      ReadDirect(rbuff, at, cc);
    }

    /** The current sector is one of the file's own. */
    lemma SectorIs()
      requires CoreBut() && AtSector() && csect < fs.g.csize
      ensures fs.Valid() && DiskOf(fs.g, fs.image) && buf.Length == 512 && buf != fs.win
      ensures 2 <= currClust < fs.g.maxClust
      ensures var s := ClusterSector(fs.g, currClust) + csect;
        Home(fs.g, dom, s) && fs.g.FatEnd() <= s < fs.g.nSectors && s != fs.winsect && 0 < s
    {
      hide Fat, Store, Mirrored, FatBytes, Owns, OthersSame;
      OwnSector(fs.g, Fat(fs.g, fs.image), chain, dom, ci, csect);
      HomeInRange(fs.g, dom, ClusterSector(fs.g, currClust) + csect);
      FatAreaHolds(fs.g);
    }

    /** Brings the current sector into a clean private buffer. */
    method FillBuffer()
      requires Core() && !dirty && AtSector() && csect < fs.g.csize
      modifies this`dsect, this`csect, buf
      ensures Core() && OnSector() && fptr == Passed() * 512 - 512 && AllBytes() == old(AllBytes())
    {
      hide Times, Fat, FatFs.Valid, Owns, ChainBytes, Home;
      SectorIs();
      var sect := fs.Clust2Sect(currClust);
      sect := sect + csect;
      if dsect != sect { ReadToBuffer(sect); }
      dsect := sect;
      csect := csect + 1;
    }

    /** f_read at the start of a sector it will not exhaust: loads the sector into the private buffer. */
    method LoadForRead()
      requires Core() && AtSector() && csect < fs.g.csize
      modifies this`dsect, this`csect, this`dirty, fs`disk, fs`image, buf
      ensures Core() && OnSector() && fptr == Passed() * 512 - 512
      ensures AllBytes() == old(AllBytes()) && OthersSame(fs.g, dom, old(fs.image), fs.image)
      ensures dirty ==> old(dirty)
      ensures old(fs.Exact()) ==> fs.Exact()
    {
      hide Times, FatFs.Exact, Fat, CoreBut, Coherent, AllBytes, OthersSame;
      Flush();
      FillBuffer();
    }

    /** The private buffer shows the current piece of the file. */
    lemma BufferIs()
      requires Core() && OnSector()
      ensures 1 <= Passed() && Passed() * 512 <= |AllBytes()| && buf.Length == 512
      ensures Piece(AllBytes(), Passed() - 1) == buf[..]
    {
      hide Fat, Store, Mirrored, FatBytes, Owns, ChainBytes, View, Piece;
      HomeInRange(fs.g, dom, dsect);
      BufferShows(fs.g, fs.image, chain, dom, ci, csect - 1, dirty, buf[..]);
    }

    /** The buffered transfer of f_read: up to the end of the current sector. */
    method ReadPart(rbuff: array<byte>, at: nat, btr: nat) returns (rcnt: nat)
      requires Core() && OnSector() && 0 < btr && at + btr <= rbuff.Length && Outside(rbuff)
      requires Passed() * 512 - 512 <= fptr < Passed() * 512
      modifies this`fptr, rbuff
      ensures Core() && Placed() && Loaded() && AllBytes() == old(AllBytes()) && 0 < rcnt <= btr
      ensures fptr == old(fptr) + rcnt <= |AllBytes()|
      ensures rbuff[..] == Splice(old(rbuff[..]), at, AllBytes()[old(fptr)..fptr])
    {
      hide CoreBut, Coherent, AllBytes, Splice, Piece;
      BufferIs();
      SectorOffset(fptr, Passed());
      rcnt := 512 - fptr % 512;
      if rcnt > btr { rcnt := btr; }
      PieceSlice(AllBytes(), Passed() - 1, fptr % 512, rcnt);
      Copy(rbuff, at, buf[fptr % 512..fptr % 512 + rcnt]);
      fptr := fptr + rcnt;
    }

    /** One pass of the loop of f_read: whole sectors directly, or part of one through the private buffer. */
    method ReadStep(rbuff: array<byte>, at: nat, btr: nat) returns (rcnt: nat)
      requires Core() && Placed() && Loaded() && 0 < btr && at + btr <= rbuff.Length && Outside(rbuff)
      requires fptr + btr <= |AllBytes()|
      modifies this`currClust, this`csect, this`ci, this`dirty, this`fptr, this`dsect, buf, rbuff
      modifies fs`disk, fs`wflag, fs`winsect, fs`image, fs.win
      ensures Core() && Placed() && Loaded() && AllBytes() == old(AllBytes()) && 0 < rcnt <= btr
      ensures fptr == old(fptr) + rcnt <= |AllBytes()|
      ensures rbuff[..] == Splice(old(rbuff[..]), at, AllBytes()[old(fptr)..fptr])
      ensures OthersSame(fs.g, dom, old(fs.image), fs.image)
      ensures dirty ==> old(dirty)
      ensures old(fs.Exact()) ==> fs.Exact()
    {
      hide FatFs.Exact, AllBytes, Fat, OthersSame, Coherent, CoreBut, Splice;
      CoreDisk();
      OthersSelf(fs.g, dom, fs.image);
      if fptr % 512 == 0 {
        if csect >= fs.g.csize { NextForRead(); }
        if btr / 512 > 0 {
          rcnt := ReadWhole(rbuff, at, btr);
          return;
        }
        LoadForRead();
      }
      rcnt := ReadPart(rbuff, at, btr);
    }

    /** f_read: delivers exactly the bytes from fptr on, as many as asked for or left, and changes none. */
    method Read(rbuff: array<byte>, n: nat) returns (res: FResult, br: nat)
      requires Valid() && n <= rbuff.Length && Outside(rbuff)
      modifies this`currClust, this`csect, this`ci, this`dirty, this`fptr, this`dsect, buf, rbuff
      modifies fs`disk, fs`wflag, fs`winsect, fs`image, fs.win
      ensures Valid() && fptr == old(fptr) + br && Content() == old(Content())
      ensures res == if failed then IntErr else if !canRead then Denied else Ok
      ensures br == if res != Ok then 0 else if n <= fsize - old(fptr) then n else fsize - old(fptr)
      ensures rbuff[..] == Splice(old(rbuff[..]), 0, Content()[old(fptr)..fptr])
      ensures OthersSame(fs.g, dom, old(fs.image), fs.image)
      ensures dirty ==> old(dirty)
      ensures old(fs.Exact()) ==> fs.Exact()
    {
      hide Times, FatFs.Valid, Splice, Geometry.Ok, FatFs.Exact, AllBytes, Fat, OthersSame, Coherent, CoreBut, Placed,
           Loaded;
      CoreFacts();
      OthersSelf(fs.g, dom, fs.image);
      ghost var c0, p, r0 := AllBytes(), fptr, rbuff[..];
      br := 0;
      if failed { return IntErr, 0; }
      if !canRead { return Denied, 0; }
      var remain := fsize - fptr;
      var btr := if n > remain then remain else n;
      while btr > 0
        invariant Core() && Placed() && Loaded() && AllBytes() == c0 && DiskOf(fs.g, fs.image)
        invariant 0 <= btr && br + btr == (if n > remain then remain else n) && fptr == p + br && fptr + btr <= fsize
        invariant rbuff[..] == Splice(r0, 0, c0[p..p + br])
        invariant OthersSame(fs.g, dom, old(fs.image), fs.image) && (dirty ==> old(dirty))
        invariant old(fs.Exact()) ==> fs.Exact()
      {
        ghost var d1 := fs.image;
        var rcnt := ReadStep(rbuff, br, btr);
        CoreFacts();
        OthersTwice(fs.g, dom, old(fs.image), d1, fs.image);
        ReadTwice(r0, c0, p, br, rcnt);
        br := br + rcnt;
        btr := btr - rcnt;
      }
      res := Ok;
      assert c0[..fsize][p..p + br] == c0[p..p + br];
    }

    // ----- seeking -----

    /** The position is at the start of the current cluster. */
    ghost predicate AtCluster()
      reads `fptr, `ci, `currClust, `chain
    {
      ci < |chain| && currClust == chain[ci] && fptr == Times(ci, fs.g.csize) * 512
    }

    /** One pass of the loop of f_lseek: the next cluster, forced into being in write mode; 0 when the volume
        is full. */
    method SeekNext() returns (clst: nat)
      requires Core() && AtCluster()
      requires !canWrite ==> ci + 1 < |chain|
      modifies this`chain, this`orgClust, this`currClust, this`ci, this`fptr
      modifies fs`disk, fs`wflag, fs`winsect, fs`image, fs`lastClust, fs`freeClust, fs`fsiFlag, fs.win
      ensures Core() && AtCluster() && Extends(old(AllBytes()), AllBytes()) && Grew(old(fs.Table()), old(chain))
      ensures OthersSame(fs.g, dom, old(fs.image), fs.image)
      ensures clst != 0 ==> fptr == old(fptr) + fs.g.ClusterBytes()
      ensures clst == 0 ==> canWrite && fptr == old(fptr) && ci + 1 == |chain| && Full()
      ensures |chain| == Max(|old(chain)|, ci + 1) && ci == if clst == 0 then old(ci) else old(ci) + 1
      ensures old(fs.Exact()) ==> fs.Exact()
    {
      hide GrownTo, FatFs.Table, Full, Geometry.Ok, Owns, Extends, FatFs.Exact, AllBytes, Fat, OthersSame, FatFs.Valid,
           ClusterSector, Home, Placed, Passed;
      CoreFacts();
      ChainInRange(fs.g, Fat(fs.g, fs.image), chain, dom);
      OthersSelf(fs.g, dom, fs.image);
      ExtendsSelf(AllBytes());
      GrewNothing();
      if canWrite {
        clst := FollowOrStretch(currClust, ci);
        if clst == 0 { return; }
      } else {
        clst := FollowForRead();
      }
      currClust := clst;
      ci := ci + 1;
      fptr := fptr + fs.g.ClusterBytes();
    }

    /** get_fat on a cluster of the chain that is not the last. */
    method FollowForRead() returns (clst: nat)
      requires Core() && ci + 1 < |chain| && currClust == chain[ci]
      modifies fs`disk, fs`wflag, fs`winsect, fs.win
      ensures Core() && AllBytes() == old(AllBytes()) && clst == chain[ci + 1] && clst != 0
    {
      hide Fat, View, ChainBytes, Store, Mirrored, Flat, FatBytes;
      assert Links(Fat(fs.g, fs.image), chain, ci) && Links(Fat(fs.g, fs.image), chain, ci + 1);
      clst := fs.GetFat(currClust);
      WindowInFat();
    }

    /** The cluster following loop of f_lseek: `ofs` bytes on from the start of the current cluster. */
    method SeekClusters(ofs0: nat) returns (ofs: nat)
      requires Core() && AtCluster() && 0 < ofs0
      requires !canWrite ==> fptr + ofs0 <= |AllBytes()|
      modifies this`chain, this`orgClust, this`currClust, this`ci, this`fptr
      modifies fs`disk, fs`wflag, fs`winsect, fs`image, fs`lastClust, fs`freeClust, fs`fsiFlag, fs.win
      ensures Core() && AtCluster() && Extends(old(AllBytes()), AllBytes()) && Grew(old(fs.Table()), old(chain))
      ensures OthersSame(fs.g, dom, old(fs.image), fs.image)
      ensures 0 < ofs <= fs.g.ClusterBytes() && fptr + ofs <= old(fptr) + ofs0
      ensures fptr + ofs < old(fptr) + ofs0 ==>
                ofs == fs.g.ClusterBytes() && ci + 1 == |chain| && Full()
      ensures |chain| == Max(|old(chain)|, ci + 1) && ci >= old(ci)
      ensures old(fs.Exact()) ==> fs.Exact()
    {
      hide Grew, GrownTo, FatFs.Table, FatFs.Exact, CoreBut, Coherent, AllBytes, Fat, OthersSame, Extends;
      CoreFacts();
      OthersSelf(fs.g, dom, fs.image);
      ExtendsSelf(AllBytes());
      GrewNothing();
      ghost var a0, ch0 := fs.Table(), chain;
      ofs := ofs0;
      while ofs > fs.g.ClusterBytes()
        invariant Core() && AtCluster() && DiskOf(fs.g, fs.image) && 1 <= fs.g.csize
        invariant Extends(old(AllBytes()), AllBytes()) && |old(AllBytes())| <= |AllBytes()| && Grew(a0, ch0)
        invariant |chain| == Max(|ch0|, ci + 1) && ci >= old(ci)
        invariant OthersSame(fs.g, dom, old(fs.image), fs.image)
        invariant old(fs.Exact()) ==> fs.Exact()
        invariant 0 < ofs && fptr + ofs == old(fptr) + ofs0
      {
        ghost var c1, d1, a1, ch1 := AllBytes(), fs.image, fs.Table(), chain;
        GrewIs(a0, ch0);
        StepsLeft(ofs);
        var clst := SeekNext();
        CoreFacts();
        GrewTwice(a0, ch0, a1, ch1);
        OthersTwice(fs.g, dom, old(fs.image), d1, fs.image);
        ExtendsTwice(old(AllBytes()), c1, AllBytes());
        if clst == 0 {
          ofs := fs.g.ClusterBytes();
          break;
        }
        ofs := ofs - fs.g.ClusterBytes();
      }
    }

    /** More than a cluster's bytes on from here means another cluster. */
    lemma StepsLeft(ofs: nat)
      requires AtCluster() && ofs > fs.g.ClusterBytes()
      ensures fptr + ofs <= Times(|chain|, fs.g.csize) * 512 ==> ci + 1 < |chain|
    {
      if ci + 1 >= |chain| { assert Times(ci + 1, fs.g.csize) == fs.g.csize + Times(ci, fs.g.csize); }
    }

    /** The first cluster of the file, created if there is none; 0 when the volume is full. */
    method FirstCluster() returns (clst: nat)
      requires Core()
      modifies this`chain, this`orgClust
      modifies fs`disk, fs`wflag, fs`winsect, fs`image, fs`lastClust, fs`freeClust, fs`fsiFlag, fs.win
      ensures Core() && Extends(old(AllBytes()), AllBytes()) && Grew(old(fs.Table()), old(chain))
      ensures OthersSame(fs.g, dom, old(fs.image), fs.image)
      ensures if clst == 0 then chain == [] && Full() else chain != [] && clst == chain[0]
      ensures clst == 0 ==> chain == old(chain)
      ensures clst != 0 ==> |chain| == Max(|old(chain)|, 1)
      ensures old(fs.Exact()) ==> fs.Exact()
    {
      hide GrownTo, FatFs.Table, FatFs.Exact, AllBytes, Fat, OthersSame, FatFs.Valid, Home;
      CoreFacts();
      ChainInRange(fs.g, Fat(fs.g, fs.image), chain, dom);
      OthersSelf(fs.g, dom, fs.image);
      ExtendsSelf(AllBytes());
      GrewNothing();
      clst := orgClust;
      if clst == 0 { clst := FollowOrStretch(0, 0); }
    }

    /** The cluster arithmetic of f_lseek. */
    lemma SameOrLater(ofs: nat)
      requires fs.g.Ok() && Placed() && 0 < fptr && 0 < ofs
      ensures fs.g.ClusterStart(fptr - 1) == Times(ci, fs.g.csize) * 512
      ensures fs.g.ClusterIndex(ofs - 1) >= fs.g.ClusterIndex(fptr - 1) ==> ofs - 1 >= Times(ci, fs.g.csize) * 512
    {
      hide Geometry.ClusterIndex, Geometry.ClusterStart;
      RoundDown(fs.g, ci, fptr - 1);
      if fs.g.ClusterIndex(ofs - 1) >= ci { NotBefore(fs.g, ci, ofs - 1); }
    }

    /** Where f_lseek starts to follow clusters: the current cluster when the target is not before it, else
        the first one, created if the file has none. Returns what is left to go and the cluster, 0 when the
        volume is full. */
    method SeekStart(ofs0: nat) returns (ofs: nat, clst: nat)
      requires Core() && Placed() && 0 < ofs0
      requires !canWrite ==> ofs0 <= |AllBytes()|
      modifies this`chain, this`orgClust, this`currClust, this`ci, this`fptr, this`csect
      modifies fs`disk, fs`wflag, fs`winsect, fs`image, fs`lastClust, fs`freeClust, fs`fsiFlag, fs.win
      ensures Core() && Extends(old(AllBytes()), AllBytes()) && Grew(old(fs.Table()), old(chain))
      ensures OthersSame(fs.g, dom, old(fs.image), fs.image)
      ensures if clst == 0 then fptr == 0 && chain == [] && csect == 255 && Full()
              else AtCluster() && 0 < ofs && fptr + ofs == ofs0
      ensures if clst == 0 then chain == old(chain) else |chain| == Max(|old(chain)|, ci + 1)
      ensures old(fs.Exact()) ==> fs.Exact()
    {
      hide Grew, FatFs.Table, FatFs.Valid, Geometry.Ok, FatFs.Exact, AllBytes, Fat, OthersSame, CoreBut, Coherent,
           Extends, Full, Geometry.ClusterIndex, Geometry.ClusterStart;
      CoreFacts();
      ChainInRange(fs.g, Fat(fs.g, fs.image), chain, dom);
      OthersSelf(fs.g, dom, fs.image);
      ExtendsSelf(AllBytes());
      GrewNothing();
      ofs := ofs0;
      var ifptr := fptr;
      if ifptr > 0 { SameOrLater(ofs); }
      var later := ifptr > 0 && fs.g.ClusterIndex(ofs - 1) >= fs.g.ClusterIndex(ifptr - 1);
      fptr, csect := 0, 255;
      if later {
        fptr := fs.g.ClusterStart(ifptr - 1);
        ofs := ofs - fptr;
        clst := currClust;
      } else {
        clst := FirstCluster();
        currClust := clst;
        ci := 0;
      }
    }

    /** The end of f_lseek: brings the sector of a position within a sector into the private buffer. */
    method SeekLoad(nsect: nat)
      requires Core() && (fptr % 512 != 0 ==> Home(fs.g, dom, nsect))
      modifies this`dirty, this`dsect, fs`disk, fs`image, buf
      ensures Core() && AllBytes() == old(AllBytes()) && OthersSame(fs.g, dom, old(fs.image), fs.image)
      ensures fs.Table() == old(fs.Table())
      ensures dirty ==> old(dirty)
      ensures fptr % 512 != 0 ==> dsect == nsect
      ensures old(fs.Exact()) ==> fs.Exact()
    {
      hide FatFs.Exact, Fat, FatFs.Valid, Owns, OthersSame, ChainBytes;
      CoreFacts();
      OthersSelf(fs.g, dom, fs.image);
      if fptr % 512 != 0 && nsect != dsect {
        Flush();
        HomeInRange(fs.g, dom, nsect);
        FatAreaHolds(fs.g);
        ReadToBuffer(nsect);
        dsect := nsect;
      }
    }

    /** f_lseek between SeekStart and SeekLoad: the position, and the sector it is within. */
    method SeekPlace(ofs0: nat) returns (nsect: nat)
      requires Core() && AtCluster() && 0 < ofs0 <= fs.g.ClusterBytes()
      modifies this`fptr, this`csect
      ensures Core() && Placed() && fptr == old(fptr) + ofs0 <= |AllBytes()|
      ensures fptr % 512 != 0 ==>
        2 <= currClust && nsect == ClusterSector(fs.g, currClust) + csect - 1 && Home(fs.g, dom, nsect)
    {
      hide AllBytes, Fat, FatFs.Valid, Home;
      TimesGap(ci, |chain|, fs.g.csize);
      ghost var k := Times(ci, fs.g.csize);
      fptr := fptr + ofs0;
      csect := ofs0 / 512;
      nsect := 0;
      assert fptr % 512 == ofs0 % 512;
      if ofs0 % 512 != 0 {
        CoreFacts();
        OwnSector(fs.g, Fat(fs.g, fs.image), chain, dom, ci, csect);
        nsect := fs.Clust2Sect(currClust);
        nsect := nsect + csect;
        csect := csect + 1;
      }
    }

    /** f_lseek from the start of a cluster: `ofs0` bytes on. */
    method SeekOn(ofs0: nat) returns (nsect: nat)
      requires Core() && AtCluster() && 0 < ofs0
      requires !canWrite ==> fptr + ofs0 <= |AllBytes()|
      modifies this`chain, this`orgClust, this`currClust, this`ci, this`fptr, this`csect
      modifies fs`disk, fs`wflag, fs`winsect, fs`image, fs`lastClust, fs`freeClust, fs`fsiFlag, fs.win
      ensures Core() && Placed() && fptr <= |AllBytes()| && Extends(old(AllBytes()), AllBytes())
      ensures Grew(old(fs.Table()), old(chain))
      ensures OthersSame(fs.g, dom, old(fs.image), fs.image)
      ensures var want := old(fptr) + ofs0; fptr == want || (fptr < want && fptr == |AllBytes()| && Full())
      ensures fptr % 512 != 0 ==>
        2 <= currClust && nsect == ClusterSector(fs.g, currClust) + csect - 1 && Home(fs.g, dom, nsect)
      ensures |chain| == Max(|old(chain)|, ci + 1) && ci >= old(ci) && 0 < fptr
      ensures old(fs.Exact()) ==> fs.Exact()
    {
      hide Grew, FatFs.Table, FatFs.Valid, Full, Geometry.Ok, FatFs.Exact, AllBytes, Fat, OthersSame, Coherent, CoreBut,
           Extends, Home, Owns, ClusterSector, InRange;
      var ofs := SeekClusters(ofs0);
      CoreFacts();
      assert Times(ci + 1, fs.g.csize) == fs.g.csize + Times(ci, fs.g.csize);
      nsect := SeekPlace(ofs);
    }

    /** f_lseek to an offset other than 0, up to the loading of the sector. */
    method SeekTo(want: nat) returns (nsect: nat)
      requires Core() && Placed() && 0 < want
      requires !canWrite ==> want <= |AllBytes()|
      modifies this`chain, this`orgClust, this`currClust, this`ci, this`fptr, this`csect
      modifies fs`disk, fs`wflag, fs`winsect, fs`image, fs`lastClust, fs`freeClust, fs`fsiFlag, fs.win
      ensures Core() && Placed() && fptr <= |AllBytes()| && Extends(old(AllBytes()), AllBytes())
      ensures Grew(old(fs.Table()), old(chain))
      ensures OthersSame(fs.g, dom, old(fs.image), fs.image)
      ensures fptr == want || (fptr < want && fptr == |AllBytes()| && Full())
      ensures fptr % 512 != 0 ==>
        2 <= currClust && nsect == ClusterSector(fs.g, currClust) + csect - 1 && Home(fs.g, dom, nsect)
      ensures |chain| == Max(|old(chain)|, ClustersFor(fs.g, fptr))
      ensures old(fs.Exact()) ==> fs.Exact()
    {
      hide ClustersFor, Grew, GrownTo, FatFs.Table, FatFs.Valid, Full, Geometry.Ok, FatFs.Exact, AllBytes, Fat,
           OthersSame, Coherent, CoreBut, Extends, Home, Owns, ClusterSector, InRange;
      CoreFacts();
      CoreGeometry();
      ghost var c0, a0, ch0 := AllBytes(), fs.Table(), chain;
      ExtendsSelf(c0);
      var ofs, clst := SeekStart(want);
      CoreFacts();
      nsect := 0;
      if clst != 0 {
        ghost var d1, c1, a1, ch1 := fs.image, AllBytes(), fs.Table(), chain;
        GrewIs(a0, ch0);
        ExtendsTwice(c0, c0, c1);
        nsect := SeekOn(ofs);
        CoreFacts();
        GrewTwice(a0, ch0, a1, ch1);
        OthersTwice(fs.g, dom, old(fs.image), d1, fs.image);
        ExtendsTwice(c0, c1, AllBytes());
      }
      ClustersAt();
    }

    /** f_lseek up to the update of the size. */
    method SeekAndLoad(ofs: nat)
      requires Core() && Placed() && (!canWrite ==> ofs <= |AllBytes()|)
      modifies this`chain, this`orgClust, this`currClust, this`ci, this`fptr, this`csect, this`dirty, this`dsect, buf
      modifies fs`disk, fs`wflag, fs`winsect, fs`image, fs`lastClust, fs`freeClust, fs`fsiFlag, fs.win
      ensures Core() && Placed() && Loaded() && fptr <= |AllBytes()| && Extends(old(AllBytes()), AllBytes())
      ensures Grew(old(fs.Table()), old(chain)) && |chain| == Max(|old(chain)|, ClustersFor(fs.g, fptr))
      ensures OthersSame(fs.g, dom, old(fs.image), fs.image)
      ensures dirty ==> old(dirty)
      ensures fptr == ofs || (fptr < ofs && fptr == |AllBytes()| && Full())
      ensures old(fs.Exact()) ==> fs.Exact()
    {
      hide ClustersFor, GrownTo, FatFs.Exact, AllBytes, Fat, OthersSame, Coherent, CoreBut, Extends, Home, Geometry.Ok,
           Times, Owns, FatFs.Valid;
      CoreFacts();
      CoreGeometry();
      OthersSelf(fs.g, dom, fs.image);
      ExtendsSelf(AllBytes());
      GrewNothing();
      var nsect := 0;
      if ofs > 0 {
        nsect := SeekTo(ofs);
        CoreFacts();
      } else {
        fptr, csect := 0, 255;
        ClustersAt();
      }
      ghost var d2 := fs.image;
      SeekLoad(nsect);
      CoreFacts();
      OthersTwice(fs.g, dom, old(fs.image), d2, fs.image);
    }

    /** f_lseek once its checks are passed. */
    method SeekWithin(ofs: dword)
      requires Valid() && (!canWrite ==> ofs <= fsize)
      modifies this, fs`disk, fs`wflag, fs`winsect, fs`image, fs`lastClust, fs`freeClust, fs`fsiFlag, fs.win, buf
      ensures Valid() && failed == old(failed)
      ensures fsize == Max(old(fsize), fptr) && Content()[..old(fsize)] == old(Content())
      ensures written == (old(written) || fsize > old(fsize))
      ensures dirty ==> old(dirty)
      ensures fptr == ofs || (fptr < ofs && fptr == Times(|chain|, fs.g.csize) * 512 && Full())
      ensures OthersSame(fs.g, dom, old(fs.image), fs.image) && Grew(old(fs.Table()), old(chain))
      ensures |chain| == Max(|old(chain)|, ClustersFor(fs.g, fptr))
      ensures forall k :: |old(chain)| <= k < |chain| ==>
        chain[k] < fs.g.maxClust && Fat(fs.g, old(fs.image))[chain[k]] == 0
      ensures old(fs.Exact()) ==> fs.Exact()
    {
      hide ClustersFor, Grew, GrownTo, FatFs.Table, FatFs.Valid, Full, FatFs.Exact, AllBytes, Fat, OthersSame, Coherent,
           CoreBut, Extends, Placed, Loaded, Owns, Geometry.Ok, Times, InRange;
      CoreFacts();
      ghost var c0, f0, a0, ch0 := AllBytes(), Fat(fs.g, fs.image), fs.Table(), chain;
      SeekAndLoad(ofs);
      CoreFacts();
      GrewIs(a0, ch0);
      GainedWereFree(f0, ch0);
      ExtendsContent(c0, AllBytes(), old(fsize));
      if fptr > fsize {
        fsize := fptr;
        written := true;
      }
      ContentCut(old(fsize));
    }

    /** f_lseek: moves to the offset asked for, clipped to the size in read mode; in write mode the file grows
        to reach it, as far as free clusters go. What the file held stays as it was. */
    method Lseek(ofs0: dword) returns (res: FResult)
      requires Valid()
      modifies this, fs`disk, fs`wflag, fs`winsect, fs`image, fs`lastClust, fs`freeClust, fs`fsiFlag, fs.win, buf
      ensures Valid() && failed == old(failed) && res == (if failed then IntErr else Ok)
      ensures failed ==> fptr == old(fptr) && fsize == old(fsize) && chain == old(chain) && fs.image == old(fs.image)
      ensures fsize == Max(old(fsize), fptr) && Content()[..old(fsize)] == old(Content())
      ensures written == (old(written) || fsize > old(fsize))
      ensures dirty ==> old(dirty)
      ensures var want := if !canWrite && ofs0 > old(fsize) then old(fsize) else ofs0;
        !failed ==> fptr == want || (fptr < want && fptr == Times(|chain|, fs.g.csize) * 512 && Full())
      ensures OthersSame(fs.g, dom, old(fs.image), fs.image) && Grew(old(fs.Table()), old(chain))
      ensures |chain| == Max(|old(chain)|, ClustersFor(fs.g, fptr))
      ensures forall k :: |old(chain)| <= k < |chain| ==>
        chain[k] < fs.g.maxClust && Fat(fs.g, old(fs.image))[chain[k]] == 0
      ensures old(fs.Exact()) ==> fs.Exact()
    {
      hide ClustersFor, Grew, FatFs.Table, Full, FatFs.Exact, Core, Content, Fat, OthersSame, Placed, Loaded,
           Geometry.Ok, Times, Overwrite;
      WroteNothing();
      if failed { return IntErr; }
      var ofs: dword := ofs0;
      if ofs > fsize && !canWrite { ofs := fsize; }
      SeekWithin(ofs);
      res := Ok;
    }

    lemma ContentCut(n: nat)
      requires Valid() && n <= fsize
      ensures Content()[..n] == AllBytes()[..n]
    {
    }

    // ----- f_sync and f_truncate -----

    /** The directory entry of the file as f_sync leaves it in the sector `s`: archive bit, size, start cluster
        and time `tim` replaced. */
    function Entered(s: Sector, size: dword, org: nat, tim: dword): Sector
      requires dirPtr + 32 <= 512
    {
      var attr := s[dirPtr + 11];
      var a: Sector := s[dirPtr + 11 := if attr / 0x20 % 2 == 1 then attr else attr + 0x20];
      StDword(StWord(StWord(StDword(a, dirPtr + 28, size), dirPtr + 26, org % 0x1_0000), dirPtr + 20, org / 0x1_0000),
              dirPtr + 22, tim)
    }

    lemma EnteredBytes(s: Sector, size: dword, org: nat, tim: dword)
      requires dirPtr + 32 <= 512
      ensures var r, o := Entered(s, size, org, tim), dirPtr;
        && HasDword(r, o + 28, size) && HasDword(r, o + 22, tim) && HasWord(r, o + 26, org % 0x1_0000)
        && HasWord(r, o + 20, org / 0x1_0000)
        && r[o + 11] == (if s[o + 11] / 0x20 % 2 == 1 then s[o + 11] else s[o + 11] + 0x20)
        && forall i :: 0 <= i < 512 && i != o + 11 && !(o + 20 <= i < o + 32) ==> r[i] == s[i]
    {
      hide Byte0, Byte1, Byte2, Byte3;
    }

    /** The entry has the size, the start cluster, the time and the archive bit then. */
    lemma EnteredIs(s: Sector, size: dword, org: nat, tim: dword)
      requires dirPtr + 32 <= 512 && org < 0x1_0000_0000
      ensures Recorded(dirPtr, s, Entered(s, size, org, tim), size, org, tim)
    {
      hide Entered, HasWord, HasDword;
      var r := Entered(s, size, org, tim);
      EnteredBytes(s, size, org, tim);
      HasDwordLoads(r, dirPtr + 28, size);
      HasDwordLoads(r, dirPtr + 22, tim);
      HasWordLoads(r, dirPtr + 26, org % 0x1_0000);
      HasWordLoads(r, dirPtr + 20, org / 0x1_0000);
      ArchiveSet(s[dirPtr + 11]);
    }

    lemma OrgBound()
      requires CoreBut()
      ensures orgClust < 0x1_0000_0000
    {
      hide Fat;
      if chain != [] { ChainInRange(fs.g, Fat(fs.g, fs.image), chain, dom); }
    }

    /** The disk after the directory entry and FSInfo have been written, as seen from this file. */
    lemma EntryWritten(d: Disk, e: Disk, w: Sector, info: Sector)
      requires CoreBut() && fs.image == d && DiskOf(fs.g, d)
      requires e == d[dirSect := w] || (fs.g.fatType == Fat32 && e == d[dirSect := w][fs.g.fsiSector := info])
      ensures DiskOf(fs.g, e) && Fat(fs.g, e) == Fat(fs.g, d) && InRange(fs.g, chain)
      ensures ChainBytes(fs.g, e, chain) == ChainBytes(fs.g, d, chain)
      ensures dsect != 0 ==> dsect < |d| && e[dsect] == d[dsect]
      ensures e[dirSect] == w
    {
      hide Fat, Owns, ChainBytes, FatFs.Valid;
      forall s | 0 <= s < |d| && Home(fs.g, dom, s) ensures e[s] == d[s] { HomeInRange(fs.g, dom, s); }
      SameForFile(fs.g, d, e, chain, dom);
      if dsect != 0 { HomeInRange(fs.g, dom, dsect); }
    }

    /** The directory half of f_sync, with a clean private buffer. */
    method SyncEntry(tim: dword)
      requires Core() && !dirty && fsize < 0x1_0000_0000
      modifies fs`disk, fs`image, fs`wflag, fs`winsect, fs`fsiFlag, fs.win
      ensures Core() && AllBytes() == old(AllBytes()) && !fs.wflag && fs.disk == fs.image
      ensures Fat(fs.g, fs.image) == Fat(fs.g, old(fs.image))
      ensures Recorded(dirPtr, old(fs.image)[dirSect], fs.image[dirSect], fsize, orgClust, tim)
      ensures forall s :: 0 <= s < fs.g.nSectors && s != dirSect && !(fs.g.fatType == Fat32 && s == fs.g.fsiSector) ==>
                fs.image[s] == old(fs.image)[s]
      ensures fs.g.fatType == Fat32 && old(fs.fsiFlag) ==>
        fs.image[fs.g.fsiSector] == FsInfo(fs.freeClust, fs.lastClust)
      ensures fs.g.fatType == Fat32 && !old(fs.fsiFlag) ==> fs.image[fs.g.fsiSector] == old(fs.image)[fs.g.fsiSector]
      ensures old(fs.Exact()) ==> fs.Exact()
    {
      hide Fat, Owns, ChainBytes, FatFs.Valid, Entered, Home, Recorded;
      CoreFacts();
      DirApart();
      OrgBound();
      ghost var d := fs.image;
      fs.MoveWindow(dirSect);
      var w := Entered(fs.win[..], fsize, orgClust, tim);
      EnteredIs(d[dirSect], fsize, orgClust, tim);
      EntryWritten(d, d[dirSect := w], w, w);
      if fs.g.fatType == Fat32 {
        ghost var info := FsInfo(fs.freeClust, fs.lastClust);
        EntryWritten(d, d[dirSect := w][fs.g.fsiSector := info], w, info);
      }
      fs.StoreSector(w);
      fs.Sync();
    }

    /** Sector `s` is neither in the FATs nor the file's own, nor that of its directory entry or of FSInfo. */
    ghost predicate Elsewhere(s: nat)
    {
      && (s < fs.g.fatbase || fs.g.FatEnd() <= s) && s != dirSect && !Home(fs.g, dom, s)
      && !(fs.g.fatType == Fat32 && s == fs.g.fsiSector)
    }

    /** f_sync: on a written file the private buffer, the directory entry, the window and FSInfo all go to the
        disk; the file itself does not change. */
    method SyncFile(tim: dword)
      requires Valid()
      modifies this`written, this`dirty, fs`disk, fs`image, fs`wflag, fs`winsect, fs`fsiFlag, fs.win
      ensures Valid() && Content() == old(Content())
      ensures if !old(written) then fs.image == old(fs.image) && written == old(written) && dirty == old(dirty)
        else !written && !dirty && !fs.wflag && fs.disk == fs.image
             && Recorded(dirPtr, old(fs.image)[dirSect], fs.image[dirSect], fsize, orgClust, tim)
      ensures Fat(fs.g, fs.image) == Fat(fs.g, old(fs.image))
      ensures old(written) && fs.g.fatType == Fat32 ==>
                fs.image[fs.g.fsiSector] ==
                (if old(fs.fsiFlag) then FsInfo(fs.freeClust, fs.lastClust) else old(fs.image)[fs.g.fsiSector])
      ensures forall s :: 0 <= s < fs.g.nSectors && Elsewhere(s) ==> fs.image[s] == old(fs.image)[s]
      ensures old(fs.Exact()) ==> fs.Exact()
    {
      hide FatFs.Exact, Fat, CoreBut, Coherent, AllBytes, Home, Recorded, FsInfo, FatFs.Valid, FreeExact, Placed,
           Loaded, Geometry.Ok, Times;
      CoreFacts();
      DirApart();
      if written {
        Flush();
        CoreFacts();
        SyncEntry(tim);
        written := false;
      }
    }

    lemma DirApart()
      requires CoreBut()
      ensures DiskOf(fs.g, fs.image) && fs.g.FatEnd() <= dirSect < fs.g.nSectors && dirPtr + 32 <= 512
      ensures !Home(fs.g, dom, dirSect)
      ensures fs.g.fatType == Fat32 ==>
        fs.g.fsiSector < fs.g.fatbase <= fs.g.FatEnd() && !Home(fs.g, dom, fs.g.fsiSector)
      ensures !Home(fs.g, dom, 0)
    {
      FatAreaHolds(fs.g);
      if Home(fs.g, dom, fs.g.fsiSector) { HomeInRange(fs.g, dom, fs.g.fsiSector); }
      if Home(fs.g, dom, 0) { HomeInRange(fs.g, dom, 0); }
    }

    lemma ChainIsChain()
      requires CoreBut() && chain != []
      ensures IsChain(Fat(fs.g, fs.image), chain)
    {
    }

    /** f_truncate at the start of the file: the whole chain goes. */
    method RemoveAll() returns (res: FResult)
      requires Core() && chain != []
      modifies this`chain, this`orgClust
      modifies fs`disk, fs`wflag, fs`winsect, fs`image, fs`freeClust, fs`fsiFlag, fs.win
      ensures Core() && res == Ok && chain == []
      ensures forall k :: 0 <= k < |old(chain)| ==>
        old(chain)[k] < fs.g.maxClust && Fat(fs.g, fs.image)[old(chain)[k]] == 0
      ensures OthersSame(fs.g, dom, old(fs.image), fs.image)
      ensures Fat(fs.g, fs.image) == Cut(old(Fat(fs.g, fs.image)), old(orgClust))
      ensures old(fs.Exact()) ==> fs.Exact()
    {
      hide FatFs.Exact, Fat, Flat, FatBytes, Store, Mirrored, OthersSame, Owns;
      CoreFacts();
      ChainIsChain();
      RemoveOwns(Fat(fs.g, fs.image), chain, dom);
      ChainInRange(fs.g, Fat(fs.g, fs.image), chain, dom);
      CutChain(Fat(fs.g, fs.image), chain);
      if dsect != 0 { HomeInRange(fs.g, dom, dsect); }
      res := fs.RemoveChain(orgClust);
      WindowInFat();
      orgClust := 0;
      chain := [];
      FatWriteOthers(fs.g, dom, old(fs.image), fs.image);
    }

    /** The cut of f_truncate behind the current cluster, on the volume. */
    method CutOnVolume(ncl: nat) returns (res: FResult)
      requires Core() && ci + 1 < |chain| && currClust == chain[ci] && ncl == chain[ci + 1]
      modifies fs`disk, fs`wflag, fs`winsect, fs`image, fs`freeClust, fs`fsiFlag, fs.win
      ensures fs.Valid() && res == Ok && !Home(fs.g, dom, fs.winsect)
      ensures SameData(fs.g, old(fs.image), fs.image) && OthersSame(fs.g, dom, old(fs.image), fs.image)
      ensures Owns(Fat(fs.g, fs.image), chain[..ci + 1], dom)
      ensures forall k :: ci < k < |chain| ==> chain[k] < fs.g.maxClust && Fat(fs.g, fs.image)[chain[k]] == 0
      ensures Truncated(old(fs.Table()), currClust, Mask(fs.g.fatType, 0xFFF_FFFF), fs.Table())
      ensures old(fs.Exact()) ==> fs.Exact()
    {
      hide Cut, CutCount, Raised, FatFs.Valid, Geometry.Ok, IsChain, Fat, Flat, FatBytes, Store, Mirrored, OthersSame,
           Owns, SameData, Home, FreeExact;
      CoreFacts();
      ghost var f, d := Fat(fs.g, fs.image), fs.image;
      MaskKeeps(fs.g);
      Sizes(fs.g);
      TruncateOwns(f, chain, dom, ci + 1, Mask(fs.g.fatType, 0xFFF_FFFF));
      CutRestFrees(f, chain, dom, ci + 1, Mask(fs.g.fatType, 0xFFF_FFFF));
      res := fs.PutFat(currClust, 0xFFF_FFFF);
      ghost var e := fs.image;
      fs.ValidDisk();
      if old(fs.Exact()) { fs.PutIsExact(f, currClust, Mask(fs.g.fatType, 0xFFF_FFFF)); }
      res := fs.RemoveChain(ncl);
      fs.ValidDisk();
      SameDataTwice(fs.g, d, e, fs.image);
      WindowInFat();
      FatWriteOthers(fs.g, dom, d, fs.image);
    }

    method CutRest(ncl: nat) returns (res: FResult)
      requires Core() && ci + 1 < |chain| && currClust == chain[ci] && ncl == chain[ci + 1]
      modifies this`chain
      modifies fs`disk, fs`wflag, fs`winsect, fs`image, fs`freeClust, fs`fsiFlag, fs.win
      ensures Core() && res == Ok && chain == old(chain)[..ci + 1]
      ensures SameData(fs.g, old(fs.image), fs.image) && OthersSame(fs.g, dom, old(fs.image), fs.image)
      ensures forall k :: ci < k < |old(chain)| ==>
        old(chain)[k] < fs.g.maxClust && Fat(fs.g, fs.image)[old(chain)[k]] == 0
      ensures Truncated(old(fs.Table()), currClust, Mask(fs.g.fatType, 0xFFF_FFFF), fs.Table())
      ensures old(fs.Exact()) ==> fs.Exact()
    {
      hide FatFs.Exact, Fat, FatFs.Valid, OthersSame, Owns;
      CoreFacts();
      ChainInRange(fs.g, Fat(fs.g, fs.image), chain, dom);
      if dsect != 0 { HomeInRange(fs.g, dom, dsect); }
      res := CutOnVolume(ncl);
      chain := chain[..ci + 1];
    }

    /** f_truncate further on: the clusters behind the current one go. */
    method RemoveRest() returns (res: FResult)
      requires Core() && ci < |chain| && currClust == chain[ci]
      modifies this`chain
      modifies fs`disk, fs`wflag, fs`winsect, fs`image, fs`freeClust, fs`fsiFlag, fs.win
      ensures Core() && res == Ok && chain == old(chain)[..ci + 1]
      ensures SameData(fs.g, old(fs.image), fs.image) && OthersSame(fs.g, dom, old(fs.image), fs.image)
      ensures forall k :: ci < k < |old(chain)| ==>
        old(chain)[k] < fs.g.maxClust && Fat(fs.g, fs.image)[old(chain)[k]] == 0
      ensures Truncated(old(fs.Table()), currClust, Mask(fs.g.fatType, 0xFFF_FFFF), fs.Table())
      ensures old(fs.Exact()) ==> fs.Exact()
    {
      hide FatFs.Exact, Fat, Flat, FatBytes, Store, Mirrored, OthersSame, Owns, SameData;
      CoreFacts();
      res := Ok;
      SameDataSelf(fs.g, fs.image);
      OthersSelf(fs.g, dom, fs.image);
      NextOfChain(Fat(fs.g, fs.image), chain, dom, ci);
      var ncl := fs.GetFat(currClust);
      WindowInFat();
      if ncl < fs.g.maxClust {
        res := CutRest(ncl);
      } else {
        assert chain[..ci + 1] == chain;
      }
    }

    /** RemoveRest on the bytes of the file. */
    method Shorten() returns (res: FResult)
      requires Core() && ci < |chain| && currClust == chain[ci]
      modifies this`chain
      modifies fs`disk, fs`wflag, fs`winsect, fs`image, fs`freeClust, fs`fsiFlag, fs.win
      ensures Core() && res == Ok && chain == old(chain)[..ci + 1]
      ensures OthersSame(fs.g, dom, old(fs.image), fs.image)
      ensures Times(ci + 1, fs.g.csize) * 512 <= |old(AllBytes())|
      ensures AllBytes() == old(AllBytes())[..Times(ci + 1, fs.g.csize) * 512]
      ensures forall k :: ci < k < |old(chain)| ==>
        old(chain)[k] < fs.g.maxClust && Fat(fs.g, fs.image)[old(chain)[k]] == 0
      ensures Truncated(old(fs.Table()), currClust, Mask(fs.g.fatType, 0xFFF_FFFF), fs.Table())
      ensures old(fs.Exact()) ==> fs.Exact()
    {
      hide FatFs.Exact, Fat, View, ChainBytes, Store, Mirrored, Flat, FatBytes, OthersSame, FatFs.Valid, Truncated,
           FreeExact;
      CoreFacts();
      ChainInRange(fs.g, Fat(fs.g, fs.image), chain, dom);
      assert dirty ==> dsect < |fs.image| by { if dirty { HomeInRange(fs.g, dom, dsect); } }
      res := RemoveRest();
      CoreFacts();
      BytesShrink(fs.g, old(fs.image), fs.image, dirty, dsect, buf[..], old(chain), ci + 1);
    }

    /** The chain half of f_truncate. */
    method Release() returns (res: FResult)
      requires Core() && Placed() && fptr < Times(|chain|, fs.g.csize) * 512
      modifies this`chain, this`orgClust
      modifies fs`disk, fs`wflag, fs`winsect, fs`image, fs`freeClust, fs`fsiFlag, fs.win
      ensures Core() && Placed() && res == Ok && OthersSame(fs.g, dom, old(fs.image), fs.image)
      ensures |chain| <= |old(chain)| && chain == old(chain)[..|chain|] && |chain| == ClustersFor(fs.g, fptr)
      ensures forall k :: |chain| <= k < |old(chain)| ==>
                old(chain)[k] < fs.g.maxClust && Fat(fs.g, fs.image)[old(chain)[k]] == 0
      ensures fptr <= |AllBytes()| && fptr <= |old(AllBytes())| && AllBytes()[..fptr] == old(AllBytes())[..fptr]
      ensures if fptr == 0 then Fat(fs.g, fs.image) == Cut(old(Fat(fs.g, fs.image)), old(orgClust))
              else chain != [] && Truncated(old(fs.Table()), Last(chain), Mask(fs.g.fatType, 0xFFF_FFFF), fs.Table())
      ensures old(fs.Exact()) ==> fs.Exact()
    {
      hide FatFs.Exact, Fat, OthersSame, AllBytes, Coherent, CoreBut, ClustersFor, Truncated, Cut, FreeExact,
           FatFs.Valid, Mask, Geometry.Ok;
      CoreFacts();
      ClustersForPosition(fs.g, ci, fptr);
      if fptr == 0 {
        res := RemoveAll();
      } else {
        assert Times(ci + 1, fs.g.csize) == fs.g.csize + Times(ci, fs.g.csize);
        ghost var c0 := AllBytes();
        res := Shorten();
        assert c0[..Times(ci + 1, fs.g.csize) * 512][..fptr] == c0[..fptr];
      }
    }

    /** f_truncate: the file ends at fptr, and keeps exactly the clusters up to the current one; the others are
        free afterwards. */
    method Truncate() returns (res: FResult)
      requires Valid()
      modifies this`fsize, this`written, this`chain, this`orgClust
      modifies fs`disk, fs`wflag, fs`winsect, fs`image, fs`freeClust, fs`fsiFlag, fs.win
      ensures Valid() && res == if failed then IntErr else if !canWrite then Denied else Ok
      ensures fsize == if res == Ok then fptr else old(fsize)
      ensures Content() == old(Content())[..fsize]
      ensures OthersSame(fs.g, dom, old(fs.image), fs.image)
      ensures res == Ok && old(fsize) > fptr ==>
                && written && |chain| <= |old(chain)| && chain == old(chain)[..|chain|]
                && |chain| == ClustersFor(fs.g, fptr)
                && forall k :: |chain| <= k < |old(chain)| ==>
                     old(chain)[k] < fs.g.maxClust && Fat(fs.g, fs.image)[old(chain)[k]] == 0
      ensures res == Ok && old(fsize) > fptr > 0 ==>
                chain != [] && Truncated(old(fs.Table()), Last(chain), Mask(fs.g.fatType, 0xFFF_FFFF), fs.Table())
      ensures res == Ok && old(fsize) > fptr == 0 ==>
        Fat(fs.g, fs.image) == Cut(old(Fat(fs.g, fs.image)), old(orgClust))
      ensures res != Ok || old(fsize) <= fptr ==>
        written == old(written) && chain == old(chain) && fs.image == old(fs.image)
      ensures old(fs.Exact()) ==> fs.Exact()
    {
      hide FatFs.Exact, Fat, OthersSame, AllBytes, Coherent, CoreBut, ClustersFor, Truncated, Cut, FreeExact,
           FatFs.Valid, Mask, Geometry.Ok, Placed;
      CoreFacts();
      OthersSelf(fs.g, dom, fs.image);
      assert Content() == Content()[..fsize];
      if failed { return IntErr; }
      if !canWrite { return Denied; }
      res := Ok;
      if fsize > fptr {
        ghost var c0 := AllBytes();
        assert c0[..fptr] == c0[..fsize][..fptr];
        fsize := fptr;
        written := true;
        res := Release();
        CoreFacts();
      }
    }
  }
}
