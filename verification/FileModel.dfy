/** The abstract side of an open file: which clusters are its own to use, what its bytes are under the
    private buffer, and what an operation on it must leave alone. */
module FileModel {
  import opened Bytes
  import opened Geometry
  import opened FatTable
  import opened Chains
  import opened ChainRuns
  import opened FileBytes

  /** `ch` is the file's chain in the table `f`, and `dom` the clusters the file may use: its own and the free ones. */
  ghost predicate Owns(f: seq<nat>, ch: seq<nat>, dom: set<nat>)
  {
    && (ch == [] || IsChain(f, ch))
    && NoOnes(f)
    && (forall c :: c in dom ==> 2 <= c < |f| && (f[c] == 0 || c in ch))
    && (forall c :: 2 <= c < |f| && (f[c] == 0 || c in ch) ==> c in dom)
  }

  // ----- what an operation on part of the chains keeps of the volume -----

  /** `dom` is the free clusters and those of the chains `mine`. */
  ghost predicate Covers(f: seq<nat>, mine: seq<seq<nat>>, dom: set<nat>)
  {
    && (forall c :: c in dom ==> 2 <= c < |f| && (f[c] == 0 || ChainRuns.OwnedBy(mine, c)))
    && (forall c :: 2 <= c < |f| && (f[c] == 0 || ChainRuns.OwnedBy(mine, c)) ==> c in dom)
  }

  lemma OwnedInBoth(others: seq<seq<nat>>, mine: seq<seq<nat>>, c: nat)
    ensures ChainRuns.OwnedBy(others + mine, c) <==> ChainRuns.OwnedBy(others, c) || ChainRuns.OwnedBy(mine, c)
  {
    var chains := others + mine;
    if i :| 0 <= i < |others| && c in others[i] { assert c in chains[i]; }
    if i :| 0 <= i < |mine| && c in mine[i] { assert c in chains[|others| + i]; }
    if i :| 0 <= i < |chains| && c in chains[i] {
      assert if i < |others| then c in others[i] else c in mine[i - |others|];
    }
  }

  /** The other chains hold no cluster of `dom`. */
  lemma OthersOutside(f: seq<nat>, others: seq<seq<nat>>, mine: seq<seq<nat>>, dom: set<nat>, j: nat, c: nat)
    requires WellOwned(f, others + mine) && Covers(f, mine, dom) && j < |others| && c in others[j]
    ensures 2 <= c < |f| && c !in dom
  {
    var chains := others + mine;
    assert chains[j] == others[j];
    ChainUses(f, others[j]);
    assert forall i :: 0 <= i < |mine| ==> chains[|others| + i] == mine[i];
    assert !ChainRuns.OwnedBy(mine, c);
  }

  lemma OthersKeepChain(f: seq<nat>, f': seq<nat>, others: seq<seq<nat>>, mine: seq<seq<nat>>, dom: set<nat>, j: nat)
    requires WellOwned(f, others + mine) && Covers(f, mine, dom) && |f'| == |f| && j < |others|
    requires forall c :: 2 <= c < |f| && c !in dom ==> f'[c] == f[c]
    ensures IsChain(f', others[j])
  {
    assert (others + mine)[j] == others[j];
    forall k | 0 <= k < |others[j]| ensures others[j][k] < |f| && f'[others[j][k]] == f[others[j][k]] {
      assert others[j][k] in others[j];
      OthersOutside(f, others, mine, dom, j, others[j][k]);
    }
    ChainFrame(f, f', others[j]);
  }

  /** Whatever an operation does within `dom`, the live chains stay disjoint, acyclic and exactly what is in use: its
      new chains take the place of its old ones. */
  lemma PartKeepsOwned(f: seq<nat>, f': seq<nat>, others: seq<seq<nat>>, mine: seq<seq<nat>>, mine': seq<seq<nat>>,
        dom: set<nat>)
    requires WellOwned(f, others + mine) && Covers(f, mine, dom) && Covers(f', mine', dom) && |f'| == |f|
    requires Disjoint(mine') && forall i :: 0 <= i < |mine'| ==> IsChain(f', mine'[i])
    requires forall c :: 2 <= c < |f| && c !in dom ==> f'[c] == f[c]
    ensures WellOwned(f', others + mine')
  {
    hide Distinct, IsChain;
    var chains, chains', n := others + mine, others + mine', |others|;
    forall j | 0 <= j < |chains'| ensures IsChain(f', chains'[j]) {
      if j < n { OthersKeepChain(f, f', others, mine, dom, j); }
    }
    forall c | 2 <= c < |f| ensures f'[c] != 0 <==> ChainRuns.OwnedBy(chains', c) {
      OwnedInBoth(others, mine, c);
      OwnedInBoth(others, mine', c);
      if j :| 0 <= j < n && c in others[j] { OthersOutside(f, others, mine, dom, j, c); }
      if j :| 0 <= j < |mine'| && c in mine'[j] { ChainUses(f', mine'[j]); }
    }
    forall i, j, c | 0 <= i < |chains'| && 0 <= j < |chains'| && c in chains'[i] && c in chains'[j] ensures i == j {
      if i < n { OthersOutside(f, others, mine, dom, i, c); } else { MineInside(f', mine', dom, i - n, c); }
      if j < n { OthersOutside(f, others, mine, dom, j, c); } else { MineInside(f', mine', dom, j - n, c); }
      assert i < n && j < n ==> c in chains[i] && c in chains[j];
    }
  }

  lemma MineInside(f: seq<nat>, mine: seq<seq<nat>>, dom: set<nat>, i: nat, c: nat)
    requires Covers(f, mine, dom) && i < |mine| && c in mine[i] && IsChain(f, mine[i])
    ensures c in dom
  {
    ChainUses(f, mine[i]);
    assert ChainRuns.OwnedBy(mine, c);
  }

  /** The chains of a file: one, or none if it is empty. */
  function FileChains(ch: seq<nat>): seq<seq<nat>> { if ch == [] then [] else [ch] }

  lemma OwnsCovers(f: seq<nat>, ch: seq<nat>, dom: set<nat>)
    requires Owns(f, ch, dom)
    ensures Covers(f, FileChains(ch), dom) && Disjoint(FileChains(ch))
    ensures forall i :: 0 <= i < |FileChains(ch)| ==> IsChain(f, FileChains(ch)[i])
  {
    hide IsChain, NoOnes;
    var mine := FileChains(ch);
    forall c ensures ChainRuns.OwnedBy(mine, c) <==> c in ch {
      if c in ch { assert c in mine[0]; }
    }
  }

  /** So after every operation on a file the live chains are as ChainRuns demands, the file's new chain among them. */
  lemma FileKeepsOwned(f: seq<nat>, f': seq<nat>, others: seq<seq<nat>>, ch: seq<nat>, ch': seq<nat>, dom: set<nat>)
    requires WellOwned(f, others + FileChains(ch)) && Owns(f, ch, dom) && Owns(f', ch', dom) && |f'| == |f|
    requires forall c :: 2 <= c < |f| && c !in dom ==> f'[c] == f[c]
    ensures WellOwned(f', others + FileChains(ch'))
  {
    hide Owns, Covers, WellOwned, FileChains, Disjoint, IsChain;
    OwnsCovers(f, ch, dom);
    OwnsCovers(f', ch', dom);
    PartKeepsOwned(f, f', others, FileChains(ch), FileChains(ch'), dom);
  }

  /** Sector `s` belongs to a cluster the file may use. */
  ghost predicate Home(g: Geometry, dom: set<nat>, s: nat)
  {
    exists c :: c in dom && 2 <= c < g.maxClust && SectorOf(g, c, s)
  }

  lemma HomeInRange(g: Geometry, dom: set<nat>, s: nat)
    requires g.Ok() && Home(g, dom, s)
    ensures g.FatEnd() <= g.database <= s < g.nSectors
  {
    FatAreaHolds(g);
    var c :| c in dom && 2 <= c < g.maxClust && SectorOf(g, c, s);
    ClusterInRange(g, c);
  }

  lemma ChainInRange(g: Geometry, f: seq<nat>, ch: seq<nat>, dom: set<nat>)
    requires Owns(f, ch, dom) && |f| == g.maxClust
    ensures InRange(g, ch) && Distinct(ch) && forall c :: c in ch ==> c in dom
  {
    if ch != [] {
      forall k | 0 <= k < |ch| ensures 2 <= ch[k] < g.maxClust { assert Links(f, ch, k); }
    }
  }

  /** The sector of a position in the chain is one of the file's own. */
  lemma OwnSector(g: Geometry, f: seq<nat>, ch: seq<nat>, dom: set<nat>, i: nat, t: nat)
    requires g.Ok() && Owns(f, ch, dom) && |f| == g.maxClust && i < |ch| && t < g.csize
    ensures 2 <= ch[i] < g.maxClust && Home(g, dom, ClusterSector(g, ch[i]) + t)
  {
    ChainInRange(g, f, ch, dom);
    SectorOfIntro(g, ch[i], t);
  }

  /** What an operation on the file leaves alone: every sector outside the FAT that is not in a cluster of
      the file's own, and every table entry of such clusters. */
  ghost predicate OthersSame(g: Geometry, dom: set<nat>, d: Disk, e: Disk)
    requires DiskOf(g, d) && DiskOf(g, e)
  {
    && (forall s :: 0 <= s < |d| && (s < g.fatbase || g.FatEnd() <= s) && !Home(g, dom, s) ==> e[s] == d[s])
    && (forall c :: 2 <= c < g.maxClust && c !in dom ==> Fat(g, e)[c] == Fat(g, d)[c])
  }

  lemma OthersSelf(g: Geometry, dom: set<nat>, d: Disk)
    requires DiskOf(g, d)
    ensures OthersSame(g, dom, d, d)
  {
  }

  lemma OthersTwice(g: Geometry, dom: set<nat>, d: Disk, e: Disk, f: Disk)
    requires DiskOf(g, d) && DiskOf(g, e) && DiskOf(g, f)
    requires OthersSame(g, dom, d, e) && OthersSame(g, dom, e, f)
    ensures OthersSame(g, dom, d, f)
  {
  }

  /** The disk as the file sees it: with its private buffer in place when that is dirty. */
  function View(d: Disk, dirty: bool, dsect: nat, buf: seq<byte>): (v: Disk)
    requires dirty ==> dsect < |d| && |buf| == 512
    ensures |v| == |d|
  {
    if dirty then d[dsect := buf] else d
  }

  /** A write outside the FAT area leaves the table as it is. */
  lemma FatUntouched(g: Geometry, d: Disk, e: Disk)
    requires DiskOf(g, d) && DiskOf(g, e)
    requires forall s :: g.fatbase <= s < g.FatEnd() ==> e[s] == d[s]
    ensures Fat(g, e) == Fat(g, d)
  {
    FatAreaHolds(g);
    FlatSame(d, e, g.fatbase, g.sectsFat);
  }

  /** The chain's bytes lie in the data area, out of reach of FAT writes. */
  lemma BytesUnderFat(g: Geometry, d: Disk, e: Disk, dirty: bool, dsect: nat, buf: seq<byte>, ch: seq<nat>)
    requires DiskOf(g, d) && DiskOf(g, e) && SameData(g, d, e) && InRange(g, ch)
    requires dirty ==> dsect < |d| && |buf| == 512
    ensures ChainBytes(g, View(e, dirty, dsect, buf), ch) == ChainBytes(g, View(d, dirty, dsect, buf), ch)
  {
    var v, w := View(d, dirty, dsect, buf), View(e, dirty, dsect, buf);
    forall k, s | 0 <= k < |ch| && 0 <= s < |v| && SectorOf(g, ch[k], s) ensures w[s] == v[s] {
      ClusterInRange(g, ch[k]);
      FatAreaHolds(g);
    }
    BytesSame(g, v, w, ch);
  }

  /** Writing sectors of the file's own leaves the table and everything else alone. */
  lemma OwnWrite(g: Geometry, dom: set<nat>, d: Disk, s: nat, b: seq<byte>, n: nat)
    requires DiskOf(g, d) && s + n <= |d| && |b| == n * 512
    requires forall i :: s <= i < s + n ==> Home(g, dom, i)
    ensures DiskOf(g, PutSectors(d, s, b, n)) && OthersSame(g, dom, d, PutSectors(d, s, b, n))
    ensures Fat(g, PutSectors(d, s, b, n)) == Fat(g, d)
  {
    var e := PutSectors(d, s, b, n);
    PutSectorsAt(d, s, b, n);
    forall i | g.fatbase <= i < g.FatEnd() ensures e[i] == d[i] {
      if s <= i < s + n { HomeInRange(g, dom, i); }
    }
    FatUntouched(g, d, e);
  }

  lemma OneSector(d: Disk, s: nat, b: seq<byte>)
    requires s < |d| && |b| == 512
    ensures PutSectors(d, s, b, 1) == d[s := b] && Flat(d, s, 1) == d[s]
  {
    assert b[..512] == b;
  }

  // ----- allocation for a file -----

  /** create_chain at the end of the file's chain: the file's own clusters stay the same set, and the new
      one, if there is one, was free. */
  lemma GrowChain(a: Alloc, ch: seq<nat>, dom: set<nat>, r: nat, eoc: nat, b: Alloc)
    requires Owns(a.fat, ch, dom) && eoc >= |a.fat| >= 2
    requires Created(a, if ch == [] then 0 else Last(ch), r, eoc, b)
    ensures r != 1
    ensures r == 0 ==> b == a && forall c :: 2 <= c < |a.fat| ==> a.fat[c] != 0
    ensures r >= 2 ==> r < |a.fat| && a.fat[r] == 0 && |b.fat| == |a.fat| && Owns(b.fat, ch + [r], dom)
    ensures r >= 2 ==> forall c :: 2 <= c < |a.fat| && c !in dom ==> b.fat[c] == a.fat[c]
  {
    var f := a.fat;
    if ch != [] { assert Links(f, ch, |ch| - 1); }
    ScanFindsFree(f, ScanStart(a, if ch == [] then 0 else Last(ch)), r);
    if r >= 2 {
      var ch' := ch + [r];
      if ch != [] { ChainUses(f, ch); }
      forall k | 0 <= k < |ch'| ensures Links(b.fat, ch', k) {
        if k < |ch| {
          assert Links(f, ch, k);
          assert ch[k] in ch;
          if k < |ch| - 1 { assert ch[k] != Last(ch); }
        }
      }
      EndedIsAcyclic(b.fat, ch');
      GrowOwns(f, b.fat, ch, dom, r);
    }
  }

  lemma GrowOwns(f: seq<nat>, f': seq<nat>, ch: seq<nat>, dom: set<nat>, r: nat)
    requires Owns(f, ch, dom) && |f'| == |f| && 2 <= r < |f| && f[r] == 0
    requires IsChain(f', ch + [r])
    requires forall c :: 0 <= c < |f| && c != r && c !in ch ==> f'[c] == f[c]
    ensures Owns(f', ch + [r], dom)
    ensures forall c :: 2 <= c < |f| && c !in dom ==> f'[c] == f[c]
  {
    ChainUses(f', ch + [r]);
    forall c | 2 <= c < |f| ensures f'[c] != 1 {
      assert c !in ch + [r] ==> f'[c] == f[c];
    }
  }

  /** The chain after create_chain answered `r` for its `i`-th cluster, or for no cluster. */
  function NewChain(ch: seq<nat>, clst: nat, i: nat, r: nat): seq<nat>
  {
    if r != 0 && (clst == 0 || i + 1 == |ch|) then ch + [r] else ch
  }

  /** create_chain on a cluster of the file's chain: the next one, or a stretch at the end. */
  lemma StretchOutcome(g: Geometry, a: Alloc, ch: seq<nat>, dom: set<nat>, clst: nat, i: nat, r: nat, b: Alloc)
    requires Owns(a.fat, ch, dom) && |a.fat| == g.maxClust && g.Ok()
    requires if clst == 0 then ch == [] else i < |ch| && clst == ch[i]
    requires Created(a, clst, r, Mask(g.fatType, 0xFFF_FFFF), b)
    ensures StretchedTo(a, ch, clst, i, r, b)
    ensures GrownTo(a, ch, Mask(g.fatType, 0xFFF_FFFF), b, NewChain(ch, clst, i, r))
    ensures |b.fat| == |a.fat| && Owns(b.fat, NewChain(ch, clst, i, r), dom)
    ensures forall c :: 2 <= c < |a.fat| && c !in dom ==> b.fat[c] == a.fat[c]
  {
    hide GrownTo, Mask, Scanned, Times, PowerOfTwo, Geometry.FatFits, Geometry.FatEnd;
    MaskKeeps(g);
    var eoc := Mask(g.fatType, 0xFFF_FFFF);
    GrownByNone(a, ch, eoc);
    if clst != 0 && i < |ch| - 1 {
      assert Links(a.fat, ch, i) && Links(a.fat, ch, i + 1);
    } else {
      GrowChain(a, ch, dom, r, eoc, b);
      if r >= 2 { GrownByOne(a, ch, r, eoc, b); }
    }
  }

  ghost predicate StretchedTo(a: Alloc, ch: seq<nat>, clst: nat, i: nat, r: nat, b: Alloc)
    requires if clst == 0 then ch == [] else i < |ch| && clst == ch[i]
  {
    if clst != 0 && i < |ch| - 1 then r == ch[i + 1] && 2 <= r < |a.fat|
    else if r == 0 then forall c :: 2 <= c < |b.fat| ==> b.fat[c] != 0
    else 2 <= r < |a.fat| && a.fat[r] == 0
  }

  /** FAT writes, and a cluster appended or not, leave what the chain held as it was. */
  lemma BytesGrow(g: Geometry, d: Disk, e: Disk, dirty: bool, dsect: nat, buf: seq<byte>, ch: seq<nat>, ch': seq<nat>)
    requires DiskOf(g, d) && DiskOf(g, e) && SameData(g, d, e) && InRange(g, ch')
    requires dirty ==> dsect < |d| && |buf| == 512
    requires ch' == ch || (ch' != [] && ch' == ch + [Last(ch')])
    ensures InRange(g, ch) && Times(|ch|, g.csize) <= Times(|ch'|, g.csize)
    ensures ChainBytes(g, View(e, dirty, dsect, buf), ch')[..Times(|ch|, g.csize) * 512] ==
            ChainBytes(g, View(d, dirty, dsect, buf), ch)
  {
    assert ch == ch'[..|ch|];
    BytesPrefix(g, View(e, dirty, dsect, buf), ch', |ch|);
    BytesUnderFat(g, d, e, dirty, dsect, buf, ch);
  }

  lemma FatWriteOthers(g: Geometry, dom: set<nat>, d: Disk, e: Disk)
    requires DiskOf(g, d) && DiskOf(g, e) && SameData(g, d, e)
    requires forall c :: 2 <= c < g.maxClust && c !in dom ==> Fat(g, e)[c] == Fat(g, d)[c]
    ensures OthersSame(g, dom, d, e)
  {
  }

  // ----- sectors of the chain -----

  /** A run of sectors of the `i`-th cluster overwritten: that stretch of the file's bytes, and nothing else. */
  lemma RunWritten(g: Geometry, d: Disk, ch: seq<nat>, dom: set<nat>, i: nat, t: nat, b: seq<byte>, n: nat)
    requires DiskOf(g, d) && Owns(Fat(g, d), ch, dom) && i < |ch| && t + n <= g.csize && |b| == n * 512
    ensures InRange(g, ch) && ClusterSector(g, ch[i]) + t + n <= |d|
    ensures forall k :: ClusterSector(g, ch[i]) + t <= k < ClusterSector(g, ch[i]) + t + n ==> Home(g, dom, k)
    ensures var e := PutSectors(d, ClusterSector(g, ch[i]) + t, b, n);
      DiskOf(g, e) && OthersSame(g, dom, d, e) && Fat(g, e) == Fat(g, d) && Owns(Fat(g, e), ch, dom)
    ensures (Times(i, g.csize) + t + n) * 512 <= Times(|ch|, g.csize) * 512
    ensures ChainBytes(g, PutSectors(d, ClusterSector(g, ch[i]) + t, b, n), ch) ==
            Splice(ChainBytes(g, d, ch), (Times(i, g.csize) + t) * 512, b)
  {
    hide Owns, Splice, Fat, Times, PutSectors, OthersSame, ChainBytes, Home, Geometry.Ok;
    ChainInRange(g, Fat(g, d), ch, dom);
    BytesPutRun(g, d, ch, i, t, b, n);
    var s := ClusterSector(g, ch[i]) + t;
    forall k | s <= k < s + n ensures Home(g, dom, k) {
      OwnSector(g, Fat(g, d), ch, dom, i, k - ClusterSector(g, ch[i]));
    }
    OwnWrite(g, dom, d, s, b, n);
  }

  /** The private buffer put over a sector of the chain: that piece of the file's bytes. */
  lemma BufferOver(g: Geometry, d: Disk, ch: seq<nat>, dom: set<nat>, i: nat, t: nat, w: Sector)
    requires DiskOf(g, d) && Owns(Fat(g, d), ch, dom) && i < |ch| && t < g.csize
    ensures InRange(g, ch) && ClusterSector(g, ch[i]) + t < |d| && Home(g, dom, ClusterSector(g, ch[i]) + t)
    ensures (Times(i, g.csize) + t) * 512 + 512 <= Times(|ch|, g.csize) * 512
    ensures ChainBytes(g, d[ClusterSector(g, ch[i]) + t := w], ch) ==
            Splice(ChainBytes(g, d, ch), (Times(i, g.csize) + t) * 512, w)
    ensures Piece(ChainBytes(g, d, ch), Times(i, g.csize) + t) == d[ClusterSector(g, ch[i]) + t]
  {
    hide Owns, Splice, Fat;
    ChainInRange(g, Fat(g, d), ch, dom);
    BytesPut(g, d, ch, i, t, w);
    BytesAt(g, d, ch, i, t);
    OwnSector(g, Fat(g, d), ch, dom, i, t);
  }

  /** Part of the private buffer overwritten, on a sector of the chain: that part of the file's bytes, whether
      the buffer was dirty or a clean copy of the sector. */
  lemma BufferWritten(g: Geometry, d: Disk, ch: seq<nat>, dom: set<nat>, i: nat, t: nat, dirty: bool, w: Sector,
                      at: nat, b: seq<byte>)
    requires DiskOf(g, d) && Owns(Fat(g, d), ch, dom) && i < |ch| && t < g.csize && at + |b| <= 512
    requires 2 <= ch[i] && ClusterSector(g, ch[i]) + t < |d| && (!dirty ==> w == d[ClusterSector(g, ch[i]) + t])
    ensures InRange(g, ch)
    ensures (Times(i, g.csize) + t) * 512 + 512 <= Times(|ch|, g.csize) * 512
    ensures var s := ClusterSector(g, ch[i]) + t;
      ChainBytes(g, View(d, true, s, Splice(w, at, b)), ch) ==
      Splice(ChainBytes(g, View(d, dirty, s, w), ch), (Times(i, g.csize) + t) * 512 + at, b)
  {
    hide Owns, Fat, ChainBytes;
    var s, k := ClusterSector(g, ch[i]) + t, Times(i, g.csize) + t;
    var w': Sector := Splice(w, at, b);
    BufferOver(g, d, ch, dom, i, t, w);
    BufferOver(g, d, ch, dom, i, t, w');
    assert View(d, dirty, s, w) == d[s := w];
    SpliceOver(ChainBytes(g, d, ch), k * 512, w, w');
    SpliceInside(ChainBytes(g, d[s := w], ch), k * 512, w, at, b);
  }

  /** The bytes `c` after `b` is written at `p`, with everything known below `lim` and from `end` on. */
  ghost predicate Edited(c: seq<byte>, c': seq<byte>, p: nat, b: seq<byte>, end: nat, all: bool)
  {
    && |c'| == |c|
    && forall k :: 0 <= k < |c| && (k < p + |b| || k >= end || all) ==>
      c'[k] == if p <= k < p + |b| then b[k - p] else c[k]
  }

  /** Part of the private buffer overwritten. If the buffer does not show the sector, and is overwritten from
      its start, the bytes are right up to the end of what was written, and outside the sector. */
  lemma BufferEdited(g: Geometry, d: Disk, ch: seq<nat>, dom: set<nat>, i: nat, t: nat, dirty: bool, w: Sector,
                     at: nat, b: seq<byte>)
    requires DiskOf(g, d) && Owns(Fat(g, d), ch, dom) && i < |ch| && t < g.csize && at + |b| <= 512
    requires 2 <= ch[i] && ClusterSector(g, ch[i]) + t < |d|
    requires dirty || at == 0 || w == d[ClusterSector(g, ch[i]) + t]
    ensures InRange(g, ch)
    ensures (Times(i, g.csize) + t) * 512 + 512 <= Times(|ch|, g.csize) * 512
    ensures var s, base := ClusterSector(g, ch[i]) + t, (Times(i, g.csize) + t) * 512;
      Edited(ChainBytes(g, View(d, dirty, s, w), ch), ChainBytes(g, View(d, true, s, Splice(w, at, b)), ch),
             base + at, b, base + 512, dirty || w == d[s])
  {
    hide Owns, Fat, ChainBytes;
    if dirty || w == d[ClusterSector(g, ch[i]) + t] {
      BufferWritten(g, d, ch, dom, i, t, dirty, w, at, b);
    } else {
      BufferOver(g, d, ch, dom, i, t, Splice(w, 0, b));
    }
  }

  lemma SpliceOver(s: seq<byte>, at: nat, w: seq<byte>, x: seq<byte>)
    requires at + |w| <= |s| && |x| == |w|
    ensures Splice(Splice(s, at, w), at, x) == Splice(s, at, x)
    ensures Splice(s, at, w)[at..at + |w|] == w
  {
  }

  // ----- the plain byte sequence -----

  function Max(a: nat, b: nat): nat { if a < b then b else a }

  /** `c` with the bytes from `p` on replaced by `b`, growing if `b` reaches beyond the end. */
  function Overwrite(c: seq<byte>, p: nat, b: seq<byte>): (r: seq<byte>)
    requires p <= |c|
    ensures |r| == Max(|c|, p + |b|)
  {
    c[..p] + b + if p + |b| < |c| then c[p + |b|..] else []
  }

  /** The chain's bytes `c'` hold those of `c` up to `size`, with `b` written at `p`. */
  ghost predicate Updated(c: seq<byte>, c': seq<byte>, p: nat, b: seq<byte>, size: nat)
  {
    && p <= |c| <= |c'| && size <= |c| && p + |b| <= |c'|
    && forall k :: 0 <= k < Max(size, p + |b|) ==> c'[k] == if p <= k < p + |b| then b[k - p] else c[k]
  }

  /** `c'` begins with `c`. */
  ghost predicate Extends(c: seq<byte>, c': seq<byte>)
  {
    |c| <= |c'| && c'[..|c|] == c
  }

  lemma ExtendsSelf(c: seq<byte>)
    ensures Extends(c, c)
  {
  }

  lemma ExtendsContent(c: seq<byte>, c': seq<byte>, n: nat)
    requires Extends(c, c') && n <= |c|
    ensures |c| <= |c'| && c'[..n] == c[..n]
  {
    assert c'[..n] == c'[..|c|][..n];
  }

  lemma ExtendsTwice(c: seq<byte>, c1: seq<byte>, c2: seq<byte>)
    requires Extends(c, c1) && Extends(c1, c2)
    ensures Extends(c, c2) && |c| <= |c2|
  {
    assert c2[..|c|] == c2[..|c1|][..|c|];
  }

  /** Two writes one behind the other are one write. */
  lemma UpdatedTwice(c: seq<byte>, c1: seq<byte>, c2: seq<byte>, p: nat, b: seq<byte>, n: nat, m: nat, size: nat)
    requires n <= m <= |b|
    requires Updated(c, c1, p, b[..n], size) && Updated(c1, c2, p + n, b[n..m], size)
    ensures Updated(c, c2, p, b[..m], size) && |c| <= |c2|
  {
    forall k | 0 <= k < Max(size, p + m) ensures c2[k] == if p <= k < p + m then b[..m][k - p] else c[k] {
      assert p <= k < p + n ==> b[..n][k - p] == b[..m][k - p];
      assert p + n <= k < p + m ==> b[n..m][k - (p + n)] == b[..m][k - p];
    }
  }

  lemma UpdatedContent(c: seq<byte>, c': seq<byte>, p: nat, b: seq<byte>, size: nat)
    requires Updated(c, c', p, b, size) && p <= size
    ensures c'[..Max(size, p + |b|)] == Overwrite(c[..size], p, b)
  {
  }

  lemma UpdatedByNothing(c: seq<byte>, c': seq<byte>, p: nat, size: nat)
    requires Extends(c, c') && p <= |c| && size <= |c|
    ensures Updated(c, c', p, [], size)
  {
    assert forall k :: 0 <= k < |c| ==> c'[k] == c'[..|c|][k];
  }

  lemma UpdatedBySplice(c: seq<byte>, c1: seq<byte>, c2: seq<byte>, p: nat, b: seq<byte>, size: nat)
    requires Extends(c, c1) && p + |b| <= |c1| && c2 == Splice(c1, p, b) && p <= |c| && size <= |c|
    ensures Updated(c, c2, p, b, size)
  {
    assert forall k :: 0 <= k < |c| ==> c1[k] == c1[..|c|][k];
  }

  lemma UpdatedByEdit(c: seq<byte>, c1: seq<byte>, c2: seq<byte>, p: nat, b: seq<byte>, size: nat, end: nat, all: bool)
    requires Extends(c, c1) && p + |b| <= |c1| && Edited(c1, c2, p, b, end, all) && p <= |c| && size <= |c|
    requires all || size <= p
    ensures Updated(c, c2, p, b, size)
  {
    assert forall k :: 0 <= k < |c| ==> c1[k] == c1[..|c|][k];
  }

  // ----- reading -----

  lemma SectorOffset(f: nat, k: nat)
    requires 1 <= k && k * 512 - 512 <= f < k * 512
    ensures (k - 1) * 512 + f % 512 == f
  {
  }

  /** `n` sectors of the disk with the private buffer put in where it is dirty and among them. */
  function RunUnder(d: Disk, s: nat, n: nat, dirty: bool, dsect: nat, w: Sector): (r: seq<byte>)
    requires s + n <= |d|
    ensures |r| == n * 512
  {
    if dirty && s <= dsect < s + n then Splice(Flat(d, s, n), (dsect - s) * 512, w) else Flat(d, s, n)
  }

  /** A run of sectors of one cluster as the file sees them is that stretch of its bytes. */
  lemma RunRead(g: Geometry, d: Disk, ch: seq<nat>, dom: set<nat>, i: nat, t: nat, n: nat, dirty: bool, dsect: nat,
        w: Sector)
    requires DiskOf(g, d) && Owns(Fat(g, d), ch, dom) && i < |ch| && t + n <= g.csize && (dirty ==> dsect < |d|)
    ensures InRange(g, ch) && ClusterSector(g, ch[i]) + t + n <= |d|
    ensures forall k :: ClusterSector(g, ch[i]) + t <= k < ClusterSector(g, ch[i]) + t + n ==> Home(g, dom, k)
    ensures (Times(i, g.csize) + t + n) * 512 <= Times(|ch|, g.csize) * 512
    ensures var s, at := ClusterSector(g, ch[i]) + t, (Times(i, g.csize) + t) * 512;
      RunUnder(d, s, n, dirty, dsect, w) ==
      ChainBytes(g, View(d, dirty, dsect, w), ch)[at..at + n * 512]
  {
    hide Owns, Splice, Fat, ChainBytes, Flat, RunUnder;
    ChainInRange(g, Fat(g, d), ch, dom);
    var s, v := ClusterSector(g, ch[i]) + t, View(d, dirty, dsect, w);
    BytesGetRun(g, v, ch, i, t, n);
    forall k | s <= k < s + n ensures Home(g, dom, k) {
      OwnSector(g, Fat(g, d), ch, dom, i, k - ClusterSector(g, ch[i]));
    }
    RunUnderIsView(d, s, n, dirty, dsect, w);
  }

  lemma RunUnderIsView(d: Disk, s: nat, n: nat, dirty: bool, dsect: nat, w: Sector)
    requires s + n <= |d| && (dirty ==> dsect < |d|)
    ensures RunUnder(d, s, n, dirty, dsect, w) == Flat(View(d, dirty, dsect, w), s, n)
  {
    var v := View(d, dirty, dsect, w);
    if dirty && s <= dsect < s + n {
      FlatSplice(d, v, s, n, dsect - s, w);
    } else {
      FlatSame(d, v, s, n);
    }
  }

  /** A buffer that shows its sector of the chain shows a piece of the file's bytes. */
  lemma BufferShows(g: Geometry, d: Disk, ch: seq<nat>, dom: set<nat>, i: nat, t: nat, dirty: bool, w: Sector)
    requires DiskOf(g, d) && Owns(Fat(g, d), ch, dom) && i < |ch| && t < g.csize
    requires 2 <= ch[i] && ClusterSector(g, ch[i]) + t < |d| && (!dirty ==> w == d[ClusterSector(g, ch[i]) + t])
    ensures InRange(g, ch)
    ensures (Times(i, g.csize) + t) * 512 + 512 <= Times(|ch|, g.csize) * 512
    ensures Piece(ChainBytes(g, View(d, dirty, ClusterSector(g, ch[i]) + t, w), ch), Times(i, g.csize) + t) == w
  {
    hide Owns, Fat, ChainBytes, Piece;
    ChainInRange(g, Fat(g, d), ch, dom);
    BytesAt(g, View(d, dirty, ClusterSector(g, ch[i]) + t, w), ch, i, t);
  }

  /** Two reads one behind the other into a buffer are one read. */
  lemma ReadTwice(r: seq<byte>, c: seq<byte>, p: nat, n: nat, m: nat)
    requires p + n + m <= |c| && n + m <= |r|
    ensures Splice(Splice(r, 0, c[p..p + n]), n, c[p + n..p + n + m]) == Splice(r, 0, c[p..p + n + m])
  {
  }

  /** Disks that agree on the FAT and on the file's own sectors show the same table and the same file. */
  lemma SameForFile(g: Geometry, d: Disk, e: Disk, ch: seq<nat>, dom: set<nat>)
    requires DiskOf(g, d) && DiskOf(g, e) && Owns(Fat(g, d), ch, dom)
    requires forall s :: g.fatbase <= s < g.FatEnd() ==> e[s] == d[s]
    requires forall s :: 0 <= s < |d| && Home(g, dom, s) ==> e[s] == d[s]
    ensures Fat(g, e) == Fat(g, d) && InRange(g, ch) && ChainBytes(g, e, ch) == ChainBytes(g, d, ch)
  {
    hide Owns, Fat, ChainBytes;
    FatUntouched(g, d, e);
    ChainInRange(g, Fat(g, d), ch, dom);
    forall k, s | 0 <= k < |ch| && 0 <= s < |d| && SectorOf(g, ch[k], s) ensures e[s] == d[s] {
      assert ch[k] in ch;
      assert Home(g, dom, s);
    }
    BytesSame(g, d, e, ch);
  }

  // ----- truncation -----

  /** Removing the whole chain leaves the file's clusters to it, all of them free. */
  lemma RemoveOwns(f: seq<nat>, ch: seq<nat>, dom: set<nat>)
    requires Owns(f, ch, dom) && ch != []
    ensures !Stops(f, ch[0]) && !CutMeetsOne(f, ch[0]) && Owns(Cut(f, ch[0]), [], dom)
    ensures forall c :: 0 <= c < |f| && c !in dom ==> Cut(f, ch[0])[c] == f[c]
  {
    ChainUses(f, ch);
    CutChain(f, ch);
  }

  /** Cutting the chain behind its `k`-th cluster leaves the first `k` of them to the file, and the rest free. */
  lemma TruncateOwns(f: seq<nat>, ch: seq<nat>, dom: set<nat>, k: nat, eoc: nat)
    requires Owns(f, ch, dom) && 1 <= k < |ch| && eoc >= |f| >= 2
    ensures 2 <= ch[k - 1] < |f| && f[ch[k - 1]] == ch[k] && 2 <= ch[k] < |f|
    ensures var f1 := f[ch[k - 1] := eoc];
      && !CutMeetsOne(f1, ch[k]) && Owns(Cut(f1, ch[k]), ch[..k], dom)
      && forall c :: 2 <= c < |f| && c !in dom ==> Cut(f1, ch[k])[c] == f[c]
  {
    SplitChain(f, ch, k, eoc);
    ChainUses(f, ch);
    var f1 := f[ch[k - 1] := eoc];
    assert ch[k..][0] == ch[k];
    CutChain(f1, ch[k..]);
    var f' := Cut(f1, ch[k]);
    forall m | 0 <= m < k ensures ch[..k][m] < |f| && f'[ch[..k][m]] == f1[ch[..k][m]] {
      assert ch[..k][m] in ch[..k];
    }
    ChainFrame(f1, f', ch[..k]);
    assert ch[k - 1] in ch;
  }

  lemma CutRestFrees(f: seq<nat>, ch: seq<nat>, dom: set<nat>, k: nat, eoc: nat)
    requires Owns(f, ch, dom) && 1 <= k < |ch| && eoc >= |f| >= 2
    ensures 2 <= ch[k - 1] < |f|
    ensures forall m :: k <= m < |ch| ==> ch[m] < |f| && Cut(f[ch[k - 1] := eoc], ch[k])[ch[m]] == 0
  {
    SplitChain(f, ch, k, eoc);
    ChainUses(f, ch);
    assert ch[k..][0] == ch[k];
    CutChain(f[ch[k - 1] := eoc], ch[k..]);
    forall m | k <= m < |ch| ensures ch[m] in ch[k..] { assert ch[k..][m - k] == ch[m]; }
  }

  /** The clusters a file of `n` bytes needs: n divided by the cluster size, rounded up. */
  function ClustersFor(g: Geometry, n: nat): nat
    requires 1 <= g.csize
  {
    (n + g.ClusterBytes() - 1) / g.ClusterBytes()
  }

  lemma RoundUp(m: nat, q: nat, r: nat)
    requires r < m
    ensures (q * m + r + m) / m == q + 1
  {
    DivUnique(q * m + r + m, m, q + 1, r);
  }

  lemma ClustersForPosition(g: Geometry, i: nat, n: nat)
    requires g.Ok()
    ensures ClustersFor(g, 0) == 0
    ensures Times(i, g.csize) * 512 < n <= Times(i + 1, g.csize) * 512 ==> ClustersFor(g, n) == i + 1
  {
    var m := g.ClusterBytes();
    DivUnique(m - 1, m, 0, m - 1);
    if Times(i, g.csize) * 512 < n <= Times(i + 1, g.csize) * 512 {
      TimesIsProduct(i, g.csize);
      assert Times(i, g.csize) * 512 == i * m;
      RoundUp(m, i, n - 1 - i * m);
    }
  }

  lemma ClustersGrow(g: Geometry, m: nat, n: nat)
    requires 1 <= g.csize && m <= n
    ensures ClustersFor(g, m) <= ClustersFor(g, n)
  {
    var k := g.ClusterBytes();
    DivGrows(m + k - 1, n + k - 1, k);
  }

  lemma ProductGrows(k: nat, x: nat, y: nat)
    requires x <= y
    ensures k * x <= k * y
  {
  }

  lemma DivGrows(a: nat, b: nat, k: nat)
    requires 1 <= k && a <= b
    ensures a / k <= b / k
  {
    var x, y := a / k, b / k;
    assert a == k * x + a % k && b == k * y + b % k;
    ProductGrows(k, y + 1, Max(x, y + 1));
  }

  /** FAT writes and a chain cut short: the bytes are cut short. */
  lemma BytesShrink(g: Geometry, d: Disk, e: Disk, dirty: bool, dsect: nat, buf: seq<byte>, ch: seq<nat>, k: nat)
    requires DiskOf(g, d) && DiskOf(g, e) && SameData(g, d, e) && InRange(g, ch) && k <= |ch|
    requires dirty ==> dsect < |d| && |buf| == 512
    ensures InRange(g, ch[..k]) && Times(k, g.csize) <= Times(|ch|, g.csize)
    ensures ChainBytes(g, View(e, dirty, dsect, buf), ch[..k]) ==
            ChainBytes(g, View(d, dirty, dsect, buf), ch)[..Times(k, g.csize) * 512]
  {
    BytesPrefix(g, View(e, dirty, dsect, buf), ch, k);
    BytesUnderFat(g, d, e, dirty, dsect, buf, ch);
  }

  /** What get_fat answers for the `i`-th cluster of the file: the next one, or an end value at the last. */
  lemma NextOfChain(f: seq<nat>, ch: seq<nat>, dom: set<nat>, i: nat)
    requires Owns(f, ch, dom) && i < |ch|
    ensures 2 <= ch[i] < |f|
    ensures if i == |ch| - 1 then f[ch[i]] >= |f| else f[ch[i]] == ch[i + 1] && 2 <= ch[i + 1] < |f|
  {
    assert Links(f, ch, i);
    if i < |ch| - 1 { assert Links(f, ch, i + 1); }
  }
}
