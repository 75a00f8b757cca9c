/** Where the entries of a directory table lie on the disk. */
module DirDisk {
  import opened Bytes
  import opened Geometry
  import opened ChainRuns
  import opened FileBytes
  import opened Lfn
  import opened DirTable

  /** A table is the static root directory of FAT12 and FAT16, or a cluster chain. */
  datatype Place = Static | Chain(ch: seq<nat>)

  /** `n` consecutive sectors. */
  function Run(from: nat, n: nat): (s: seq<nat>)
    ensures |s| == n && forall i :: 0 <= i < n ==> s[i] == from + i
  {
    seq(n, i requires 0 <= i < n => from + i)
  }

  function ChainSectors(g: Geometry, ch: seq<nat>): (s: seq<nat>)
    requires g.Ok() && InRange(g, ch)
    ensures |s| == Times(|ch|, g.csize)
  {
    if ch == [] then [] else
    assert InRange(g, ch[..|ch| - 1]);
    ChainSectors(g, ch[..|ch| - 1]) + Run(ClusterSector(g, ch[|ch| - 1]), g.csize)
  }

  /** The sectors of a table, in order. */
  function Sectors(g: Geometry, p: Place): seq<nat>
    requires g.Ok() && (p.Chain? ==> InRange(g, p.ch))
  {
    match p
    case Static => Run(g.dirbase, g.nRootdir / 16)
    case Chain(ch) => ChainSectors(g, ch)
  }

  lemma {:induction false} SectorAt(g: Geometry, ch: seq<nat>, i: nat, t: nat)
    requires g.Ok() && InRange(g, ch) && i < |ch| && t < g.csize
    ensures Times(i, g.csize) + t < Times(|ch|, g.csize)
    ensures ChainSectors(g, ch)[Times(i, g.csize) + t] == ClusterSector(g, ch[i]) + t
    decreases |ch|
  {
    TimesGap(i, |ch|, g.csize);
    var l := |ch| - 1;
    assert InRange(g, ch[..l]);
    if i < l {
      SectorAt(g, ch[..l], i, t);
      assert ch[..l][i] == ch[i];
    }
  }

  /** The cluster and the sector within it of the `k`-th sector. */
  lemma SplitSector(g: Geometry, ch: seq<nat>, k: nat)
    requires g.Ok() && InRange(g, ch) && k < Times(|ch|, g.csize)
    ensures 0 <= k / g.csize < |ch| && k == Times(k / g.csize, g.csize) + k % g.csize
    ensures ChainSectors(g, ch)[k] == ClusterSector(g, ch[k / g.csize]) + k % g.csize
  {
    hide ChainSectors;
    var i := k / g.csize;
    TimesIsProduct(|ch|, g.csize);
    DivParts(k, |ch|, g.csize);
    TimesIsProduct(i, g.csize);
    SectorAt(g, ch, i, k % g.csize);
  }

  lemma DivParts(k: nat, n: nat, c: nat)
    requires 1 <= c && k < n * c
    ensures 0 <= k / c < n && k == k / c * c + k % c && 0 <= k % c < c
  {
    if k / c >= n { MulMonotone(n, k / c, c); }
  }

  lemma SectorsApart(g: Geometry, ch: seq<nat>, k: nat, m: nat)
    requires g.Ok() && InRange(g, ch) && Distinct(ch) && k < m < Times(|ch|, g.csize)
    ensures ChainSectors(g, ch)[k] != ChainSectors(g, ch)[m]
  {
    hide ChainSectors, Times, PowerOfTwo, ClusterSector;
    SplitSector(g, ch, k);
    SplitSector(g, ch, m);
    var i, j := k / g.csize, m / g.csize;
    if ChainSectors(g, ch)[k] == ChainSectors(g, ch)[m] {
      SectorOfIntro(g, ch[i], k % g.csize);
      SectorOfIntro(g, ch[j], m % g.csize);
      SectorOfOne(g, ch[i], ch[j], ChainSectors(g, ch)[k]);
    }
  }

  /** The sectors of a table: all different, behind the FATs, and on the disk. */
  ghost predicate GoodSectors(g: Geometry, secs: seq<nat>)
  {
    && (forall k :: 0 <= k < |secs| ==> 0 < secs[k] && g.FatEnd() <= secs[k] < g.nSectors)
    && forall k, m :: 0 <= k < m < |secs| ==> secs[k] != secs[m]
  }

  lemma PlaceIsGood(g: Geometry, p: Place)
    requires g.Ok() && (p.Static? ==> g.fatType != Fat32) && (p.Chain? ==> InRange(g, p.ch) && Distinct(p.ch))
    ensures GoodSectors(g, Sectors(g, p))
  {
    FatAreaHolds(g);
    match p {
      case Static =>
      case Chain(ch) =>
        forall k | 0 <= k < Times(|ch|, g.csize)
          ensures 0 < ChainSectors(g, ch)[k] && g.FatEnd() <= ChainSectors(g, ch)[k] < g.nSectors
        {
          SplitSector(g, ch, k);
          ClusterInRange(g, ch[k / g.csize]);
        }
        forall k, m | 0 <= k < m < Times(|ch|, g.csize) ensures ChainSectors(g, ch)[k] != ChainSectors(g, ch)[m] {
          SectorsApart(g, ch, k, m);
        }
    }
  }

  // ----- entries -----

  /** The most entries an index of 16 bits can reach. */
  const MAX_ENTRIES: nat := 0x1_0000

  function SizeOf(secs: seq<nat>): nat { if 16 * |secs| < MAX_ENTRIES then 16 * |secs| else MAX_ENTRIES }

  function EntryIn(s: Sector, i: nat): Entry
  {
    s[i % 16 * 32..i % 16 * 32 + 32]
  }

  /** The entries in the sectors `secs`, as far as an index reaches. */
  function TableOf(d: Disk, secs: seq<nat>): (t: Table)
    requires forall k :: 0 <= k < |secs| ==> secs[k] < |d|
    ensures |t| == SizeOf(secs)
    ensures forall i :: 0 <= i < |t| ==> t[i] == EntryIn(d[secs[i / 16]], i)
  {
    seq(SizeOf(secs), i requires 0 <= i < SizeOf(secs) => EntryIn(d[secs[i / 16]], i))
  }

  /** Storing bytes in the sector of entry `i` changes that entry and no other. */
  lemma StoreEntry(d: Disk, secs: seq<nat>, i: nat, at: nat, bs: seq<byte>)
    requires forall k :: 0 <= k < |secs| ==> secs[k] < |d|
    requires forall k, m :: 0 <= k < m < |secs| ==> secs[k] != secs[m]
    requires i < SizeOf(secs) && at + |bs| <= 32
    ensures var s := secs[i / 16];
      TableOf(d[s := Splice(d[s], i % 16 * 32 + at, bs)], secs) ==
        TableOf(d, secs)[i := Splice(TableOf(d, secs)[i], at, bs)]
  {
    var s := secs[i / 16];
    var e := d[s := Splice(d[s], i % 16 * 32 + at, bs)];
    forall j | 0 <= j < SizeOf(secs) && j != i ensures EntryIn(e[secs[j / 16]], j) == EntryIn(d[secs[j / 16]], j) {
      if j / 16 == i / 16 {
        assert j % 16 != i % 16;
        OtherSlot(d[s], i % 16, j % 16, at, bs);
      } else {
        assert secs[j / 16] != s;
      }
    }
    assert EntryIn(e[s], i) == Splice(EntryIn(d[s], i), at, bs);
  }

  lemma OtherSlot(w: Sector, x: nat, y: nat, at: nat, bs: seq<byte>)
    requires x < 16 && y < 16 && x != y && at + |bs| <= 32
    ensures Splice(w, x * 32 + at, bs)[y * 32..y * 32 + 32] == w[y * 32..y * 32 + 32]
  {
  }

  /** Disks that agree on the table's sectors hold the same table. */
  lemma TableSame(d: Disk, e: Disk, secs: seq<nat>)
    requires |e| == |d| && forall k :: 0 <= k < |secs| ==> secs[k] < |d| && e[secs[k]] == d[secs[k]]
    ensures TableOf(e, secs) == TableOf(d, secs)
  {
  }

  /** A cleared cluster at the end stretches the table by zero entries. */
  lemma TableStretch(g: Geometry, d: Disk, e: Disk, ch: seq<nat>, c: nat)
    requires g.Ok() && InRange(g, ch) && 2 <= c < g.maxClust && |d| == |e| == g.nSectors
    requires forall k :: 0 <= k < |ChainSectors(g, ch)| ==> ChainSectors(g, ch)[k] < |d|
    requires forall k :: 0 <= k < |ChainSectors(g, ch)| ==> e[ChainSectors(g, ch)[k]] == d[ChainSectors(g, ch)[k]]
    requires ClusterSector(g, c) + g.csize <= |d|
    requires forall s :: ClusterSector(g, c) <= s < ClusterSector(g, c) + g.csize ==> e[s] == Zeros(512)
    ensures InRange(g, ch + [c])
    ensures forall k :: 0 <= k < |ChainSectors(g, ch + [c])| ==> ChainSectors(g, ch + [c])[k] < |d|
    ensures SizeOf(ChainSectors(g, ch + [c])) >= SizeOf(ChainSectors(g, ch))
    ensures TableOf(e, ChainSectors(g, ch + [c])) == Stretched(TableOf(d, ChainSectors(g, ch)),
              SizeOf(ChainSectors(g, ch + [c])) - SizeOf(ChainSectors(g, ch)))
  {
    hide Geometry.Ok, ClusterSector, EntryIn;
    var ch' := ch + [c];
    assert InRange(g, ch');
    assert ch'[..|ch'| - 1] == ch;
    RunsStretch(d, e, ChainSectors(g, ch), Run(ClusterSector(g, c), g.csize));
  }

  /** Cleared sectors behind those of a table stretch it by zero entries. */
  lemma RunsStretch(d: Disk, e: Disk, secs: seq<nat>, more: seq<nat>)
    requires |e| == |d| && forall k :: 0 <= k < |secs| ==> secs[k] < |d| && e[secs[k]] == d[secs[k]]
    requires forall k :: 0 <= k < |more| ==> more[k] < |d| && e[more[k]] == Zeros(512)
    ensures forall k :: 0 <= k < |secs + more| ==> (secs + more)[k] < |d|
    ensures SizeOf(secs + more) >= SizeOf(secs)
    ensures TableOf(e, secs + more) == Stretched(TableOf(d, secs), SizeOf(secs + more) - SizeOf(secs))
  {
    hide EntryIn;
    var secs' := secs + more;
    var t, t' := TableOf(d, secs), TableOf(e, secs');
    forall i | 0 <= i < |t'| ensures t'[i] == Stretched(t, |t'| - |t|)[i] {
      if i < |t| {
        assert secs'[i / 16] == secs[i / 16];
      } else {
        assert secs'[i / 16] == more[i / 16 - |secs|];
        ZeroEntry(i);
      }
    }
  }

  lemma ZeroEntry(i: nat)
    ensures EntryIn(Zeros(512), i) == Zeros(32)
  {
  }
}
