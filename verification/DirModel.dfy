/** The abstract side of a directory object: where its table is, where it points, and what an operation on it leaves
    alone. */
module DirModel {
  import opened Bytes
  import opened Geometry
  import opened FatTable
  import opened Chains
  import opened ChainRuns
  import opened FileBytes
  import opened FileModel
  import opened Volume
  import opened Results
  import opened DirTable
  import opened DirDisk

  /** The table of start cluster `sclust` (0 for the root directory) is at `p`. */
  ghost predicate Located(g: Geometry, f: seq<nat>, sclust: nat, p: Place)
  {
    && g.Ok() && |f| == g.maxClust && NoOnes(f)
    && match p
       case Static => g.fatType != Fat32 && sclust == 0
       case Chain(ch) =>
         && IsChain(f, ch) && (sclust == 0 ==> g.fatType == Fat32)
         && ch[0] == if sclust == 0 then g.dirbase else sclust
  }

  lemma LocatedIsGood(g: Geometry, f: seq<nat>, sclust: nat, p: Place)
    requires Located(g, f, sclust, p)
    ensures p.Chain? ==> InRange(g, p.ch) && Distinct(p.ch) && p.ch != []
    ensures GoodSectors(g, Sectors(g, p))
  {
    if p.Chain? {
      forall k | 0 <= k < |p.ch| ensures 2 <= p.ch[k] < g.maxClust { assert Links(f, p.ch, k); }
    }
    PlaceIsGood(g, p);
  }

  /** The cluster that the sector number `k` of the table is in; 0 in a static table. */
  function ClusterOf(g: Geometry, p: Place, k: nat): nat
    requires g.Ok() && (p.Chain? ==> InRange(g, p.ch)) && k < |Sectors(g, p)|
  {
    match p
    case Static => 0
    case Chain(ch) => SplitSector(g, ch, k); ch[k / g.csize]
  }

  /** The offset of entry `i` in its sector. */
  function OffsetOf(i: nat): nat { i % 16 * 32 }

  /** The fields of a directory object that point at entry `i`. */
  ghost predicate Points(g: Geometry, p: Place, i: nat, clust: nat, sect: nat, ofs: nat)
    requires g.Ok() && (p.Chain? ==> InRange(g, p.ch))
  {
    && i < SizeOf(Sectors(g, p)) && sect == Sectors(g, p)[i / 16] && ofs == OffsetOf(i)
    && clust == ClusterOf(g, p, i / 16)
  }

  /** The position that following the chain leads to. */
  lemma PointsInChain(g: Geometry, ch: seq<nat>, k: nat, idx: nat, rest: nat)
    requires g.Ok() && InRange(g, ch) && k < |ch| && idx == 16 * Times(k, g.csize) + rest && rest < 16 * g.csize
    requires idx < MAX_ENTRIES
    ensures Points(g, Chain(ch), idx, ch[k], ClusterSector(g, ch[k]) + rest / 16, OffsetOf(idx))
    ensures rest % 16 == idx % 16
  {
    var t := rest / 16;
    assert idx / 16 == Times(k, g.csize) + t;
    SectorAt(g, ch, k, t);
    TimesIsProduct(k, g.csize);
    DivUnique(idx / 16, g.csize, k, t);
  }

  /** Where the clusters of a table lead. */
  lemma ChainLink(g: Geometry, f: seq<nat>, sclust: nat, ch: seq<nat>, k: nat)
    requires Located(g, f, sclust, Chain(ch)) && k < |ch|
    ensures InRange(g, ch) && 2 <= ch[k] < g.maxClust
    ensures if k < |ch| - 1 then f[ch[k]] == ch[k + 1] && 2 <= ch[k + 1] < g.maxClust else f[ch[k]] >= g.maxClust
  {
    LocatedIsGood(g, f, sclust, Chain(ch));
    assert Links(f, ch, k);
  }

  /** Following the chain comes to its end exactly when the index is beyond the table. */
  lemma FollowedFar(g: Geometry, ch: seq<nat>, k: nat, idx: nat, rest: nat)
    requires g.Ok() && InRange(g, ch) && k < |ch| && idx == 16 * Times(k, g.csize) + rest
    ensures rest < 16 * g.csize ==> idx < 16 * |Sectors(g, Chain(ch))|
    ensures 16 * g.csize <= rest && k == |ch| - 1 ==> idx >= 16 * |Sectors(g, Chain(ch))|
    ensures Times(k + 1, g.csize) == Times(k, g.csize) + g.csize
  {
    TimesGap(k, |ch|, g.csize);
  }

  lemma PointsBound(g: Geometry, p: Place, i: nat, clust: nat, sect: nat, ofs: nat)
    requires g.Ok() && (p.Chain? ==> InRange(g, p.ch)) && Points(g, p, i, clust, sect, ofs)
    ensures i < SizeOf(Sectors(g, p))
  {
  }

  /** Within a sector only the offset moves. */
  lemma NextInSector(g: Geometry, p: Place, i: nat, clust: nat, sect: nat, ofs: nat)
    requires g.Ok() && (p.Chain? ==> InRange(g, p.ch)) && Points(g, p, i, clust, sect, ofs)
    requires (i + 1) % 16 != 0
    ensures Points(g, p, i + 1, clust, sect, OffsetOf(i + 1)) && i + 1 < SizeOf(Sectors(g, p))
  {
    assert (i + 1) / 16 == i / 16;
  }

  /** Within a static table the next sector of the disk follows. */
  lemma NextStatic(g: Geometry, i: nat, sect: nat, ofs: nat)
    requires g.Ok() && Points(g, Static, i, 0, sect, ofs) && (i + 1) % 16 == 0 && i + 1 < MAX_ENTRIES
    ensures if i + 1 < g.nRootdir
      then Points(g, Static, i + 1, 0, sect + 1, OffsetOf(i + 1)) && i + 1 < SizeOf(Sectors(g, Static))
      else i + 1 == SizeOf(Sectors(g, Static))
  {
    assert (i + 1) / 16 == i / 16 + 1;
  }

  lemma NextResidue(k: nat, c: nat)
    requires 1 <= c
    ensures (k + 1) % c == 0 <==> k % c == c - 1
  {
    assert k == k / c * c + k % c;
    if k % c == c - 1 {
      assert k + 1 == (k / c + 1) * c;
      DivUnique(k + 1, c, k / c + 1, 0);
    } else {
      DivUnique(k + 1, c, k / c, k % c + 1);
    }
  }

  /** Entry `i`, the first of its sector, is the first of its cluster: the test ((i / 16) & (csize - 1)) == 0 of
      dir_next, csize being a power of two. */
  predicate BeginsCluster(g: Geometry, i: nat)
    requires 1 <= g.csize
  {
    i / 16 % g.csize == 0
  }

  /** The number in the chain of the cluster of entry `i`. */
  function ClusterNo(g: Geometry, i: nat): int
    requires 1 <= g.csize
  {
    i / 16 / g.csize
  }

  /** A position in a chain: the entries passed within its cluster. */
  function Within(g: Geometry, i: nat): int
    requires g.Ok()
  {
    16 * (i / 16 % g.csize) + i % 16
  }

  lemma PositionInChain(g: Geometry, ch: seq<nat>, i: nat, clust: nat, sect: nat, ofs: nat)
    requires g.Ok() && InRange(g, ch) && Points(g, Chain(ch), i, clust, sect, ofs)
    ensures var j := ClusterNo(g, i);
      && 0 <= j < |ch| && 0 <= Within(g, i) < 16 * g.csize && i == 16 * Times(j, g.csize) + Within(g, i)
      && clust == ch[j] && sect == ClusterSector(g, ch[j]) + Within(g, i) / 16
  {
    var k := i / 16;
    SplitSector(g, ch, k);
    assert 1 <= g.csize;
    hide ChainSectors, ClusterSector, Geometry.Ok, InRange, Times;
    WithinParts(k, i % 16, g.csize);
  }

  lemma WithinParts(k: nat, r: nat, c: nat)
    requires r < 16 && 1 <= c
    ensures 0 <= k % c < c && 0 <= 16 * (k % c) + r < 16 * c && (16 * (k % c) + r) / 16 == k % c
  {
  }

  /** Within a cluster the next sector of the disk follows. */
  lemma NextInCluster(g: Geometry, ch: seq<nat>, i: nat, clust: nat, sect: nat, ofs: nat)
    requires g.Ok() && InRange(g, ch) && Points(g, Chain(ch), i, clust, sect, ofs)
    requires (i + 1) % 16 == 0 && i + 1 < MAX_ENTRIES && !BeginsCluster(g, i + 1)
    ensures Points(g, Chain(ch), i + 1, clust, sect + 1, OffsetOf(i + 1)) && i + 1 < SizeOf(Sectors(g, Chain(ch)))
  {
    PositionInChain(g, ch, i, clust, sect, ofs);
    assert (i + 1) / 16 == i / 16 + 1;
    NextResidue(i / 16, g.csize);
    hide Points, ClusterSector, Geometry.Ok, InRange;
    PointsInChain(g, ch, ClusterNo(g, i), i + 1, Within(g, i) + 1);
    PointsBound(g, Chain(ch), i + 1, clust, sect + 1, OffsetOf(i + 1));
  }

  /** At the end of a cluster the next cluster of the chain follows, if there is one. */
  lemma NextCluster(g: Geometry, ch: seq<nat>, i: nat, clust: nat, sect: nat, ofs: nat)
    requires g.Ok() && InRange(g, ch) && Points(g, Chain(ch), i, clust, sect, ofs)
    requires (i + 1) % 16 == 0 && i + 1 < MAX_ENTRIES && BeginsCluster(g, i + 1)
    ensures var j := ClusterNo(g, i);
      && 0 <= j < |ch| && clust == ch[j] && i + 1 == 16 * Times(j + 1, g.csize)
      && (j + 1 < |ch| ==> Points(g, Chain(ch), i + 1, ch[j + 1], ClusterSector(g, ch[j + 1]), OffsetOf(i + 1)))
      && (if j + 1 < |ch| then i + 1 < SizeOf(Sectors(g, Chain(ch))) else i + 1 == SizeOf(Sectors(g, Chain(ch))))
  {
    PositionInChain(g, ch, i, clust, sect, ofs);
    assert (i + 1) / 16 == i / 16 + 1;
    NextResidue(i / 16, g.csize);
    hide Points, ClusterSector, InRange;
    var j := ClusterNo(g, i);
    assert i + 1 == 16 * Times(j + 1, g.csize);
    if j + 1 < |ch| {
      PointsInChain(g, ch, j + 1, i + 1, 0);
      TimesGap(j + 1, |ch|, g.csize);
    }
  }

  // ----- what an operation leaves alone -----

  ghost predicate InPlace(p: Place, c: nat) { p.Chain? && c in p.ch }

  /** The table is where it was, or has grown at its end. */
  ghost predicate Grew(p: Place, q: Place) { p == q || (p.Chain? && q.Chain? && p.ch <= q.ch) }

  /** The table at `p` lies on the disk. */
  ghost predicate Fits(g: Geometry, p: Place, d: Disk)
  {
    DiskOf(g, d) && (p.Chain? ==> InRange(g, p.ch)) && GoodSectors(g, Sectors(g, p))
  }

  lemma FitsMeans(g: Geometry, p: Place, d: Disk)
    requires Fits(g, p, d)
    ensures DiskOf(g, d) && g.Ok() && (p.Chain? ==> InRange(g, p.ch)) && GoodSectors(g, Sectors(g, p))
  {
  }

  ghost function TableAt(g: Geometry, p: Place, d: Disk): (t: Table)
    requires Fits(g, p, d)
    ensures |t| == SizeOf(Sectors(g, p))
  {
    TableOf(d, Sectors(g, p))
  }

  /** From disk `d` to `e` only sectors of the table changed, and FAT entries of its clusters; those it gained were
      free. */
  ghost predicate TableOnly(g: Geometry, p: Place, q: Place, d: Disk, e: Disk)
    requires DiskOf(g, d) && DiskOf(g, e) && (q.Chain? ==> InRange(g, q.ch))
  {
    && Grew(p, q)
    && (forall s :: 0 <= s < |d| && (s < g.fatbase || g.FatEnd() <= s) && s !in Sectors(g, q) ==> e[s] == d[s])
    && (forall c: nat :: 2 <= c < g.maxClust && !InPlace(q, c) ==> Fat(g, e)[c] == Fat(g, d)[c])
    && (forall c: nat :: InPlace(q, c) && !InPlace(p, c) ==> 2 <= c < g.maxClust && Fat(g, d)[c] == 0)
  }

  lemma {:induction false} SectorsPrefix(g: Geometry, ch: seq<nat>, ch': seq<nat>)
    requires g.Ok() && InRange(g, ch') && ch <= ch'
    ensures InRange(g, ch) && ChainSectors(g, ch) <= ChainSectors(g, ch')
    decreases |ch'|
  {
    if ch != ch' {
      var m := ch'[..|ch'| - 1];
      assert InRange(g, m) && ch <= m;
      SectorsPrefix(g, ch, m);
    }
  }

  lemma SectorsGrow(g: Geometry, p: Place, q: Place)
    requires g.Ok() && Grew(p, q) && (q.Chain? ==> InRange(g, q.ch))
    ensures p.Chain? ==> InRange(g, p.ch)
    ensures Sectors(g, p) <= Sectors(g, q)
    ensures forall c: nat :: InPlace(p, c) ==> InPlace(q, c)
  {
    if p.Chain? && q.Chain? {
      SectorsPrefix(g, p.ch, q.ch);
      forall c | c in p.ch ensures c in q.ch {}
    }
  }

  lemma TableOnlySelf(g: Geometry, p: Place, d: Disk)
    requires DiskOf(g, d) && (p.Chain? ==> InRange(g, p.ch))
    ensures TableOnly(g, p, p, d, d)
  {
  }

  lemma TableOnlyTwice(g: Geometry, p: Place, q: Place, r: Place, d: Disk, e: Disk, f: Disk)
    requires DiskOf(g, d) && DiskOf(g, e) && DiskOf(g, f) && (q.Chain? ==> InRange(g, q.ch))
    requires r.Chain? ==> InRange(g, r.ch)
    requires TableOnly(g, p, q, d, e) && TableOnly(g, q, r, e, f)
    ensures TableOnly(g, p, r, d, f)
  {
    SectorsGrow(g, q, r);
    hide Sectors, Fat;
    forall s | 0 <= s < |d| && (s < g.fatbase || g.FatEnd() <= s) && s !in Sectors(g, r) ensures f[s] == d[s] {
      assert s !in Sectors(g, q);
    }
  }

  /** A store into a sector of the table. */
  lemma StoreIsTableOnly(g: Geometry, p: Place, d: Disk, s: nat, w: Sector)
    requires DiskOf(g, d) && (p.Chain? ==> InRange(g, p.ch)) && GoodSectors(g, Sectors(g, p)) && s in Sectors(g, p)
    ensures s < |d| && DiskOf(g, d[s := w]) && TableOnly(g, p, p, d, d[s := w]) && Fat(g, d[s := w]) == Fat(g, d)
  {
    FatUntouched(g, d, d[s := w]);
  }

  // ----- how far a table was stretched -----

  /** The clusters that the table at `q` has more than the one at `p`. */
  function Extra(p: Place, q: Place): int { if p.Chain? && q.Chain? then |q.ch| - |p.ch| else 0 }

  /** The table of `n` entries at `p` became the one of `m` entries at `q` by whole clusters. */
  predicate Enlarged(g: Geometry, p: Place, n: nat, q: Place, m: nat)
  {
    0 <= Extra(p, q) && m == n + 16 * Times(Extra(p, q), g.csize)
  }

  lemma EnlargedSelf(g: Geometry, p: Place, n: nat)
    ensures Enlarged(g, p, n, p, n)
  {
  }

  lemma EnlargedTwice(g: Geometry, p: Place, n: nat, q: Place, m: nat, r: Place, l: nat)
    requires Enlarged(g, p, n, q, m) && Enlarged(g, q, m, r, l) && Grew(p, q) && Grew(q, r)
    ensures Enlarged(g, p, n, r, l)
  {
    TimesAdd(Extra(p, q), Extra(q, r), g.csize);
    assert Extra(p, r) == Extra(p, q) + Extra(q, r);
  }

  /** One step of the search for room: `i` is the entry it comes to. */
  lemma EnlargedStep(g: Geometry, p: Place, n: nat, q: Place, m: nat, r: Place, l: nat, i: nat)
    requires Enlarged(g, p, n, q, m) && Enlarged(g, q, m, r, l) && Grew(p, q) && Grew(q, r)
    requires Extra(q, r) <= 1 && i <= m && (i < m ==> r == q) && (Extra(p, q) > 0 ==> m <= i - 1 + 16 * g.csize)
    ensures Enlarged(g, p, n, r, l) && (Extra(p, r) > 0 ==> l <= i + 16 * g.csize)
  {
    EnlargedTwice(g, p, n, q, m, r, l);
    assert Times(1, g.csize) == g.csize + Times(0, g.csize);
  }

  lemma LengthenedGrew(g: Geometry, p: Place, q: Place, d: Disk, e: Disk)
    requires Lengthened(g, p, q, d, e)
    ensures Grew(p, q)
  {
  }

  /** As long as the last entry asked for is in the last cluster, no cluster was taken in vain. */
  lemma EnlargedToReach(g: Geometry, p: Place, n: nat, q: Place, m: nat, end: nat)
    requires 1 <= g.csize && Enlarged(g, p, n, q, m) && end <= m && (Extra(p, q) > 0 ==> m - 16 * g.csize < end)
    ensures Extra(p, q) == ClustersMore(n, end, 16 * g.csize)
  {
    var k, cap := Extra(p, q), 16 * g.csize;
    TimesIsProduct(k, g.csize);
    assert 16 * (k * g.csize) == k * cap;
    if k > 0 { CeilingIs(end - n, k, cap); }
  }

  lemma CeilingIs(x: int, k: nat, c: nat)
    requires 1 <= c && 1 <= k && k * c - c < x <= k * c
    ensures 0 < x && (x + c - 1) / c == k
  {
    assert k * c - c == (k - 1) * c;
    MulMonotone(0, k - 1, c);
    DivUnique(x + c - 1, c, k, x + c - 1 - k * c);
  }

  /** Clusters of a power of two fill a larger power of two without rest. */
  lemma {:induction false} PowersFill(k: nat, c: nat, n: nat)
    requires PowerOfTwo(c) && PowerOfTwo(n) && k * c < n && c <= n
    ensures k * c + c <= n
    decreases c
  {
    if c > 1 {
      assert k * c == k * (c / 2) * 2;
      PowersFill(k, c / 2, n / 2);
    }
  }

  /** A chained table that an index can still go beyond has one more cluster of entries after a stretch. */
  lemma OneClusterMore(g: Geometry, ch: seq<nat>, r: nat)
    requires g.Ok() && InRange(g, ch + [r]) && InRange(g, ch) && SizeOf(Sectors(g, Chain(ch))) < MAX_ENTRIES
    ensures SizeOf(Sectors(g, Chain(ch + [r]))) == SizeOf(Sectors(g, Chain(ch))) + 16 * g.csize
    ensures Enlarged(g, Chain(ch), SizeOf(Sectors(g, Chain(ch))),
                     Chain(ch + [r]), SizeOf(Sectors(g, Chain(ch + [r]))))
  {
    hide ChainSectors, Geometry.FatFits, Geometry.TypeMatches;
    TimesIsProduct(|ch|, g.csize);
    assert PowerOfTwo(4096) by {
      assert PowerOfTwo(1) && PowerOfTwo(2) && PowerOfTwo(4) && PowerOfTwo(8) && PowerOfTwo(16) && PowerOfTwo(32);
      assert PowerOfTwo(64) && PowerOfTwo(128) && PowerOfTwo(256) && PowerOfTwo(512) && PowerOfTwo(1024);
      assert PowerOfTwo(2048);
    }
    PowersFill(|ch|, g.csize, 4096);
    assert Times(|ch| + 1, g.csize) == g.csize + Times(|ch|, g.csize);
    assert Times(1, g.csize) == g.csize + Times(0, g.csize);
  }

  /** From the table `a` to `b` the directory went from `p` to `q`: cluster by cluster, each taken by create_chain. */
  ghost predicate PlaceGrown(a: Alloc, p: Place, eoc: nat, b: Alloc, q: Place)
  {
    if p.Static? then q == p && b == a else q.Chain? && GrownTo(a, p.ch, eoc, b, q.ch)
  }

  lemma PlaceGrownSelf(a: Alloc, p: Place, eoc: nat)
    ensures PlaceGrown(a, p, eoc, a, p)
  {
    if p.Chain? { GrownByNone(a, p.ch, eoc); }
  }

  lemma PlaceGrownTwice(a: Alloc, p: Place, eoc: nat, b: Alloc, q: Place, c: Alloc, r: Place)
    requires PlaceGrown(a, p, eoc, b, q) && PlaceGrown(b, q, eoc, c, r)
    ensures PlaceGrown(a, p, eoc, c, r)
  {
    if p.Chain? { GrownTwice(a, p.ch, eoc, b, q.ch, c, r.ch); }
  }

  /** A table that is where it was has taken no cluster. */
  lemma NotGrown(a: Alloc, p: Place, eoc: nat, b: Alloc)
    requires PlaceGrown(a, p, eoc, b, p)
    ensures b == a
  {
    if p.Chain? { GrownPrefix(a, p.ch, eoc, b, p.ch); }
  }

  // ----- stretching -----

  /** The table was at most stretched, by zero entries. */
  ghost predicate Lengthened(g: Geometry, p: Place, q: Place, d: Disk, e: Disk)
  {
    && Fits(g, p, d) && Fits(g, q, e) && TableOnly(g, p, q, d, e) && (p == q ==> e == d)
    && |TableAt(g, q, e)| >= |TableAt(g, p, d)|
    && TableAt(g, q, e) == Stretched(TableAt(g, p, d), |TableAt(g, q, e)| - |TableAt(g, p, d)|)
  }

  lemma LengthenedSelf(g: Geometry, p: Place, d: Disk)
    requires Fits(g, p, d)
    ensures Lengthened(g, p, p, d, d)
  {
    TableOnlySelf(g, p, d);
  }

  lemma LengthenedTwice(g: Geometry, p: Place, q: Place, r: Place, d: Disk, e: Disk, f: Disk)
    requires Lengthened(g, p, q, d, e) && Lengthened(g, q, r, e, f)
    ensures Lengthened(g, p, r, d, f)
  {
    hide TableOnly, TableAt, Sectors, GoodSectors;
    TableOnlyTwice(g, p, q, r, d, e, f);
    if p == r { GrewBack(g, p, q, d, e, r, f); }
  }

  lemma GrewBack(g: Geometry, p: Place, q: Place, d: Disk, e: Disk, r: Place, f: Disk)
    requires Lengthened(g, p, q, d, e) && Lengthened(g, q, r, e, f) && p == r
    ensures f == d
  {
    assert Grew(p, q) && Grew(q, r);
    assert p == q;
  }

  /** The clusters a table may use: its own, and the free ones. */
  function Usable(f: seq<nat>, ch: seq<nat>): set<nat>
  {
    set c: nat | 2 <= c < |f| && (f[c] == 0 || c in ch)
  }

  lemma UsableOwns(f: seq<nat>, ch: seq<nat>)
    requires IsChain(f, ch) && NoOnes(f)
    ensures Owns(f, ch, Usable(f, ch))
  {
  }

  /** create_chain at the end of a table's chain: no cluster is free, or the table gains one that was. */
  lemma TableGrows(g: Geometry, a: Alloc, sclust: nat, ch: seq<nat>, r: nat, b: Alloc)
    requires Located(g, a.fat, sclust, Chain(ch)) && Created(a, Last(ch), r, Mask(g.fatType, 0xFFF_FFFF), b)
    ensures r != 1
    ensures r == 0 ==> b == a && forall c :: 2 <= c < |a.fat| ==> a.fat[c] != 0
    ensures r >= 2 ==> r < |a.fat| && a.fat[r] == 0 && r !in ch && Located(g, b.fat, sclust, Chain(ch + [r]))
    ensures r >= 2 ==> forall c :: 2 <= c < |a.fat| && c !in ch + [r] ==> b.fat[c] == a.fat[c]
  {
    UsableOwns(a.fat, ch);
    MaskKeeps(g);
    ChainUses(a.fat, ch);
    GrowChain(a, ch, Usable(a.fat, ch), r, Mask(g.fatType, 0xFFF_FFFF), b);
  }

  /** The table once the FAT was updated and the new cluster cleared: the old entries, and zero entries behind them. */
  lemma StretchedTable(g: Geometry, d: Disk, m: Disk, e: Disk, sclust: nat, ch: seq<nat>, r: nat)
    requires DiskOf(g, d) && DiskOf(g, m) && DiskOf(g, e) && SameData(g, d, m) && 2 <= r < g.maxClust
    requires Located(g, Fat(g, d), sclust, Chain(ch)) && Located(g, Fat(g, m), sclust, Chain(ch + [r])) && r !in ch
    requires forall c :: 2 <= c < g.maxClust && c !in ch + [r] ==> Fat(g, m)[c] == Fat(g, d)[c]
    requires Fat(g, d)[r] == 0
    requires forall s :: 0 <= s < |m| && !SectorOf(g, r, s) ==> e[s] == m[s]
    requires forall s :: 0 <= s < |m| && SectorOf(g, r, s) ==> e[s] == Zeros(512)
    ensures Fat(g, e) == Fat(g, m) && Lengthened(g, Chain(ch), Chain(ch + [r]), d, e)
  {
    hide Fat, Located, TableOnly, TableOf, Stretched, ChainSectors, GoodSectors, SectorOf, SizeOf;
    LocatedIsGood(g, Fat(g, d), sclust, Chain(ch));
    LocatedIsGood(g, Fat(g, m), sclust, Chain(ch + [r]));
    OldSectorsSame(g, d, m, e, ch, r);
    ClusterIsCleared(g, e, r);
    AllOnDisk(g, ChainSectors(g, ch));
    TableStretch(g, d, e, ch, r);
    StretchIsTableOnly(g, d, m, e, ch, r);
  }

  lemma AllOnDisk(g: Geometry, secs: seq<nat>)
    requires GoodSectors(g, secs)
    ensures forall k :: 0 <= k < |secs| ==> secs[k] < g.nSectors
  {
  }

  lemma ClusterIsCleared(g: Geometry, e: Disk, r: nat)
    requires DiskOf(g, e) && 2 <= r < g.maxClust && forall s :: 0 <= s < |e| && SectorOf(g, r, s) ==> e[s] == Zeros(512)
    ensures ClusterSector(g, r) + g.csize <= |e|
    ensures forall s :: ClusterSector(g, r) <= s < ClusterSector(g, r) + g.csize ==> e[s] == Zeros(512)
  {
    ClusterInRange(g, r);
    forall s | ClusterSector(g, r) <= s < ClusterSector(g, r) + g.csize ensures e[s] == Zeros(512) {
      assert SectorOf(g, r, s);
    }
  }

  lemma StretchIsTableOnly(g: Geometry, d: Disk, m: Disk, e: Disk, ch: seq<nat>, r: nat)
    requires DiskOf(g, d) && DiskOf(g, m) && DiskOf(g, e) && SameData(g, d, m) && 2 <= r < g.maxClust
    requires Fat(g, d)[r] == 0
    requires InRange(g, ch + [r])
    requires forall c :: 2 <= c < g.maxClust && c !in ch + [r] ==> Fat(g, m)[c] == Fat(g, d)[c]
    requires forall s :: 0 <= s < |m| && !SectorOf(g, r, s) ==> e[s] == m[s]
    ensures Fat(g, e) == Fat(g, m) && TableOnly(g, Chain(ch), Chain(ch + [r]), d, e)
  {
    hide Fat, ChainSectors;
    FatAreaHolds(g);
    ClusterInRange(g, r);
    FatUntouched(g, m, e);
    assert forall k :: 0 <= k < |ch| ==> (ch + [r])[k] == ch[k];
    NewSectors(g, ch, r);
  }

  lemma OldSectorsSame(g: Geometry, d: Disk, m: Disk, e: Disk, ch: seq<nat>, r: nat)
    requires g.Ok() && |d| == |m| == |e| == g.nSectors && SameData(g, d, m) && 2 <= r < g.maxClust
    requires InRange(g, ch) && r !in ch && GoodSectors(g, ChainSectors(g, ch))
    requires forall s :: 0 <= s < |m| && !SectorOf(g, r, s) ==> e[s] == m[s]
    ensures forall k :: 0 <= k < |ChainSectors(g, ch)| ==> e[ChainSectors(g, ch)[k]] == d[ChainSectors(g, ch)[k]]
  {
    forall k | 0 <= k < |ChainSectors(g, ch)| ensures e[ChainSectors(g, ch)[k]] == d[ChainSectors(g, ch)[k]] {
      SplitSector(g, ch, k);
      var s, i := ChainSectors(g, ch)[k], k / g.csize;
      SectorOfIntro(g, ch[i], k % g.csize);
      if SectorOf(g, r, s) { SectorOfOne(g, ch[i], r, s); }
    }
  }

  lemma NewSectors(g: Geometry, ch: seq<nat>, r: nat)
    requires g.Ok() && InRange(g, ch + [r])
    ensures 2 <= r < g.maxClust
    ensures forall s :: s !in Sectors(g, Chain(ch + [r])) ==> !SectorOf(g, r, s)
  {
    var ch' := ch + [r];
    assert ch'[|ch|] == r;
    forall s: nat | SectorOf(g, r, s) ensures s in Sectors(g, Chain(ch')) {
      SectorAt(g, ch', |ch|, s - ClusterSector(g, r));
    }
  }

  lemma ClearedCluster(g: Geometry, m: Disk, e: Disk, r: nat)
    requires g.Ok() && 2 <= r < g.maxClust && Cleared(m, e, ClusterSector(g, r), ClusterSector(g, r) + g.csize)
    ensures |e| == |m|
    ensures forall s :: 0 <= s < |m| && !SectorOf(g, r, s) ==> e[s] == m[s]
    ensures forall s :: 0 <= s < |m| && SectorOf(g, r, s) ==> e[s] == Zeros(512)
  {
  }

  /** The first entry of a cluster that was added at the end. */
  lemma LastInChain(g: Geometry, ch: seq<nat>, i: nat)
    requires g.Ok() && InRange(g, ch) && ch != [] && i == 16 * Times(|ch| - 1, g.csize) && i < MAX_ENTRIES
    ensures Points(g, Chain(ch), i, Last(ch), ClusterSector(g, Last(ch)), OffsetOf(i))
  {
    PointsInChain(g, ch, |ch| - 1, i, 0);
  }

  lemma LengthenedFits(g: Geometry, p: Place, q: Place, d: Disk, e: Disk)
    requires Lengthened(g, p, q, d, e)
    ensures Fits(g, p, d) && Fits(g, q, e) && TableOnly(g, p, q, d, e) && (p == q ==> e == d)
  {
  }

  ghost predicate NoneFree(f: seq<nat>) { forall c :: 2 <= c < |f| ==> f[c] != 0 }

  /** What dir_next gives at the end of a table: nothing changes without stretching or room, else it succeeds. */
  ghost predicate AtEnd(stretch: bool, same: bool, f: seq<nat>, res: FResult)
  {
    if !stretch then same && res == NoFile
    else if same then res == NoFile || (res == Denied && NoneFree(f))
    else res == FResult.Ok
  }

  lemma StartCluster(g: Geometry, f: seq<nat>, sclust: nat, p: Place)
    requires Located(g, f, sclust, p)
    ensures var clst := if sclust == 0 && g.fatType == Fat32 then g.dirbase else sclust;
      && (p.Static? <==> clst == 0) && (p.Chain? ==> p.ch != [] && InRange(g, p.ch) && clst == p.ch[0])
  {
    LocatedIsGood(g, f, sclust, p);
  }

  lemma StaticPoints(g: Geometry, idx: nat)
    requires g.Ok() && g.fatType != Fat32 && idx < MAX_ENTRIES
    ensures idx < g.nRootdir <==> idx < SizeOf(Sectors(g, Static))
    ensures idx < g.nRootdir ==> Points(g, Static, idx, 0, g.dirbase + idx / 16, OffsetOf(idx))
  {
  }

  lemma SizeIs(g: Geometry, p: Place, idx: nat)
    requires g.Ok() && (p.Chain? ==> InRange(g, p.ch)) && idx < MAX_ENTRIES
    ensures idx < SizeOf(Sectors(g, p)) <==> idx < 16 * |Sectors(g, p)|
  {
  }

  lemma PointsInfo(g: Geometry, p: Place, i: nat, clust: nat, sect: nat, ofs: nat)
    requires g.Ok() && (p.Chain? ==> InRange(g, p.ch)) && GoodSectors(g, Sectors(g, p))
    requires Points(g, p, i, clust, sect, ofs)
    ensures i < SizeOf(Sectors(g, p)) <= MAX_ENTRIES && (p.Static? <==> clust == 0)
    ensures g.FatEnd() <= sect < g.nSectors && 0 < sect && sect in Sectors(g, p) && ofs == OffsetOf(i)
    ensures sect == Sectors(g, p)[i / 16]
  {
    if p.Chain? { SplitSector(g, p.ch, i / 16); }
  }

  /** The entry a directory object points at, in the sector it names. */
  lemma EntryInSector(g: Geometry, p: Place, d: Disk, i: nat, clust: nat, sect: nat, ofs: nat)
    requires Fits(g, p, d) && Points(g, p, i, clust, sect, ofs)
    ensures 0 < sect < |d| && g.FatEnd() <= sect && ofs + 32 <= 512 && i < |TableAt(g, p, d)|
    ensures TableAt(g, p, d)[i] == d[sect][ofs..ofs + 32]
  {
    PointsInfo(g, p, i, clust, sect, ofs);
  }

  /** Only sectors of the table changed, and no FAT entry. */
  ghost predicate Rewritten(g: Geometry, p: Place, d: Disk, e: Disk)
  {
    && Fits(g, p, d) && Fits(g, p, e) && TableOnly(g, p, p, d, e) && Fat(g, e) == Fat(g, d)
  }

  /** A store at a position changes that entry, and nothing outside the table. */
  lemma StoreAtEntry(g: Geometry, p: Place, d: Disk, i: nat, clust: nat, sect: nat, ofs: nat, at: nat, bs: seq<byte>)
    requires Fits(g, p, d) && Points(g, p, i, clust, sect, ofs) && at + |bs| <= 32
    ensures sect < |d| && ofs + 32 <= 512 && i < |TableAt(g, p, d)|
    ensures var e := d[sect := Splice(d[sect], ofs + at, bs)];
      Rewritten(g, p, d, e) && TableAt(g, p, e) == TableAt(g, p, d)[i := Splice(TableAt(g, p, d)[i], at, bs)]
  {
    hide Fat, Splice, TableOnly, Sectors;
    PointsInfo(g, p, i, clust, sect, ofs);
    FatAreaHolds(g);
    StoreEntry(d, Sectors(g, p), i, at, bs);
    StoreIsTableOnly(g, p, d, sect, Splice(d[sect], ofs + at, bs));
  }

  lemma RewrittenSelf(g: Geometry, p: Place, d: Disk)
    requires Fits(g, p, d)
    ensures Rewritten(g, p, d, d)
  {
    TableOnlySelf(g, p, d);
  }

  lemma RewrittenTwice(g: Geometry, p: Place, d: Disk, e: Disk, f: Disk)
    requires Rewritten(g, p, d, e) && Rewritten(g, p, e, f)
    ensures Rewritten(g, p, d, f)
  {
    hide TableOnly, Sectors, GoodSectors;
    TableOnlyTwice(g, p, p, p, d, e, f);
  }

  lemma RewrittenFits(g: Geometry, p: Place, d: Disk, e: Disk)
    requires Rewritten(g, p, d, e)
    ensures Fits(g, p, d) && Fits(g, p, e) && Fat(g, e) == Fat(g, d)
  {
  }

  lemma StretchedRange(g: Geometry, ch: seq<nat>)
    requires g.Ok() && InRange(g, ch) && ch != []
    ensures 2 <= Last(ch) < g.maxClust
  {
  }

  lemma LengthenedTable(g: Geometry, p: Place, q: Place, d: Disk, e: Disk)
    requires Lengthened(g, p, q, d, e)
    ensures Fits(g, p, d) && Fits(g, q, e) && |TableAt(g, q, e)| >= |TableAt(g, p, d)|
    ensures TableAt(g, q, e) == Stretched(TableAt(g, p, d), |TableAt(g, q, e)| - |TableAt(g, p, d)|)
  {
  }

  /** A step to entry `i`, the first of a sector, of a table of `size` entries; a stretch is by one cluster. */
  ghost predicate Stepped(g: Geometry, p: Place, q: Place, d: Disk, e: Disk, i: nat, size: nat, stretch: bool,
                          res: FResult, clust: nat, sect: nat)
  {
    && Lengthened(g, p, q, d, e)
    && Extra(p, q) <= 1 && Enlarged(g, p, |TableAt(g, p, d)|, q, |TableAt(g, q, e)|)
    && (res == FResult.Ok ==> Points(g, q, i, clust, sect, OffsetOf(i)))
    && (i < size ==> q == p && res == FResult.Ok)
    && (res == NoFile && q.Chain? ==> !stretch)
    && (i >= size ==> i == size && AtEnd(stretch, q == p, Fat(g, e), res))
  }

  lemma SteppedStatic(g: Geometry, d: Disk, i: nat, stretch: bool, sect: nat, ofs: nat, clust: nat)
    requires Fits(g, Static, d) && Points(g, Static, i, 0, sect, ofs) && (i + 1) % 16 == 0 && i + 1 < MAX_ENTRIES
    requires clust == 0
    ensures Stepped(g, Static, Static, d, d, i + 1, SizeOf(Sectors(g, Static)), stretch,
                    if i + 1 >= g.nRootdir then NoFile else FResult.Ok, clust, sect + 1)
  {
    NextStatic(g, i, sect, ofs);
    LengthenedSelf(g, Static, d);
  }

  lemma SteppedInCluster(g: Geometry, ch: seq<nat>, d: Disk, i: nat, stretch: bool, clust: nat, sect: nat, ofs: nat)
    requires Fits(g, Chain(ch), d) && Points(g, Chain(ch), i, clust, sect, ofs) && (i + 1) % 16 == 0
    requires i + 1 < MAX_ENTRIES
    requires !BeginsCluster(g, i + 1)
    ensures Stepped(g, Chain(ch), Chain(ch), d, d, i + 1, SizeOf(Sectors(g, Chain(ch))), stretch, FResult.Ok, clust,
        sect + 1)
  {
    NextInCluster(g, ch, i, clust, sect, ofs);
    LengthenedSelf(g, Chain(ch), d);
  }

  lemma ChainedClusters(g: Geometry)
    requires g.Ok()
    ensures 1 <= g.csize
  {
  }

  /** A step to the next sector that needs no link. */
  lemma SteppedPlainly(g: Geometry, p: Place, d: Disk, i: nat, stretch: bool, clust: nat, sect: nat, ofs: nat)
    requires Fits(g, p, d) && Points(g, p, i, clust, sect, ofs) && (i + 1) % 16 == 0 && i + 1 < MAX_ENTRIES
    requires clust == 0 || !BeginsCluster(g, i + 1)
    ensures Stepped(g, p, p, d, d, i + 1, |TableAt(g, p, d)|, stretch,
                    if clust == 0 && i + 1 >= g.nRootdir then NoFile else FResult.Ok, clust, sect + 1)
  {
    PointsInfo(g, p, i, clust, sect, ofs);
    if p.Static? { SteppedStatic(g, d, i, stretch, sect, ofs, clust); }
    if p.Chain? { SteppedInCluster(g, p.ch, d, i, stretch, clust, sect, ofs); }
  }

  /** The table stretched if need be, and then written to: nothing else changes. */
  ghost predicate Changed(g: Geometry, p: Place, q: Place, d: Disk, e: Disk)
  {
    Fits(g, p, d) && Fits(g, q, e) && TableOnly(g, p, q, d, e)
  }

  lemma LengthenedIs(g: Geometry, p: Place, q: Place, d: Disk, e: Disk)
    requires Lengthened(g, p, q, d, e)
    ensures Changed(g, p, q, d, e) && Longer(TableAt(g, p, d), TableAt(g, q, e))
  {
    hide Fat, TableAt, TableOnly, Sectors, GoodSectors;
  }

  lemma ChangedBy(g: Geometry, p: Place, q: Place, d: Disk, m: Disk, e: Disk)
    requires Lengthened(g, p, q, d, m) && Rewritten(g, q, m, e)
    ensures Changed(g, p, q, d, e)
  {
    hide TableOnly, Sectors, GoodSectors;
    TableOnlyTwice(g, p, q, q, d, m, e);
  }

  /** The chains of a table. */
  function TableChains(p: Place): seq<seq<nat>> { if p.Chain? then FileChains(p.ch) else [] }

  lemma InTableChains(p: Place, c: nat)
    ensures ChainRuns.OwnedBy(TableChains(p), c) <==> InPlace(p, c)
  {
    if InPlace(p, c) { assert c in TableChains(p)[0]; }
  }

  /** The free clusters and those of some chains. */
  function Part(f: seq<nat>, mine: seq<seq<nat>>): set<nat>
  {
    set c: nat | 2 <= c < |f| && (f[c] == 0 || (exists i :: 0 <= i < |mine| && c in mine[i]))
  }

  /** After every operation on a directory table the live chains are as ChainRuns demands, the table's among them. */
  lemma TableKeepsOwned(g: Geometry, p: Place, q: Place, d: Disk, e: Disk, sclust: nat, others: seq<seq<nat>>)
    requires Changed(g, p, q, d, e) && Located(g, Fat(g, e), sclust, q)
    requires WellOwned(Fat(g, d), others + TableChains(p))
    ensures WellOwned(Fat(g, e), others + TableChains(q))
  {
    hide Fat, Sectors, GoodSectors, Geometry.Ok, WellOwned, IsChain, Disjoint;
    var f, f' := Fat(g, d), Fat(g, e);
    var dom := Part(f, TableChains(p));
    SectorsGrow(g, p, q);
    forall c: nat ensures ChainRuns.OwnedBy(TableChains(p), c) <==> InPlace(p, c) { InTableChains(p, c); }
    forall c: nat ensures ChainRuns.OwnedBy(TableChains(q), c) <==> InPlace(q, c) { InTableChains(q, c); }
    assert Covers(f, TableChains(p), dom);
    assert Covers(f', TableChains(q), dom);
    assert Disjoint(TableChains(q)) by { OneDisjoint(q); }
    PartKeepsOwned(f, f', others, TableChains(p), TableChains(q), dom);
  }

  lemma OneDisjoint(q: Place)
    ensures Disjoint(TableChains(q))
  {
  }
}
