/** The mounted layout of a volume (the constant fields of FATFS) and what the driver needs of it. */
module Geometry {
  import opened Bytes

  datatype FatType = Fat12 | Fat16 | Fat32

  type Disk = seq<Sector>

  /** `n * k` as repeated addition, which keeps the layout facts linear. */
  function Times(n: nat, k: nat): nat
  {
    if n == 0 then 0 else k + Times(n - 1, k)
  }

  lemma {:induction false} TimesAdd(n: nat, m: nat, k: nat)
    ensures Times(n + m, k) == Times(n, k) + Times(m, k)
    decreases n
  {
    if n > 0 { TimesAdd(n - 1, m, k); }
  }

  lemma {:induction false} TimesIsProduct(n: nat, k: nat)
    ensures Times(n, k) == n * k
  {
    if n > 0 {
      TimesIsProduct(n - 1, k);
      assert n * k == k + (n - 1) * k;
    }
  }

  lemma {:induction false} TimesGap(m: nat, n: nat, k: nat)
    requires m < n
    ensures Times(m, k) + k <= Times(n, k)
    decreases n
  {
    if m < n - 1 { TimesGap(m, n - 1, k); }
  }

  lemma DivUnique(a: int, n: int, q: int, r: int)
    requires 0 < n && 0 <= r < n && a == q * n + r
    ensures a / n == q && a % n == r
  {
    var k := a / n - q;
    assert k * n == r - a % n by { assert a == (a / n) * n + a % n; }
    assert k >= 1 ==> k * n >= n;
    assert k <= -1 ==> k * n <= -n;
  }

  /** Rounding an offset in the `i`-th cluster down to a multiple of the cluster size. */
  lemma RoundDown(g: Geometry, i: nat, x: nat)
    requires g.Ok() && Times(i, g.csize) * 512 <= x < Times(i, g.csize) * 512 + g.ClusterBytes()
    ensures g.ClusterIndex(x) == i && g.ClusterStart(x) == Times(i, g.csize) * 512
  {
    hide Times, Geometry.ClusterIndex, Geometry.ClusterStart;
    TimesIsProduct(i, g.csize);
    ScaledProduct(i, g.csize);
    RoundsTo(g, i, x);
  }

  lemma ScaledProduct(i: nat, c: nat)
    ensures i * c * 512 == i * (c * 512)
  {
  }

  lemma RoundsTo(g: Geometry, i: nat, x: nat)
    requires 1 <= g.csize && i * g.ClusterBytes() <= x < i * g.ClusterBytes() + g.ClusterBytes()
    ensures g.ClusterIndex(x) == i && g.ClusterStart(x) == i * g.ClusterBytes()
  {
    DivUnique(x, g.ClusterBytes(), i, x - i * g.ClusterBytes());
  }

  lemma MulMonotone(a: nat, b: nat, m: nat)
    requires a <= b
    ensures a * m <= b * m
  {
    assert b * m == a * m + (b - a) * m;
  }

  lemma NotBefore(g: Geometry, i: nat, y: nat)
    requires 1 <= g.csize && g.ClusterIndex(y) >= i
    ensures y >= Times(i, g.csize) * 512
  {
    TimesIsProduct(i, g.csize);
    MulMonotone(i, y / g.ClusterBytes(), g.ClusterBytes());
    assert y == (y / g.ClusterBytes()) * g.ClusterBytes() + y % g.ClusterBytes();
    assert i * g.csize * 512 == i * g.ClusterBytes();
  }

  predicate PowerOfTwo(n: nat)
  {
    n == 1 || (n > 1 && n % 2 == 0 && PowerOfTwo(n / 2))
  }

  datatype Geometry = Geometry(
    fatType: FatType,
    fatbase: nat,    // first sector of the first FAT copy
    sectsFat: nat,   // sectors per FAT copy
    nFats: nat,      // number of FAT copies
    csize: nat,      // sectors per cluster
    nRootdir: nat,   // entries of the static root directory
    maxClust: nat,   // number of clusters + 2
    dirbase: nat,    // root directory: start sector, or start cluster on FAT32
    database: nat,   // first data sector
    fsiSector: nat,  // FSInfo sector, FAT32 only
    nSectors: nat)   // sectors on the drive
  {
    /** The sector after the last FAT copy. */
    function FatEnd(): int { database - nRootdir / 16 }

    /** Cluster size in bytes. */
    function ClusterBytes(): nat { csize * 512 }

    /** The index of the cluster that holds byte `x` of a file, and the offset of its first byte: the
        division and the mask & ~(bcs - 1) of f_lseek, bcs being a power of two. */
    function ClusterIndex(x: nat): int
      requires 1 <= csize
    {
      x / ClusterBytes()
    }

    function ClusterStart(x: nat): int
      requires 1 <= csize
    {
      x - x % ClusterBytes()
    }

    predicate InFat(s: nat) { fatbase <= s < fatbase + sectsFat }

    /** The sectors the window may hold dirty: the first FAT copy, and everything after the last one. */
    predicate Writable(s: nat) { InFat(s) || FatEnd() <= s < nSectors }

    /** One FAT copy has room for the entry of every cluster below maxClust. */
    predicate FatFits()
    {
      match fatType
      case Fat12 => maxClust + (maxClust - 1) / 2 + 1 <= sectsFat * 512
      case Fat16 => maxClust * 2 <= sectsFat * 512
      case Fat32 => maxClust * 4 <= sectsFat * 512
    }

    predicate TypeMatches()
    {
      match fatType
      case Fat12 => maxClust < 0xFF7
      case Fat16 => 0xFF7 <= maxClust < 0xFFF7
      case Fat32 => 0xFFF7 <= maxClust <= 0xFFF_FFF7
    }

    /** The volume invariant: what mount leaves unchecked and f_mkfs establishes. */
    predicate Ok()
    {
      && 1 <= fatbase && 1 <= sectsFat && 1 <= nFats
      && PowerOfTwo(csize) && 1 <= csize <= 128
      && nRootdir % 16 == 0 && nRootdir < 0x1_0000
      && 2 <= maxClust && TypeMatches() && FatFits()
      && database == fatbase + Times(nFats, sectsFat) + nRootdir / 16
      && database + Times(maxClust - 2, csize) <= nSectors <= 0x1_0000_0000
      && (fatType == Fat32 ==> 2 <= dirbase < maxClust && 1 <= fsiSector < fatbase)
      && (fatType != Fat32 ==> dirbase == FatEnd())
    }
  }

  /** The first FAT copy lies inside the FAT area. */
  lemma FatAreaHolds(g: Geometry)
    requires g.Ok()
    ensures g.fatbase + g.sectsFat <= g.FatEnd() <= g.database <= g.nSectors
  {
    TimesGap(0, g.nFats, g.sectsFat);
  }

  /** clust2sect on a cluster in range. */
  function ClusterSector(g: Geometry, c: nat): nat
    requires 2 <= c
  {
    g.database + Times(c - 2, g.csize)
  }

  lemma ClusterInRange(g: Geometry, c: nat)
    requires g.Ok() && 2 <= c < g.maxClust
    ensures g.database <= ClusterSector(g, c)
    ensures ClusterSector(g, c) + g.csize <= g.nSectors
  {
    TimesGap(c - 2, g.maxClust - 2, g.csize);
  }

  /** The clusters' sector ranges lie in the data area and follow one another without overlap. */
  lemma ClustersApart(g: Geometry, c: nat, d: nat)
    requires g.Ok() && 2 <= c < d < g.maxClust
    ensures g.database <= ClusterSector(g, c)
    ensures ClusterSector(g, c) + g.csize <= ClusterSector(g, d)
    ensures ClusterSector(g, d) + g.csize <= g.nSectors
  {
    ClusterInRange(g, d);
    TimesGap(c - 2, d - 2, g.csize);
  }

  // ----- the disk as the driver writes it -----

  /** `i` is one of the `n` sectors `s`, `s + step`, `s + 2 * step`, ... */
  predicate InSteps(i: nat, s: nat, step: nat, n: nat)
    decreases n
  {
    n > 0 && (i == s || InSteps(i, s + step, step, n - 1))
  }

  /** `i` is the sector `s` or, when `s` is in the first FAT copy, the same sector of another copy. */
  predicate CopyOf(g: Geometry, s: nat, i: nat)
  {
    if g.InFat(s) then InSteps(i, s, g.sectsFat, g.nFats) else i == s
  }

  /** Sector `s` written back from the window, with its mirrors. */
  function Store(g: Geometry, d: Disk, s: nat, w: Sector): (r: Disk)
    ensures |r| == |d|
    ensures forall i :: 0 <= i < |d| ==> r[i] == if CopyOf(g, s, i) then w else d[i]
  {
    seq(|d|, i requires 0 <= i < |d| => if CopyOf(g, s, i) then w else d[i])
  }

  /** Sector `i` of the FAT area equals the same sector of the next FAT copy. */
  ghost predicate SameInNext(g: Geometry, d: Disk, i: int)
  {
    0 <= i && i + g.sectsFat < |d| && d[i] == d[i + g.sectsFat]
  }

  /** All FAT copies are equal, sector for sector: each one equals the next. */
  ghost predicate Mirrored(g: Geometry, d: Disk)
  {
    forall i :: g.fatbase <= i && i + g.sectsFat < g.FatEnd() ==> SameInNext(g, d, i)
  }

  lemma {:induction false} StepsBound(i: nat, s: nat, step: nat, n: nat)
    requires InSteps(i, s, step, n)
    ensures i == s || s + step <= i
    ensures i + step <= s + Times(n, step)
    decreases n
  {
    if i != s { StepsBound(i, s + step, step, n - 1); }
  }

  lemma {:induction false} StepsShift(i: nat, s: nat, step: nat, n: nat)
    ensures InSteps(i + step, s + step, step, n) <==> InSteps(i, s, step, n)
    decreases n
  {
    if n > 0 { StepsShift(i, s + step, step, n - 1); }
  }

  /** Only the last of `n` steps reaches beyond `n - 1` of them. */
  lemma {:induction false} StepsLast(i: nat, s: nat, step: nat, n: nat)
    requires 0 < n && i + step < s + Times(n, step)
    ensures InSteps(i, s, step, n) <==> InSteps(i, s, step, n - 1)
    decreases n
  {
    if n == 1 {
      if InSteps(i, s, step, n) { StepsBound(i, s, step, n); }
    } else if i != s {
      StepsLast(i, s + step, step, n - 1);
    }
  }

  /** Inside the first FAT copy the only copy of `s` is `s`; outside the FAT area too. */
  lemma CopyIsSelf(g: Geometry, s: nat, i: nat)
    requires g.Ok() && g.Writable(s)
    requires g.InFat(i) || i >= g.FatEnd() || i < g.fatbase
    ensures CopyOf(g, s, i) <==> i == s
  {
    FatAreaHolds(g);
    if g.InFat(s) && i != s && InSteps(i, s, g.sectsFat, g.nFats) {
      StepsBound(i, s, g.sectsFat, g.nFats);
      StepsEnd(g, s, i);
    }
  }

  /** Every copy of a FAT sector is in the FAT area. */
  lemma StepsEnd(g: Geometry, s: nat, i: nat)
    requires g.Ok() && g.InFat(s) && InSteps(i, s, g.sectsFat, g.nFats)
    ensures g.fatbase <= i < g.FatEnd()
  {
    StepsOffset(i, s, g.fatbase, g.sectsFat, g.nFats);
  }

  lemma {:induction false} StepsOffset(i: nat, s: nat, b: nat, step: nat, n: nat)
    requires b <= s < b + step && InSteps(i, s, step, n)
    ensures b <= i < b + Times(n, step)
    decreases n
  {
    if i != s { StepsOffset(i, s + step, b + step, step, n - 1); }
  }

  /** Two corresponding sectors of adjacent FAT copies are copies of the same sectors. */
  lemma CopyShift(g: Geometry, s: nat, i: nat)
    requires g.Ok() && g.Writable(s) && g.fatbase <= i && i + g.sectsFat < g.FatEnd()
    ensures CopyOf(g, s, i) <==> CopyOf(g, s, i + g.sectsFat)
  {
    FatAreaHolds(g);
    if g.InFat(s) {
      StepsShift(i, s, g.sectsFat, g.nFats - 1);
      StepsLast(i, s, g.sectsFat, g.nFats);
    }
  }

  /** Writing a sector back with its mirrors keeps all FAT copies equal. */
  lemma StoreKeepsMirrors(g: Geometry, d: Disk, s: nat, w: Sector)
    requires g.Ok() && |d| == g.nSectors && g.Writable(s) && Mirrored(g, d)
    ensures Mirrored(g, Store(g, d, s, w))
  {
    var r := Store(g, d, s, w);
    forall i | g.fatbase <= i && i + g.sectsFat < g.FatEnd()
      ensures SameInNext(g, r, i)
    {
      FatAreaHolds(g);
      assert SameInNext(g, d, i);
      CopyShift(g, s, i);
    }
  }

  /** Mirroring touches nothing outside the FAT area, and in the first copy only the sector itself. */
  lemma StoreElsewhere(g: Geometry, d: Disk, s: nat, w: Sector)
    requires g.Ok() && |d| == g.nSectors && g.Writable(s)
    ensures forall i :: 0 <= i < |d| && (g.InFat(i) || i >= g.FatEnd() || i < g.fatbase) ==>
              Store(g, d, s, w)[i] == if i == s then w else d[i]
  {
    forall i | 0 <= i < |d| && (g.InFat(i) || i >= g.FatEnd() || i < g.fatbase)
      ensures Store(g, d, s, w)[i] == if i == s then w else d[i]
    {
      CopyIsSelf(g, s, i);
    }
  }

  lemma StoreTwice(g: Geometry, d: Disk, s: nat, w: Sector, x: Sector)
    ensures Store(g, Store(g, d, s, w), s, x) == Store(g, d, s, x)
  {
  }
}
