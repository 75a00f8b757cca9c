/** The bytes of a cluster chain on a disk, and how writing sectors changes them. */
module FileBytes {
  import opened Bytes
  import opened Geometry
  import opened FatTable
  import opened ChainRuns

  /** Every element of `ch` is a cluster number. */
  ghost predicate InRange(g: Geometry, ch: seq<nat>)
  {
    forall k :: 0 <= k < |ch| ==> 2 <= ch[k] < g.maxClust
  }

  /** Sector `s` lies in cluster `c`. */
  predicate SectorOf(g: Geometry, c: nat, s: nat)
    requires 2 <= c
  {
    ClusterSector(g, c) <= s < ClusterSector(g, c) + g.csize
  }

  /** The bytes of the clusters of `ch`, one after another. */
  function ChainBytes(g: Geometry, v: Disk, ch: seq<nat>): (b: seq<byte>)
    requires DiskOf(g, v) && InRange(g, ch)
    ensures |b| == Times(|ch|, g.csize) * 512
  {
    if ch == [] then [] else
      assert InRange(g, ch[1..]) by { assert forall k :: 0 <= k < |ch| - 1 ==> ch[1..][k] == ch[k + 1]; }
      ClusterInRange(g, ch[0]);
      Flat(v, ClusterSector(g, ch[0]), g.csize) + ChainBytes(g, v, ch[1..])
  }

  /** Cutting the chain cuts its bytes. */
  lemma {:induction false} BytesPrefix(g: Geometry, v: Disk, ch: seq<nat>, k: nat)
    requires DiskOf(g, v) && InRange(g, ch) && k <= |ch|
    ensures InRange(g, ch[..k]) && Times(k, g.csize) <= Times(|ch|, g.csize)
    ensures ChainBytes(g, v, ch[..k]) == ChainBytes(g, v, ch)[..Times(k, g.csize) * 512]
  {
    hide Flat, SectorOf;
    if k == |ch| {
      assert ch[..k] == ch;
    } else if k > 0 {
      assert InRange(g, ch[1..]);
      BytesPrefix(g, v, ch[1..], k - 1);
      assert ch[..k][1..] == ch[1..][..k - 1];
    }
  }

  /** Disks that agree on the sectors of the chain hold the same bytes. */
  lemma {:induction false} BytesSame(g: Geometry, v: Disk, w: Disk, ch: seq<nat>)
    requires DiskOf(g, v) && DiskOf(g, w) && InRange(g, ch)
    requires forall k, s :: 0 <= k < |ch| && 0 <= s < |v| && SectorOf(g, ch[k], s) ==> w[s] == v[s]
    ensures ChainBytes(g, w, ch) == ChainBytes(g, v, ch)
  {
    if ch != [] {
      ClusterInRange(g, ch[0]);
      FlatSame(v, w, ClusterSector(g, ch[0]), g.csize);
      assert InRange(g, ch[1..]);
      forall k, s | 0 <= k < |ch[1..]| && 0 <= s < |v| && SectorOf(g, ch[1..][k], s) ensures w[s] == v[s] {
        assert ch[1..][k] == ch[k + 1];
      }
      BytesSame(g, v, w, ch[1..]);
    }
  }

  /** Clusters share no sector. */
  lemma SectorOfOne(g: Geometry, c: nat, d: nat, s: nat)
    requires g.Ok() && 2 <= c < g.maxClust && 2 <= d < g.maxClust && SectorOf(g, c, s) && SectorOf(g, d, s)
    ensures c == d
  {
    if c < d { ClustersApart(g, c, d); }
    if d < c { ClustersApart(g, d, c); }
  }

  lemma SpliceRight(a: seq<byte>, b: seq<byte>, at: nat, w: seq<byte>)
    requires at + |w| <= |b|
    ensures Splice(a + b, |a| + at, w) == a + Splice(b, at, w)
  {
  }

  lemma SpliceLeft(a: seq<byte>, b: seq<byte>, at: nat, w: seq<byte>)
    requires at + |w| <= |a|
    ensures Splice(a + b, at, w) == Splice(a, at, w) + b
  {
  }

  /** Sector `t` of the `i`-th cluster is a piece of the bytes. */
  lemma {:induction false} BytesAt(g: Geometry, v: Disk, ch: seq<nat>, i: nat, t: nat)
    requires DiskOf(g, v) && InRange(g, ch) && i < |ch| && t < g.csize
    ensures ClusterSector(g, ch[i]) + t < |v|
    ensures (Times(i, g.csize) + t) * 512 + 512 <= Times(|ch|, g.csize) * 512
    ensures Piece(ChainBytes(g, v, ch), Times(i, g.csize) + t) == v[ClusterSector(g, ch[i]) + t]
  {
    hide Flat, SectorOf, Piece;
    ClusterInRange(g, ch[i]);
    ClusterInRange(g, ch[0]);
    TimesGap(i, |ch|, g.csize);
    var a, rest := Flat(v, ClusterSector(g, ch[0]), g.csize), ch[1..];
    assert InRange(g, rest);
    var b := ChainBytes(g, v, rest);
    if i == 0 {
      FlatSector(v, ClusterSector(g, ch[0]), g.csize, t);
      PieceLeft(a, b, t);
    } else {
      assert rest[i - 1] == ch[i];
      BytesAt(g, v, rest, i - 1, t);
      PieceRight(a, b, g.csize, Times(i - 1, g.csize) + t);
    }
  }

  lemma PieceLeft(a: seq<byte>, b: seq<byte>, t: nat)
    requires t * 512 + 512 <= |a|
    ensures Piece(a + b, t) == Piece(a, t)
  {
  }

  /** A change of one sector of the first cluster changes nothing of the others. */
  lemma PutInFirst(g: Geometry, v: Disk, ch: seq<nat>, s: nat, w: Sector)
    requires DiskOf(g, v) && InRange(g, ch) && Distinct(ch) && ch != [] && SectorOf(g, ch[0], s) && s < |v|
    ensures InRange(g, ch[1..])
    ensures ChainBytes(g, v[s := w], ch[1..]) == ChainBytes(g, v, ch[1..])
  {
    var rest, v' := ch[1..], v[s := w];
    assert InRange(g, rest);
    forall k, x | 0 <= k < |rest| && 0 <= x < |v| && SectorOf(g, rest[k], x) ensures v'[x] == v[x] {
      assert rest[k] == ch[k + 1];
      if x == s { SectorOfOne(g, rest[k], ch[0], s); }
    }
    BytesSame(g, v, v', rest);
  }

  /** A change of one sector of another cluster changes nothing of the first one. */
  lemma PutElsewhere(g: Geometry, v: Disk, c: nat, d: nat, s: nat, w: Sector)
    requires DiskOf(g, v) && 2 <= c < g.maxClust && 2 <= d < g.maxClust && c != d && SectorOf(g, d, s) && s < |v|
    ensures ClusterSector(g, c) + g.csize <= |v|
    ensures Flat(v[s := w], ClusterSector(g, c), g.csize) == Flat(v, ClusterSector(g, c), g.csize)
  {
    ClusterInRange(g, c);
    if SectorOf(g, c, s) { SectorOfOne(g, c, d, s); }
    FlatSame(v, v[s := w], ClusterSector(g, c), g.csize);
  }

  lemma BytesCons(g: Geometry, v: Disk, ch: seq<nat>)
    requires DiskOf(g, v) && InRange(g, ch) && ch != []
    ensures InRange(g, ch[1..]) && ClusterSector(g, ch[0]) + g.csize <= |v|
    ensures ChainBytes(g, v, ch) == Flat(v, ClusterSector(g, ch[0]), g.csize) + ChainBytes(g, v, ch[1..])
    ensures Distinct(ch) ==> Distinct(ch[1..])
  {
    ClusterInRange(g, ch[0]);
    assert forall k :: 0 <= k < |ch| - 1 ==> ch[1..][k] == ch[k + 1];
  }

  lemma PutFirst(g: Geometry, v: Disk, ch: seq<nat>, t: nat, w: Sector)
    requires DiskOf(g, v) && InRange(g, ch) && Distinct(ch) && ch != [] && t < g.csize
    ensures ClusterSector(g, ch[0]) + t < |v| && t * 512 + 512 <= Times(|ch|, g.csize) * 512
    ensures ChainBytes(g, v[ClusterSector(g, ch[0]) + t := w], ch) == Splice(ChainBytes(g, v, ch), t * 512, w)
  {
    hide SectorOf, Splice, Distinct;
    ClusterInRange(g, ch[0]);
    TimesGap(0, |ch|, g.csize);
    var first := ClusterSector(g, ch[0]);
    var v' := v[first + t := w];
    SectorOfIntro(g, ch[0], t);
    PutInFirst(g, v, ch, first + t, w);
    FlatSplice(v, v', first, g.csize, t, w);
    SpliceLeft(Flat(v, first, g.csize), ChainBytes(g, v, ch[1..]), t * 512, w);
  }

  /** Overwriting sector `t` of the `i`-th cluster overwrites that piece of the bytes. */
  lemma {:induction false} BytesPut(g: Geometry, v: Disk, ch: seq<nat>, i: nat, t: nat, w: Sector)
    requires DiskOf(g, v) && InRange(g, ch) && Distinct(ch) && i < |ch| && t < g.csize
    ensures ClusterSector(g, ch[i]) + t < |v|
    ensures (Times(i, g.csize) + t) * 512 + 512 <= Times(|ch|, g.csize) * 512
    ensures ChainBytes(g, v[ClusterSector(g, ch[i]) + t := w], ch) ==
            Splice(ChainBytes(g, v, ch), (Times(i, g.csize) + t) * 512, w)
  {
    hide SectorOf, Splice, Flat, ChainBytes;
    if i == 0 {
      PutFirst(g, v, ch, t, w);
    } else {
      ClusterInRange(g, ch[i]);
      TimesGap(i, |ch|, g.csize);
      var s, rest := ClusterSector(g, ch[i]) + t, ch[1..];
      BytesCons(g, v, ch);
      BytesCons(g, v[s := w], ch);
      BytesPut(g, v, rest, i - 1, t, w);
      SectorOfIntro(g, ch[i], t);
      PutElsewhere(g, v, ch[0], ch[i], s, w);
      var at := (Times(i - 1, g.csize) + t) * 512;
      SpliceRight(Flat(v, ClusterSector(g, ch[0]), g.csize), ChainBytes(g, v, rest), at, w);
    }
  }

  lemma SectorOfIntro(g: Geometry, c: nat, t: nat)
    requires 2 <= c && t < g.csize
    ensures SectorOf(g, c, ClusterSector(g, c) + t)
  {
  }

  lemma PieceRight(a: seq<byte>, b: seq<byte>, n: nat, t: nat)
    requires |a| == n * 512 && t * 512 + 512 <= |b|
    ensures Piece(a + b, n + t) == Piece(b, t)
  {
  }

  // ----- runs of sectors, as disk_read and disk_write transfer them -----

  /** `n` consecutive sectors overwritten with the bytes `b`. */
  function PutSectors(d: Disk, s: nat, b: seq<byte>, n: nat): (r: Disk)
    requires s + n <= |d| && |b| == n * 512
    ensures |r| == |d|
    decreases n
  {
    if n == 0 then d else PutSectors(d[s := b[..512]], s + 1, b[512..], n - 1)
  }

  lemma {:induction false} PutSectorsAt(d: Disk, s: nat, b: seq<byte>, n: nat)
    requires s + n <= |d| && |b| == n * 512
    ensures forall i :: 0 <= i < |d| ==>
              PutSectors(d, s, b, n)[i] == if s <= i < s + n then Piece(b, i - s) else d[i]
    decreases n
  {
    if n > 0 {
      PutSectorsAt(d[s := b[..512]], s + 1, b[512..], n - 1);
      forall k | 0 < k < n ensures Piece(b[512..], k - 1) == Piece(b, k) {}
    }
  }

  lemma PutSectorsOne(d: Disk, s: nat, b: seq<byte>, n: nat, k: nat)
    requires s + n <= |d| && |b| == n * 512 && k < |d|
    ensures PutSectors(d, s, b, n)[k] == if s <= k < s + n then Piece(b, k - s) else d[k]
  {
    PutSectorsAt(d, s, b, n);
  }

  lemma SpliceJoin(s: seq<byte>, at: nat, b: seq<byte>, m: nat)
    requires at + |b| <= |s| && m <= |b|
    ensures Splice(Splice(s, at, b[..m]), at + m, b[m..]) == Splice(s, at, b)
  {
  }

  /** A run of sectors of one cluster overwritten is that stretch of the bytes overwritten. */
  lemma {:induction false} BytesPutRun(g: Geometry, v: Disk, ch: seq<nat>, i: nat, t: nat, b: seq<byte>, n: nat)
    requires DiskOf(g, v) && InRange(g, ch) && Distinct(ch) && i < |ch| && t + n <= g.csize && |b| == n * 512
    ensures ClusterSector(g, ch[i]) + g.csize <= |v|
    ensures (Times(i, g.csize) + t + n) * 512 <= Times(|ch|, g.csize) * 512
    ensures ChainBytes(g, PutSectors(v, ClusterSector(g, ch[i]) + t, b, n), ch) ==
            Splice(ChainBytes(g, v, ch), (Times(i, g.csize) + t) * 512, b)
    decreases n
  {
    hide ChainBytes, Flat, Splice, Distinct, SectorOf;
    ClusterInRange(g, ch[i]);
    TimesGap(i, |ch|, g.csize);
    var at := (Times(i, g.csize) + t) * 512;
    if n == 0 {
      assert Splice(ChainBytes(g, v, ch), at, b) == ChainBytes(g, v, ch);
    } else {
      var w: Sector := b[..512];
      BytesPut(g, v, ch, i, t, w);
      BytesPutRun(g, v[ClusterSector(g, ch[i]) + t := w], ch, i, t + 1, b[512..], n - 1);
      SpliceJoin(ChainBytes(g, v, ch), at, b, 512);
    }
  }

  /** A run of sectors of one cluster read is that stretch of the bytes. */
  lemma {:induction false} BytesGetRun(g: Geometry, v: Disk, ch: seq<nat>, i: nat, t: nat, n: nat)
    requires DiskOf(g, v) && InRange(g, ch) && i < |ch| && t + n <= g.csize
    ensures ClusterSector(g, ch[i]) + g.csize <= |v|
    ensures (Times(i, g.csize) + t + n) * 512 <= Times(|ch|, g.csize) * 512
    ensures Flat(v, ClusterSector(g, ch[i]) + t, n) ==
            ChainBytes(g, v, ch)[(Times(i, g.csize) + t) * 512..(Times(i, g.csize) + t + n) * 512]
    decreases n
  {
    hide ChainBytes, SectorOf, Piece, Times, Geometry.Ok, ClusterSector;
    ClusterInRange(g, ch[i]);
    TimesGap(i, |ch|, g.csize);
    if n > 0 {
      BytesAt(g, v, ch, i, t);
      BytesGetRun(g, v, ch, i, t + 1, n - 1);
      var b, k := ChainBytes(g, v, ch), Times(i, g.csize) + t;
      PieceThen(b, k, n);
    }
  }

  lemma PieceThen(b: seq<byte>, k: nat, n: nat)
    requires 1 <= n && (k + n) * 512 <= |b|
    ensures Piece(b, k) + b[(k + 1) * 512..(k + n) * 512] == b[k * 512..(k + n) * 512]
  {
  }
}
