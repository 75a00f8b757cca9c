/** Cluster chains over an abstract allocation table: what create_chain, remove_chain and f_truncate do to
    the sequence of get_fat answers, and what every run of them keeps. */
module Chains {

  /** The table with the free-space hints of FATFS: last_clust and free_clust. */
  datatype Alloc = Alloc(fat: seq<nat>, last: nat, free: nat)

  const UNKNOWN: nat := 0xFFFF_FFFF   // free_clust when the count is not known

  /** No entry has the value 1, which the driver takes for an internal error. */
  ghost predicate NoOnes(f: seq<nat>)
  {
    forall c :: 2 <= c < |f| ==> f[c] != 1
  }

  // ----- the search for a free cluster -----

  /** How many clusters the scan looks at after `s` until it comes to `c`; past the end it wraps to 2. */
  function Steps(n: nat, s: nat, c: nat): int
  {
    if c > s then c - s else c - s + n - 2
  }

  /** Every cluster the scan from `s` meets before `k` is in use. */
  ghost predicate InUseBefore(f: seq<nat>, s: nat, k: nat)
  {
    forall c :: 2 <= c < |f| && Steps(|f|, s, c) < Steps(|f|, s, k) ==> f[c] > 1
  }

  /** The outcome of the scan: 0 when every cluster is in use, 1 when it meets an entry 1 first, else the
      first free cluster in cyclic order after `s`. */
  ghost predicate Scanned(f: seq<nat>, s: nat, r: nat)
  {
    if r == 0 then forall c :: 2 <= c < |f| ==> f[c] > 1
    else if r == 1 then exists k :: 2 <= k < |f| && f[k] == 1 && InUseBefore(f, s, k)
    else r < |f| && f[r] == 0 && InUseBefore(f, s, r)
  }

  /** In a table without 1-entries the scan fails exactly when no cluster is free, and its answer is unique. */
  lemma ScanFindsFree(f: seq<nat>, s: nat, r: nat)
    requires Scanned(f, s, r) && NoOnes(f) && 1 <= s < |f|
    ensures r != 1
    ensures r == 0 <==> forall c :: 2 <= c < |f| ==> f[c] != 0
    ensures forall r' :: Scanned(f, s, r') ==> r' == r
  {
    forall r' | Scanned(f, s, r') ensures r' == r {
      if r' >= 2 && r >= 2 {
        assert !(Steps(|f|, s, r) < Steps(|f|, s, r'));
        assert !(Steps(|f|, s, r') < Steps(|f|, s, r));
      }
    }
  }

  /** Where create_chain starts to scan. */
  function ScanStart(a: Alloc, clst: nat): nat
  {
    if clst != 0 then clst else if a.last == 0 || a.last >= |a.fat| then 1 else a.last
  }

  /** create_chain(clst): follows an existing link, rejects a cluster that is free, out of range or marked 1,
      and otherwise marks the scanned cluster as the end `eoc` of a chain and links it to `clst`. */
  ghost predicate Created(a: Alloc, clst: nat, r: nat, eoc: nat, b: Alloc)
  {
    if clst != 0 && (clst >= |a.fat| || clst < 2 || a.fat[clst] < 2) then r == 1 && b == a
    else if clst != 0 && a.fat[clst] < |a.fat| then r == a.fat[clst] && b == a
    else
      && Scanned(a.fat, ScanStart(a, clst), r)
      && (r < 2 ==> b == a)
      && (r >= 2 ==>
            && b.fat == (if clst == 0 then a.fat[r := eoc] else a.fat[r := eoc][clst := r])
            && b.last == r
            && b.free == (if a.free == UNKNOWN then UNKNOWN else (a.free + 0xFFFF_FFFF) % 0x1_0000_0000))
  }

  // ----- removing a chain -----

  /** Entries that are not zero. */
  function Used(f: seq<nat>): nat
  {
    if f == [] then 0 else Used(f[..|f| - 1]) + (if f[|f| - 1] != 0 then 1 else 0)
  }

  lemma {:induction false} UsedZeroed(f: seq<nat>, c: nat)
    requires c < |f| && f[c] != 0
    ensures Used(f[c := 0]) == Used(f) - 1
  {
    var f' := f[c := 0];
    if c == |f| - 1 {
      assert f'[..|f| - 1] == f[..|f| - 1];
    } else {
      UsedZeroed(f[..|f| - 1], c);
      assert f'[..|f| - 1] == f[..|f| - 1][c := 0];
    }
  }

  /** remove_chain stops at a free entry, at a value outside the table, and at an entry 1. */
  predicate Stops(f: seq<nat>, c: nat) { c < 2 || c >= |f| || f[c] < 2 }

  /** The table after remove_chain: every pass frees one entry, so this ends on every table. */
  function Cut(f: seq<nat>, c: nat): (r: seq<nat>)
    ensures |r| == |f|
    decreases Used(f)
  {
    if Stops(f, c) then f else (UsedZeroed(f, c); Cut(f[c := 0], f[c]))
  }

  /** The number of clusters remove_chain frees. */
  function CutCount(f: seq<nat>, c: nat): nat
    decreases Used(f)
  {
    if Stops(f, c) then 0 else (UsedZeroed(f, c); 1 + CutCount(f[c := 0], f[c]))
  }

  /** Whether remove_chain ends at an entry 1, which it reports as an error. */
  predicate CutMeetsOne(f: seq<nat>, c: nat)
    decreases Used(f)
  {
    if Stops(f, c) then 2 <= c < |f| && f[c] == 1 else (UsedZeroed(f, c); CutMeetsOne(f[c := 0], f[c]))
  }

  /** free_clust raised by `k`; it stays unknown once it is. */
  function Raised(free: nat, k: nat): nat
  {
    if free + k >= UNKNOWN then UNKNOWN else free + k
  }

  /** One pass of the removal loop. */
  lemma CutStep(f: seq<nat>, c: nat)
    requires !Stops(f, c)
    ensures Used(f[c := 0]) < Used(f)
    ensures Cut(f, c) == Cut(f[c := 0], f[c])
    ensures CutCount(f, c) == 1 + CutCount(f[c := 0], f[c])
    ensures CutMeetsOne(f, c) == CutMeetsOne(f[c := 0], f[c])
  {
    UsedZeroed(f, c);
  }

  lemma CutStopped(f: seq<nat>, c: nat)
    requires Stops(f, c)
    ensures Cut(f, c) == f && CutCount(f, c) == 0
    ensures CutMeetsOne(f, c) <==> 2 <= c < |f| && f[c] == 1
  {
  }

  /** `k` links lead from `c` to `d`. */
  ghost predicate Leads(f: seq<nat>, c: nat, d: nat, k: nat)
    decreases k
  {
    if k == 0 then c == d else !Stops(f, c) && Leads(f, f[c], d, k - 1)
  }

  ghost predicate Reachable(f: seq<nat>, c: nat, d: nat)
  {
    !Stops(f, d) && exists k: nat :: Leads(f, c, d, k)
  }

  /** Freeing `c` keeps the links that do not pass through it. */
  lemma {:induction false} LeadsAfterFree(f: seq<nat>, c: nat, b: nat, d: nat, k: nat)
    requires !Stops(f, c) && Leads(f[c := 0], b, d, k)
    ensures Leads(f, b, d, k)
    decreases k
  {
    if k > 0 { LeadsAfterFree(f, c, f[b], d, k - 1); }
  }

  ghost predicate LeadsWithin(f: seq<nat>, c: nat, d: nat, k: nat)
  {
    exists j: nat :: j <= k && Leads(f, c, d, j)
  }

  /** A way from `b` to `d` either avoids `c` or passes through it with fewer links left. */
  lemma {:induction false} LeadsSplit(f: seq<nat>, c: nat, b: nat, d: nat, k: nat)
    requires !Stops(f, c) && Leads(f, b, d, k)
    ensures Leads(f[c := 0], b, d, k) || LeadsWithin(f, c, d, k)
    decreases k
  {
    if k == 0 {
      assert Leads(f[c := 0], b, d, 0);
    } else if b == c {
      assert LeadsWithin(f, c, d, k);
    } else {
      LeadsSplit(f, c, f[b], d, k - 1);
    }
  }

  lemma {:induction false} ReachableStep(f: seq<nat>, c: nat, d: nat, k: nat)
    requires !Stops(f, c) && !Stops(f, d) && d != c && Leads(f, c, d, k)
    ensures Reachable(f[c := 0], f[c], d)
    decreases k
  {
    LeadsSplit(f, c, f[c], d, k - 1);
    if !Leads(f[c := 0], f[c], d, k - 1) {
      var j: nat :| j <= k - 1 && Leads(f, c, d, j);
      ReachableStep(f, c, d, j);
    }
  }

  /** remove_chain frees exactly the clusters reachable from the start, on every table: cyclic and
      cross-linked ones included. Without 1-entries these are all clusters up to the first free or end value. */
  lemma {:induction false} CutFreesReachable(f: seq<nat>, c: nat, d: nat)
    requires d < |f|
    ensures Cut(f, c)[d] == if Reachable(f, c, d) then 0 else f[d]
    decreases Used(f)
  {
    if Stops(f, c) {
      if k: nat :| Leads(f, c, d, k) { assert k == 0; }
    } else {
      var f' := f[c := 0];
      UsedZeroed(f, c);
      CutFreesReachable(f', f[c], d);
      if d == c {
        assert Leads(f, c, d, 0);
      } else {
        if Reachable(f, c, d) {
          var k: nat :| Leads(f, c, d, k);
          ReachableStep(f, c, d, k);
        }
        if Reachable(f', f[c], d) {
          var k: nat :| Leads(f', f[c], d, k);
          LeadsAfterFree(f, c, f[c], d, k);
          assert Leads(f, c, d, k + 1);
        }
      }
    }
  }
}
