/** What every run of allocations, stretches, removals and truncations keeps: the used entries of the table
    are the disjoint union of the live chains, and the free-cluster count stays exact. */
module ChainRuns {
  import opened Chains

  // ----- one chain -----

  /** The `k`-th cluster of `ch` is in range and holds the next one, or an end value if it is the last. */
  ghost predicate Links(f: seq<nat>, ch: seq<nat>, k: nat)
    requires k < |ch|
  {
    2 <= ch[k] < |f| && if k == |ch| - 1 then f[ch[k]] >= |f| else f[ch[k]] == ch[k + 1]
  }

  ghost predicate Distinct(ch: seq<nat>)
  {
    forall i, j :: 0 <= i < j < |ch| ==> ch[i] != ch[j]
  }

  ghost predicate IsChain(f: seq<nat>, ch: seq<nat>)
  {
    ch != [] && (forall k :: 0 <= k < |ch| ==> Links(f, ch, k)) && Distinct(ch)
  }

  lemma {:induction false} SameFromThere(f: seq<nat>, ch: seq<nat>, i: nat, j: nat)
    requires forall k :: 0 <= k < |ch| ==> Links(f, ch, k)
    requires i < j < |ch| && ch[i] == ch[j]
    ensures false
    decreases |ch| - j
  {
    assert Links(f, ch, i) && Links(f, ch, j) && Links(f, ch, i + 1);
    if j < |ch| - 1 { SameFromThere(f, ch, i + 1, j + 1); }
  }

  /** Links that come to an end never meet a cluster twice: the chain is acyclic. */
  lemma EndedIsAcyclic(f: seq<nat>, ch: seq<nat>)
    requires ch != [] && forall k :: 0 <= k < |ch| ==> Links(f, ch, k)
    ensures IsChain(f, ch)
  {
    forall i, j | 0 <= i < j < |ch| ensures ch[i] != ch[j] {
      if ch[i] == ch[j] { SameFromThere(f, ch, i, j); }
    }
  }

  /** Two tables that agree on the clusters of a chain hold the same chain. */
  lemma ChainFrame(f: seq<nat>, f': seq<nat>, ch: seq<nat>)
    requires IsChain(f, ch) && |f'| == |f|
    requires forall k :: 0 <= k < |ch| ==> ch[k] < |f| && f'[ch[k]] == f[ch[k]]
    ensures IsChain(f', ch)
  {
    forall k | 0 <= k < |ch| ensures Links(f', ch, k) { assert Links(f, ch, k); }
  }

  /** The clusters of a chain are in use and not marked 1. */
  lemma ChainUses(f: seq<nat>, ch: seq<nat>)
    requires IsChain(f, ch)
    ensures forall c :: c in ch ==> 2 <= c < |f| && f[c] >= 2
  {
    forall k | 0 <= k < |ch| ensures 2 <= ch[k] < |f| && f[ch[k]] >= 2 {
      assert Links(f, ch, k);
      if k < |ch| - 1 { assert Links(f, ch, k + 1); }
    }
  }

  /** remove_chain on the head of a chain frees its clusters and nothing else. */
  lemma {:induction false} CutChain(f: seq<nat>, ch: seq<nat>)
    requires IsChain(f, ch)
    ensures forall d :: 0 <= d < |f| ==> Cut(f, ch[0])[d] == if d in ch then 0 else f[d]
    ensures CutCount(f, ch[0]) == |ch| && !CutMeetsOne(f, ch[0])
    decreases |ch|
  {
    assert Links(f, ch, 0);
    var c := ch[0];
    var f' := f[c := 0];
    if |ch| > 1 { assert Links(f, ch, 1); }
    UsedZeroed(f, c);
    if |ch| > 1 {
      var t := ch[1..];
      forall k | 0 <= k < |t| ensures Links(f', t, k) { assert Links(f, ch, k + 1); }
      CutChain(f', t);
      forall d | 0 <= d < |f| ensures d in ch <==> d == c || d in t {}
    }
  }

  // ----- growing at the end -----

  function Last(ch: seq<nat>): nat
    requires ch != []
  {
    ch[|ch| - 1]
  }

  function Front(ch: seq<nat>): (r: seq<nat>)
    requires ch != []
    ensures |r| == |ch| - 1
  {
    ch[..|ch| - 1]
  }

  /** The last cluster of a chain, or 0: what create_chain is called with to make the chain longer. */
  function End(ch: seq<nat>): nat { if ch == [] then 0 else Last(ch) }

  /** The chain `ch` on the table `a` became `ch'` on `b`, cluster by cluster, each of them taken by create_chain at the
      end of those before. */
  ghost predicate GrownTo(a: Alloc, ch: seq<nat>, eoc: nat, b: Alloc, ch': seq<nat>)
    decreases |ch'|
  {
    if |ch'| <= |ch| then ch' == ch && b == a
    else
      && Last(ch') >= 2
      && exists m :: GrownTo(a, ch, eoc, m, Front(ch')) && Created(m, End(Front(ch')), Last(ch'), eoc, b)
  }

  lemma GrownByNone(a: Alloc, ch: seq<nat>, eoc: nat)
    ensures GrownTo(a, ch, eoc, a, ch)
  {
  }

  lemma GrownByOne(a: Alloc, ch: seq<nat>, r: nat, eoc: nat, b: Alloc)
    requires Created(a, End(ch), r, eoc, b) && r >= 2
    ensures GrownTo(a, ch, eoc, b, ch + [r])
  {
    hide Created;
    assert Front(ch + [r]) == ch && Last(ch + [r]) == r;
    GrownByNone(a, ch, eoc);
  }

  /** Growing from `ch` to `ch1` and on to `ch2` is growing from `ch` to `ch2`. */
  lemma {:induction false} GrownTwice(a: Alloc, ch: seq<nat>, eoc: nat, b: Alloc, ch1: seq<nat>, c: Alloc,
        ch2: seq<nat>)
    requires GrownTo(a, ch, eoc, b, ch1) && GrownTo(b, ch1, eoc, c, ch2)
    ensures GrownTo(a, ch, eoc, c, ch2)
    decreases |ch2|
  {
    hide Created;
    GrownPrefix(a, ch, eoc, b, ch1);
    if |ch2| > |ch1| {
      var m :| GrownTo(b, ch1, eoc, m, Front(ch2)) && Created(m, End(Front(ch2)), Last(ch2), eoc, c);
      GrownTwice(a, ch, eoc, b, ch1, m, Front(ch2));
    }
  }

  lemma {:induction false} GrownPrefix(a: Alloc, ch: seq<nat>, eoc: nat, b: Alloc, ch': seq<nat>)
    requires GrownTo(a, ch, eoc, b, ch')
    ensures |ch| <= |ch'| && ch'[..|ch|] == ch && (|ch'| == |ch| ==> b == a)
    decreases |ch'|
  {
    hide Created;
    if |ch'| > |ch| {
      var m :| GrownTo(a, ch, eoc, m, Front(ch')) && Created(m, End(Front(ch')), Last(ch'), eoc, b);
      GrownPrefix(a, ch, eoc, m, Front(ch'));
    }
  }

  // ----- the free count -----

  /** Free clusters in [2, n). */
  function FreeBelow(f: seq<nat>, n: nat): nat
    requires n <= |f|
  {
    if n <= 2 then 0 else FreeBelow(f, n - 1) + if f[n - 1] == 0 then 1 else 0
  }

  lemma {:induction false} FreeBelowUpdate(f: seq<nat>, n: nat, c: nat, v: nat)
    requires n <= |f| && 2 <= c < |f|
    ensures FreeBelow(f[c := v], n) ==
            FreeBelow(f, n) + if c >= n then 0 else (if v == 0 then 1 else 0) - (if f[c] == 0 then 1 else 0)
  {
    if n > 2 { FreeBelowUpdate(f, n - 1, c, v); }
  }

  lemma {:induction false} FreeBelowBound(f: seq<nat>, n: nat)
    requires n <= |f|
    ensures FreeBelow(f, n) <= if n <= 2 then 0 else n - 2
    ensures forall c :: 2 <= c < n && f[c] == 0 ==> 1 <= FreeBelow(f, n)
  {
    if n > 2 { FreeBelowBound(f, n - 1); }
  }

  /** free_clust is either unknown or the exact number of free clusters. */
  ghost predicate FreeExact(a: Alloc)
  {
    a.free == UNKNOWN || a.free == FreeBelow(a.fat, |a.fat|)
  }

  /** An allocation keeps the count exact, on every table and from every start point. */
  lemma CreatedKeepsCount(a: Alloc, clst: nat, r: nat, eoc: nat, b: Alloc)
    requires Created(a, clst, r, eoc, b) && FreeExact(a) && |a.fat| < UNKNOWN && 0 < eoc
    ensures FreeExact(b)
  {
    if b != a {
      FreeBelowUpdate(a.fat, |a.fat|, r, eoc);
      FreeBelowBound(a.fat, |a.fat|);
      if clst != 0 { FreeBelowUpdate(a.fat[r := eoc], |a.fat|, clst, r); }
    }
  }

  /** A removal raises the count by exactly the clusters it frees, on every table. */
  lemma {:induction false} CutRaisesCount(f: seq<nat>, c: nat)
    ensures FreeBelow(Cut(f, c), |f|) == FreeBelow(f, |f|) + CutCount(f, c)
    decreases Used(f)
  {
    if !Stops(f, c) {
      UsedZeroed(f, c);
      FreeBelowUpdate(f, |f|, c, 0);
      CutRaisesCount(f[c := 0], f[c]);
    }
  }

  // ----- the whole volume -----

  /** The table and the clusters of every live file and directory. */
  datatype Owned = Owned(a: Alloc, eoc: nat, chains: seq<seq<nat>>)

  datatype Op =
    | Allocate            // create_chain(0)
    | Stretch(i: nat)     // create_chain on the last cluster of a chain
    | Remove(i: nat)      // remove_chain on the first cluster of a chain
    | Truncate(i: nat, k: nat)  // f_truncate with k clusters left

  /** The chains without the `i`-th one. */
  function Without(chains: seq<seq<nat>>, i: nat): seq<seq<nat>>
    requires i < |chains|
  {
    chains[..i] + chains[i + 1..]
  }

  /** The cut of f_truncate behind cluster `c`: mark it as the end and remove what follows. */
  ghost predicate Truncated(a: Alloc, c: nat, eoc: nat, b: Alloc)
  {
    && c < |a.fat| && b.last == a.last
    && if a.fat[c] >= |a.fat| then b.fat == a.fat && b.free == a.free
       else b.fat == Cut(a.fat[c := eoc], a.fat[c])
            && b.free == Raised(a.free, CutCount(a.fat[c := eoc], a.fat[c]))
  }

  ghost predicate Step(s: Owned, op: Op, t: Owned)
  {
    && t.eoc == s.eoc
    && match op
       case Allocate =>
         exists r: nat :: Created(s.a, 0, r, s.eoc, t.a) && t.chains == if r < 2 then s.chains else s.chains + [[r]]
       case Stretch(i) =>
         && i < |s.chains| && s.chains[i] != []
         && exists r: nat :: Created(s.a, Last(s.chains[i]), r, s.eoc, t.a) &&
              t.chains == if r < 2 then s.chains else s.chains[i := s.chains[i] + [r]]
       case Remove(i) =>
         && i < |s.chains| && s.chains[i] != []
         && t.a.fat == Cut(s.a.fat, s.chains[i][0])
         && t.a.free == Raised(s.a.free, CutCount(s.a.fat, s.chains[i][0]))
         && t.chains == Without(s.chains, i)   // and last_clust is whatever the caller leaves in it
       case Truncate(i, k) =>
         && i < |s.chains| && 1 <= k <= |s.chains[i]|
         && Truncated(s.a, s.chains[i][k - 1], s.eoc, t.a)
         && t.chains == s.chains[i := s.chains[i][..k]]
  }

  ghost predicate Run(s: Owned, ops: seq<Op>, t: Owned)
    decreases |ops|
  {
    if ops == [] then t == s
    else exists m :: Step(s, ops[0], m) && Run(m, ops[1..], t)
  }

  ghost predicate Disjoint(chains: seq<seq<nat>>)
  {
    forall i, j, c :: 0 <= i < |chains| && 0 <= j < |chains| && c in chains[i] && c in chains[j] ==> i == j
  }

  ghost predicate OwnedBy(chains: seq<seq<nat>>, c: nat)
  {
    exists i :: 0 <= i < |chains| && c in chains[i]
  }

  /** Every live chain is a proper chain, no two share a cluster, and every used entry belongs to one. */
  ghost predicate WellOwned(f: seq<nat>, chains: seq<seq<nat>>)
  {
    && (forall i :: 0 <= i < |chains| ==> IsChain(f, chains[i]))
    && Disjoint(chains)
    && (forall c :: 2 <= c < |f| ==> (f[c] != 0 <==> OwnedBy(chains, c)))
  }

  ghost predicate Inv(s: Owned)
  {
    && 2 <= |s.a.fat| < UNKNOWN && s.eoc >= |s.a.fat|
    && WellOwned(s.a.fat, s.chains) && FreeExact(s.a)
  }

  /** In such a table no entry is 1, so the driver never reports an internal error. */
  lemma OwnedHasNoOnes(f: seq<nat>, chains: seq<seq<nat>>)
    requires WellOwned(f, chains)
    ensures NoOnes(f)
  {
    forall c | 2 <= c < |f| ensures f[c] != 1 {
      if f[c] != 0 {
        var i :| 0 <= i < |chains| && c in chains[i];
        ChainUses(f, chains[i]);
      }
    }
  }

  lemma OthersStay(f: seq<nat>, f': seq<nat>, chains: seq<seq<nat>>, i: int)
    requires WellOwned(f, chains) && |f'| == |f| && -1 <= i < |chains|
    requires forall c :: 2 <= c < |f| && OwnedBy(chains, c) && (i < 0 || c !in chains[i]) ==> f'[c] == f[c]
    ensures forall j :: 0 <= j < |chains| && j != i ==> IsChain(f', chains[j])
  {
    forall j | 0 <= j < |chains| && j != i ensures IsChain(f', chains[j]) {
      var ch := chains[j];
      forall k | 0 <= k < |ch| ensures ch[k] < |f| && f'[ch[k]] == f[ch[k]] {
        assert Links(f, ch, k);
        assert ch[k] in ch && OwnedBy(chains, ch[k]);
      }
      ChainFrame(f, f', ch);
    }
  }

  lemma AllocateKeeps(f: seq<nat>, chains: seq<seq<nat>>, r: nat, eoc: nat)
    requires WellOwned(f, chains) && 2 <= r < |f| && f[r] == 0 && eoc >= |f|
    ensures WellOwned(f[r := eoc], chains + [[r]])
  {
    var f', chains' := f[r := eoc], chains + [[r]];
    assert !OwnedBy(chains, r);
    OthersStay(f, f', chains, -1);
    assert Links(f', [r], 0);
    forall c | 2 <= c < |f| ensures f'[c] != 0 <==> OwnedBy(chains', c) {
      if OwnedBy(chains, c) {
        var i :| 0 <= i < |chains| && c in chains[i];
        assert c in chains'[i];
      }
      if c == r { assert c in chains'[|chains|]; }
      if OwnedBy(chains', c) && c != r {
        var i :| 0 <= i < |chains'| && c in chains'[i];
        assert c in chains[i];
      }
    }
    forall i, j, c | 0 <= i < |chains'| && 0 <= j < |chains'| && c in chains'[i] && c in chains'[j] ensures i == j {
      if i < |chains| { assert OwnedBy(chains, c); }
      if j < |chains| { assert OwnedBy(chains, c); }
    }
  }

  lemma StretchKeeps(f: seq<nat>, chains: seq<seq<nat>>, i: nat, r: nat, eoc: nat)
    requires WellOwned(f, chains) && i < |chains| && 2 <= r < |f| && f[r] == 0 && eoc >= |f| && chains[i] != []
    ensures Last(chains[i]) < |f| && Last(chains[i]) != r
    ensures WellOwned(f[r := eoc][Last(chains[i]) := r], chains[i := chains[i] + [r]])
  {
    var ch := chains[i];
    var l := Last(ch);
    assert Links(f, ch, |ch| - 1);
    assert l in ch && OwnedBy(chains, l);
    var f', ch' := f[r := eoc][l := r], ch + [r];
    var chains' := chains[i := ch'];
    assert !OwnedBy(chains, r);
    OthersStay(f, f', chains, i);
    forall k | 0 <= k < |ch'| ensures Links(f', ch', k) {
      if k < |ch| {
        assert Links(f, ch, k);
        assert ch[k] in ch;
      }
    }
    EndedIsAcyclic(f', ch');
    forall c | 2 <= c < |f| ensures f'[c] != 0 <==> OwnedBy(chains', c) {
      if OwnedBy(chains, c) {
        var j :| 0 <= j < |chains| && c in chains[j];
        assert c in chains'[j];
      }
      if c == r { assert c in chains'[i]; }
      if OwnedBy(chains', c) && c != r {
        var j :| 0 <= j < |chains'| && c in chains'[j];
        assert c in chains[j];
      }
    }
    forall j, m, c | 0 <= j < |chains'| && 0 <= m < |chains'| && c in chains'[j] && c in chains'[m] ensures j == m {
      if c != r { assert c in chains[j] && c in chains[m]; } else {
        assert c in chains[j] ==> OwnedBy(chains, c);
        assert c in chains[m] ==> OwnedBy(chains, c);
      }
    }
  }

  lemma RemoveKeeps(f: seq<nat>, chains: seq<seq<nat>>, i: nat)
    requires WellOwned(f, chains) && i < |chains| && chains[i] != []
    ensures WellOwned(Cut(f, chains[i][0]), Without(chains, i))
  {
    var f', chains' := Cut(f, chains[i][0]), Without(chains, i);
    CutChain(f, chains[i]);
    OthersStay(f, f', chains, i);
    forall j | 0 <= j < |chains'| ensures chains'[j] == chains[if j < i then j else j + 1] {}
    forall c | 2 <= c < |f| ensures f'[c] != 0 <==> OwnedBy(chains', c) {
      if OwnedBy(chains', c) {
        var j :| 0 <= j < |chains'| && c in chains'[j];
        assert c in chains[if j < i then j else j + 1];
        assert OwnedBy(chains, c);
      }
      if f'[c] != 0 {
        var j :| 0 <= j < |chains| && c in chains[j];
        assert c in chains'[if j < i then j else j - 1];
      }
    }
    forall j, m, c | 0 <= j < |chains'| && 0 <= m < |chains'| && c in chains'[j] && c in chains'[m] ensures j == m {
      assert c in chains[if j < i then j else j + 1] && c in chains[if m < i then m else m + 1];
    }
  }

  /** What is behind the `k`-th cluster is a chain of its own once that cluster is marked as the end. */
  lemma SplitChain(f: seq<nat>, ch: seq<nat>, k: nat, eoc: nat)
    requires IsChain(f, ch) && 1 <= k < |ch| && eoc >= |f|
    ensures ch[k - 1] < |f| && f[ch[k - 1]] == ch[k]
    ensures IsChain(f[ch[k - 1] := eoc], ch[..k]) && IsChain(f[ch[k - 1] := eoc], ch[k..])
    ensures forall c :: c in ch <==> c in ch[..k] || c in ch[k..]
    ensures forall c :: !(c in ch[..k] && c in ch[k..])
  {
    assert Links(f, ch, k - 1);
    var f' := f[ch[k - 1] := eoc];
    forall m | 0 <= m < k ensures Links(f', ch[..k], m) { assert Links(f, ch, m); }
    forall m | 0 <= m < |ch| - k ensures Links(f', ch[k..], m) { assert Links(f, ch, k + m); }
    assert ch == ch[..k] + ch[k..];
  }

  lemma TruncateKeeps(f: seq<nat>, chains: seq<seq<nat>>, i: nat, k: nat, eoc: nat)
    requires WellOwned(f, chains) && i < |chains| && 1 <= k < |chains[i]| && eoc >= |f|
    ensures chains[i][k - 1] < |f| && f[chains[i][k - 1]] == chains[i][k]
    ensures WellOwned(Cut(f[chains[i][k - 1] := eoc], chains[i][k]), chains[i := chains[i][..k]])
  {
    var ch := chains[i];
    SplitChain(f, ch, k, eoc);
    var f1 := f[ch[k - 1] := eoc];
    assert ch[k..][0] == ch[k];
    CutChain(f1, ch[k..]);
    var f', chains' := Cut(f1, ch[k]), chains[i := ch[..k]];
    assert ch[k - 1] in ch[..k];
    OthersStay(f, f', chains, i);
    forall m | 0 <= m < k ensures ch[..k][m] < |f| && f'[ch[..k][m]] == f1[ch[..k][m]] {
      assert ch[..k][m] in ch[..k];
      assert Links(f, ch, m);
    }
    ChainFrame(f1, f', ch[..k]);
    forall c | 2 <= c < |f| ensures f'[c] != 0 <==> OwnedBy(chains', c) {
      if OwnedBy(chains', c) {
        var j :| 0 <= j < |chains'| && c in chains'[j];
        assert c in chains[j];
        assert OwnedBy(chains, c);
        assert c in ch[k..] ==> c in ch;
      }
      if f'[c] != 0 && c !in ch {
        assert OwnedBy(chains, c);
        var j :| 0 <= j < |chains| && c in chains[j];
        assert c in chains'[j];
      }
      if c in ch[..k] { assert c in chains'[i]; assert c in chains[i]; }
    }
    forall j, m, c | 0 <= j < |chains'| && 0 <= m < |chains'| && c in chains'[j] && c in chains'[m] ensures j == m {
      assert c in chains[j] && c in chains[m];
    }
  }

  lemma StepAllocate(s: Owned, t: Owned)
    requires Inv(s) && Step(s, Allocate, t)
    ensures Inv(t)
  {
    OwnedHasNoOnes(s.a.fat, s.chains);
    var r: nat :| Created(s.a, 0, r, s.eoc, t.a) && t.chains == if r < 2 then s.chains else s.chains + [[r]];
    CreatedKeepsCount(s.a, 0, r, s.eoc, t.a);
    if r >= 2 { AllocateKeeps(s.a.fat, s.chains, r, s.eoc); }
  }

  lemma StepStretch(s: Owned, i: nat, t: Owned)
    requires Inv(s) && Step(s, Stretch(i), t)
    ensures Inv(t)
  {
    OwnedHasNoOnes(s.a.fat, s.chains);
    var ch := s.chains[i];
    var r: nat :| Created(s.a, Last(ch), r, s.eoc, t.a) &&
      t.chains == if r < 2 then s.chains else s.chains[i := ch + [r]];
    assert Links(s.a.fat, ch, |ch| - 1);
    CreatedKeepsCount(s.a, Last(ch), r, s.eoc, t.a);
    if r >= 2 { StretchKeeps(s.a.fat, s.chains, i, r, s.eoc); }
  }

  lemma StepTruncate(s: Owned, i: nat, k: nat, t: Owned)
    requires Inv(s) && Step(s, Truncate(i, k), t)
    ensures Inv(t)
  {
    var f, ch := s.a.fat, s.chains[i];
    assert Links(f, ch, k - 1);
    if k < |ch| {
      assert Links(f, ch, k);
      TruncateKeeps(f, s.chains, i, k, s.eoc);
      FreeBelowUpdate(f, |f|, ch[k - 1], s.eoc);
      CountAfterCut(s.a, f[ch[k - 1] := s.eoc], ch[k]);
    } else {
      assert ch[..k] == ch;
      assert s.chains[i := ch] == s.chains;
    }
  }

  /** One operation keeps the invariant. */
  lemma StepKeeps(s: Owned, op: Op, t: Owned)
    requires Inv(s) && Step(s, op, t)
    ensures Inv(t)
  {
    match op {
      case Allocate => StepAllocate(s, t);
      case Stretch(i) => StepStretch(s, i, t);
      case Remove(i) =>
        RemoveKeeps(s.a.fat, s.chains, i);
        CountAfterCut(s.a, s.a.fat, s.chains[i][0]);
      case Truncate(i, k) => StepTruncate(s, i, k, t);
    }
  }

  lemma CountAfterCut(a: Alloc, f: seq<nat>, c: nat)
    requires FreeExact(a) && |f| == |a.fat| < UNKNOWN && FreeBelow(f, |f|) == FreeBelow(a.fat, |f|)
    ensures Raised(a.free, CutCount(f, c)) == UNKNOWN || Raised(a.free, CutCount(f, c)) == FreeBelow(Cut(f, c), |f|)
  {
    CutRaisesCount(f, c);
    FreeBelowBound(Cut(f, c), |f|);
  }

  /** Safety over whole runs: after any number of operations, in any order, the used entries are exactly the
      disjoint union of the live chains, each acyclic and ended, and free_clust is exact if known. */
  lemma {:induction false} RunKeeps(s: Owned, ops: seq<Op>, t: Owned)
    requires Inv(s) && Run(s, ops, t)
    ensures Inv(t)
    decreases |ops|
  {
    if ops != [] {
      var m :| Step(s, ops[0], m) && Run(m, ops[1..], t);
      StepKeeps(s, ops[0], m);
      RunKeeps(m, ops[1..], t);
    }
  }

  lemma {:induction false} RunOneMore(s: Owned, ops: seq<Op>, m: Owned, op: Op, t: Owned)
    requires Run(s, ops, m) && Step(m, op, t)
    ensures Run(s, ops + [op], t)
    decreases |ops|
  {
    hide Step;
    if ops == [] {
      assert Run(t, [op][1..], t);
      assert ops + [op] == [op];
    } else {
      var m1 :| Step(s, ops[0], m1) && Run(m1, ops[1..], m);
      RunOneMore(m1, ops[1..], m, op, t);
      assert (ops + [op])[0] == ops[0] && (ops + [op])[1..] == ops[1..] + [op];
    }
  }

  /** What a file or a directory table does when it grows is such a run: one stretch of its chain for each cluster. */
  lemma {:induction false} GrowthIsRun(s: Owned, i: nat, b: Alloc, ch': seq<nat>)
    requires i < |s.chains| && s.chains[i] != [] && GrownTo(s.a, s.chains[i], s.eoc, b, ch')
    ensures |ch'| >= |s.chains[i]|
    ensures Run(s, seq(|ch'| - |s.chains[i]|, _ => Stretch(i)), Owned(b, s.eoc, s.chains[i := ch']))
    decreases |ch'|
  {
    hide Created;
    var ch := s.chains[i];
    GrownPrefix(s.a, ch, s.eoc, b, ch');
    var t, k := Owned(b, s.eoc, s.chains[i := ch']), |ch'| - |ch|;
    if k == 0 {
      assert t == s;
    } else {
      var m :| GrownTo(s.a, ch, s.eoc, m, Front(ch')) && Created(m, End(Front(ch')), Last(ch'), s.eoc, b);
      GrowthIsRun(s, i, m, Front(ch'));
      var mid := Owned(m, s.eoc, s.chains[i := Front(ch')]);
      GrownPrefix(s.a, ch, s.eoc, m, Front(ch'));
      assert Front(ch') + [Last(ch')] == ch' && mid.chains[i := ch'] == t.chains;
      assert Step(mid, Stretch(i), t);
      RunOneMore(s, seq(k - 1, _ => Stretch(i)), mid, Stretch(i), t);
      assert seq(k - 1, _ => Stretch(i)) + [Stretch(i)] == seq(k, _ => Stretch(i));
    }
  }

  /** A file that had no cluster begins its chain with an allocation. */
  lemma {:induction false} StartIsRun(s: Owned, b: Alloc, ch: seq<nat>)
    requires ch != [] && GrownTo(s.a, [], s.eoc, b, ch)
    ensures Run(s, [Allocate] + seq(|ch| - 1, _ => Stretch(|s.chains|)), Owned(b, s.eoc, s.chains + [ch]))
    decreases |ch|
  {
    hide Created;
    var n, t := |s.chains|, Owned(b, s.eoc, s.chains + [ch]);
    var m :| GrownTo(s.a, [], s.eoc, m, Front(ch)) && Created(m, End(Front(ch)), Last(ch), s.eoc, b);
    if |ch| == 1 {
      assert ch == [Last(ch)] && m == s.a;
      assert Step(s, Allocate, t) && Run(t, [], t);
      assert [Allocate] + seq(0, _ => Stretch(n)) == [Allocate] && [Allocate][1..] == [];
    } else {
      StartIsRun(s, m, Front(ch));
      var mid := Owned(m, s.eoc, s.chains + [Front(ch)]);
      assert Front(ch) + [Last(ch)] == ch && mid.chains[n := ch] == t.chains;
      assert Step(mid, Stretch(n), t);
      var ops := [Allocate] + seq(|ch| - 2, _ => Stretch(n));
      RunOneMore(s, ops, mid, Stretch(n), t);
      assert ops + [Stretch(n)] == [Allocate] + seq(|ch| - 1, _ => Stretch(n));
    }
  }

  /** f_truncate keeps exactly the first `k` clusters of the chain and frees the rest. */
  lemma TruncateLeavesPrefix(s: Owned, i: nat, k: nat, t: Owned)
    requires Inv(s) && Step(s, Truncate(i, k), t)
    ensures IsChain(t.a.fat, s.chains[i][..k])
    ensures forall c :: c in s.chains[i][k..] ==> c < |t.a.fat| && t.a.fat[c] == 0
    ensures forall c :: 2 <= c < |t.a.fat| && c !in s.chains[i] ==> t.a.fat[c] == s.a.fat[c]
  {
    StepKeeps(s, Truncate(i, k), t);
    var ch, f := s.chains[i], s.a.fat;
    assert t.chains[i] == ch[..k];
    assert Links(f, ch, k - 1);
    if k < |ch| {
      assert Links(f, ch, k);
      SplitChain(f, ch, k, s.eoc);
      CutChain(f[ch[k - 1] := s.eoc], ch[k..]);
      forall c | c in ch[k..] ensures c < |f| {
        var m :| 0 <= m < |ch[k..]| && ch[k..][m] == c;
        assert Links(f, ch, k + m);
      }
    }
  }
}
