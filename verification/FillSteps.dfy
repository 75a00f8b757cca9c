/** The events of a copy are what the operations on the volume do to its allocation table. */
module FillSteps {
  import opened Chains
  import opened ChainRuns
  import opened DirDisk
  import opened DirModel
  import DirMake
  import FileOpen
  import opened Filling

  /** Object `i` has its clusters in `ch` now, on the table `b`. */
  function Moved(s: Image, i: nat, b: Alloc, ch: seq<nat>): Image
    requires i < |s.chains|
  {
    s.(a := b, chains := s.chains[i := ch])
  }

  lemma OneGrowth(s: Image, i: nat, r: nat, b: Alloc)
    requires i < |s.chains| && r >= 2 && Created(s.a, End(s.chains[i]), r, s.eoc, b)
    ensures Grown(s, i, Moved(s, i, b, s.chains[i] + [r]))
  {
    hide Created;
  }

  // ----- directory tables -----

  /** A table that grew by `k` clusters: `k` events that stretch it. */
  lemma {:induction false} GrowthIsEvents(s0: Image, es: seq<Event>, ks: seq<nat>, s: Image, d: nat, b: Alloc,
        ch: seq<nat>)
    returns (ks': seq<nat>)
    requires Ran(s0, es, ks, s) && d < |s.file| && d < |s.chains| && !s.file[d]
    requires GrownTo(s.a, s.chains[d], s.eoc, b, ch) && |ks| + |ch| - |s.chains[d]| <= |es|
    requires forall q :: |ks| <= q < |ks| + |ch| - |s.chains[d]| ==> es[q] == GrowDir(d)
    ensures |ks'| == |ks| + |ch| - |s.chains[d]| && Ran(s0, es, ks', Moved(s, d, b, ch))
    decreases |ch|
  {
    hide Created, Ran, Happens;
    GrownPrefix(s.a, s.chains[d], s.eoc, b, ch);
    if |ch| == |s.chains[d]| {
      assert Moved(s, d, b, ch) == s;
      ks' := ks;
    } else {
      var m :| GrownTo(s.a, s.chains[d], s.eoc, m, Front(ch)) && Created(m, End(Front(ch)), Last(ch), s.eoc, b);
      GrownPrefix(s.a, s.chains[d], s.eoc, m, Front(ch));
      var ks1 := GrowthIsEvents(s0, es, ks, s, d, m, Front(ch));
      var mid, t := Moved(s, d, m, Front(ch)), Moved(s, d, b, ch);
      OneGrowth(mid, d, Last(ch), b);
      assert Front(ch) + [Last(ch)] == ch && mid.chains[d := ch] == t.chains;
      assert |mid.chains[d]| != |t.chains[d]|;
      ks' := ks1 + [0];
      NextEvent(s0, es, ks1, mid, 0, t);
    }
  }

  lemma NextEvent(s0: Image, es: seq<Event>, ks: seq<nat>, s: Image, k: nat, t: Image)
    requires Ran(s0, es, ks, s) && |ks| < |es|
    requires Happens(s, es[|ks|], k, t) || (es[|ks|].GrowDir? && k == 0 && t != s && es[|ks|].d < |s.file| &&
      !s.file[es[|ks|].d] && Grown(s, es[|ks|].d, t))
    ensures Ran(s0, es, ks + [k], t)
  {
    hide Created, GrownBy;
    assert Front(ks + [k]) == ks && Last(ks + [k]) == k;
  }

  /** f_mkdir in the directory `d`: the new directory's cluster, and then what the parent's table needed. */
  lemma MkdirIsEvents(s0: Image, es: seq<Event>, ks: seq<nat>, s: Image, d: nat, r: nat, b: Alloc, ch: seq<nat>)
    returns (ks': seq<nat>)
    requires Ran(s0, es, ks, s) && d < |s.file| && d < |s.chains| && !s.file[d] && |s.file| == |s.chains|
    requires 2 <= r && DirMake.MkdirTable(s.a, Chain(s.chains[d]), r, s.eoc, true, b, Chain(ch))
    requires |ks| + 1 + |ch| - |s.chains[d]| <= |es| && es[|ks|] == NewDir
    requires forall q :: |ks| < q < |ks| + 1 + |ch| - |s.chains[d]| ==> es[q] == GrowDir(d)
    ensures |ks'| == |ks| + 1 + |ch| - |s.chains[d]|
    ensures Ran(s0, es, ks', Image(b, s.eoc, s.chains[d := ch] + [[r]], s.file + [false]))
  {
    hide Created, Ran, GrownTo;
    var m, n :| Created(s.a, 0, r, s.eoc, m) && PlaceGrown(m, Chain(s.chains[d]), s.eoc, n, Chain(ch)) && r < |n.fat| &&
      b == n;
    var t := Image(m, s.eoc, s.chains + [[r]], s.file + [false]);
    GrownPrefix(m, s.chains[d], s.eoc, n, ch);
    assert Happens(s, NewDir, 0, t);
    NextEvent(s0, es, ks, s, 0, t);
    ks' := GrowthIsEvents(s0, es, ks + [0], t, d, b, ch);
    assert Moved(t, d, b, ch).chains == s.chains[d := ch] + [[r]];
  }

  /** f_mkdir in a static root directory. */
  lemma MkdirInRoot(s0: Image, es: seq<Event>, ks: seq<nat>, s: Image, r: nat, b: Alloc)
    requires Ran(s0, es, ks, s) && 2 <= r && DirMake.MkdirTable(s.a, Static, r, s.eoc, true, b, Static)
    requires |ks| < |es| && es[|ks|] == NewDir
    ensures Ran(s0, es, ks + [0], Image(b, s.eoc, s.chains + [[r]], s.file + [false]))
  {
    hide Created, Ran, GrownTo;
    var t := Image(b, s.eoc, s.chains + [[r]], s.file + [false]);
    assert Happens(s, NewDir, 0, t);
    NextEvent(s0, es, ks, s, 0, t);
  }

  // ----- files -----

  lemma {:induction false} GrownOnce(s: Image, i: nat, k: nat, m: Image, t: Image)
    requires GrownBy(s, i, k, m) && Grown(m, i, t)
    ensures GrownBy(s, i, k + 1, t)
    decreases k
  {
    hide Grown;
    if k == 0 {
      assert GrownBy(t, i, 0, t);
    } else {
      var m1 :| Grown(s, i, m1) && GrownBy(m1, i, k - 1, m);
      GrownOnce(m1, i, k - 1, m, t);
    }
  }

  /** Writing a file: its chain grows by the clusters it needs, one after the other. */
  lemma {:induction false} WrittenGrows(s: Image, i: nat, b: Alloc, ch: seq<nat>)
    requires i < |s.chains| && GrownTo(s.a, s.chains[i], s.eoc, b, ch)
    ensures |s.chains[i]| <= |ch| && GrownBy(s, i, |ch| - |s.chains[i]|, Moved(s, i, b, ch))
    decreases |ch|
  {
    hide Created, Grown;
    GrownPrefix(s.a, s.chains[i], s.eoc, b, ch);
    if |ch| == |s.chains[i]| {
      assert Moved(s, i, b, ch) == s;
    } else {
      var m :| GrownTo(s.a, s.chains[i], s.eoc, m, Front(ch)) && Created(m, End(Front(ch)), Last(ch), s.eoc, b);
      GrownPrefix(s.a, s.chains[i], s.eoc, m, Front(ch));
      WrittenGrows(s, i, m, Front(ch));
      var mid := Moved(s, i, m, Front(ch));
      OneGrowth(mid, i, Last(ch), b);
      assert Front(ch) + [Last(ch)] == ch && mid.chains[i := ch] == s.chains[i := ch];
      GrownOnce(s, i, |ch| - 1 - |s.chains[i]|, mid, Moved(s, i, b, ch));
    }
  }

  /** On a full volume a file that wants more clusters gets none. */
  lemma {:induction false} WantsMore(s: Image, i: nat, k: nat)
    requires i < |s.chains| && NoOnes(s.a.fat) && NoneFree(s.a.fat)
    requires s.chains[i] != [] ==> IsChain(s.a.fat, s.chains[i])
    ensures GrownBy(s, i, k, s)
    decreases k
  {
    hide IsChain;
    if k > 0 {
      if s.chains[i] != [] { EndOfChain(s.a.fat, s.chains[i]); }
      assert Created(s.a, End(s.chains[i]), 0, s.eoc, s.a);
      NothingGrown(s, i);
      WantsMore(s, i, k - 1);
    }
  }

  lemma NothingGrown(s: Image, i: nat)
    requires i < |s.chains| && Created(s.a, End(s.chains[i]), 0, s.eoc, s.a)
    ensures Grown(s, i, s)
  {
    hide Created;
    var r: nat := 0;
    assert Created(s.a, Tail(s, i), r, s.eoc, s.a);
    assert s == s.(a := s.a, chains := s.chains);
  }

  lemma EndOfChain(f: seq<nat>, ch: seq<nat>)
    requires IsChain(f, ch)
    ensures ch != [] && 2 <= Last(ch) < |f| && f[Last(ch)] >= |f|
  {
    assert Links(f, ch, |ch| - 1);
  }

  lemma {:induction false} GrownOnAndOn(s: Image, i: nat, k: nat, m: Image, j: nat, t: Image)
    requires GrownBy(s, i, k, m) && GrownBy(m, i, j, t)
    ensures GrownBy(s, i, k + j, t)
    decreases k
  {
    hide Grown;
    if k > 0 {
      var m1 :| Grown(s, i, m1) && GrownBy(m1, i, k - 1, m);
      GrownOnAndOn(m1, i, k - 1, m, j, t);
    }
  }

  /** Writing a file that wants `k` clusters in all, on a chain that is empty at first: it gets them, or as many as
      there are. This is what f_write ensures of every call, so of all of them together. */
  lemma WriteIsEvent(s: Image, i: nat, k: nat, b: Alloc, ch: seq<nat>)
    requires i < |s.chains| && s.chains[i] == [] && GrownTo(s.a, [], s.eoc, b, ch)
    requires |ch| == k || (|ch| < k && NoneFree(b.fat) && NoOnes(b.fat) && (ch != [] ==> IsChain(b.fat, ch)))
    ensures GrownBy(s, i, k, Moved(s, i, b, ch))
  {
    hide GrownBy, IsChain, GrownTo;
    WrittenGrows(s, i, b, ch);
    var t := Moved(s, i, b, ch);
    if |ch| < k {
      WantsMore(t, i, k - |ch|);
      GrownOnAndOn(s, i, |ch|, t, k - |ch|, t);
    }
  }

  /** A new file. */
  lemma NewFileIsEvent(s: Image, k: nat, b: Alloc, ch: seq<nat>)
    requires |s.file| == |s.chains| && GrownTo(s.a, [], s.eoc, b, ch)
    requires |ch| == k || (|ch| < k && NoneFree(b.fat) && NoOnes(b.fat) && (ch != [] ==> IsChain(b.fat, ch)))
    ensures Happens(s, NewFile, k, Image(b, s.eoc, s.chains + [ch], s.file + [true]))
  {
    hide GrownBy, IsChain, GrownTo;
    WriteIsEvent(Opened(s), |s.chains|, k, b, ch);
    assert (s.chains + [[]])[|s.chains| := ch] == s.chains + [ch];
  }

  /** A file written again, once f_open has removed its chain. */
  lemma AgainIsEvent(s: Image, i: nat, k: nat, b: Alloc, ch: seq<nat>)
    requires i < |s.chains| == |s.file| && s.file[i] && (s.chains[i] != [] ==> 0 < s.chains[i][0])
    requires GrownTo(FileOpen.Unlinked(s.a, s.chains[i]), [], s.eoc, b, ch)
    requires |ch| == k || (|ch| < k && NoneFree(b.fat) && NoOnes(b.fat) && (ch != [] ==> IsChain(b.fat, ch)))
    ensures Happens(s, Again(i), k, Moved(s, i, b, ch))
  {
    hide GrownBy, IsChain, GrownTo, Cut, CutCount;
    var e := s.(a := FileOpen.Unlinked(s.a, s.chains[i]), chains := s.chains[i := []]);
    if s.chains[i] == [] { assert e == s; }
    assert Emptied(s, i, e);
    WriteIsEvent(e, i, k, b, ch);
    assert e.chains[i := ch] == s.chains[i := ch];
  }
}
