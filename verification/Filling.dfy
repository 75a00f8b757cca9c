/** Filling a volume with files and directories, one after the other, as copy_dir does: what the order of the
    allocations, and overwriting a file copied before, do to the allocation table. */
module Filling {
  import opened Chains
  import opened ChainRuns

  /** The table, and the chain of every object in order of creation, with a mark on the files. An empty file has no
      chain. */
  datatype Image = Image(a: Alloc, eoc: nat, chains: seq<seq<nat>>, file: seq<bool>)

  /** What copying one object does, apart from how long a file is: f_mkdir takes a cluster, a directory table is
      stretched by one, a new file is written, or f_open finds an earlier file and overwrites it. */
  datatype Event = NewDir | GrowDir(d: nat) | NewFile | Again(i: nat)

  // ----- the events -----

  /** The event takes a cluster for a directory. */
  predicate Takes(e: Event) { e.NewDir? || e.GrowDir? }

  function Tail(s: Image, i: nat): nat
    requires i < |s.chains|
  {
    if s.chains[i] == [] then 0 else Last(s.chains[i])
  }

  /** Object `i` gets its next cluster, unless the volume is full. */
  ghost predicate Grown(s: Image, i: nat, t: Image)
  {
    && i < |s.chains|
    && exists r: nat :: Created(s.a, Tail(s, i), r, s.eoc, t.a) &&
         t == s.(a := t.a, chains := if r < 2 then s.chains else s.chains[i := s.chains[i] + [r]])
  }

  ghost predicate GrownBy(s: Image, i: nat, k: nat, t: Image)
    decreases k
  {
    if k == 0 then t == s else exists m :: Grown(s, i, m) && GrownBy(m, i, k - 1, t)
  }

  /** f_open overwrites file `i`: its chain is removed, and the next search starts in front of it. */
  ghost predicate Emptied(s: Image, i: nat, t: Image)
  {
    && i < |s.chains|
    && var ch := s.chains[i];
       if ch == [] then t == s
       else ch[0] > 0 && t == s.(a := Alloc(Cut(s.a.fat, ch[0]), ch[0] - 1, Raised(s.a.free, CutCount(s.a.fat, ch[0]))),
                                 chains := s.chains[i := []])
  }

  /** One event; a file that is written wants `k` clusters. */
  ghost predicate Happens(s: Image, e: Event, k: nat, t: Image)
  {
    match e
    case NewDir =>
      exists r: nat :: r >= 2 && Created(s.a, 0, r, s.eoc, t.a) &&
        t == s.(a := t.a, chains := s.chains + [[r]], file := s.file + [false])
    case GrowDir(d) => t != s && d < |s.file| && !s.file[d] && Grown(s, d, t)
    case NewFile => GrownBy(Opened(s), |s.chains|, k, t)
    case Again(i) => i < |s.file| && s.file[i] && exists m :: Emptied(s, i, m) && GrownBy(m, i, k, t)
  }

  function Opened(s: Image): Image { s.(chains := s.chains + [[]], file := s.file + [true]) }

  /** The first |ks| events, with these file lengths. */
  ghost predicate Ran(s: Image, es: seq<Event>, ks: seq<nat>, t: Image)
    decreases |ks|
  {
    && |ks| <= |es|
    && if ks == [] then t == s
       else exists m :: Ran(s, es, Front(ks), m) && Happens(m, es[|ks| - 1], Last(ks), t)
  }

  /** A directory needs a cluster and there is none: f_mkdir or dir_register fails and copying ends. */
  ghost predicate Stuck(s: Image, e: Event)
  {
    Takes(e) && forall c :: 2 <= c < |s.a.fat| ==> s.a.fat[c] != 0
  }

  /** The whole copy, until it is done or stuck. */
  ghost predicate Copied(s: Image, es: seq<Event>, ks: seq<nat>, t: Image)
  {
    Ran(s, es, ks, t) && (|ks| == |es| || Stuck(t, es[|ks|]))
  }

  ghost predicate Consecutive(ch: seq<nat>)
  {
    forall k :: 0 <= k < |ch| ==> ch[k] == ch[0] + k
  }

  ghost predicate Fragmented(t: Image)
  {
    exists i :: 0 <= i < |t.file| && i < |t.chains| && t.file[i] && !Consecutive(t.chains[i])
  }

  /** Some file lengths leave a file in more than one piece. */
  ghost predicate CanFragment(s: Image, es: seq<Event>)
  {
    exists ks, t :: Copied(s, es, ks, t) && Fragmented(t)
  }

  function NewMarks(e: Event): seq<bool> { if e.NewDir? then [false] else if e.NewFile? then [true] else [] }

  /** The objects that exist after the first `q` events, with a mark on the files. */
  function Marks(es: seq<Event>, file: seq<bool>, q: nat): seq<bool>
    requires q <= |es|
  {
    if q == 0 then file else Marks(es, file, q - 1) + NewMarks(es[q - 1])
  }

  predicate Fits(e: Event, file: seq<bool>)
  {
    match e
    case GrowDir(d) => d < |file| && !file[d]
    case Again(i) => i < |file| && file[i]
    case _ => true
  }

  /** The events name directories and files that exist by then. */
  ghost predicate WellPlanned(es: seq<Event>, file: seq<bool>)
  {
    forall q :: 0 <= q < |es| ==> Fits(es[q], Marks(es, file, q))
  }

  /** The clusters that directories take in the first `q` events. */
  function DirClusters(es: seq<Event>, q: nat): nat
    requires q <= |es|
  {
    if q == 0 then 0 else DirClusters(es, q - 1) + if Takes(es[q - 1]) then 1 else 0
  }

  /** How many objects there are after the first `q` events. */
  function Ids(es: seq<Event>, n: nat, q: nat): nat
    requires q <= |es|
  {
    if q == 0 then n else Ids(es, n, q - 1) + if es[q - 1].NewDir? || es[q - 1].NewFile? then 1 else 0
  }

  /** The file that event `q` writes. */
  predicate Writes(es: seq<Event>, n: nat, q: nat, i: nat)
    requires q < |es|
  {
    es[q] == Again(i) || (es[q] == NewFile && Ids(es, n, q) == i)
  }

  /** An earlier file is overwritten, and it is not the one written just before. */
  ghost predicate OverwritesBehind(es: seq<Event>, n: nat)
  {
    exists j :: 1 <= j < |es| && es[j].Again? && !Writes(es, n, j - 1, es[j].i)
  }

  // ----- the free clusters -----

  /** The free clusters are those from `lo` to before `top`, and no entry is 1. */
  ghost predicate Free(f: seq<nat>, lo: nat, top: nat)
  {
    2 <= lo <= top <= |f| && forall c :: 2 <= c < |f| ==> if lo <= c < top then f[c] == 0 else f[c] > 1
  }

  /** A last_clust from which the scan comes to cluster `lo` first. */
  predicate GoodStart(last: nat, lo: nat, top: nat)
  {
    last < lo || last + 1 >= top
  }

  /** With one stretch of free clusters, the scan from `s` yields its first one for exactly these starting points,
      and from any other the next cluster. */
  lemma ScanYieldsNext(f: seq<nat>, s: nat, r: nat, lo: nat, top: nat)
    requires Free(f, lo, top) && Scanned(f, s, r) && 1 <= s < |f|
    ensures lo == top ==> r == 0
    ensures lo < top ==> r == if GoodStart(s, lo, top) then lo else s + 1
  {
    if lo < top {
      assert f[lo] == 0;
      if r >= 2 {
        assert !(Steps(|f|, s, lo) < Steps(|f|, s, r));
        if lo <= s < top - 1 { assert f[s + 1] == 0 && !(Steps(|f|, s, s + 1) < Steps(|f|, s, r)); }
      }
    }
  }

  /** Every chain is one, no two share a cluster, and only files are empty. */
  ghost predicate Held(s: Image)
  {
    && 2 <= |s.a.fat| && s.eoc >= |s.a.fat| && |s.file| == |s.chains| && Disjoint(s.chains)
    && forall i :: 0 <= i < |s.chains| ==> if s.chains[i] == [] then s.file[i] else IsChain(s.a.fat, s.chains[i])
  }

  lemma HeldChain(s: Image, i: nat, c: nat)
    requires Held(s) && i < |s.chains| && c in s.chains[i]
    ensures IsChain(s.a.fat, s.chains[i]) && 2 <= c < |s.a.fat| && s.a.fat[c] >= 2
  {
    ChainUses(s.a.fat, s.chains[i]);
  }

  /** The last cluster of an object. */
  lemma HeldTail(s: Image, i: nat)
    requires Held(s) && i < |s.chains| && s.chains[i] != []
    ensures Tail(s, i) in s.chains[i] && 2 <= Tail(s, i) < |s.a.fat| && s.a.fat[Tail(s, i)] >= |s.a.fat|
  {
    assert Links(s.a.fat, s.chains[i], |s.chains[i]| - 1);
  }

  /** A chain stays one when none of its clusters changes. */
  lemma ChainStays(f: seq<nat>, f': seq<nat>, ch: seq<nat>)
    requires IsChain(f, ch) && |f'| == |f| && forall c :: c in ch && c < |f| ==> f'[c] == f[c]
    ensures IsChain(f', ch)
  {
    ChainUses(f, ch);
    forall k | 0 <= k < |ch| ensures ch[k] < |f| && f'[ch[k]] == f[ch[k]] { assert ch[k] in ch; }
    ChainFrame(f, f', ch);
  }

  /** The table once cluster `r` ends a chain, linked to `l` if there is one before it. */
  function Linked(f: seq<nat>, l: nat, r: nat, eoc: nat): seq<nat>
    requires l < |f| && r < |f|
  {
    if l == 0 then f[r := eoc] else f[r := eoc][l := r]
  }

  lemma LinkedChain(f: seq<nat>, ch: seq<nat>, r: nat, eoc: nat)
    requires ch == [] || IsChain(f, ch)
    requires 2 <= r < |f| && f[r] == 0 && eoc >= |f|
    ensures ch != [] ==> 2 <= Last(ch) < |f|
    ensures IsChain(Linked(f, if ch == [] then 0 else Last(ch), r, eoc), ch + [r])
  {
    if ch != [] {
      assert Links(f, ch, |ch| - 1);
      ChainUses(f, ch);
    }
    var f', ch' := Linked(f, if ch == [] then 0 else Last(ch), r, eoc), ch + [r];
    forall k | 0 <= k < |ch'| ensures Links(f', ch', k) {
      if k < |ch| {
        assert Links(f, ch, k) && ch[k] in ch;
        if k < |ch| - 1 { assert ch[k] != Last(ch); }
      }
    }
    EndedIsAcyclic(f', ch');
  }

  /** A free cluster added to object `i` keeps all chains. */
  lemma HeldGrow(s: Image, i: nat, r: nat, a: Alloc)
    requires Held(s) && i < |s.chains| && 2 <= r < |s.a.fat| && s.a.fat[r] == 0
    requires Tail(s, i) < |s.a.fat| && a.fat == Linked(s.a.fat, Tail(s, i), r, s.eoc)
    ensures Held(s.(a := a, chains := s.chains[i := s.chains[i] + [r]]))
  {
    var f, f', ch := s.a.fat, a.fat, s.chains[i];
    var chains' := s.chains[i := ch + [r]];
    LinkedChain(f, ch, r, s.eoc);
    forall j, c | 0 <= j < |s.chains| && c in s.chains[j] ensures c != r { HeldChain(s, j, c); }
    if ch != [] { HeldTail(s, i); }
    forall j | 0 <= j < |chains'| && j != i && chains'[j] != [] ensures IsChain(f', chains'[j]) {
      assert ch != [] ==> Last(ch) !in s.chains[j];
      HeldChain(s, j, s.chains[j][0]);
      ChainStays(f, f', s.chains[j]);
    }
  }

  /** Removing the chain of object `i` frees its clusters and keeps all other chains. */
  lemma HeldEmpty(s: Image, i: nat, t: Image)
    requires Held(s) && Emptied(s, i, t) && s.file[i]
    ensures Held(t) && t.chains == s.chains[i := []] && t.file == s.file && |t.a.fat| == |s.a.fat| && t.eoc == s.eoc
    ensures forall c :: 0 <= c < |s.a.fat| ==> t.a.fat[c] == if c in s.chains[i] then 0 else s.a.fat[c]
  {
    var ch := s.chains[i];
    if ch == [] {
      assert s.chains[i := []] == s.chains;
    } else {
      CutChain(s.a.fat, ch);
      forall j | 0 <= j < |s.chains| && j != i && s.chains[j] != [] ensures IsChain(t.a.fat, s.chains[j]) {
        HeldChain(s, j, s.chains[j][0]);
        ChainStays(s.a.fat, t.a.fat, s.chains[j]);
      }
    }
  }

  // ----- copying onto one stretch of free clusters -----

  /** What copying keeps as long as no earlier file is overwritten: the free clusters are one stretch, the next search
      comes to its first one, all files are in one piece, and file `w`, written last, ends right before them. */
  ghost predicate Packed(s: Image, lo: nat, top: nat, w: int)
  {
    && Held(s) && Free(s.a.fat, lo, top) && GoodStart(s.a.last, lo, top)
    && (forall i :: 0 <= i < |s.file| && s.file[i] ==> Consecutive(s.chains[i]))
    && (w == -1 || (0 <= w < |s.chains| && s.file[w] && (s.chains[w] != [] ==> Last(s.chains[w]) == lo - 1)))
  }

  /** One allocation takes the first free cluster, or finds none. */
  lemma AllocatesFirst(s: Image, clst: nat, r: nat, b: Alloc, lo: nat, top: nat)
    requires Held(s) && Free(s.a.fat, lo, top) && Created(s.a, clst, r, s.eoc, b)
    requires if clst == 0 then GoodStart(s.a.last, lo, top) else 2 <= clst < |s.a.fat| && s.a.fat[clst] >= |s.a.fat|
    ensures if lo == top then r == 0 && b == s.a
      else r == lo && b.last == lo && b.fat == Linked(s.a.fat, clst, lo, s.eoc) && Free(b.fat, lo + 1, top)
  {
    ScanYieldsNext(s.a.fat, ScanStart(s.a, clst), r, lo, top);
  }

  lemma ConsecutiveGrows(ch: seq<nat>, r: nat)
    requires Consecutive(ch) && (ch != [] ==> Last(ch) + 1 == r)
    ensures Consecutive(ch + [r])
  {
    if ch != [] { assert ch[|ch| - 1] == ch[0] + (|ch| - 1); }
  }

  /** A directory or the file being written gets its next cluster. */
  lemma GrownKeeps(s: Image, i: nat, t: Image, lo: nat, top: nat, w: int)
    requires Packed(s, lo, top, w) && Grown(s, i, t) && (s.file[i] ==> i == w)
    ensures Packed(t, if t == s then lo else lo + 1, top, if s.file[i] then w else -1) && t.file == s.file
  {
    hide Free, Created, Scanned, IsChain, Disjoint, Consecutive;
    var r: nat :| Created(s.a, Tail(s, i), r, s.eoc, t.a) &&
      t == s.(a := t.a, chains := if r < 2 then s.chains else s.chains[i := s.chains[i] + [r]]);
    if s.chains[i] != [] { HeldTail(s, i); }
    AllocatesFirst(s, Tail(s, i), r, t.a, lo, top);
    if lo < top {
      FreeFirst(s.a.fat, lo, top);
      HeldGrow(s, i, lo, t.a);
      if s.file[i] { ConsecutiveGrows(s.chains[i], lo); }
      assert t.chains[i] != s.chains[i];
    }
  }

  lemma FreeFirst(f: seq<nat>, lo: nat, top: nat)
    requires Free(f, lo, top)
    ensures 2 <= lo <= top <= |f| && (lo < top ==> f[lo] == 0)
  {
  }

  lemma {:induction false} GrownByKeeps(s: Image, i: nat, k: nat, t: Image, lo: nat, top: nat)
    requires Packed(s, lo, top, i) && GrownBy(s, i, k, t)
    ensures exists lo' :: Packed(t, lo', top, i)
    ensures t.file == s.file
    decreases k
  {
    hide Packed, Grown;
    if k > 0 {
      var m :| Grown(s, i, m) && GrownBy(m, i, k - 1, t);
      PackedFile(s, lo, top, i);
      GrownKeeps(s, i, m, lo, top, i);
      GrownByKeeps(m, i, k - 1, t, if m == s then lo else lo + 1, top);
    }
  }

  lemma PackedFile(s: Image, lo: nat, top: nat, i: nat)
    requires Packed(s, lo, top, i)
    ensures i < |s.file| == |s.chains| && s.file[i]
  {
  }

  /** The file written last is emptied: its clusters, right before the free ones, join them. */
  lemma EmptiedKeeps(s: Image, i: nat, t: Image, lo: nat, top: nat)
    requires Packed(s, lo, top, i) && Emptied(s, i, t)
    ensures exists lo' :: Packed(t, lo', top, i)
  {
    HeldEmpty(s, i, t);
    var ch := s.chains[i];
    if ch != [] {
      var lo' := ch[0];
      assert ch[|ch| - 1] == ch[0] + (|ch| - 1);
      forall c ensures c in ch <==> lo' <= c < lo {
        if lo' <= c < lo { assert ch[c - lo'] == c; }
      }
      HeldChain(s, i, ch[0]);
      assert Packed(t, lo', top, i);
    } else {
      assert Packed(t, lo, top, i);
    }
  }

  /** The file that the last of the first `q` events writes, or -1. */
  function LastWritten(es: seq<Event>, n: nat, q: nat): int
    requires q <= |es|
  {
    if q == 0 then -1
    else match es[q - 1]
      case NewFile => Ids(es, n, q - 1)
      case Again(i) => i
      case _ => -1
  }

  /** The same, of the events from `from` on only. */
  function WrittenSince(es: seq<Event>, n: nat, from: nat, q: nat): int
    requires q <= |es|
  {
    if q <= from then -1 else LastWritten(es, n, q)
  }

  lemma NewDirKeeps(s: Image, t: Image, k: nat, lo: nat, top: nat, w: int)
    requires Packed(s, lo, top, w) && Happens(s, NewDir, k, t)
    ensures Packed(t, lo + 1, top, -1) && |t.chains| == |s.chains| + 1
  {
    hide Free, Created, Scanned, IsChain, Disjoint, Consecutive;
    var r: nat :| r >= 2 && Created(s.a, 0, r, s.eoc, t.a) &&
      t == s.(a := t.a, chains := s.chains + [[r]], file := s.file + [false]);
    AllocatesFirst(s, 0, r, t.a, lo, top);
    FreeFirst(s.a.fat, lo, top);
    HeldOpened(s);
    var o := s.(chains := s.chains + [[]], file := s.file + [true]);
    HeldGrow(o, |s.chains|, r, t.a);
    assert o.chains[|s.chains|] == [];
    assert o.chains[|s.chains| := o.chains[|s.chains|] + [r]] == t.chains by { assert [] + [r] == [r]; }
    HeldAsDir(o.(a := t.a, chains := t.chains), t);
  }

  /** An object with a chain may as well be a directory. */
  lemma HeldAsDir(s: Image, t: Image)
    requires Held(s) && s.file != [] && t == s.(file := s.file[..|s.file| - 1] + [false])
    requires s.chains[|s.file| - 1] != []
    ensures Held(t)
  {
  }

  lemma HeldOpened(s: Image)
    requires Held(s)
    ensures Held(Opened(s))
  {
    hide IsChain;
  }

  /** The file an event writes, or -1. */
  function FileOf(s: Image, e: Event): int { if e.NewFile? then |s.chains| else if e.Again? then e.i else -1 }

  lemma HappensKeeps(s: Image, e: Event, k: nat, t: Image, lo: nat, top: nat, w: int)
    requires Packed(s, lo, top, w) && Happens(s, e, k, t) && (e.Again? ==> e.i == w)
    ensures exists lo' :: Packed(t, lo', top, FileOf(s, e))
    ensures |t.chains| == |s.chains| + if e.NewDir? || e.NewFile? then 1 else 0
  {
    match e {
      case NewDir =>
        NewDirKeeps(s, t, k, lo, top, w);
        assert Packed(t, lo + 1, top, FileOf(s, e));
      case GrowDir(d) =>
        GrownKeeps(s, d, t, lo, top, w);
        assert Packed(t, lo + 1, top, FileOf(s, e));
      case NewFile =>
        HeldOpened(s);
        assert Packed(Opened(s), lo, top, |s.chains|);
        GrownByKeeps(Opened(s), |s.chains|, k, t, lo, top);
        var lo' :| Packed(t, lo', top, |s.chains|);
        assert |t.chains| == |t.file| == |s.file| + 1;
        assert Packed(t, lo', top, FileOf(s, e));
      case Again(i) =>
        var m :| Emptied(s, i, m) && GrownBy(m, i, k, t);
        EmptiedKeeps(s, i, m, lo, top);
        var lo' :| Packed(m, lo', top, i);
        GrownByKeeps(m, i, k, t, lo', top);
        var lo'' :| Packed(t, lo'', top, i);
        assert |t.chains| == |t.file|;
        assert Packed(t, lo'', top, FileOf(s, e));
    }
  }

  /** Copying on from a state where the used clusters are in one piece, as long as no file but the one written just
      before is overwritten. */
  lemma {:induction false} RunFrom(s: Image, es: seq<Event>, ks0: seq<nat>, ks: seq<nat>, t: Image, lo: nat, top: nat)
    requires ks0 <= ks && Ran(s, es, ks, t) && !OverwritesBehind(es, |s.chains|)
    requires forall m :: Ran(s, es, ks0, m) ==> Packed(m, lo, top, -1) && |m.chains| == Ids(es, |s.chains|, |ks0|)
    requires |ks| <= |es| && (|ks0| < |ks| ==> !es[|ks0|].Again?)
    ensures exists lo' :: Packed(t, lo', top, WrittenSince(es, |s.chains|, |ks0|, |ks|))
    ensures |t.chains| == Ids(es, |s.chains|, |ks|) && !Fragmented(t)
    decreases |ks|
  {
    hide Happens, Held, Free;
    if ks == ks0 {
      assert Packed(t, lo, top, WrittenSince(es, |s.chains|, |ks0|, |ks|));
    } else {
      var q := |ks| - 1;
      var m :| Ran(s, es, Front(ks), m) && Happens(m, es[q], Last(ks), t);
      RunFrom(s, es, ks0, Front(ks), m, lo, top);
      var w := WrittenSince(es, |s.chains|, |ks0|, q);
      var lo' :| Packed(m, lo', top, w);
      if q > |ks0| && es[q].Again? { assert Writes(es, |s.chains|, q - 1, es[q].i); }
      HappensKeeps(m, es[q], Last(ks), t, lo', top, w);
      assert WrittenSince(es, |s.chains|, |ks0|, |ks|) == FileOf(m, es[q]);
      var lo'' :| Packed(t, lo'', top, FileOf(m, es[q]));
    }
  }

  /** Over every copy that overwrites no file but the one written just before, whatever the file lengths, the used
      clusters stay in one piece with every file in one piece. */
  lemma RunIsUnfragmented(s: Image, es: seq<Event>, ks: seq<nat>, t: Image, lo: nat, top: nat)
    requires Packed(s, lo, top, -1) && Ran(s, es, ks, t) && !OverwritesBehind(es, |s.chains|)
    requires es != [] && es[0].Again? ==> ks == []
    ensures !Fragmented(t) && exists lo', w :: Packed(t, lo', top, w)
  {
    hide Packed, Fragmented;
    RunFrom(s, es, [], ks, t, lo, top);
  }

  // ----- what overwriting an earlier file does -----

  function Less(free: nat): nat { if free == UNKNOWN then UNKNOWN else (free + 0xFFFF_FFFF) % 0x1_0000_0000 }

  /** The state after object `i` took cluster `r`. */
  function Took(s: Image, i: nat, r: nat): Image
    requires i < |s.chains| && Tail(s, i) < |s.a.fat| && r < |s.a.fat|
  {
    s.(a := Alloc(Linked(s.a.fat, Tail(s, i), r, s.eoc), r, Less(s.a.free)), chains := s.chains[i := s.chains[i] + [r]])
  }

  /** The cluster that the scan comes to is taken. */
  lemma Takes1(s: Image, i: nat, r: nat)
    requires Held(s) && i < |s.chains| && 2 <= r < |s.a.fat| && Scanned(s.a.fat, ScanStart(s.a, Tail(s, i)), r)
    ensures Tail(s, i) < |s.a.fat| && Held(Took(s, i, r)) && Grown(s, i, Took(s, i, r))
  {
    if s.chains[i] != [] { HeldTail(s, i); }
    HeldGrow(s, i, r, Took(s, i, r).a);
    assert Created(s.a, Tail(s, i), r, s.eoc, Took(s, i, r).a);
  }

  /** The free clusters are one stretch and those in `x`. */
  ghost predicate FreeAnd(f: seq<nat>, lo: nat, top: nat, x: seq<nat>)
  {
    2 <= lo <= top <= |f| && forall c :: 2 <= c < |f| ==> if lo <= c < top || c in x then f[c] == 0 else f[c] > 1
  }

  /** Cluster `c` is passed by a scan from `a` to `b` in a table of `n` entries. */
  predicate Between(a: nat, b: nat, n: nat, c: nat) { 2 <= c < n && if a < b then a < c < b else c > a || c < b }

  /** Written anew, a file of this chain gets the same clusters again: from each the scan comes to the next. */
  ghost predicate Refills(ch: seq<nat>, lo: nat, top: nat, n: nat)
  {
    forall m: nat, c: nat :: 0 < m < |ch| && Between(ch[m - 1], ch[m], n, c) ==> !(lo <= c < top) && c !in ch
  }

  lemma ScanGoesTo(f: seq<nat>, a: nat, ch: seq<nat>, m: nat, lo: nat, top: nat)
    requires m < |ch| && Refills(ch, lo, top, |f|) && FreeAnd(f, lo, top, ch[m..]) && 2 <= ch[m] < |f|
    requires if m == 0 then a == ch[0] - 1 else a == ch[m - 1] && 2 <= a < |f| && a != ch[m]
    ensures Scanned(f, a, ch[m])
  {
    assert ch[m] in ch[m..] by { assert ch[m..][0] == ch[m]; }
    forall c | 2 <= c < |f| && Steps(|f|, a, c) < Steps(|f|, a, ch[m]) ensures f[c] > 1 {
      if m > 0 {
        assert Between(ch[m - 1], ch[m], |f|, c);
        assert c in ch[m..] ==> c in ch;
      }
    }
  }

  /** The file is written from its `m`-th cluster on, and gets all of `ch` again. */
  lemma {:induction false} Refilled(s: Image, i: nat, ch: seq<nat>, m: nat, lo: nat, top: nat) returns (t: Image)
    requires Held(s) && i < |s.chains| && m <= |ch| && s.chains[i] == ch[..m] && Distinct(ch)
    requires FreeAnd(s.a.fat, lo, top, ch[m..]) && Refills(ch, lo, top, |s.a.fat|)
    requires forall c :: c in ch ==> 2 <= c < |s.a.fat| && !(lo <= c < top)
    requires ch != [] ==> if m == 0 then s.a.last + 1 == ch[0] else s.a.last == ch[m - 1]
    ensures GrownBy(s, i, |ch| - m, t) && Held(t) && t.chains == s.chains[i := ch] && t.file == s.file && t.eoc == s.eoc
    ensures |t.a.fat| == |s.a.fat| && Free(t.a.fat, lo, top)
    ensures if ch == [] then t.a.last == s.a.last else t.a.last == Last(ch)
    decreases |ch| - m
  {
    hide Held, Refills, Emptied, Grown;
    if m == |ch| {
      assert ch[..m] == ch && s.chains[i := ch] == s.chains;
      t := s;
    } else {
      assert ch[m] in ch[m..] by { assert ch[m..][0] == ch[m]; }
      assert ch[m] in ch;
      if m > 0 { assert ch[m - 1] in ch; }
      ScanGoesTo(s.a.fat, if m == 0 then ch[0] - 1 else ch[m - 1], ch, m, lo, top);
      Takes1(s, i, ch[m]);
      var n := Took(s, i, ch[m]);
      assert ch[..m] + [ch[m]] == ch[..m + 1];
      TookFree(s, i, ch, m, lo, top);
      t := Refilled(n, i, ch, m + 1, lo, top);
      assert n.chains[i := ch] == s.chains[i := ch];
    }
  }

  lemma TookFree(s: Image, i: nat, ch: seq<nat>, m: nat, lo: nat, top: nat)
    requires Held(s) && i < |s.chains| && m < |ch| && s.chains[i] == ch[..m] && Distinct(ch) && 2 <= ch[m] < |s.a.fat|
    requires FreeAnd(s.a.fat, lo, top, ch[m..]) && Tail(s, i) < |s.a.fat| && !(lo <= ch[m] < top)
    ensures FreeAnd(Took(s, i, ch[m]).a.fat, lo, top, ch[m + 1..])
  {
    var f' := Took(s, i, ch[m]).a.fat;
    if m > 0 { HeldTail(s, i); }
    forall c | 2 <= c < |f'| ensures if lo <= c < top || c in ch[m + 1..] then f'[c] == 0 else f'[c] > 1 {
      assert ch[m..] == [ch[m]] + ch[m + 1..];
    }
  }

  /** Overwriting a file with one of the same length changes nothing but the links. */
  lemma WrittenAnew(s: Image, i: nat, lo: nat, top: nat) returns (t: Image)
    requires Held(s) && i < |s.file| && s.file[i] && Free(s.a.fat, lo, top) && GoodStart(s.a.last, lo, top)
    requires Refills(s.chains[i], lo, top, |s.a.fat|)
    ensures Happens(s, Again(i), |s.chains[i]|, t) && Held(t) && Kept(s, t) && |t.chains| == |s.chains|
    ensures Free(t.a.fat, lo, top) && GoodStart(t.a.last, lo, top)
  {
    hide Held, Happens, IsChain, Refills, Emptied, Linked, Free, FreeAnd, GrownBy, Distinct;
    HeldSizes(s);
    var ch := s.chains[i];
    var m := EmptiedFirst(s, i, lo, top);
    assert ch[..0] == [] && ch[0..] == ch;
    t := Refilled(m, i, ch, 0, lo, top);
    assert t.chains == s.chains;
    AnewHappens(s, i, m, t);
    if ch != [] { assert Last(ch) in ch; }
  }

  lemma HeldSizes(s: Image)
    requires Held(s)
    ensures |s.file| == |s.chains|
  {
  }

  lemma AnewHappens(s: Image, i: nat, m: Image, t: Image)
    requires i < |s.file| && s.file[i] && i < |s.chains| && Emptied(s, i, m) && GrownBy(m, i, |s.chains[i]|, t)
    ensures Happens(s, Again(i), |s.chains[i]|, t)
  {
    hide Emptied, GrownBy;
  }

  /** The removal in f_open. */
  lemma EmptiedFirst(s: Image, i: nat, lo: nat, top: nat) returns (m: Image)
    requires Held(s) && i < |s.file| && s.file[i] && Free(s.a.fat, lo, top)
    ensures i < |s.chains| && Emptied(s, i, m) && Held(m) && m.chains == s.chains[i := []] && m.file == s.file
    ensures m.eoc == s.eoc
    ensures |m.a.fat| == |s.a.fat| && FreeAnd(m.a.fat, lo, top, s.chains[i]) && Distinct(s.chains[i])
    ensures forall c :: c in s.chains[i] ==> 2 <= c < |s.a.fat| && !(lo <= c < top)
    ensures if s.chains[i] == [] then m.a == s.a else m.a.last + 1 == s.chains[i][0]
  {
    var ch := s.chains[i];
    m := s;
    if ch != [] {
      HeldChain(s, i, ch[0]);
      m := s.(a := Alloc(Cut(s.a.fat, ch[0]), ch[0] - 1, Raised(s.a.free, CutCount(s.a.fat, ch[0]))),
          chains := s.chains[i := []]);
    }
    HeldEmpty(s, i, m);
    forall c | c in ch ensures 2 <= c < |s.a.fat| && s.a.fat[c] >= 2 { HeldChain(s, i, c); }
  }

  /** Later on: the files are as they were, and new ones are empty. */
  ghost predicate Kept(s: Image, t: Image)
  {
    && |s.file| == |s.chains| <= |t.chains| == |t.file| && |t.a.fat| == |s.a.fat| && t.eoc == s.eoc
    && (forall i :: 0 <= i < |s.file| ==> t.file[i] == s.file[i] && (s.file[i] ==> t.chains[i] == s.chains[i]))
    && (forall i :: |s.file| <= i < |t.file| && t.file[i] ==> t.chains[i] == [])
  }

  lemma ScansFirst(f: seq<nat>, s: nat, lo: nat, top: nat)
    requires Free(f, lo, top) && lo < top && 1 <= s < |f| && GoodStart(s, lo, top)
    ensures Scanned(f, s, lo)
  {
  }

  lemma KeptTwice(s: Image, m: Image, t: Image)
    requires Kept(s, m) && Kept(m, t)
    ensures Kept(s, t)
  {
  }

  /** A new directory gets the cluster that the scan comes to. */
  lemma DirTakesAt(s: Image, r: nat) returns (t: Image)
    requires Held(s) && 2 <= r < |s.a.fat| && Scanned(s.a.fat, ScanStart(s.a, 0), r)
    ensures Happens(s, NewDir, 0, t) && Held(t) && Kept(s, t) && t.file == s.file + [false]
    ensures t.chains == s.chains + [[r]]
    ensures t.a.fat == s.a.fat[r := s.eoc] && t.a.last == r
  {
    hide Created;
    HeldOpened(s);
    var n := |s.chains|;
    Takes1(Opened(s), n, r);
    var o := Took(Opened(s), n, r);
    assert o.chains == s.chains + [[r]] by { assert [] + [r] == [r]; }
    t := o.(file := s.file + [false]);
    HeldAsDir(o, t);
    DirHappens(s, r, t);
  }

  lemma DirTakes(s: Image, lo: nat, top: nat) returns (t: Image)
    requires Held(s) && Free(s.a.fat, lo, top) && GoodStart(s.a.last, lo, top) && lo < top
    ensures Happens(s, NewDir, 0, t) && Held(t) && Kept(s, t) && t.file == s.file + [false]
    ensures Free(t.a.fat, lo + 1, top) && GoodStart(t.a.last, lo + 1, top)
  {
    hide Happens, Kept, Scanned, IsChain, Disjoint;
    ScansFirst(s.a.fat, ScanStart(s.a, 0), lo, top);
    t := DirTakesAt(s, lo);
  }

  lemma DirHappens(s: Image, r: nat, t: Image)
    requires Grown(Opened(s), |s.chains|, t.(file := Opened(s).file)) && t.file == s.file + [false] && r >= 2
    requires t.chains == s.chains + [[r]]
    ensures Happens(s, NewDir, 0, t)
  {
    hide Created;
    var o := Opened(s);
    var r': nat :| Created(o.a, 0, r', s.eoc, t.a) &&
      t.chains == if r' < 2 then o.chains else o.chains[|s.chains| := o.chains[|s.chains|] + [r']];
    assert r' >= 2 && o.chains[|s.chains|] == [] && [] + [r'] == [r'];
    assert t.chains[|s.chains|] == [r] && r == [r'][0];
    assert t == s.(a := t.a, chains := s.chains + [[r]], file := s.file + [false]);
  }

  /** A directory's table gets the cluster that the scan comes to. */
  lemma TableTakesAt(s: Image, d: nat, r: nat) returns (t: Image)
    requires Held(s) && d < |s.file| && d < |s.chains| && !s.file[d]
    requires 2 <= r < |s.a.fat| && Scanned(s.a.fat, Tail(s, d), r)
    ensures Happens(s, GrowDir(d), 0, t) && Held(t) && Kept(s, t) && t.file == s.file && |t.chains| == |s.chains|
    ensures 2 <= Tail(s, d) < |s.a.fat| && t.a.fat == s.a.fat[r := s.eoc][Tail(s, d) := r] && t.a.last == r
    ensures s.chains[d] != [] && Tail(s, d) in s.chains[d]
  {
    HeldTail(s, d);
    Takes1(s, d, r);
    t := Took(s, d, r);
    assert t.chains[d] != s.chains[d];
  }

  lemma TableTakes(s: Image, d: nat, lo: nat, top: nat) returns (t: Image)
    requires Held(s) && Free(s.a.fat, lo, top) && lo < top && d < |s.file| && !s.file[d]
    ensures Happens(s, GrowDir(d), 0, t) && Held(t) && Kept(s, t) && t.file == s.file
    ensures Free(t.a.fat, lo + 1, top) && GoodStart(t.a.last, lo + 1, top)
  {
    hide Happens, Kept, Scanned, Disjoint;
    HeldTail(s, d);
    ScansFirst(s.a.fat, Tail(s, d), lo, top);
    t := TableTakesAt(s, d, lo);
  }

  /** One event, with new files empty and old ones as long as they were. */
  lemma SteadyStep(s: Image, e: Event, lo: nat, top: nat) returns (k: nat, t: Image)
    requires Held(s) && Free(s.a.fat, lo, top) && GoodStart(s.a.last, lo, top)
    requires Fits(e, s.file) && (Takes(e) ==> lo < top)
    requires e.Again? ==> Refills(s.chains[e.i], lo, top, |s.a.fat|)
    ensures Happens(s, e, k, t) && Held(t) && Kept(s, t) && t.file == s.file + NewMarks(e)
    ensures var lo' := if Takes(e) then lo + 1 else lo; Free(t.a.fat, lo', top) && GoodStart(t.a.last, lo', top)
  {
    hide Happens, Held, Free, Kept;
    k := 0;
    match e {
      case NewDir => t := DirTakes(s, lo, top);
      case GrowDir(d) => t := TableTakes(s, d, lo, top);
      case NewFile => t := OpenedHappens(s);
      case Again(i) =>
        HeldSizes(s);
        k := |s.chains[i]|;
        t := WrittenAnew(s, i, lo, top);
        KeptFile(s, t);
    }
  }

  lemma KeptFile(s: Image, t: Image)
    requires Kept(s, t) && |t.chains| == |s.chains|
    ensures t.file == s.file
  {
  }

  lemma OpenedHappens(s: Image) returns (t: Image)
    requires Held(s)
    ensures Happens(s, NewFile, 0, t) && Held(t) && Kept(s, t) && t.file == s.file + [true] && t.a == s.a
  {
    HeldOpened(s);
    t := Opened(s);
  }

  /** The copy after the first events: what ran, and the one stretch of free clusters. */
  ghost predicate Reached(s0: Image, es: seq<Event>, ks: seq<nat>, s: Image, lo: nat, top: nat)
  {
    && Ran(s0, es, ks, s) && |ks| <= |es| && s.file == Marks(es, s0.file, |ks|)
    && Held(s) && Free(s.a.fat, lo, top) && GoodStart(s.a.last, lo, top)
  }

  lemma RanOne(s0: Image, es: seq<Event>, ks: seq<nat>, s: Image, k: nat, t: Image)
    requires Ran(s0, es, ks, s) && |ks| < |es| && Happens(s, es[|ks|], k, t)
    ensures Ran(s0, es, ks + [k], t)
  {
    hide Happens;
    assert Front(ks + [k]) == ks;
  }

  /** Files hit by the events up to `stop` get their clusters again. */
  ghost predicate AllRefill(es: seq<Event>, from: nat, stop: nat, s: Image, lo: nat, top: nat)
    requires stop <= |es|
  {
    forall q :: from <= q < stop && es[q].Again? && es[q].i < |s.chains| ==>
      Refills(s.chains[es[q].i], lo, top, |s.a.fat|)
  }

  /** A file that an event will find once it exists is one: marks do not change. */
  lemma {:induction false} MarksStay(es: seq<Event>, file: seq<bool>, q: nat, r: nat)
    requires q <= r <= |es|
    ensures Marks(es, file, q) <= Marks(es, file, r)
    decreases r
  {
    if q < r { MarksStay(es, file, q, r - 1); }
  }

  lemma RefillsOn(s0: Image, s: Image, t: Image, es: seq<Event>, from: nat, stop: nat, lo: nat, lo': nat, top: nat)
    requires from < stop <= |es| && AllRefill(es, from, stop, s, lo, top) && Kept(s, t) && lo <= lo'
    requires WellPlanned(es, s0.file) && |t.chains| == |t.file| && t.file == Marks(es, s0.file, from + 1)
    ensures AllRefill(es, from + 1, stop, t, lo', top)
  {
    hide Refills, Kept, Marks;
    forall q | from + 1 <= q < stop && es[q].Again? && es[q].i < |t.chains|
      ensures Refills(t.chains[es[q].i], lo', top, |t.a.fat|)
    {
      FileByThen(es, s0.file, from + 1, q);
      KeptRefills(s, t, es[q].i, lo, lo', top);
    }
  }

  lemma FileByThen(es: seq<Event>, file: seq<bool>, r: nat, q: nat)
    requires r <= q < |es| && WellPlanned(es, file) && es[q].Again? && es[q].i < |Marks(es, file, r)|
    ensures Marks(es, file, r)[es[q].i]
  {
    MarksStay(es, file, r, q);
    assert Fits(es[q], Marks(es, file, q));
  }

  lemma KeptRefills(s: Image, t: Image, i: nat, lo: nat, lo': nat, top: nat)
    requires Kept(s, t) && i < |t.chains| && t.file[i] && lo <= lo'
    requires i < |s.chains| ==> Refills(s.chains[i], lo, top, |s.a.fat|)
    ensures Refills(t.chains[i], lo', top, |t.a.fat|)
  {
    hide Refills;
    RefillsMore(t.chains[i], lo, lo', top, |t.a.fat|);
  }

  /** Fewer free clusters are no hindrance; and an empty file needs none. */
  lemma RefillsMore(ch: seq<nat>, lo: nat, lo': nat, top: nat, n: nat)
    requires lo <= lo' && (ch == [] || Refills(ch, lo, top, n))
    ensures Refills(ch, lo', top, n)
  {
  }

  lemma ReadyNow(s0: Image, es: seq<Event>, q: nat, stop: nat, s: Image, lo: nat, top: nat)
    requires q < stop <= |es| && WellPlanned(es, s0.file) && AllRefill(es, q, stop, s, lo, top) && Held(s)
    requires s.file == Marks(es, s0.file, q)
    ensures Fits(es[q], s.file) && |s.file| == |s.chains|
    ensures es[q].Again? ==> Refills(s.chains[es[q].i], lo, top, |s.a.fat|)
  {
    hide Refills;
  }

  lemma KeptSelf(s: Image)
    requires Held(s)
    ensures Kept(s, s)
  {
  }

  lemma FullIsStuck(s: Image, lo: nat)
    requires Free(s.a.fat, lo, lo)
    ensures Stuck(s, NewDir) && forall d :: Stuck(s, GrowDir(d))
  {
  }

  /** The events up to `stop`, with new files empty and old ones as long as they were; or up to where the copy is
      stuck. */
  lemma {:induction false} Steady(s0: Image, es: seq<Event>, ks: seq<nat>, s: Image, stop: nat, lo: nat, top: nat)
    returns (ks': seq<nat>, t: Image, lo': nat)
    requires Reached(s0, es, ks, s, lo, top) && |ks| <= stop <= |es| && WellPlanned(es, s0.file)
    requires AllRefill(es, |ks|, stop, s, lo, top)
    ensures Reached(s0, es, ks', t, lo', top) && Kept(s, t) && |ks| <= |ks'| <= stop
    ensures |ks'| == stop || (Stuck(t, es[|ks'|]) && lo' == top)
    ensures lo' - lo == DirClusters(es, |ks'|) - DirClusters(es, |ks|)
    decreases stop - |ks|
  {
    hide Happens, Held, Free, Kept, Refills, WellPlanned, AllRefill, Ran, GoodStart, Stuck;
    KeptSelf(s);
    if |ks| == stop {
      ks', t, lo' := ks, s, lo;
    } else if Takes(es[|ks|]) && lo == top {
      ks', t, lo' := ks, s, lo;
      FullIsStuck(s, lo);
    } else {
      var e := es[|ks|];
      ReadyNow(s0, es, |ks|, stop, s, lo, top);
      FreeFirst(s.a.fat, lo, top);
      var k, m := SteadyStep(s, e, lo, top);
      RanOne(s0, es, ks, s, k, m);
      var n := if Takes(e) then lo + 1 else lo;
      HeldSizes(m);
      RefillsOn(s0, s, m, es, |ks|, stop, lo, n, top);
      ks', t, lo' := Steady(s0, es, ks + [k], m, stop, n, top);
      KeptTwice(s, m, t);
    }
  }

  lemma {:induction false} DirClustersGrow(es: seq<Event>, q: nat, r: nat)
    requires q <= r <= |es|
    ensures DirClusters(es, q) <= DirClusters(es, r)
    decreases r
  {
    if q < r { DirClustersGrow(es, q, r - 1); }
  }

  lemma {:induction false} MarksAreIds(es: seq<Event>, file: seq<bool>, q: nat)
    requires q <= |es|
    ensures |Marks(es, file, q)| == Ids(es, |file|, q)
  {
    if q > 0 { MarksAreIds(es, file, q - 1); }
  }

  ghost predicate NoFiles(file: seq<bool>)
  {
    forall i :: 0 <= i < |file| ==> !file[i]
  }

  /** A file that exists was written; `p` is the last time before `q`. */
  lemma {:induction false} WrittenBefore(es: seq<Event>, file: seq<bool>, q: nat, i: nat) returns (p: nat)
    requires q <= |es| && NoFiles(file) && i < |Marks(es, file, q)| && Marks(es, file, q)[i]
    ensures p < q && Writes(es, |file|, p, i) && forall r :: p < r < q ==> !Writes(es, |file|, r, i)
  {
    MarksAreIds(es, file, q - 1);
    if Writes(es, |file|, q - 1, i) {
      p := q - 1;
    } else {
      p := WrittenBefore(es, file, q - 1, i);
    }
  }

  /** No file has more than one cluster. */
  ghost predicate Short(s: Image)
  {
    |s.file| == |s.chains| && forall i :: 0 <= i < |s.file| && s.file[i] ==> |s.chains[i]| <= 1
  }

  lemma ShortRefills(s0: Image, es: seq<Event>, from: nat, stop: nat, s: Image, lo: nat, top: nat)
    requires from <= stop <= |es| && WellPlanned(es, s0.file) && Short(s) && s.file == Marks(es, s0.file, from)
    ensures AllRefill(es, from, stop, s, lo, top)
  {
    hide WellPlanned, Marks;
    forall q | from <= q < stop && es[q].Again? && es[q].i < |s.chains|
      ensures Refills(s.chains[es[q].i], lo, top, |s.a.fat|)
    {
      FileByThen(es, s0.file, from, q);
    }
  }

  /** A file without clusters gets one. */
  lemma OneCluster(s: Image, e: Event, i: nat, lo: nat, top: nat) returns (t: Image)
    requires Held(s) && Free(s.a.fat, lo, top) && GoodStart(s.a.last, lo, top) && lo < top && Fits(e, s.file)
    requires e == Again(i) || (e == NewFile && i == |s.file|)
    requires i < |s.chains| ==> s.chains[i] == []
    ensures Happens(s, e, 1, t) && Held(t) && t.file == s.file + NewMarks(e) && |t.a.fat| == |s.a.fat| && t.eoc == s.eoc
    ensures Free(t.a.fat, lo + 1, top) && GoodStart(t.a.last, lo + 1, top)
    ensures t.chains == if i < |s.chains| then s.chains[i := [lo]] else s.chains + [[lo]]
  {
    hide Held, IsChain, Created;
    HeldSizes(s);
    var m := if e == NewFile then Opened(s) else s;
    if e == NewFile { HeldOpened(s); } else { assert Emptied(s, i, m); }
    ScansFirst(m.a.fat, ScanStart(m.a, 0), lo, top);
    Takes1(m, i, lo);
    t := Took(m, i, lo);
    assert [] + [lo] == [lo];
    assert GrownBy(t, i, 0, t);
    assert GrownBy(m, i, 1, t);
    if e == NewFile { assert t.chains == s.chains + [[lo]]; }
  }

  /** A file of one cluster, with others used behind it, is written anew with two: it comes in two pieces. */
  lemma TwoPieces(s: Image, i: nat, h: nat, lo: nat, top: nat) returns (t: Image)
    requires Held(s) && Free(s.a.fat, lo, top) && lo < top && i < |s.file| && s.file[i] && i < |s.chains|
    requires s.chains[i] == [h] && h + 1 < lo
    ensures Happens(s, Again(i), 2, t) && Held(t) && t.file == s.file && t.chains == s.chains[i := [h, lo]]
    ensures |t.a.fat| == |s.a.fat| && t.eoc == s.eoc && Free(t.a.fat, lo + 1, top) && GoodStart(t.a.last, lo + 1, top)
  {
    hide Held, IsChain, Emptied, GrownBy, Happens;
    var m := EmptiedFirst(s, i, lo, top);
    var ch := [h, lo];
    assert h in [h];
    assert ch[..0] == [] && ch[0..] == ch;
    t := Refilled(m, i, ch, 0, lo + 1, top);
    assert t.chains == s.chains[i := ch];
    TwoHappens(s, i, m, t);
  }

  lemma TwoHappens(s: Image, i: nat, m: Image, t: Image)
    requires i < |s.file| && s.file[i] && Emptied(s, i, m) && GrownBy(m, i, 2, t)
    ensures Happens(s, Again(i), 2, t)
  {
    hide Emptied, GrownBy;
  }

  /** File `i` has cluster `h` only, others behind it are in use, and no file has more than one. */
  ghost predicate Single(s: Image, i: nat, h: nat, lo: nat)
  {
    Short(s) && i < |s.file| && s.file[i] && s.chains[i] == [h] && h < lo
  }

  lemma KeptSingle(s: Image, t: Image, i: nat, h: nat, lo: nat, lo': nat)
    requires Single(s, i, h, lo) && Kept(s, t) && lo <= lo'
    ensures Single(t, i, h, lo')
  {
  }

  ghost predicate Empties(s: Image)
  {
    |s.file| == |s.chains| && forall i :: 0 <= i < |s.file| && s.file[i] ==> s.chains[i] == []
  }

  lemma KeptEmpties(s: Image, t: Image)
    requires Empties(s) && Kept(s, t)
    ensures Empties(t)
  {
  }

  lemma NoFilesEmpties(s: Image)
    requires NoFiles(s.file) && |s.file| == |s.chains|
    ensures Empties(s)
  {
  }

  lemma EmptiesShort(s: Image)
    requires Empties(s)
    ensures Short(s)
  {
  }

  /** One more event that writes one cluster. */
  lemma ReachedOne(s0: Image, es: seq<Event>, ks: seq<nat>, s: Image, lo: nat, top: nat, i: nat) returns (t: Image)
    requires Reached(s0, es, ks, s, lo, top) && |ks| < |es| && WellPlanned(es, s0.file) && lo < top
    requires Writes(es, |s0.file|, |ks|, i) && (i < |s.chains| ==> s.chains[i] == [])
    ensures Reached(s0, es, ks + [1], t, lo + 1, top) && |t.file| == |t.chains| && i < |t.chains| && t.file[i]
    ensures t.chains == if i < |s.chains| then s.chains[i := [lo]] else s.chains + [[lo]]
    ensures s.file <= t.file && |s.file| == |s.chains|
  {
    hide Held, Free, GoodStart, Happens, Ran, WellPlanned, Marks;
    var e := es[|ks|];
    HeldSizes(s);
    FitsNow(es, s0.file, |ks|);
    MarksAreIds(es, s0.file, |ks|);
    FreeFirst(s.a.fat, lo, top);
    t := OneCluster(s, e, i, lo, top);
    RanOne(s0, es, ks, s, 1, t);
    HeldSizes(t);
    MarksNext(es, s0.file, |ks|);
  }

  lemma MarksNext(es: seq<Event>, file: seq<bool>, q: nat)
    requires q < |es|
    ensures Marks(es, file, q + 1) == Marks(es, file, q) + NewMarks(es[q])
  {
  }

  lemma FitsNow(es: seq<Event>, file: seq<bool>, q: nat)
    requires WellPlanned(es, file) && q < |es|
    ensures Fits(es[q], Marks(es, file, q))
  {
  }

  /** From a state without files up to the last time file `i` is written, which gives it one cluster; all other files
      stay empty. */
  lemma UpToFirst(s0: Image, es: seq<Event>, ks0: seq<nat>, s1: Image, p: nat, i: nat, lo: nat, top: nat)
    returns (ks: seq<nat>, s: Image, h: nat)
    requires Reached(s0, es, ks0, s1, lo, top) && NoFiles(s1.file) && WellPlanned(es, s0.file)
    requires |ks0| <= p < |es| && Writes(es, |s0.file|, p, i)
    requires DirClusters(es, |es|) - DirClusters(es, |ks0|) < top - lo
    ensures |ks| == p + 1 && Reached(s0, es, ks, s, h + 1, top) && Single(s, i, h, h + 1)
    ensures h == lo + DirClusters(es, p) - DirClusters(es, |ks0|)
    ensures forall k :: 0 <= k < |s.file| && s.file[k] && k != i ==> s.chains[k] == []
  {
    hide Held, Free, GoodStart, Happens, Ran, WellPlanned, Kept, Marks, Stuck;
    HeldSizes(s1);
    NoFilesEmpties(s1);
    EmptiesShort(s1);
    ShortRefills(s0, es, |ks0|, p, s1, lo, top);
    DirClustersGrow(es, p, |es|);
    var ks2, s2, lo2 := Steady(s0, es, ks0, s1, p, lo, top);
    DirClustersGrow(es, |ks2|, |es|);
    KeptEmpties(s1, s2);
    EmptyFile(es, s0.file, p, s2, i);
    s := ReachedOne(s0, es, ks2, s2, lo2, top, i);
    ks, h := ks2 + [1], lo2;
  }

  lemma MarksStart(es: seq<Event>, file: seq<bool>)
    ensures Marks(es, file, 0) == file && DirClusters(es, 0) == 0
  {
  }

  lemma EmptyFile(es: seq<Event>, file: seq<bool>, q: nat, s: Image, i: nat)
    requires Empties(s) && q < |es| && WellPlanned(es, file) && s.file == Marks(es, file, q)
    requires Writes(es, |file|, q, i)
    ensures i < |s.chains| ==> s.chains[i] == []
  {
    FitsNow(es, file, q);
    MarksAreIds(es, file, q);
  }

  /** One more event, of whatever kind, takes the cluster behind file `i`. */
  lemma OneBehind(s0: Image, es: seq<Event>, ks: seq<nat>, s: Image, i: nat, h: nat, top: nat)
    returns (ks': seq<nat>, t: Image)
    requires Reached(s0, es, ks, s, h + 1, top) && Single(s, i, h, h + 1) && WellPlanned(es, s0.file)
    requires |ks| < |es| && h + 1 < top && !Writes(es, |s0.file|, |ks|, i)
    requires forall k :: 0 <= k < |s.file| && s.file[k] && k != i ==> s.chains[k] == []
    ensures |ks'| == |ks| + 1 && Reached(s0, es, ks', t, h + 2, top) && Single(t, i, h, h + 2)
  {
    hide Held, Free, GoodStart, Happens, Ran, WellPlanned, Marks, Kept;
    var e := es[|ks|];
    FitsNow(es, s0.file, |ks|);
    MarksAreIds(es, s0.file, |ks|);
    if Takes(e) {
      var k;
      k, t := SteadyStep(s, e, h + 1, top);
      ks' := ks + [k];
      RanOne(s0, es, ks, s, k, t);
      MarksNext(es, s0.file, |ks|);
      KeptSingle(s, t, i, h, h + 1, h + 2);
    } else {
      var k := if e == NewFile then |s.file| else e.i;
      t := ReachedOne(s0, es, ks, s, h + 1, top, k);
      ks' := ks + [1];
    }
  }

  /** Up to the moment a file is overwritten while others are used behind it. */
  lemma UpToOverwrite(s0: Image, es: seq<Event>, ks0: seq<nat>, s1: Image, j: nat, lo: nat, top: nat)
    returns (ks: seq<nat>, s: Image, h: nat, lo': nat)
    requires Reached(s0, es, ks0, s1, lo, top) && NoFiles(s0.file) && NoFiles(s1.file) && WellPlanned(es, s0.file)
    requires 1 <= j < |es| && es[j].Again? && !Writes(es, |s0.file|, j - 1, es[j].i)
    requires DirClusters(es, |es|) - DirClusters(es, |ks0|) + 3 <= top - lo
    ensures |ks| == j && Reached(s0, es, ks, s, lo', top) && Single(s, es[j].i, h, lo') && h + 1 < lo' < top
  {
    hide Held, Free, GoodStart, Happens, Ran, WellPlanned, Marks, Kept, Single, Stuck, Writes;
    var i := es[j].i;
    FitsNow(es, s0.file, j);
    var p := WrittenBefore(es, s0.file, j, i);
    WrittenLater(es, s0.file, |ks0|, p, i);
    var ks2, s2, h2 := UpToFirst(s0, es, ks0, s1, p, i, lo, top);
    DirClustersGrow(es, p, |es|);
    var ks3, s3 := OneBehind(s0, es, ks2, s2, i, h2, top);
    SingleShort(s3, i, h2, h2 + 2);
    RefillsFor(s0, es, ks3, s3, j, h2 + 2, top);
    h := h2;
    ks, s, lo' := Steady(s0, es, ks3, s3, j, h + 2, top);
    DirClustersGrow(es, p, |ks3|);
    DirClustersGrow(es, |ks3|, |ks|);
    DirClustersGrow(es, |ks|, |es|);
    KeptSingle(s3, s, i, h, h + 2, lo');
  }

  /** As long as there is no file, none was written. */
  lemma WrittenLater(es: seq<Event>, file: seq<bool>, q: nat, p: nat, i: nat)
    requires q <= |es| && p < |es| && WellPlanned(es, file) && NoFiles(Marks(es, file, q)) && Writes(es, |file|, p, i)
    ensures q <= p
  {
    if p < q { WrittenExists(es, file, q, p, i); }
  }

  lemma WrittenExists(es: seq<Event>, file: seq<bool>, q: nat, p: nat, i: nat)
    requires p < q <= |es| && WellPlanned(es, file) && Writes(es, |file|, p, i)
    ensures !NoFiles(Marks(es, file, q))
  {
    hide Marks, Ids, WellPlanned;
    FitsNow(es, file, p);
    MarksAreIds(es, file, p);
    MarksNext(es, file, p);
    MarksStay(es, file, p + 1, q);
    assert Marks(es, file, p + 1)[i];
    assert Marks(es, file, q)[i];
  }

  lemma SingleShort(s: Image, i: nat, h: nat, lo: nat)
    requires Single(s, i, h, lo)
    ensures Short(s)
  {
  }

  lemma RefillsFor(s0: Image, es: seq<Event>, ks: seq<nat>, s: Image, stop: nat, lo: nat, top: nat)
    requires Reached(s0, es, ks, s, lo, top) && Short(s) && |ks| <= stop <= |es| && WellPlanned(es, s0.file)
    ensures AllRefill(es, |ks|, stop, s, lo, top)
  {
    ShortRefills(s0, es, |ks|, stop, s, lo, top);
  }

  /** No file but `i` has more than one cluster, and that gets its own again. */
  lemma PiecesRefill(s0: Image, es: seq<Event>, from: nat, s: Image, i: nat, lo: nat, top: nat)
    requires from <= |es| && WellPlanned(es, s0.file) && s.file == Marks(es, s0.file, from) && |s.file| == |s.chains|
    requires forall k :: 0 <= k < |s.file| && s.file[k] && k != i ==> |s.chains[k]| <= 1
    requires i < |s.chains| && Refills(s.chains[i], lo, top, |s.a.fat|)
    ensures AllRefill(es, from, |es|, s, lo, top)
  {
    hide WellPlanned, Marks;
    forall q | from <= q < |es| && es[q].Again? && es[q].i < |s.chains|
      ensures Refills(s.chains[es[q].i], lo, top, |s.a.fat|)
    {
      FileByThen(es, s0.file, from, q);
    }
  }

  /** The rest of the copy leaves file `i` in its pieces. */
  lemma RestKeepsPieces(s0: Image, es: seq<Event>, ks: seq<nat>, s: Image, i: nat, lo: nat, top: nat)
    requires Reached(s0, es, ks, s, lo, top) && WellPlanned(es, s0.file) && i < |s.file| && s.file[i] && i < |s.chains|
    requires forall k :: 0 <= k < |s.file| && k < |s.chains| && s.file[k] && k != i ==> |s.chains[k]| <= 1
    requires Refills(s.chains[i], lo, top, |s.a.fat|) && !Consecutive(s.chains[i])
    ensures CanFragment(s0, es)
  {
    hide Free, GoodStart, Ran, WellPlanned, Marks, Refills, Stuck, Consecutive, IsChain, Disjoint, AllRefill;
    PiecesRefill(s0, es, |ks|, s, i, lo, top);
    var ks', t, lo' := Steady(s0, es, ks, s, |es|, lo, top);
    assert Fragmented(t);
    assert Copied(s0, es, ks', t);
  }

  lemma TwoPiecesRefill(h: nat, lo: nat, top: nat, n: nat)
    requires h + 1 < lo
    ensures Refills([h, lo], lo + 1, top, n) && !Consecutive([h, lo])
  {
    assert [h, lo][1] != [h, lo][0] + 1;
  }

  /** An earlier file that is overwritten, and is not the one written just before, can come out in two pieces. */
  lemma OverwriteFragments(s0: Image, es: seq<Event>, ks0: seq<nat>, s1: Image, lo: nat, top: nat)
    requires Reached(s0, es, ks0, s1, lo, top) && NoFiles(s0.file) && NoFiles(s1.file) && WellPlanned(es, s0.file)
    requires OverwritesBehind(es, |s0.file|) && DirClusters(es, |es|) - DirClusters(es, |ks0|) + 3 <= top - lo
    ensures CanFragment(s0, es)
  {
    hide Held, Free, GoodStart, Happens, Reached, Ran, WellPlanned, Marks, CanFragment, Writes, Consecutive, Refills,
         Single;
    var j: nat :| 1 <= j < |es| && es[j].Again? && !Writes(es, |s0.file|, j - 1, es[j].i);
    var i := es[j].i;
    var ks, s, h, lo' := UpToOverwrite(s0, es, ks0, s1, j, lo, top);
    SplitFragments(s0, es, ks, s, i, h, lo', top);
  }

  lemma SplitFragments(s0: Image, es: seq<Event>, ks: seq<nat>, s: Image, i: nat, h: nat, lo: nat, top: nat)
    requires Reached(s0, es, ks, s, lo, top) && WellPlanned(es, s0.file) && |ks| < |es| && es[|ks|] == Again(i)
    requires Single(s, i, h, lo) && h + 1 < lo < top
    ensures CanFragment(s0, es)
  {
    hide Held, Free, GoodStart, Happens, Ran, WellPlanned, Marks, CanFragment, Consecutive, Refills;
    var t := TwoPieces(s, i, h, lo, top);
    RanOne(s0, es, ks, s, 2, t);
    MarksNext(es, s0.file, |ks|);
    TwoPiecesRefill(h, lo, top, |t.a.fat|);
    assert t.chains[i] == [h, lo];
    RestKeepsPieces(s0, es, ks + [2], t, i, lo + 1, top);
  }

  /** Copying onto one stretch of free clusters, from a starting point that comes to its first one: whatever the file
      lengths, every file comes in one piece, unless an earlier file is overwritten that is not the one written just
      before; and then, with room for three clusters beside the directories, some file lengths leave it in two. */
  lemma UnfragmentedExactly(s: Image, es: seq<Event>, lo: nat, top: nat)
    requires Held(s) && NoFiles(s.file) && Free(s.a.fat, lo, top) && GoodStart(s.a.last, lo, top)
    requires WellPlanned(es, s.file)
    ensures CanFragment(s, es) ==> OverwritesBehind(es, |s.file|)
    ensures DirClusters(es, |es|) + 3 <= top - lo ==> (CanFragment(s, es) <==> OverwritesBehind(es, |s.file|))
  {
    hide Held, Free, GoodStart, WellPlanned, OverwritesBehind, Fragmented, Disjoint, IsChain;
    HeldSizes(s);
    if CanFragment(s, es) && !OverwritesBehind(es, |s.file|) {
      var ks, t :| Copied(s, es, ks, t) && Fragmented(t);
      assert Packed(s, lo, top, -1);
      if es != [] { FitsNow(es, s.file, 0); }
      RunIsUnfragmented(s, es, ks, t, lo, top);
    }
    if OverwritesBehind(es, |s.file|) && DirClusters(es, |es|) + 3 <= top - lo {
      MarksStart(es, s.file);
      OverwriteFragments(s, es, [], s, lo, top);
    }
  }

  // ----- a starting point inside an empty volume -----

  /** `q` directory clusters were taken behind cluster `l`, and nothing else is in use. */
  ghost predicate Rising(s: Image, l: nat, q: nat)
  {
    && Held(s) && NoFiles(s.file) && 2 <= l && l + q < |s.a.fat| && s.a.last == l + q
    && forall c :: 2 <= c < |s.a.fat| ==> if l < c <= l + q then s.a.fat[c] > 1 else s.a.fat[c] == 0
  }

  lemma RisingScan(s: Image, l: nat, q: nat, a: nat, r: nat)
    requires Rising(s, l, q) && l + q + 1 < |s.a.fat| && (l < a <= l + q || a == l + q)
    ensures NoOnes(s.a.fat) && Scanned(s.a.fat, a, l + q + 1)
    ensures Scanned(s.a.fat, a, r) ==> r == l + q + 1
  {
    var f, x := s.a.fat, l + q + 1;
    if Scanned(f, a, r) { ScanFindsFree(f, a, x); }
  }

  /** A directory takes the next cluster. */
  lemma RisingTakes(s: Image, l: nat, q: nat, e: Event) returns (t: Image)
    requires Rising(s, l, q) && l + q + 1 < |s.a.fat| && Takes(e) && Fits(e, s.file)
    ensures Happens(s, e, 0, t) && Rising(t, l, q + 1) && t.file == s.file + NewMarks(e)
    ensures |t.a.fat| == |s.a.fat| && t.eoc == s.eoc
  {
    hide Happens, Scanned, IsChain, Disjoint;
    if e == NewDir {
      RisingScan(s, l, q, ScanStart(s.a, 0), 0);
      t := DirTakesAt(s, l + q + 1);
    } else {
      RisingTail(s, l, q, e.d);
      RisingScan(s, l, q, Tail(s, e.d), 0);
      t := TableTakesAt(s, e.d, l + q + 1);
    }
  }

  lemma RisingTail(s: Image, l: nat, q: nat, d: nat)
    requires Rising(s, l, q) && d < |s.file| && !s.file[d]
    ensures d < |s.chains| && s.chains[d] != [] && l < Tail(s, d) <= l + q && s.a.fat[Tail(s, d)] >= |s.a.fat|
  {
    HeldTail(s, d);
  }

  /** And there is no other way. */
  lemma RisingHappens(s: Image, l: nat, q: nat, e: Event, k: nat, t: Image)
    requires Rising(s, l, q) && l + q + 1 < |s.a.fat| && e != NewFile && Happens(s, e, k, t)
    ensures Rising(t, l, q + 1) && |t.a.fat| == |s.a.fat| && |t.chains| == |s.chains| + if e == NewDir then 1 else 0
  {
    hide Scanned, IsChain, Disjoint;
    HeldSizes(s);
    match e {
      case NewDir =>
        var r: nat :| r >= 2 && Created(s.a, 0, r, s.eoc, t.a) &&
          t == s.(a := t.a, chains := s.chains + [[r]], file := s.file + [false]);
        RisingScan(s, l, q, ScanStart(s.a, 0), r);
        var o := DirTakesAt(s, r);
        HeldElse(o, t);
      case GrowDir(d) =>
        RisingTail(s, l, q, d);
        var r: nat :| Created(s.a, Tail(s, d), r, s.eoc, t.a) &&
          t == s.(a := t.a, chains := if r < 2 then s.chains else s.chains[d := s.chains[d] + [r]]);
        RisingScan(s, l, q, Tail(s, d), r);
        HeldGrow(s, d, r, t.a);
      case Again(i) =>
    }
  }

  lemma HeldElse(s: Image, t: Image)
    requires Held(s) && t.a.fat == s.a.fat && t.chains == s.chains && t.file == s.file && t.eoc == s.eoc
    ensures Held(t)
  {
  }

  /** One of the first `k` events creates a file. */
  ghost predicate FileWithin(es: seq<Event>, k: nat)
  {
    exists p :: 0 <= p < |es| && p < k && es[p] == NewFile
  }

  /** The first directories take the clusters behind the starting point. */
  lemma {:induction false} RisingRun(s: Image, es: seq<Event>, ks: seq<nat>, t: Image, l: nat)
    requires Rising(s, l, 0) && s.chains == [] && Ran(s, es, ks, t) && !FileWithin(es, |ks|) && l + |ks| < |s.a.fat|
    ensures Rising(t, l, |ks|) && |t.a.fat| == |s.a.fat| && |t.chains| == Ids(es, 0, |ks|)
    decreases |ks|
  {
    hide Happens, Rising;
    if ks != [] {
      var q := |ks| - 1;
      var m :| Ran(s, es, Front(ks), m) && Happens(m, es[q], Last(ks), t);
      assert !FileWithin(es, q);
      RisingRun(s, es, Front(ks), m, l);
      RisingHappens(m, l, q, es[q], Last(ks), t);
    }
  }

  /** Once directories have filled the end of the volume, the free clusters are one stretch again. */
  lemma RisenIsPacked(s: Image, l: nat, q: nat)
    requires Rising(s, l, q) && l + q + 1 == |s.a.fat|
    ensures Packed(s, 2, l + 1, -1)
  {
    hide IsChain, Disjoint;
    HeldSizes(s);
  }

  lemma {:induction false} RisingMakes(s: Image, es: seq<Event>, l: nat, q: nat) returns (ks: seq<nat>, t: Image)
    requires Rising(s, l, 0) && s.chains == [] && q <= |es| && l + q < |s.a.fat| && WellPlanned(es, s.file)
    requires !FileWithin(es, q)
    ensures |ks| == q && Ran(s, es, ks, t) && Rising(t, l, q) && t.file == Marks(es, s.file, q)
    ensures |t.a.fat| == |s.a.fat| && DirClusters(es, q) == q
    decreases q
  {
    hide Happens, Rising, WellPlanned;
    if q == 0 {
      ks, t := [], s;
    } else {
      assert !FileWithin(es, q - 1);
      var ks1, m := RisingMakes(s, es, l, q - 1);
      FitsNow(es, s.file, q - 1);
      RisingNoFiles(m, l, q - 1);
      t := RisingTakes(m, l, q - 1, es[q - 1]);
      RanOne(s, es, ks1, m, 0, t);
      ks := ks1 + [0];
    }
  }

  lemma RisingNoFiles(s: Image, l: nat, q: nat)
    requires Rising(s, l, q)
    ensures NoFiles(s.file) && Held(s)
  {
  }

  /** The clusters from `a` to the end of the table, and then cluster 2. */
  function Wrapping(a: nat, n: nat): (ch: seq<nat>)
    requires 2 < a < n
    ensures |ch| == n - a + 1 && ch[0] == a
    ensures forall k :: 0 <= k < |ch| ==> ch[k] == if k < n - a then a + k else 2
  {
    seq(n - a + 1, k => if k < n - a then a + k else 2)
  }

  lemma WrappingRefills(a: nat, n: nat, lo: nat, top: nat)
    requires 2 < a < n && 3 <= lo
    ensures Refills(Wrapping(a, n), lo, top, n) && Distinct(Wrapping(a, n)) && !Consecutive(Wrapping(a, n))
    ensures forall c :: c in Wrapping(a, n) <==> c == 2 || a <= c < n
  {
    var ch := Wrapping(a, n);
    assert ch[n - a] == 2;
    forall c | a <= c < n ensures c in ch { assert ch[c - a] == c; }
  }

  /** A new file that goes on to the end of the volume and then falls into the free clusters at its start. */
  lemma WrapsAround(s: Image, l: nat, q: nat) returns (k: nat, t: Image)
    requires Rising(s, l, q) && l + q + 1 < |s.a.fat|
    ensures Happens(s, NewFile, k, t) && Held(t) && t.file == s.file + [true] && |t.a.fat| == |s.a.fat|
    ensures t.chains == s.chains + [Wrapping(l + q + 1, |s.a.fat|)] && |s.file| == |s.chains|
    ensures Free(t.a.fat, 3, l + 1) && GoodStart(t.a.last, 3, l + 1)
  {
    hide IsChain, Disjoint, Refills, Distinct;
    HeldSizes(s);
    HeldOpened(s);
    var n := |s.a.fat|;
    var ch := Wrapping(l + q + 1, n);
    WrappingRefills(l + q + 1, n, 3, l + 1);
    var m := Opened(s);
    assert ch[..0] == [] && ch[0..] == ch;
    t := Refilled(m, |s.chains|, ch, 0, 3, l + 1);
    k := |ch|;
    assert t.chains == s.chains + [ch];
  }

  lemma {:induction false} FirstFile(es: seq<Event>, k: nat) returns (p: nat)
    requires FileWithin(es, k)
    ensures p < |es| && p < k && es[p] == NewFile && !FileWithin(es, p)
    decreases k
  {
    p :| p < |es| && p < k && es[p] == NewFile;
    if FileWithin(es, p) { p := FirstFile(es, p); }
  }

  lemma RisingStart(s: Image, l: nat)
    requires Rising(s, l, 0)
    ensures 2 <= l
  {
  }

  /** From such a starting point a file among the first objects can fall in two. */
  lemma EarlyFileFragments(s: Image, es: seq<Event>, l: nat)
    requires Rising(s, l, 0) && s.chains == [] && WellPlanned(es, s.file) && l + 1 < |s.a.fat|
    requires FileWithin(es, |s.a.fat| - 1 - l)
    ensures CanFragment(s, es)
  {
    hide Happens, Rising, WellPlanned, Held, Free, GoodStart, Refills, CanFragment, Consecutive;
    RisingStart(s, l);
    var p := FirstFile(es, |s.a.fat| - 1 - l);
    var ks, m := RisingMakes(s, es, l, p);
    var k, t := WrapsAround(m, l, p);
    RanOne(s, es, ks, m, k, t);
    MarksNext(es, s.file, p);
    WrappingRefills(l + p + 1, |s.a.fat|, 3, l + 1);
    RisingNoFiles(m, l, p);
    RestKeepsPieces(s, es, ks + [k], t, |m.chains|, 3, l + 1);
  }

  /** Copying onto an empty volume, from a starting point `l` inside it: the promise fails if a file is created before
      directories have filled the volume from `l` on, or an earlier file is overwritten that is not the one written
      just before; and with room for three clusters beside the directories it fails only then. */
  lemma InsideStartExactly(s: Image, es: seq<Event>, l: nat)
    requires Held(s) && s.chains == [] && Free(s.a.fat, 2, |s.a.fat|) && s.a.last == l && !GoodStart(l, 2, |s.a.fat|)
    requires WellPlanned(es, s.file)
    ensures CanFragment(s, es) ==> FileWithin(es, |s.a.fat| - 1 - l) || OverwritesBehind(es, 0)
    ensures FileWithin(es, |s.a.fat| - 1 - l) ==> CanFragment(s, es)
    ensures DirClusters(es, |es|) + 5 <= |s.a.fat| ==>
      (CanFragment(s, es) <==> FileWithin(es, |s.a.fat| - 1 - l) || OverwritesBehind(es, 0))
  {
    hide Fragmented, WellPlanned, CanFragment, OverwritesBehind, FileWithin;
    HeldSizes(s);
    var k := |s.a.fat| - 1 - l;
    assert Rising(s, l, 0);
    if FileWithin(es, k) {
      EarlyFileFragments(s, es, l);
    } else {
      if CanFragment(s, es) && !OverwritesBehind(es, 0) { InsideStartWhole(s, es, l); }
      if OverwritesBehind(es, 0) && DirClusters(es, |es|) + 5 <= |s.a.fat| { InsideStartOverwrites(s, es, l); }
    }
  }

  lemma InsideStartWhole(s: Image, es: seq<Event>, l: nat)
    requires Rising(s, l, 0) && s.chains == [] && l + 1 < |s.a.fat| && WellPlanned(es, s.file)
    requires !FileWithin(es, |s.a.fat| - 1 - l) && !OverwritesBehind(es, 0)
    ensures !CanFragment(s, es)
  {
    hide Rising, Happens, Packed, OverwritesBehind, WellPlanned, FileWithin, Fragmented;
    if CanFragment(s, es) {
      var ks, t :| Copied(s, es, ks, t) && Fragmented(t);
      var k := |s.a.fat| - 1 - l;
      if |ks| <= k {
        FewerFiles(es, |ks|, k);
        RisingRun(s, es, ks, t, l);
        RisingWhole(t, l, |ks|);
      } else {
        var ks0 := ks[..k];
        forall m | Ran(s, es, ks0, m) ensures Packed(m, 2, l + 1, -1) && |m.chains| == Ids(es, 0, k) {
          RisingRun(s, es, ks0, m, l);
          RisenIsPacked(m, l, k);
        }
        RanFits(s, es, ks, t, k, l);
        RunFrom(s, es, ks0, ks, t, 2, l + 1);
      }
    }
  }

  lemma FewerFiles(es: seq<Event>, k: nat, k': nat)
    requires k <= k' && !FileWithin(es, k')
    ensures !FileWithin(es, k)
  {
  }

  lemma RisingWhole(s: Image, l: nat, q: nat)
    requires Rising(s, l, q)
    ensures !Fragmented(s)
  {
  }

  lemma InsideStartOverwrites(s: Image, es: seq<Event>, l: nat)
    requires Rising(s, l, 0) && s.chains == [] && l + 1 < |s.a.fat| && WellPlanned(es, s.file)
    requires !FileWithin(es, |s.a.fat| - 1 - l) && OverwritesBehind(es, 0) && DirClusters(es, |es|) + 5 <= |s.a.fat|
    ensures CanFragment(s, es)
  {
    hide Happens, OverwritesBehind, WellPlanned, FileWithin, Fragmented, CanFragment, IsChain, Disjoint, Ran;
    var k := |s.a.fat| - 1 - l;
    if |es| < k {
      OverwriteNeedsFile(s, es, k);
    } else {
      var ks, m := RisingMakes(s, es, l, k);
      RisenIsPacked(m, l, k);
      OverwriteFragments(s, es, ks, m, 2, l + 1);
    }
  }

  lemma OverwriteNeedsFile(s: Image, es: seq<Event>, k: nat)
    requires s.file == [] && |es| <= k && WellPlanned(es, s.file) && OverwritesBehind(es, 0)
    ensures FileWithin(es, k)
  {
    var j :| 1 <= j < |es| && es[j].Again? && !Writes(es, 0, j - 1, es[j].i);
    FitsNow(es, s.file, j);
    assert !NoFiles(Marks(es, s.file, j));
    if !FileWithin(es, j) { NoFilesYet(es, s.file, j); }
  }

  /** While there is no file yet, none is overwritten. */
  lemma RanFits(s: Image, es: seq<Event>, ks: seq<nat>, t: Image, k: nat, l: nat)
    requires Ran(s, es, ks, t) && k < |ks| && Rising(s, l, 0) && s.chains == [] && WellPlanned(es, s.file)
    requires !FileWithin(es, k)
    ensures |ks| <= |es| && !es[k].Again?
  {
    hide Happens, IsChain, Disjoint;
    NoFilesYet(es, s.file, k);
    FitsNow(es, s.file, k);
  }

  lemma {:induction false} NoFilesYet(es: seq<Event>, file: seq<bool>, q: nat)
    requires NoFiles(file) && q <= |es| && !FileWithin(es, q)
    ensures NoFiles(Marks(es, file, q))
  {
    if q > 0 {
      FewerFiles(es, q - 1, q);
      NoFilesYet(es, file, q - 1);
      assert es[q - 1] != NewFile;
    }
  }
}
