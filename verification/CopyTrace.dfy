/** What copy_dir does with a source tree, told from its events: which of them belong to which item, over all levels. */
module CopyTrace {
  import opened CopyPlan
  import Filling

  // ----- counting -----

  /** The folders of a source tree, over all levels. */
  function Folders(items: seq<Item>): nat
    decreases items
  {
    if items == [] then 0
    else (match items[0] case File(_) => 0 case Folder(_, sub) => 1 + Folders(sub)) + Folders(items[1..])
  }

  function Files(items: seq<Item>): nat
    decreases items
  {
    if items == [] then 0
    else (match items[0] case File(_) => 1 case Folder(_, sub) => Files(sub)) + Files(items[1..])
  }

  /** The events that make a directory, and those that write a file. */
  function Made(es: seq<Event>): nat { if es == [] then 0 else (if es[0].NewDir? then 1 else 0) + Made(es[1..]) }

  function Written(es: seq<Event>): nat
  {
    if es == [] then 0 else (if es[0].NewFile? || es[0].Again? then 1 else 0) + Written(es[1..])
  }

  lemma {:induction false} CountsAdd(a: seq<Event>, b: seq<Event>)
    ensures Made(a + b) == Made(a) + Made(b) && Written(a + b) == Written(a) + Written(b)
  {
    if a == [] {
      assert a + b == b;
    } else {
      CountsAdd(a[1..], b);
      assert (a + b)[1..] == a[1..] + b;
    }
  }

  /** The events from `i` to before `j` stretch directory `d`. */
  ghost predicate Stretching(es: seq<Event>, i: nat, j: nat, d: int)
  {
    i <= j <= |es| && forall k :: i <= k < j ==> es[k].GrowDir? && es[k].d == d
  }

  lemma {:induction false} StretchCounts(es: seq<Event>, i: nat, j: nat, d: int)
    requires Stretching(es, i, j, d)
    ensures Made(es[i..j]) == 0 == Written(es[i..j])
    decreases j - i
  {
    if i < j {
      StretchCounts(es, i + 1, j, d);
      assert es[i..j][1..] == es[i + 1..j];
    }
  }

  // ----- the trace -----

  /** The name finds the object number `j`, and none before it. */
  ghost predicate Hits(dir: Dir, name: Name, j: nat)
  {
    j < |dir.objs| && Finds(name, dir.objs[j]) && forall i :: 0 <= i < j ==> !Finds(name, dir.objs[i])
  }

  ghost predicate Absent(dir: Dir, name: Name) { forall i :: 0 <= i < |dir.objs| ==> !Finds(name, dir.objs[i]) }

  /** The object that the item becomes: under its own name, and a short one that is free. */
  ghost predicate Becomes(dir: Dir, x: Item, n: nat, o: Obj)
  {
    o.id == n && o.isFile == x.File? && o.long == LongOf(x.name) && ChooseShort(dir.objs, x.name) == Use(o.fn)
  }

  /** How many clusters the table of `dir` gets for the item. */
  function Needs(dir: Dir, x: Item, cap: nat): nat
    requires 0 < cap
  {
    Stretches(dir, dir.used + EntriesOf(x.name), cap)
  }

  /** The copy cannot go on with the item: its name finds something that it must not overwrite, or there is no short
      name or no room for it. */
  ghost predicate Blocked(dir: Dir, x: Item)
  {
    if Absent(dir, x.name) then
      ChooseShort(dir.objs, x.name) == NoForm || !HasRoom(dir, dir.used + EntriesOf(x.name))
    else forall j: nat :: Hits(dir, x.name, j) ==> !(x.File? && dir.objs[j].isFile)
  }

  /** What such an item still did: a folder that is not there has taken its cluster, and a table may be stretched. */
  ghost predicate Halted(dir: Dir, x: Item, es: seq<Event>)
  {
    var made := if x.Folder? && Absent(dir, x.name) then 1 else 0;
    made <= |es| && (made == 1 ==> es[0] == Filling.NewDir) && Stretching(es, made, |es|, dir.id)
  }

  /** The events `es` copy the items into `dir`, objects being numbered from `n` on; `m` is the next number then, and
      `stop` says that the copy ended early. */
  ghost predicate Copies(items: seq<Item>, dir: Dir, n: nat, cap: nat, es: seq<Event>, m: nat, stop: bool)
    requires 0 < cap
    decreases items, 1
  {
    if items == [] then es == [] && m == n && !stop
    else
      var x := items[0];
      if Blocked(dir, x) then stop && Halted(dir, x, es)
      else if !Absent(dir, x.name) then
        && es != [] && es[0].Again? && (forall j: nat :: Hits(dir, x.name, j) ==> es[0].i == dir.objs[j].id)
        && Copies(items[1..], dir, n, cap, es[1..], m, stop)
      else exists o, q: nat, n': nat, halt :: CopiesNew(items, dir, n, cap, es, m, stop, o, q, n', halt)
  }

  /** The first item becomes the object `o`: a file by one event behind those that stretch the table, a folder by one in
      front of them, behind which the copy of its contents follows as one stretch, up to event `q`; `halt` says whether
      that ended early. */
  ghost predicate CopiesNew(items: seq<Item>, dir: Dir, n: nat, cap: nat, es: seq<Event>, m: nat, stop: bool, o: Obj,
        q: nat, n': nat, halt: bool)
    requires 0 < cap && items != []
    decreases items, 0
  {
    var x := items[0];
    var k := Needs(dir, x, cap);
    var d := Added(dir, o, EntriesOf(x.name), cap);
    && Becomes(dir, x, n, o) && k < q <= |es|
    && match x
       case File(_) =>
         && q == k + 1 && Stretching(es, 0, k, dir.id) && es[k] == Filling.NewFile
         && Copies(items[1..], d, n + 1, cap, es[q..], m, stop)
       case Folder(_, sub) =>
         && es[0] == Filling.NewDir && Stretching(es, 1, k + 1, dir.id)
         && Copies(sub, NewDir(n, cap), n + 1, cap, es[k + 1..q], n', halt)
         && if halt then stop && q == |es| && m == n' else Copies(items[1..], d, n', cap, es[q..], m, stop)
  }

  // ----- the plan is such a copy -----

  lemma LookUpHits(dir: Dir, name: Name)
    ensures var at := LookUp(dir.objs, name, 0);
      (at < |dir.objs| <==> !Absent(dir, name)) && forall j: nat :: Hits(dir, name, j) <==> at < |dir.objs| && j == at
  {
    hide Finds;
  }

  lemma GrowIs(dir: Dir, x: Item, cap: nat)
    requires 0 < cap
    ensures |Grow(dir, Needs(dir, x, cap))| == Needs(dir, x, cap)
    ensures Stretching(Grow(dir, Needs(dir, x, cap)), 0, Needs(dir, x, cap), dir.id)
  {
  }

  lemma StretchingIn(a: seq<Event>, g: seq<Event>, b: seq<Event>, d: int)
    requires Stretching(g, 0, |g|, d)
    ensures Stretching(a + g + b, |a|, |a| + |g|, d)
  {
    forall k | |a| <= k < |a| + |g| ensures (a + g + b)[k].GrowDir? && (a + g + b)[k].d == d {
      assert (a + g + b)[k] == g[k - |a|];
    }
  }

  lemma {:induction false} PlanCopies(items: seq<Item>, dir: Dir, n: nat, cap: nat)
    requires 0 < cap
    ensures var p := CopyDir(items, dir, n, cap); Copies(items, dir, n, cap, p.es, p.n, p.stop)
    decreases items, 1
  {
    hide Finds, ChooseShort, Stretches, Grow, LookUp, Added, HasRoom, EntriesOf, LongOf, Absent, Hits, Stretching,
         NewDir, CopiesNew;
    if items != [] {
      var x := items[0];
      LookUpHits(dir, x.name);
      var at := LookUp(dir.objs, x.name, 0);
      if at < |dir.objs| {
        StretchingNone([], dir.id);
        if x.File? && dir.objs[at].isFile {
          PlanCopies(items[1..], dir, n, cap);
          var es := [Filling.Again(dir.objs[at].id)] + CopyDir(items[1..], dir, n, cap).es;
          assert es[1..] == CopyDir(items[1..], dir, n, cap).es;
        }
      } else {
        PlanCopiesNew(items, dir, n, cap);
      }
    }
  }

  lemma StretchingNone(es: seq<Event>, d: int)
    ensures Stretching(es, |es|, |es|, d)
  {
  }

  lemma {:induction false} PlanCopiesNew(items: seq<Item>, dir: Dir, n: nat, cap: nat)
    requires 0 < cap && items != [] && Absent(dir, items[0].name)
    requires LookUp(dir.objs, items[0].name, 0) == |dir.objs|
    ensures var p := CopyDir(items, dir, n, cap); Copies(items, dir, n, cap, p.es, p.n, p.stop)
    decreases items, 0
  {
    hide Finds, ChooseShort, Stretches, Grow, LookUp, Added, HasRoom, EntriesOf, LongOf, Absent, Hits, Stretching,
         NewDir, CopyDir, CopiesNew;
    var x := items[0];
    var short := ChooseShort(dir.objs, x.name);
    if short == NoForm || !HasRoom(dir, dir.used + EntriesOf(x.name)) {
      PlanHalts(items, dir, n, cap);
    } else {
      var o := Obj(short.fn, LongOf(x.name), x.File?, n);
      var d := Added(dir, o, EntriesOf(x.name), cap);
      if x.File? {
        PlanCopies(items[1..], d, n + 1, cap);
        PlanFile(items, dir, n, cap, o);
      } else {
        PlanCopies(x.items, NewDir(n, cap), n + 1, cap);
        var sub := CopyDir(x.items, NewDir(n, cap), n + 1, cap);
        if !sub.stop { PlanCopies(items[1..], d, sub.n, cap); }
        PlanFolder(items, dir, n, cap, o);
      }
    }
  }

  /** Nothing more than the cluster of a new folder and the stretched table. */
  lemma PlanHalts(items: seq<Item>, dir: Dir, n: nat, cap: nat)
    requires 0 < cap && items != [] && Absent(dir, items[0].name)
    requires LookUp(dir.objs, items[0].name, 0) == |dir.objs|
    requires ChooseShort(dir.objs, items[0].name) == NoForm || !HasRoom(dir, dir.used + EntriesOf(items[0].name))
    ensures var p := CopyDir(items, dir, n, cap); p.stop && p.n == n && Halted(dir, items[0], p.es)
  {
    hide Finds, ChooseShort, Stretches, Grow, LookUp, Added, HasRoom, EntriesOf, LongOf, Absent, Hits, Stretching,
         NewDir;
    var x, k := items[0], Needs(dir, items[0], cap);
    var first := if x.File? then [] else [Filling.NewDir];
    GrowIs(dir, x, cap);
    StretchingNone(first, dir.id);
    StretchingIn(first, Grow(dir, k), [], dir.id);
    assert first + Grow(dir, k) + [] == first + Grow(dir, k);
  }

  ghost predicate Takes(items: seq<Item>, dir: Dir, n: nat, o: Obj)
  {
    && items != [] && LookUp(dir.objs, items[0].name, 0) == |dir.objs| && Becomes(dir, items[0], n, o)
    && HasRoom(dir, dir.used + EntriesOf(items[0].name))
  }

  lemma PlanFile(items: seq<Item>, dir: Dir, n: nat, cap: nat, o: Obj)
    requires 0 < cap && Takes(items, dir, n, o) && items[0].File?
    requires var p := CopyDir(items[1..], Added(dir, o, EntriesOf(items[0].name), cap), n + 1, cap);
      Copies(items[1..], Added(dir, o, EntriesOf(items[0].name), cap), n + 1, cap, p.es, p.n, p.stop)
    ensures var p := CopyDir(items, dir, n, cap);
      CopiesNew(items, dir, n, cap, p.es, p.n, p.stop, o, Needs(dir, items[0], cap) + 1, n, false)
  {
    hide Finds, ChooseShort, Stretches, Grow, LookUp, Added, HasRoom, EntriesOf, LongOf, Absent, Hits, Stretching,
         NewDir, Copies;
    var x, k := items[0], Needs(dir, items[0], cap);
    var rest := CopyDir(items[1..], Added(dir, o, EntriesOf(x.name), cap), n + 1, cap);
    var g := Grow(dir, k);
    GrowIs(dir, x, cap);
    var es := g + [Filling.NewFile] + rest.es;
    StretchingIn([], g, [Filling.NewFile] + rest.es, dir.id);
    assert [] + g + ([Filling.NewFile] + rest.es) == es && es[k + 1..] == rest.es && [] + g == g;
    var p := CopyDir(items, dir, n, cap);
    assert p == rest.(es := es);
    assert CopiesNew(items, dir, n, cap, p.es, p.n, p.stop, o, k + 1, n, false);
  }

  lemma PlanFolder(items: seq<Item>, dir: Dir, n: nat, cap: nat, o: Obj)
    requires 0 < cap && Takes(items, dir, n, o) && items[0].Folder?
    requires var p := CopyDir(items[0].items, NewDir(n, cap), n + 1, cap);
      Copies(items[0].items, NewDir(n, cap), n + 1, cap, p.es, p.n, p.stop)
    requires var sub := CopyDir(items[0].items, NewDir(n, cap), n + 1, cap);
      var d := Added(dir, o, EntriesOf(items[0].name), cap);
      var p := CopyDir(items[1..], d, sub.n, cap);
      !sub.stop ==> Copies(items[1..], d, sub.n, cap, p.es, p.n, p.stop)
    ensures var p, sub := CopyDir(items, dir, n, cap), CopyDir(items[0].items, NewDir(n, cap), n + 1, cap);
      var q := Needs(dir, items[0], cap) + 1 + |sub.es|;
      CopiesNew(items, dir, n, cap, p.es, p.n, p.stop, o, q, sub.n, sub.stop)
  {
    hide Finds, ChooseShort, Stretches, Grow, LookUp, Added, HasRoom, EntriesOf, LongOf, Absent, Hits, Stretching,
         NewDir, Copies;
    var x, k := items[0], Needs(dir, items[0], cap);
    var sub := CopyDir(x.items, NewDir(n, cap), n + 1, cap);
    var q := k + 1 + |sub.es|;
    var rest := CopyDir(items[1..], Added(dir, o, EntriesOf(x.name), cap), sub.n, cap);
    var tail := if sub.stop then [] else rest.es;
    var g := Grow(dir, k);
    GrowIs(dir, x, cap);
    var es := [Filling.NewDir] + g + (sub.es + tail);
    StretchingIn([Filling.NewDir], g, sub.es + tail, dir.id);
    assert es == [Filling.NewDir] + g + sub.es + tail && es[k + 1..q] == sub.es && es[q..] == tail;
    var p := CopyDir(items, dir, n, cap);
    assert p == if sub.stop then sub.(es := es) else rest.(es := es);
    assert CopiesNew(items, dir, n, cap, p.es, p.n, p.stop, o, q, sub.n, sub.stop);
  }

  // ----- what every copy amounts to -----

  /** A copy that does not end early makes one directory for every folder and writes once for every file, over all
      levels. */
  lemma {:induction false} CopyCounts(items: seq<Item>, dir: Dir, n: nat, cap: nat, es: seq<Event>, m: nat)
    requires 0 < cap && Copies(items, dir, n, cap, es, m, false)
    ensures Made(es) == Folders(items) && Written(es) == Files(items)
    decreases items, 1
  {
    hide Finds, ChooseShort, Stretches, Added, HasRoom, EntriesOf, LongOf, Absent, Hits, Stretching, NewDir,
         CopiesNew, Made, Written;
    NoCounts();
    if items != [] {
      var x := items[0];
      if !Absent(dir, x.name) {
        CopyCounts(items[1..], dir, n, cap, es[1..], m);
        OneCounts(es[0]);
        CountsAdd([es[0]], es[1..]);
        assert es == [es[0]] + es[1..];
      } else {
        var o, q: nat, n': nat, halt :| CopiesNew(items, dir, n, cap, es, m, false, o, q, n', halt);
        NewCounts(items, dir, n, cap, es, m, o, q, n', halt);
      }
    }
  }

  lemma NoCounts()
    ensures Made([]) == 0 == Written([])
  {
  }

  lemma OneCounts(e: Event)
    ensures Made([e]) == (if e.NewDir? then 1 else 0) && Written([e]) == if e.NewFile? || e.Again? then 1 else 0
  {
    assert [e][1..] == [];
  }

  lemma {:induction false} NewCounts(items: seq<Item>, dir: Dir, n: nat, cap: nat, es: seq<Event>, m: nat, o: Obj,
        q: nat, n': nat, halt: bool)
    requires 0 < cap && items != [] && CopiesNew(items, dir, n, cap, es, m, false, o, q, n', halt)
    ensures Made(es) == Folders(items) && Written(es) == Files(items)
    decreases items, 0
  {
    hide Finds, ChooseShort, Stretches, Added, HasRoom, EntriesOf, LongOf, Absent, Hits, Stretching, NewDir, Copies,
         Made, Written;
    var x, k := items[0], Needs(dir, items[0], cap);
    var d := Added(dir, o, EntriesOf(x.name), cap);
    match x {
      case File(_) =>
        StretchCounts(es, 0, k, dir.id);
        OneCounts(es[k]);
        CopyCounts(items[1..], d, n + 1, cap, es[q..], m);
        CountsAdd(es[0..k], [es[k]]);
        CountsAdd(es[0..k] + [es[k]], es[q..]);
        assert es == es[0..k] + [es[k]] + es[q..];
      case Folder(_, sub) =>
        StretchCounts(es, 1, k + 1, dir.id);
        OneCounts(es[0]);
        CopyCounts(sub, NewDir(n, cap), n + 1, cap, es[k + 1..q], n');
        CopyCounts(items[1..], d, n', cap, es[q..], m);
        CountsAdd([es[0]], es[1..k + 1]);
        CountsAdd([es[0]] + es[1..k + 1], es[k + 1..q]);
        CountsAdd([es[0]] + es[1..k + 1] + es[k + 1..q], es[q..]);
        assert es == [es[0]] + es[1..k + 1] + es[k + 1..q] + es[q..];
    }
  }
}
