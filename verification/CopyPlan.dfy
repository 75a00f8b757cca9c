/** What copy_dir does to a fresh directory tree, name by name: which objects it creates, which it finds there already,
    and where directory tables are stretched. */
module CopyPlan {
  import opened Bytes
  import opened Lfn
  import opened ShortName
  import opened NumName
  import opened DirTable
  import opened DirFind
  import DirRuns
  import Filling

  type Event = Filling.Event

  /** A name as f_readdir gives it and create_name accepts it. */
  type Name = n: seq<word> | Proper(n) witness [0x41]

  /** A directory of the source, in the order of its entries. */
  datatype Item = File(name: Name) | Folder(name: Name, items: seq<Item>)

  // ----- directories of the copy -----

  /** An object of a directory: its two names, and its number in order of creation. */
  datatype Obj = Obj(fn: seq<byte>, long: seq<word>, isFile: bool, id: nat)

  /** A directory: its objects, its table entries in use and in all, and its number, or -1 for a static root. */
  datatype Dir = Dir(objs: seq<Obj>, used: nat, size: nat, id: int)

  /** dir_find comes to the object. */
  ghost predicate Finds(name: Name, o: Obj)
  {
    LongFinds(name, o.long) || (!FormOf(name).loss && o.fn == FormOf(name).fn)
  }

  /** The first object that the name finds, from `k` on; past the last if there is none. */
  ghost function LookUp(objs: seq<Obj>, name: Name, k: nat): (r: nat)
    requires k <= |objs|
    ensures k <= r <= |objs| && (r < |objs| ==> Finds(name, objs[r]))
    ensures forall i :: k <= i < r ==> !Finds(name, objs[i])
    decreases |objs| - k
  {
    if k == |objs| || Finds(name, objs[k]) then k else LookUp(objs, name, k + 1)
  }

  predicate ShortTaken(objs: seq<Obj>, fn: seq<byte>)
  {
    exists k :: 0 <= k < |objs| && objs[k].fn == fn
  }

  datatype Choice = NoForm | Use(fn: seq<byte>)

  /** The first numbered form from `n` on that no object has. */
  function Numbering(objs: seq<Obj>, name: Name, n: word): Choice
    requires n <= 100
    decreases 100 - n
  {
    if n == 100 then NoForm
    else if ShortTaken(objs, NumberedWith(FormOf(name).fn, name, n)) then Numbering(objs, name, n + 1)
    else Use(NumberedWith(FormOf(name).fn, name, n))
  }

  /** The short name that dir_register gives. */
  function ChooseShort(objs: seq<Obj>, name: Name): Choice
  {
    if FormOf(name).loss then Numbering(objs, name, 1) else Use(FormOf(name).fn)
  }

  function LongOf(name: Name): seq<word> { if FormOf(name).lfn then name else [] }

  /** The entries an object takes. */
  function EntriesOf(name: Name): nat { Segments(LongOf(name)) + 1 }

  /** How many clusters a table gets for its entries up to `end`, each with `cap` of them; 65536 entries are the most,
      and a static table gets none. */
  function Stretches(dir: Dir, end: nat, cap: nat): nat
    requires 0 < cap
  {
    if dir.id < 0 then 0 else ClustersMore(dir.size, if end > 0x1_0000 then 0x1_0000 else end, cap)
  }

  predicate HasRoom(dir: Dir, end: nat)
  {
    end <= if dir.id < 0 then dir.size else 0x1_0000
  }

  /** The directory with one more object. */
  function Added(dir: Dir, o: Obj, ne: nat, cap: nat): Dir
    requires 0 < cap
  {
    Dir(dir.objs + [o], dir.used + ne, dir.size + cap * Stretches(dir, dir.used + ne, cap), dir.id)
  }

  function DotForm(dots: nat): (s: seq<byte>)
    requires dots <= 11
    ensures |s| == 11
  {
    seq(11, k => if k < dots then DOT else BLANK)
  }

  /** A new directory with its dot entries. */
  function NewDir(id: nat, cap: nat): Dir
  {
    Dir([Obj(DotForm(1), [], false, id), Obj(DotForm(2), [], false, id)], 2, cap, id)
  }

  function Grow(dir: Dir, k: nat): seq<Event>
  {
    if dir.id < 0 then [] else seq(k, _ => Filling.GrowDir(dir.id))
  }

  // ----- the plan -----

  /** What happens, how many objects there are then, and whether copying was given up. */
  datatype Plan = Plan(es: seq<Event>, n: nat, stop: bool)

  function After(es: seq<Event>, p: Plan): Plan { p.(es := es + p.es) }

  /** copy_dir. A file that finds a file overwrites it; any other hit, no free short name and no room in the table end
      the copy. (f_mkdir takes its cluster first and gives it back then.) */
  ghost function CopyDir(items: seq<Item>, dir: Dir, n: nat, cap: nat): Plan
    requires 0 < cap
    decreases items
  {
    if items == [] then Plan([], n, false)
    else
      var x := items[0];
      var at, end := LookUp(dir.objs, x.name, 0), dir.used + EntriesOf(x.name);
      if at < |dir.objs| then
        if x.File? && dir.objs[at].isFile then After([Filling.Again(dir.objs[at].id)], CopyDir(items[1..], dir, n, cap))
        else Plan([], n, true)
      else
        var first := if x.File? then [] else [Filling.NewDir];
        var short := ChooseShort(dir.objs, x.name);
        if short == NoForm then Plan(first, n, true)
        else
          var made := first + Grow(dir, Stretches(dir, end, cap));
          var d := Added(dir, Obj(short.fn, LongOf(x.name), x.File?, n), EntriesOf(x.name), cap);
          if !HasRoom(dir, end) then Plan(made, n, true)
          else if x.File? then After(made + [Filling.NewFile], CopyDir(items[1..], d, n + 1, cap))
          else
            var sub := CopyDir(x.items, NewDir(n, cap), n + 1, cap);
            if sub.stop then After(made, sub) else After(made + sub.es, CopyDir(items[1..], d, sub.n, cap))
  }

  // ----- the plan is one -----

  lemma {:induction false} MarksAppend(a: seq<Event>, b: seq<Event>, file: seq<bool>, q: nat)
    requires q <= |b|
    ensures Filling.Marks(a + b, file, |a| + q) == Filling.Marks(b, Filling.Marks(a, file, |a|), q)
    decreases q
  {
    if q == 0 {
      MarksPrefix(a, b, file, |a|);
    } else {
      MarksAppend(a, b, file, q - 1);
      assert (a + b)[|a| + q - 1] == b[q - 1];
    }
  }

  lemma {:induction false} MarksPrefix(a: seq<Event>, b: seq<Event>, file: seq<bool>, q: nat)
    requires q <= |a|
    ensures Filling.Marks(a + b, file, q) == Filling.Marks(a, file, q)
    decreases q
  {
    if q > 0 {
      MarksPrefix(a, b, file, q - 1);
      assert (a + b)[q - 1] == a[q - 1];
    }
  }

  function MarksAfter(es: seq<Event>, file: seq<bool>): seq<bool> { Filling.Marks(es, file, |es|) }

  lemma PlannedAppend(a: seq<Event>, b: seq<Event>, file: seq<bool>)
    requires Filling.WellPlanned(a, file) && Filling.WellPlanned(b, MarksAfter(a, file))
    ensures Filling.WellPlanned(a + b, file) && MarksAfter(a + b, file) == MarksAfter(b, MarksAfter(a, file))
    ensures file <= MarksAfter(a, file) <= MarksAfter(a + b, file)
  {
    hide Filling.Marks;
    forall q | 0 <= q < |a + b| ensures Filling.Fits((a + b)[q], Filling.Marks(a + b, file, q)) {
      if q < |a| {
        MarksPrefix(a, b, file, q);
      } else {
        MarksAppend(a, b, file, q - |a|);
      }
    }
    MarksAppend(a, b, file, |b|);
    MarksGrow(a, file);
    MarksGrow(b, MarksAfter(a, file));
  }

  lemma MarksGrow(a: seq<Event>, file: seq<bool>)
    ensures file <= MarksAfter(a, file)
  {
    Filling.MarksStay(a, file, 0, |a|);
  }

  /** The directory and its files are among the objects there are. */
  ghost predicate Known(dir: Dir, file: seq<bool>)
  {
    && (dir.id >= 0 ==> dir.id < |file| && !file[dir.id])
    && forall k :: 0 <= k < |dir.objs| && dir.objs[k].isFile ==> dir.objs[k].id < |file| && file[dir.objs[k].id]
  }

  lemma KnownLater(dir: Dir, file: seq<bool>, file': seq<bool>)
    requires Known(dir, file) && file <= file'
    ensures Known(dir, file')
  {
  }

  /** `es` runs on `file` and gives `file'`. */
  ghost predicate Leads(es: seq<Event>, file: seq<bool>, file': seq<bool>)
  {
    Filling.WellPlanned(es, file) && MarksAfter(es, file) == file'
  }

  lemma LeadsOn(a: seq<Event>, b: seq<Event>, file: seq<bool>, m: seq<bool>, file': seq<bool>)
    requires Leads(a, file, m) && Leads(b, m, file')
    ensures Leads(a + b, file, file') && file <= m <= file'
  {
    hide Filling.WellPlanned, Filling.Marks;
    PlannedAppend(a, b, file);
    MarksGrow(b, m);
  }

  lemma LeadsOne(e: Event, file: seq<bool>)
    requires Filling.Fits(e, file)
    ensures Leads([e], file, file + Filling.NewMarks(e))
    ensures e.Again? || e.GrowDir? ==> file + Filling.NewMarks(e) == file
  {
    assert Filling.Marks([e], file, 0) == file;
    assert Filling.Marks([e], file, 1) == file + Filling.NewMarks(e);
  }

  lemma LeadsNone(file: seq<bool>)
    ensures Leads([], file, file)
  {
  }

  lemma {:induction false} GrowLeads(dir: Dir, k: nat, file: seq<bool>)
    requires Known(dir, file)
    ensures Leads(Grow(dir, k), file, file)
    decreases k
  {
    if dir.id < 0 || k == 0 {
      LeadsNone(file);
      assert Grow(dir, k) == [];
    } else {
      GrowLeads(dir, k - 1, file);
      LeadsOne(Filling.GrowDir(dir.id), file);
      LeadsOn(Grow(dir, k - 1), [Filling.GrowDir(dir.id)], file, file, file);
      assert Grow(dir, k) == Grow(dir, k - 1) + [Filling.GrowDir(dir.id)];
    }
  }

  /** The events of a copy name only directories and files that exist by then. */
  lemma {:induction false} CopyIsPlanned(items: seq<Item>, dir: Dir, n: nat, cap: nat, file: seq<bool>)
    returns (file': seq<bool>)
    requires 0 < cap && |file| == n && Known(dir, file)
    ensures Leads(CopyDir(items, dir, n, cap).es, file, file') && file <= file'
    ensures !CopyDir(items, dir, n, cap).stop ==> |file'| == CopyDir(items, dir, n, cap).n
    decreases items, 1
  {
    hide Leads, Known, Filling.Marks, Filling.WellPlanned, FormOf, Stretches, ChooseShort, Grow, LookUp;
    LeadsNone(file);
    file' := file;
    if items != [] {
      var x := items[0];
      var at, end := LookUp(dir.objs, x.name, 0), dir.used + EntriesOf(x.name);
      if at < |dir.objs| {
        if x.File? && dir.objs[at].isFile {
          KnownFile(dir, file, at);
          LeadsOne(Filling.Again(dir.objs[at].id), file);
          file' := CopyIsPlanned(items[1..], dir, n, cap, file);
          LeadsOn([Filling.Again(dir.objs[at].id)], CopyDir(items[1..], dir, n, cap).es, file, file, file');
        }
      } else {
        file' := MissIsPlanned(items, dir, n, cap, file);
      }
    }
  }

  lemma KnownFile(dir: Dir, file: seq<bool>, at: nat)
    requires Known(dir, file) && at < |dir.objs| && dir.objs[at].isFile
    ensures Filling.Fits(Filling.Again(dir.objs[at].id), file)
  {
  }

  /** What comes before the object is written: a cluster for a directory, and room in the table. */
  lemma MadeLeads(isFile: bool, dir: Dir, k: nat, file: seq<bool>) returns (m: seq<bool>)
    requires Known(dir, file)
    ensures Leads((if isFile then [] else [Filling.NewDir]) + Grow(dir, k), file, m)
    ensures m == if isFile then file else file + [false]
  {
    hide Leads, Grow, Filling.Marks, Filling.WellPlanned;
    m := if isFile then file else file + [false];
    if isFile { LeadsNone(file); } else { LeadsOne(Filling.NewDir, file); }
    KnownLater(dir, file, m);
    GrowLeads(dir, k, m);
    LeadsOn(if isFile then [] else [Filling.NewDir], Grow(dir, k), file, m, m);
  }

  lemma AddedKnown(dir: Dir, o: Obj, ne: nat, cap: nat, file: seq<bool>)
    requires 0 < cap && Known(dir, file) && (o.isFile ==> o.id < |file| && file[o.id])
    ensures Known(Added(dir, o, ne, cap), file)
  {
    hide Stretches;
  }

  lemma {:induction false} MissIsPlanned(items: seq<Item>, dir: Dir, n: nat, cap: nat, file: seq<bool>)
    returns (file': seq<bool>)
    requires 0 < cap && |file| == n && Known(dir, file)
    requires items != [] && LookUp(dir.objs, items[0].name, 0) == |dir.objs|
    ensures Leads(CopyDir(items, dir, n, cap).es, file, file') && file <= file'
    ensures !CopyDir(items, dir, n, cap).stop ==> |file'| == CopyDir(items, dir, n, cap).n
    decreases items, 0
  {
    hide Leads, Known, Filling.Marks, Filling.WellPlanned, FormOf, Stretches, ChooseShort, Grow, LookUp, Added, HasRoom,
         EntriesOf, LongOf;
    var x, ne := items[0], EntriesOf(items[0].name);
    var short := ChooseShort(dir.objs, x.name);
    if short == NoForm {
      LeadsNone(file);
      LeadsOne(Filling.NewDir, file);
      file' := if x.File? then file else file + [false];
      return;
    }
    var k := Stretches(dir, dir.used + ne, cap);
    var made := (if x.File? then [] else [Filling.NewDir]) + Grow(dir, k);
    var o := Obj(short.fn, LongOf(x.name), x.File?, n);
    var d := Added(dir, o, ne, cap);
    var m := MadeLeads(x.File?, dir, k, file);
    if !HasRoom(dir, dir.used + ne) {
      file' := m;
    } else if x.File? {
      LeadsOne(Filling.NewFile, file);
      var f1 := file + [true];
      LeadsOn(made, [Filling.NewFile], file, file, f1);
      KnownLater(dir, file, f1);
      AddedKnown(dir, o, ne, cap, f1);
      file' := CopyIsPlanned(items[1..], d, n + 1, cap, f1);
      LeadsOn(made + [Filling.NewFile], CopyDir(items[1..], d, n + 1, cap).es, file, f1, file');
    } else {
      NewDirKnown(n, cap, m);
      var sub := CopyDir(x.items, NewDir(n, cap), n + 1, cap);
      var f1 := CopyIsPlanned(x.items, NewDir(n, cap), n + 1, cap, m);
      LeadsOn(made, sub.es, file, m, f1);
      file' := f1;
      if !sub.stop {
        KnownLater(dir, file, f1);
        AddedKnown(dir, o, ne, cap, f1);
        file' := CopyIsPlanned(items[1..], d, sub.n, cap, f1);
        LeadsOn(made + sub.es, CopyDir(items[1..], d, sub.n, cap).es, file, f1, file');
      }
    }
  }

  lemma NewDirKnown(id: nat, cap: nat, file: seq<bool>)
    requires id < |file| && !file[id]
    ensures Known(NewDir(id, cap), file)
  {
  }

  // ----- the directories of the plan are those on the disk -----

  ghost predicate Mirror(o: Obj, t: Table, names: Names, a: nat)
  {
    a in names && a < |t| && o.fn == Short(t[a]) && o.long == names[a]
  }

  ghost predicate Live(o: Obj, t: Table, names: Names) { exists a: nat :: Mirror(o, t, names, a) }

  ghost predicate Listed(objs: seq<Obj>, t: Table, names: Names, a: nat)
  {
    exists k :: 0 <= k < |objs| && Mirror(objs[k], t, names, a)
  }

  /** The directory has the names of the table, and its entries are in use without gaps. */
  ghost predicate Mirrors(dir: Dir, t: Table, names: Names, zero: nat)
  {
    && (forall k :: 0 <= k < |dir.objs| ==> Live(dir.objs[k], t, names))
    && (forall a :: a in names ==> Listed(dir.objs, t, names, a))
    && dir.used == zero && dir.size == |t| && zero <= |t| && forall i :: 0 <= i < zero ==> !IsBlank(t[i])
  }

  lemma FindsMatches(o: Obj, t: Table, names: Names, a: nat, name: Name)
    requires Mirror(o, t, names, a) && Ascii(name)
    ensures Finds(name, o) <==> Matches(t, names, KeyOf(name), a)
  {
    hide FormOf, SameName;
  }

  /** A name finds an object of the directory exactly if dir_find finds one in the table. */
  lemma HitsAgree(dir: Dir, t: Table, names: Names, zero: nat, name: Name)
    requires Mirrors(dir, t, names, zero)
    ensures Ascii(name) && (LookUp(dir.objs, name, 0) < |dir.objs| <==> exists a :: Matches(t, names, KeyOf(name), a))
  {
    hide FormOf, Proper, Mirror, Finds, MatchesLong, MatchesShort, KeyOf, IsBlank;
    ProperIsAscii(name);
    var at := LookUp(dir.objs, name, 0);
    if at < |dir.objs| {
      assert Live(dir.objs[at], t, names);
      var a: nat :| Mirror(dir.objs[at], t, names, a);
      FindsMatches(dir.objs[at], t, names, a, name);
    }
    if a :| Matches(t, names, KeyOf(name), a) {
      MatchIsName(t, names, KeyOf(name), a);
      assert Listed(dir.objs, t, names, a);
      var k :| 0 <= k < |dir.objs| && Mirror(dir.objs[k], t, names, a);
      FindsMatches(dir.objs[k], t, names, a, name);
    }
  }

  lemma MatchIsName(t: Table, names: Names, k: Key, a: nat)
    requires Matches(t, names, k, a)
    ensures a in names
  {
    hide SameName;
  }

  lemma ShortsAgree(dir: Dir, t: Table, names: Names, zero: nat, fn: seq<byte>)
    requires Mirrors(dir, t, names, zero)
    ensures ShortTaken(dir.objs, fn) <==> ShortUsed(t, names, fn)
  {
    if ShortTaken(dir.objs, fn) {
      var k :| 0 <= k < |dir.objs| && dir.objs[k].fn == fn;
      assert Live(dir.objs[k], t, names);
      var a: nat :| Mirror(dir.objs[k], t, names, a);
      assert MatchesShort(t, names, Key(fn, false, []), a);
    }
    if ShortUsed(t, names, fn) {
      var a :| MatchesShort(t, names, Key(fn, false, []), a);
      assert Listed(dir.objs, t, names, a);
    }
  }

  lemma {:induction false} NumbersAgree(dir: Dir, t: Table, names: Names, zero: nat, name: Name, m: word, n: nat)
    requires Mirrors(dir, t, names, zero) && 1 <= m <= n <= 100
    requires NumbersTaken(t, names, FormOf(name).fn, name, n)
    requires n < 100 ==> !ShortUsed(t, names, NumberedWith(FormOf(name).fn, name, n))
    ensures Numbering(dir.objs, name, m) == if n == 100 then NoForm else Use(NumberedWith(FormOf(name).fn, name, n))
    decreases n - m
  {
    hide FormOf, NumberedWith, Mirrors, ShortUsed, ShortTaken;
    if m < 100 {
      ShortsAgree(dir, t, names, zero, NumberedWith(FormOf(name).fn, name, m));
      if m < n { NumbersAgree(dir, t, names, zero, name, m + 1, n); }
    }
  }

  /** The plan's short name is the one that dir_register chooses. */
  lemma FormsAgree(dir: Dir, t: Table, names: Names, zero: nat, name: Name, f: Form)
    requires Mirrors(dir, t, names, zero) && Ascii(name) && Chosen(t, names, name, f)
    ensures ChooseShort(dir.objs, name) == Use(f.fn)
  {
    hide FormOf, NumberedWith, NumbersTaken, Mirrors;
    if FormOf(name).loss {
      var n: word :| LeastNumber(t, names, FormOf(name).fn, name, n, f.fn);
      assert !ShortUsed(t, names, f.fn);
      NumbersAgree(dir, t, names, zero, name, 1, n);
    }
  }

  /** In a table without gaps an object goes right behind the others. */
  lemma FitsAtEnd(dir: Dir, t: Table, names: Names, zero: nat, u: Table, long: seq<word>, e: Entry, at: nat)
    requires Mirrors(dir, t, names, zero) && Laid(t, names, zero) && Registered(t, u, long, e, at)
    requires FirstFit(t, Segments(long) + 1, at - Segments(long))
    ensures at - Segments(long) == zero && at !in names
  {
    hide NameEntries, SumOf, IsObject, Apart, Covered;
    FirstFitBound(t, zero, Segments(long) + 1, at - Segments(long));
    BlanksUnowned(t, names, zero, at);
    assert IsBlank(t[at - Segments(long)]);
  }

  lemma MirrorStays(o: Obj, t: Table, u: Table, names: Names, names': Names, a: nat)
    requires Mirror(o, t, names, a) && a < |u| && u[a] == t[a] && a in names' && names'[a] == names[a]
    ensures Mirror(o, u, names', a)
  {
  }

  /** Once dir_register has stored the object, the plan's directory mirrors the table again. */
  lemma RegisterMirrors(dir: Dir, t: Table, names: Names, zero: nat, u: Table, name: Name, f: Form, at: nat, o: Obj)
    requires Mirrors(dir, t, names, zero) && Laid(t, names, zero) && |f.fn| == 11 && Short(ShortEntry(f)) == f.fn
    requires IsShort(ShortEntry(f)) && o.fn == f.fn && o.long == LongOf(name)
    requires Registered(t, u, LongOf(name), ShortEntry(f), at)
    requires FirstFit(t, EntriesOf(name), at - Segments(LongOf(name)))
    ensures var dir' := Dir(dir.objs + [o], dir.used + EntriesOf(name), dir.size, dir.id);
      Mirrors(dir', u, names[at := LongOf(name)], ZeroAfter(zero, at))
  {
    hide NameEntries, SumOf, ShortEntry, LongOf, Short, IsBlank, Mirror, Laid, FirstFit, IsShort;
    var long := LongOf(name);
    FitsAtEnd(dir, t, names, zero, u, long, ShortEntry(f), at);
    var names', objs' := names[at := long], dir.objs + [o];
    assert Mirror(o, u, names', at) by { MirrorNew(o, t, u, names, long, ShortEntry(f), at); }
    forall a | a in names ensures a < |t| && u[a] == t[a] {
      ShortStays(t, names, zero, u, long, ShortEntry(f), at, a);
    }
    forall k | 0 <= k < |objs'| ensures Live(objs'[k], u, names') {
      if k < |dir.objs| {
        assert Live(dir.objs[k], t, names);
        var a: nat :| Mirror(dir.objs[k], t, names, a);
        MirrorIn(dir.objs[k], t, names, a);
        MirrorStays(dir.objs[k], t, u, names, names', a);
      }
    }
    forall a | a in names' ensures Listed(objs', u, names', a) {
      if a == at { assert objs'[|dir.objs|] == o; } else {
        assert Listed(dir.objs, t, names, a);
        var k :| 0 <= k < |dir.objs| && Mirror(dir.objs[k], t, names, a);
        MirrorStays(dir.objs[k], t, u, names, names', a);
        assert objs'[k] == dir.objs[k];
      }
    }
    StoredNotBlank(t, u, long, ShortEntry(f), at, zero);
    forall i | 0 <= i < zero ensures u[i] == t[i] {}
  }

  /** The room that dir_register makes is the room that the plan reckons with. */
  lemma RoomAgrees(dir: Dir, t: Table, names: Names, zero: nat, u: Table, long: seq<word>, e: Entry, at: nat)
    requires Mirrors(dir, t, names, zero) && Laid(t, names, zero) && AddedTo(t, u, long, e, at)
    ensures at + 1 == dir.used + Segments(long) + 1 && at !in names && |t| <= |u|
    ensures Mirrors(dir.(size := |u|), Stretched(t, |u| - |t|), names, zero)
    ensures Laid(Stretched(t, |u| - |t|), names, zero)
  {
    hide Mirror, Live, Listed, IsBlank, Registered, FirstFit, Stretched;
    var n := |u| - |t|;
    StretchMirrors(dir, t, names, zero, n);
    LaidStretched(t, names, zero, n);
    FitsAtEnd(dir.(size := |u|), Stretched(t, n), names, zero, u, long, e, at);
  }

  /** What a successful dir_register leaves is what the plan says: the short name, the clusters the table was stretched
      by, and the directory with one more object. `m` is the number of clusters by which the table grew. */
  lemma RegisterAgrees(dir: Dir, t: Table, names: Names, zero: nat, u: Table, name: Name, f: Form, at: nat, m: nat,
        cap: nat, isFile: bool, n: nat)
    requires 0 < cap && Mirrors(dir, t, names, zero) && Laid(t, names, zero) && Ascii(name) && Chosen(t, names, name, f)
    requires AddedTo(t, u, LongOf(name), ShortEntry(f), at) && |u| <= 0x1_0000
    requires m == ClustersMore(|t|, at + 1, cap) && |u| == |t| + cap * m && (dir.id < 0 ==> |u| == |t|)
    ensures ChooseShort(dir.objs, name) == Use(f.fn) && HasRoom(dir, dir.used + EntriesOf(name))
    ensures dir.id >= 0 ==> Stretches(dir, dir.used + EntriesOf(name), cap) == m
    ensures Mirrors(Added(dir, Obj(f.fn, LongOf(name), isFile, n), EntriesOf(name), cap), u, names[at := LongOf(name)],
                    ZeroAfter(zero, at))
  {
    hide FormOf, Mirrors, Laid, Registered, FirstFit, Stretched, LongOf, ShortEntry, Short, IsShort, ChooseShort,
         Segments, ClustersMore;
    var d := dir.(size := |u|);
    FormsAgree(dir, t, names, zero, name, f);
    RoomAgrees(dir, t, names, zero, u, LongOf(name), ShortEntry(f), at);
    MirrorSizes(dir, t, names, zero);
    AddedInside(t, u, LongOf(name), ShortEntry(f), at);
    RegisterMirrors(d, Stretched(t, |u| - |t|), names, zero, u, name, f, at, Obj(f.fn, LongOf(name), isFile, n));
    if dir.id < 0 { assert cap * 0 == 0; }
  }

  lemma MirrorSizes(dir: Dir, t: Table, names: Names, zero: nat)
    requires Mirrors(dir, t, names, zero)
    ensures dir.size == |t| && dir.used == zero <= |t|
  {
  }

  lemma AddedInside(t: Table, u: Table, long: seq<word>, e: Entry, at: nat)
    requires AddedTo(t, u, long, e, at)
    ensures |t| <= |u| && at < |u| && at >= Segments(long)
  {
  }

  /** When dir_register finds no room, the plan has none either, and has the table stretched as far. */
  lemma NoRoomAgrees(dir: Dir, t: Table, names: Names, zero: nat, k: nat, name: Name, m: nat, cap: nat)
    requires 0 < cap && Mirrors(dir, t, names, zero) && Laid(t, names, zero)
    requires NoRoom(Stretched(t, k), EntriesOf(name))
    requires if dir.id < 0 then k == 0 else |t| + k == 0x1_0000 && m == ClustersMore(|t|, 0x1_0000, cap)
    ensures !HasRoom(dir, dir.used + EntriesOf(name))
    ensures dir.id >= 0 ==> Stretches(dir, dir.used + EntriesOf(name), cap) == m
  {
    hide Mirror, Live, Listed, Laid, ClustersMore, FormOf, Blocked, IsBlank;
    ZerosFit(t, names, zero, k, EntriesOf(name));
  }

  /** From the first zero entry on everything is free. */
  lemma ZerosFit(t: Table, names: Names, zero: nat, k: nat, ne: nat)
    requires Laid(t, names, zero)
    ensures !Blocked(Stretched(t, k), zero, ne)
  {
    hide IsObject, Owned;
    var u := Stretched(t, k);
    forall i | zero <= i < |u| ensures IsBlank(u[i]) { assert u[i] == Zeros(32); }
  }

  /** When all 99 numbers are taken, the plan gives up as well. */
  lemma NumbersRunOut(dir: Dir, t: Table, names: Names, zero: nat, name: Name)
    requires Mirrors(dir, t, names, zero) && Ascii(name) && FormOf(name).loss
    requires NumbersTaken(t, names, FormOf(name).fn, name, 100)
    ensures ChooseShort(dir.objs, name) == NoForm
  {
    hide FormOf, NumberedWith, NumbersTaken, Mirrors;
    NumbersAgree(dir, t, names, zero, name, 1, 100);
  }

  /** Setting the fields of an entry, as f_open, f_mkdir and f_sync do, changes nothing for the plan. */
  lemma SetMirrors(dir: Dir, t: Table, names: Names, zero: nat, a: nat, e: Entry)
    requires Mirrors(dir, t, names, zero) && a < |t| && Short(e) == Short(t[a]) && !IsBlank(e)
    ensures Mirrors(dir, t[a := e], names, zero)
  {
    hide IsBlank, Mirror;
    var u := t[a := e];
    forall k | 0 <= k < |dir.objs| ensures Live(dir.objs[k], u, names) {
      assert Live(dir.objs[k], t, names);
      var b: nat :| Mirror(dir.objs[k], t, names, b);
      MirrorSet(dir.objs[k], t, names, a, e, b);
    }
    forall b | b in names ensures Listed(dir.objs, u, names, b) {
      assert Listed(dir.objs, t, names, b);
      var k :| 0 <= k < |dir.objs| && Mirror(dir.objs[k], t, names, b);
      MirrorSet(dir.objs[k], t, names, a, e, b);
    }
  }

  lemma MirrorSet(o: Obj, t: Table, names: Names, a: nat, e: Entry, b: nat)
    requires Mirror(o, t, names, b) && a < |t| && Short(e) == Short(t[a])
    ensures Mirror(o, t[a := e], names, b)
  {
    hide Short;
  }

  lemma MirrorIn(o: Obj, t: Table, names: Names, a: nat)
    requires Mirror(o, t, names, a)
    ensures a in names && a < |t|
  {
  }

  lemma MirrorNew(o: Obj, t: Table, u: Table, names: Names, long: seq<word>, e: Entry, at: nat)
    requires Registered(t, u, long, e, at) && o.fn == Short(e) && o.long == long
    ensures Mirror(o, u, names[at := long], at)
  {
    hide NameEntries, SumOf;
  }

  /** The plan starts with a cleared root directory and with the dot entries of a new directory. */
  lemma RootMirrors(n: nat, id: int)
    ensures Mirrors(Dir([], 0, n, id), Stretched([], n), map[], 0)
  {
  }

  lemma NewDirMirrors(id: nat, d: Entry, dd: Entry, n: nat)
    requires DirRuns.IsDotEntry(d, 1) && DirRuns.IsDotEntry(dd, 2)
    ensures Mirrors(NewDir(id, n + 2), Stretched([d, dd], n), map[0 := [], 1 := []], 2)
  {
    var dir, t, names := NewDir(id, n + 2), Stretched([d, dd], n), map[0 := [], 1 := []];
    assert t[0] == d && t[1] == dd;
    assert Short(d) == DotForm(1) && Short(dd) == DotForm(2);
    assert Mirror(dir.objs[0], t, names, 0) && Mirror(dir.objs[1], t, names, 1);
    assert d[0] == DOT && dd[0] == DOT;
  }

  lemma StretchMirrors(dir: Dir, t: Table, names: Names, zero: nat, n: nat)
    requires Mirrors(dir, t, names, zero)
    ensures Mirrors(dir.(size := dir.size + n), Stretched(t, n), names, zero)
  {
    hide IsBlank, Mirror, Short, Stretched;
    var u := Stretched(t, n);
    StretchedSame(t, n);
    forall k | 0 <= k < |dir.objs| ensures Live(dir.objs[k], u, names) {
      assert Live(dir.objs[k], t, names);
      var a: nat :| Mirror(dir.objs[k], t, names, a);
      MirrorIn(dir.objs[k], t, names, a);
      MirrorStays(dir.objs[k], t, u, names, names, a);
    }
    forall a | a in names ensures Listed(dir.objs, u, names, a) {
      assert Listed(dir.objs, t, names, a);
      var k :| 0 <= k < |dir.objs| && Mirror(dir.objs[k], t, names, a);
      MirrorIn(dir.objs[k], t, names, a);
      MirrorStays(dir.objs[k], t, u, names, names, a);
    }
  }

  lemma StretchedSame(t: Table, n: nat)
    ensures forall i :: 0 <= i < |t| ==> Stretched(t, n)[i] == t[i]
  {
  }

  lemma StoredNotBlank(t: Table, u: Table, long: seq<word>, e: Entry, at: nat, s: nat)
    requires Registered(t, u, long, e, at) && IsShort(e) && s == at - Segments(long)
    ensures forall i :: s <= i <= at ==> !IsBlank(u[i])
  {
    hide NameEntries, SumOf;
    NameEntriesAt(u[s..at], long, SumOf(Short(e)));
    forall i | s <= i < at ensures !IsBlank(u[i]) { assert u[s..at][i - s] == u[i]; }
  }

  // ----- a name that finds an earlier file by accident -----

  const SPACED: Name := [0x61, 0x20, 0x62]        // "a b"
  const ZZZ: Name := [0x7A, 0x7A, 0x7A]           // "zzz"
  const TILDED: Name := [0x41, 0x42, 0x7E, 0x31]  // "AB~1"

  const ACCIDENT: seq<Item> := [File(SPACED), File(ZZZ), File(TILDED)]

  lemma SpacedForm()
    ensures FormOf(SPACED).loss && FormOf(SPACED).lfn && FormOf(SPACED).fn == [0x41, 0x42] + Blanks(9)
  {
    assert LastDot(SPACED, 3) == 0 && Leading(SPACED, 0) == 0;
  }

  lemma TildedForm()
    ensures !FormOf(TILDED).loss && FormOf(TILDED).fn == [0x41, 0x42, TILDE, 0x31] + Blanks(7)
  {
    assert LastDot(TILDED, 4) == 0 && Leading(TILDED, 0) == 0;
    TildedScan();
    var fn := Blanks(11)[0 := 0x41][1 := 0x42][2 := TILDE][3 := 0x31];
    hide ShortName.Fill;
    assert fn == [0x41, 0x42, TILDE, 0x31] + Blanks(7);
  }

  lemma TildedScan()
    ensures var r := ShortName.Fill(TILDED, 0, 0, Start(TILDED));
      r.fn == Blanks(11)[0 := 0x41][1 := 0x42][2 := TILDE][3 := 0x31] && !r.loss && r.ni == 8
  {
    var s := Start(TILDED);
    var s4 := s.Put(0x41).Put(0x42).Put(0x7E).Put(0x31);
    assert ShortName.Fill(TILDED, 0, 4, s4) == s4;
    assert ShortName.Fill(TILDED, 0, 2, s.Put(0x41).Put(0x42)) == s4;
  }

  lemma ZzzForm()
    ensures !FormOf(ZZZ).loss && !FormOf(ZZZ).lfn && FormOf(ZZZ).fn == [0x5A, 0x5A, 0x5A] + Blanks(8)
  {
    assert LastDot(ZZZ, 3) == 0 && Leading(ZZZ, 0) == 0;
  }

  /** In a fresh directory "a b" gets the short name AB~1. */
  lemma SpacedIsNumbered()
    ensures ChooseShort([], SPACED) == Use(FormOf(TILDED).fn)
  {
    hide FormOf, Blanks;
    SpacedForm();
    TildedForm();
    var src := [0x41, 0x42] + Blanks(9);
    assert Digits(1) == [0x31];
    assert Keep(src, 0, 6) == 2 by { assert src[0] != BLANK && src[1] != BLANK && src[2] == BLANK; }
    assert src[..2] == [0x41, 0x42] && src[8..] == Blanks(3) && Blanks(4) + Blanks(3) == Blanks(7);
    assert NumberedWith(FormOf(SPACED).fn, SPACED, 1) == FormOf(TILDED).fn;
  }

  /** A new file for which the table has room. */
  lemma CopyNew(items: seq<Item>, dir: Dir, n: nat, cap: nat)
    requires 0 < cap && items != [] && items[0].File? && LookUp(dir.objs, items[0].name, 0) == |dir.objs|
    requires ChooseShort(dir.objs, items[0].name).Use? && dir.used + EntriesOf(items[0].name) <= dir.size <= 0x1_0000
    ensures var x := items[0].name;
      var o := Obj(ChooseShort(dir.objs, x).fn, LongOf(x), true, n);
      var d := Dir(dir.objs + [o], dir.used + EntriesOf(x), dir.size, dir.id);
      CopyDir(items, dir, n, cap) == After([Filling.NewFile], CopyDir(items[1..], d, n + 1, cap))
  {
    hide FormOf, ChooseShort, EntriesOf, LongOf, LookUp, Stretches, Grow;
    NoStretch(dir, dir.used + EntriesOf(items[0].name), cap);
    assert [] + [] + [Filling.NewFile] == [Filling.NewFile];
  }

  lemma NoStretch(dir: Dir, end: nat, cap: nat)
    requires 0 < cap && end <= dir.size <= 0x1_0000
    ensures Stretches(dir, end, cap) == 0 && Grow(dir, 0) == [] && cap * 0 == 0
  {
  }

  /** A source directory that lists "a b", "zzz" and "AB~1", as it can when other names were there before: in the copy
      the third file finds the first by the short name that was made up for it, and overwrites it. */
  lemma AccidentalOverwrite(dir: Dir, n: nat, cap: nat)
    requires 0 < cap && dir.objs == [] && dir.used + 3 <= dir.size <= 0x1_0000
    ensures var p := CopyDir(ACCIDENT, dir, n, cap);
      p.es == [Filling.NewFile, Filling.NewFile, Filling.Again(n)] && !p.stop && Filling.OverwritesBehind(p.es, n)
  {
    hide FormOf, Blanks, CopyDir, Numbering, NumberedWith;
    SpacedForm();
    ZzzForm();
    TildedForm();
    SpacedIsNumbered();
    var items := ACCIDENT;
    CopyNew(items, dir, n, cap);
    var o1 := Obj(FormOf(TILDED).fn, SPACED, true, n);
    var d1 := Dir([o1], dir.used + 2, dir.size, dir.id);
    assert dir.objs + [o1] == [o1] && items[1..] == [File(ZZZ), File(TILDED)];
    assert !Finds(ZZZ, o1) by { assert Upper(ZZZ[0]) != Upper(SPACED[0]) && FormOf(ZZZ).fn[0] != FormOf(TILDED).fn[0]; }
    CopyNew(items[1..], d1, n + 1, cap);
    var o2 := Obj(FormOf(ZZZ).fn, [], true, n + 1);
    var d2 := Dir([o1, o2], dir.used + 3, dir.size, dir.id);
    assert [o1] + [o2] == [o1, o2] && items[1..][1..] == [File(TILDED)];
    HitAgain(d2, n + 2, cap);
    var es := [Filling.NewFile] + ([Filling.NewFile] + [Filling.Again(n)]);
    assert es == [Filling.NewFile, Filling.NewFile, Filling.Again(n)];
    NotJustBefore(es, n);
  }

  lemma HitAgain(dir: Dir, n: nat, cap: nat)
    requires 0 < cap && dir.objs != [] && dir.objs[0].fn == FormOf(TILDED).fn && !FormOf(TILDED).loss
    requires dir.objs[0].isFile
    ensures CopyDir([File(TILDED)], dir, n, cap) == Plan([Filling.Again(dir.objs[0].id)], n, false)
  {
    hide FormOf;
    assert Finds(TILDED, dir.objs[0]);
    assert LookUp(dir.objs, TILDED, 0) == 0;
    assert [File(TILDED)][1..] == [];
    assert CopyDir([], dir, n, cap) == Plan([], n, false);
  }

  lemma NotJustBefore(es: seq<Event>, n: nat)
    requires es == [Filling.NewFile, Filling.NewFile, Filling.Again(n)]
    ensures Filling.OverwritesBehind(es, n)
  {
    assert Filling.Ids(es, n, 1) == n + 1;
    assert es[2].Again? && !Filling.Writes(es, n, 1, es[2].i);
  }

  // ----- the same accident in dir_remove -----

  /** "a b" registered in an empty table of two entries: the entry of its long name, and its short entry AB~1. */
  lemma SpacedRegistered() returns (u: Table)
    ensures WellFormed(u, map[1 := SPACED], 2) && |u| == 2 && Short(u[1]) == FormOf(TILDED).fn
  {
    hide FormOf, Numbered, NumberOf, Digits, WellFormed, IsPiece, SumOf, NumbersTaken;
    SpacedForm();
    TildedForm();
    SpacedIsNumbered();
    ProperIsAscii(SPACED);
    var t, fn := Stretched([], 2), FormOf(TILDED).fn;
    DirRuns.ClearedIsGood(2);
    NoneTaken(t, map[], FormOf(SPACED).fn, SPACED);
    assert LeastNumber(t, map[], FormOf(SPACED).fn, SPACED, 1, fn);
    ChosenNumbered(t, map[], SPACED, 1, fn);
    var f := FormOf(SPACED).(fn := fn);
    assert f.fn[0] == 0x41;
    var e := ShortEntry(f);
    assert Short(e) == fn by { ShortOfEntry(f); }
    var piece := PieceExists(SPACED, 1, SumOf(Short(e)));
    u := [piece, e];
    assert u[0..1] == [piece];
    assert forall i :: 0 <= i <= 1 ==> t[i] == Zeros(32);
    assert Registered(t, u, SPACED, e, 1);
    var s, s' := DirRuns.State(t, map[], 0), DirRuns.State(u, map[1 := SPACED], 2);
    assert map[][1 := SPACED] == map[1 := SPACED];
    assert DirRuns.DirStep(s, DirRuns.Add(SPACED, f, 1), s');
    DirRuns.StepKeepsNames(s, DirRuns.Add(SPACED, f, 1), s');
  }

  lemma ShortOfEntry(f: Form)
    requires |f.fn| == 11
    ensures Short(ShortEntry(f)) == f.fn
  {
  }

  /** In that table "AB~1" finds the object by its short name only; so it is removed from its short entry on, and the
      table is left with an orphaned long-name entry. */
  lemma AccidentalOrphan() returns (t: Table, names: Names)
    ensures WellFormed(t, names, 2) && Ascii(TILDED) && 1 in names && names[1] == SPACED
    ensures Matches(t, names, KeyOf(TILDED), 1) && !MatchesLong(names, KeyOf(TILDED), 1)
    ensures forall u, names', zero' :: Erased(t, u, 1, 1) ==> !Laid(u, names', zero')
  {
    hide FormOf, WellFormed, Laid;
    t := SpacedRegistered();
    names := map[1 := SPACED];
    ProperIsAscii(TILDED);
    TildedForm();
    WellFormedIsLaid(t, names, 2);
    forall u, names', zero' | Erased(t, u, 1, 1) ensures !Laid(u, names', zero') {
      RemoveLeavesOrphans(t, names, 2, u, 1, 1, names', zero');
    }
  }
}
