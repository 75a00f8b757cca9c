/** The directories of a volume as a tree: which object names which cluster chain, over every run of operations. */
module Tree {

  /** The place of an object: the start cluster of its directory, 0 for the root, and the index of its short entry. */
  type Spot = (nat, nat)

  /** What an entry says: whether it is a directory, its start cluster, 0 if it has none, and its size. */
  datatype Object = Object(dir: bool, start: nat, size: nat)

  /** All objects but dot entries; the first clusters of all live chains; the object that names each; the start
      clusters of open files, which their entries name only after f_sync; the directories, by start cluster, and how
      deep each is; and the first cluster of the root directory, 0 if that is not a chain. */
  datatype DirTree = DirTree(objs: map<Spot, Object>, heads: set<nat>, owner: map<nat, Spot>, open: map<Spot, nat>,
                       depth: map<nat, nat>, root: nat)
  {
    /** The start cluster of an object; of an open file, the one that its file object has. */
    function Start(k: Spot): nat
      requires k in objs
    {
      if k in open then open[k] else objs[k].start
    }
  }

  // ----- the invariant -----

  /** Every chain but the root directory's is named by its owner. */
  ghost predicate ChainsNamed(v: DirTree)
  {
    && 0 !in v.heads && (v.root != 0 ==> v.root in v.heads)
    && (forall c :: c in v.heads ==> c == v.root || c in v.owner)
    && (forall c :: c in v.owner ==>
          c in v.heads && c != v.root && v.owner[c] in v.objs && v.Start(v.owner[c]) == c)
  }

  /** No object names the chain of another, or a chain that is none. */
  ghost predicate NamesOwn(v: DirTree)
  {
    forall k :: k in v.objs && v.Start(k) != 0 ==> v.Start(k) in v.owner && v.owner[v.Start(k)] == k
  }

  /** Directory `s` is named by a directory entry one level higher. */
  ghost predicate Named(v: DirTree, s: nat)
  {
    && s in v.owner && v.owner[s] in v.objs && v.objs[v.owner[s]].dir
    && s in v.depth && v.owner[s].0 in v.depth && v.depth[s] == v.depth[v.owner[s].0] + 1
  }

  /** The directories are those that directory entries name, each one level below that of its entry. */
  ghost predicate DirsNamed(v: DirTree)
  {
    && 0 in v.depth && v.depth[0] == 0
    && (forall k :: k in v.objs ==> k.0 in v.depth)
    && (forall k :: k in v.objs && v.objs[k].dir ==> v.Start(k) != 0 && v.Start(k) in v.depth)
    && (forall s {:trigger Named(v, s)} :: s in v.depth && s != 0 ==> Named(v, s))
  }

  ghost predicate FilesOpen(v: DirTree) { forall k :: k in v.open ==> k in v.objs && !v.objs[k].dir }

  ghost predicate Linked(v: DirTree) { ChainsNamed(v) && NamesOwn(v) && DirsNamed(v) && FilesOpen(v) }

  // ----- the operations -----

  datatype TreeOp =
    | MakeDir(k: Spot, r: nat)  // f_mkdir: the entry, and the cluster of the new table
    | MakeFile(k: Spot)         // f_open creates a file
    | Clear(k: Spot)            // f_open overwrites a file
    | Open(k: Spot)             // the file object of f_open
    | Begin(k: Spot, r: nat)    // f_write or f_lseek: the first cluster of an open file
    | End(k: Spot)              // f_truncate of an open file to nothing
    | Sync(k: Spot, size: nat)  // f_sync: the entry names the start cluster and the size
    | Close(k: Spot)            // an open file is given up, its entry being up to date
    | Drop(k: Spot)             // f_unlink of a file
    | DropDir(k: Spot)          // f_unlink of an empty directory

  /** A chain that begins with `r` is there, named by the object at `k`. */
  function Gained(v: DirTree, r: nat, k: Spot): DirTree { v.(heads := v.heads + {r}, owner := v.owner[r := k]) }

  /** The chain of `c`, if it is one, is gone. */
  function Lost(v: DirTree, c: nat): DirTree { v.(heads := v.heads - {c}, owner := v.owner - {c}) }

  function Put(v: DirTree, k: Spot, o: Object): DirTree { v.(objs := v.objs[k := o]) }

  /** An object that no file object stands for. */
  ghost predicate Idle(v: DirTree, k: Spot, dir: bool) { k in v.objs && k !in v.open && v.objs[k].dir == dir }

  /** The cluster begins no chain yet. */
  ghost predicate Fresh(v: DirTree, r: nat) { r != 0 && r !in v.heads }

  ghost predicate TreeStep(v: DirTree, op: TreeOp, w: DirTree)
  {
    match op
    case MakeDir(k, r) =>
      && k !in v.objs && k.0 in v.depth && Fresh(v, r)
      && w == Gained(Put(v, k, Object(true, r, 0)), r, k).(depth := v.depth[r := v.depth[k.0] + 1])
    case MakeFile(k) => k !in v.objs && k.0 in v.depth && w == Put(v, k, Object(false, 0, 0))
    case Clear(k) => Idle(v, k, false) && w == Lost(Put(v, k, Object(false, 0, 0)), v.Start(k))
    case Open(k) => Idle(v, k, false) && w == v.(open := v.open[k := v.Start(k)])
    case Begin(k, r) => k in v.open && v.open[k] == 0 && Fresh(v, r) && w == Gained(v, r, k).(open := v.open[k := r])
    case End(k) => k in v.open && w == Lost(v, v.open[k]).(open := v.open[k := 0])
    case Sync(k, size) => k in v.open && w == Put(v, k, Object(false, v.open[k], size))
    case Close(k) => k in v.open && k in v.objs && v.objs[k].start == v.open[k] && w == v.(open := v.open - {k})
    case Drop(k) => Idle(v, k, false) && w == Lost(v.(objs := v.objs - {k}), v.Start(k))
    case DropDir(k) =>
      && Idle(v, k, true) && (forall j :: j in v.objs ==> j.0 != v.Start(k))
      && w == Lost(v.(objs := v.objs - {k}, depth := v.depth - {v.Start(k)}), v.Start(k))
  }

  ghost predicate TreeRun(v: DirTree, ops: seq<TreeOp>, w: DirTree)
    decreases |ops|
  {
    if ops == [] then w == v else exists m :: TreeStep(v, ops[0], m) && TreeRun(m, ops[1..], w)
  }

  lemma RunOne(v: DirTree, op: TreeOp, w: DirTree)
    requires TreeStep(v, op, w)
    ensures TreeRun(v, [op], w)
  {
    hide TreeStep;
    assert TreeRun(w, [op][1..], w);
  }

  lemma RunFirst(v: DirTree, op: TreeOp, m: DirTree, ops: seq<TreeOp>, w: DirTree)
    requires TreeStep(v, op, m) && TreeRun(m, ops, w)
    ensures TreeRun(v, [op] + ops, w)
  {
    hide TreeStep;
    assert ([op] + ops)[1..] == ops;
  }

  // ----- what every run keeps -----

  /** All objects but the one at `k` are what they were. */
  ghost predicate Elsewhere(v: DirTree, w: DirTree, k: Spot)
  {
    forall j :: j != k ==>
      (j in w.objs <==> j in v.objs) &&
      (j in v.objs && j in w.objs ==> w.objs[j].dir == v.objs[j].dir && w.Start(j) == v.Start(j))
  }

  lemma StepElsewhere(v: DirTree, op: TreeOp, w: DirTree)
    requires TreeStep(v, op, w)
    ensures w.root == v.root && Elsewhere(v, w, op.k)
  {
  }

  /** No entry changes but that of the object at `k`, and no other file is opened or closed. */
  lemma StepSaid(v: DirTree, op: TreeOp, w: DirTree)
    requires TreeStep(v, op, w)
    ensures forall j :: j != op.k ==>
      (j in w.objs <==> j in v.objs) && (j in w.open <==> j in v.open) && (j in w.objs ==> w.objs[j] == v.objs[j])
  {
  }

  /** The object at `k` is a directory's or another's; every directory is named where it was. */
  lemma StepOwners(v: DirTree, op: TreeOp, w: DirTree)
    requires Linked(v) && TreeStep(v, op, w)
    ensures forall s :: s in v.depth && s in w.depth && s != 0 ==>
      s in v.owner && s in w.owner && w.owner[s] == v.owner[s]
    ensures forall s :: s in w.depth && s !in v.depth ==> op.MakeDir? && s == op.r && s in w.owner && w.owner[s] == op.k
  {
    forall s: nat | s in v.depth && s != 0 ensures s in v.owner { assert Named(v, s); }
    StepElsewhere(v, op, w);
    forall s: nat | s in v.depth && s in w.depth && s != 0 ensures s in w.owner && w.owner[s] == v.owner[s] {
      assert Named(v, s);
    }
  }

  /** The chain of the object at `k` is gone. */
  lemma LostKeeps(v: DirTree, w: DirTree, k: Spot, c: nat)
    requires ChainsNamed(v) && NamesOwn(v) && Elsewhere(v, w, k) && w.root == v.root && k in v.objs && v.Start(k) == c
    requires w.heads == v.heads - {c} && w.owner == v.owner - {c} && (k in w.objs ==> w.Start(k) == 0)
    ensures ChainsNamed(w) && NamesOwn(w)
  {
    hide DirTree.Start;
  }

  /** The object at `k` has a chain. */
  lemma GainedKeeps(v: DirTree, w: DirTree, k: Spot, r: nat)
    requires ChainsNamed(v) && NamesOwn(v) && Elsewhere(v, w, k) && w.root == v.root && Fresh(v, r)
    requires w.heads == v.heads + {r} && w.owner == v.owner[r := k]
    requires k in w.objs && w.Start(k) == r && (k in v.objs ==> v.Start(k) == 0)
    ensures ChainsNamed(w) && NamesOwn(w)
  {
    hide DirTree.Start;
  }

  /** The chains are as before, and so is the one that the object at `k` names. */
  lemma SameKeeps(v: DirTree, w: DirTree, k: Spot)
    requires ChainsNamed(v) && NamesOwn(v) && Elsewhere(v, w, k) && w.root == v.root
    requires w.heads == v.heads && w.owner == v.owner
    requires if k in v.objs then k in w.objs && w.Start(k) == v.Start(k) else k in w.objs ==> w.Start(k) == 0
    ensures ChainsNamed(w) && NamesOwn(w)
  {
    hide DirTree.Start;
  }

  /** The object at `k` is no directory, and the others have the chains they had. */
  lemma FileKeepsDirs(v: DirTree, w: DirTree, k: Spot)
    requires DirsNamed(v) && Elsewhere(v, w, k) && w.depth == v.depth && k.0 in v.depth
    requires (k in v.objs ==> !v.objs[k].dir) && (k in w.objs ==> !w.objs[k].dir)
    requires forall s :: s in v.owner && v.owner[s] != k ==> s in w.owner && w.owner[s] == v.owner[s]
    ensures DirsNamed(w)
  {
    hide DirTree.Start;
    forall s: nat | s in w.depth && s != 0 ensures Named(w, s) { assert Named(v, s); }
  }

  /** The invariant of an object. */
  lemma At(v: DirTree, k: Spot)
    requires Linked(v) && k in v.objs
    ensures v.Start(k) == 0 || (v.Start(k) in v.owner && v.owner[v.Start(k)] == k)
    ensures k.0 in v.depth
  {
  }

  lemma MakeDirKeeps(v: DirTree, k: Spot, r: nat, w: DirTree)
    requires Linked(v) && TreeStep(v, MakeDir(k, r), w)
    ensures Linked(w)
  {
    StepElsewhere(v, MakeDir(k, r), w);
    NotOpen(v, k);
    GainedKeeps(v, w, k, r);
    assert r !in v.depth by { assert r in v.depth ==> Named(v, r); }
    forall s: nat | s in w.depth && s != 0 ensures Named(w, s) { assert s != r ==> Named(v, s); }
  }

  lemma NotOpen(v: DirTree, k: Spot)
    requires FilesOpen(v) && k !in v.objs
    ensures k !in v.open
  {
  }

  lemma MakeFileKeeps(v: DirTree, k: Spot, w: DirTree)
    requires Linked(v) && TreeStep(v, MakeFile(k), w)
    ensures Linked(w)
  {
    StepElsewhere(v, MakeFile(k), w);
    NotOpen(v, k);
    SameKeeps(v, w, k);
    FileKeepsDirs(v, w, k);
  }

  lemma ClearKeeps(v: DirTree, k: Spot, w: DirTree)
    requires Linked(v) && TreeStep(v, Clear(k), w)
    ensures Linked(w)
  {
    StepElsewhere(v, Clear(k), w);
    At(v, k);
    LostKeeps(v, w, k, v.Start(k));
    FileKeepsDirs(v, w, k);
  }

  lemma OpenKeeps(v: DirTree, k: Spot, w: DirTree)
    requires Linked(v) && TreeStep(v, Open(k), w)
    ensures Linked(w)
  {
    StepElsewhere(v, Open(k), w);
    At(v, k);
    SameKeeps(v, w, k);
    FileKeepsDirs(v, w, k);
  }

  lemma BeginKeeps(v: DirTree, k: Spot, r: nat, w: DirTree)
    requires Linked(v) && TreeStep(v, Begin(k, r), w)
    ensures Linked(w)
  {
    StepElsewhere(v, Begin(k, r), w);
    At(v, k);
    GainedKeeps(v, w, k, r);
    FileKeepsDirs(v, w, k);
  }

  lemma EndKeeps(v: DirTree, k: Spot, w: DirTree)
    requires Linked(v) && TreeStep(v, End(k), w)
    ensures Linked(w)
  {
    StepElsewhere(v, End(k), w);
    At(v, k);
    LostKeeps(v, w, k, v.Start(k));
    FileKeepsDirs(v, w, k);
  }

  lemma SyncKeeps(v: DirTree, k: Spot, size: nat, w: DirTree)
    requires Linked(v) && TreeStep(v, Sync(k, size), w)
    ensures Linked(w)
  {
    StepElsewhere(v, Sync(k, size), w);
    At(v, k);
    SameKeeps(v, w, k);
    FileKeepsDirs(v, w, k);
  }

  lemma CloseKeeps(v: DirTree, k: Spot, w: DirTree)
    requires Linked(v) && TreeStep(v, Close(k), w)
    ensures Linked(w)
  {
    StepElsewhere(v, Close(k), w);
    At(v, k);
    SameKeeps(v, w, k);
    FileKeepsDirs(v, w, k);
  }

  lemma DropKeeps(v: DirTree, k: Spot, w: DirTree)
    requires Linked(v) && TreeStep(v, Drop(k), w)
    ensures Linked(w)
  {
    StepElsewhere(v, Drop(k), w);
    At(v, k);
    LostKeeps(v, w, k, v.Start(k));
    FileKeepsDirs(v, w, k);
  }

  lemma DropDirKeeps(v: DirTree, k: Spot, w: DirTree)
    requires Linked(v) && TreeStep(v, DropDir(k), w)
    ensures Linked(w)
  {
    StepElsewhere(v, DropDir(k), w);
    At(v, k);
    LostKeeps(v, w, k, v.Start(k));
    forall s: nat | s in w.depth && s != 0 ensures Named(w, s) { assert Named(v, s); }
  }

  /** One operation keeps the tree. */
  lemma StepKeepsTree(v: DirTree, op: TreeOp, w: DirTree)
    requires Linked(v) && TreeStep(v, op, w)
    ensures Linked(w)
  {
    hide Linked, TreeStep;
    match op {
      case MakeDir(k, r) => MakeDirKeeps(v, k, r, w);
      case MakeFile(k) => MakeFileKeeps(v, k, w);
      case Clear(k) => ClearKeeps(v, k, w);
      case Open(k) => OpenKeeps(v, k, w);
      case Begin(k, r) => BeginKeeps(v, k, r, w);
      case End(k) => EndKeeps(v, k, w);
      case Sync(k, size) => SyncKeeps(v, k, size, w);
      case Close(k) => CloseKeeps(v, k, w);
      case Drop(k) => DropKeeps(v, k, w);
      case DropDir(k) => DropDirKeeps(v, k, w);
    }
  }

  /** Over every run of operations: the chains are the root directory's and one for each object that has clusters, and
      every directory is named by the entry of one that is one level higher. */
  lemma {:induction false} RunKeepsTree(v: DirTree, ops: seq<TreeOp>, w: DirTree)
    requires Linked(v) && TreeRun(v, ops, w)
    ensures Linked(w)
    decreases |ops|
  {
    hide Linked, TreeStep;
    if ops != [] {
      var m :| TreeStep(v, ops[0], m) && TreeRun(m, ops[1..], w);
      StepKeepsTree(v, ops[0], m);
      RunKeepsTree(m, ops[1..], w);
    }
  }

  /** In such a tree no chain is lost and none is named twice: a cluster begins a live chain exactly if it is the root
      directory's first one or that of exactly one object. */
  lemma NothingLost(v: DirTree, c: nat)
    requires Linked(v) && c != 0
    ensures c in v.heads <==> c == v.root || exists k :: k in v.objs && v.Start(k) == c
    ensures forall j, k :: j in v.objs && k in v.objs && v.Start(j) == v.Start(k) == c ==> j == k
    ensures c == v.root ==> forall k :: k in v.objs ==> v.Start(k) != c
  {
  }

  /** Every directory is reached from the root: `path` leads to it through the directories of its entries. */
  lemma {:induction false} ReachedFromRoot(v: DirTree, s: nat) returns (path: seq<nat>)
    requires Linked(v) && s in v.depth
    ensures path != [] && path[0] == 0 && path[|path| - 1] == s && |path| == v.depth[s] + 1
    ensures forall i :: 0 < i < |path| ==> path[i] in v.owner && v.owner[path[i]].0 == path[i - 1]
    decreases v.depth[s]
  {
    if s == 0 {
      path := [0];
    } else {
      assert Named(v, s);
      var up := ReachedFromRoot(v, v.owner[s].0);
      path := up + [s];
    }
  }
}
