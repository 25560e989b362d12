/** Runs of any length and any calls: snapshot isolation, the conditions under which a run keeps
    the tree orderly, and the survival of file contents. */
module FsRuns {
  import opened Text
  import opened NodeGraph
  import opened GraphEdits
  import opened Forest
  import opened KernelHeap
  import opened FsState
  import opened FsInvariant
  import opened FsPaths
  import opened FsMoves
  import Crypto

  /** The calls `ops`, made one after the other in s, end in t. */
  ghost predicate Run<N>(s: State<N>, ops: seq<Op<N>>, t: State<N>)
    requires Inv(s)
    decreases |ops|
  {
    if ops == [] then t == s
    else Enabled(s, ops[0]) && (StepInv(s, ops[0]); Run(Step(s, ops[0]), ops[1..], t))
  }

  lemma {:induction false} RunInv<N>(s: State<N>, ops: seq<Op<N>>, t: State<N>)
    requires Inv(s) && Run(s, ops, t)
    ensures Inv(t)
    decreases |ops|
  {
    if ops != [] {
      StepInv(s, ops[0]);
      RunInv(Step(s, ops[0]), ops[1..], t);
    }
  }

  lemma HeadTail<T>(a: seq<T>, b: seq<T>)
    requires a != []
    ensures a + b != [] && (a + b)[1..] == a[1..] + b && (a + b)[0] == a[0]
  {
  }

  lemma {:induction false} RunAppend<N>(s: State<N>, a: seq<Op<N>>, t: State<N>, b: seq<Op<N>>, u: State<N>)
    requires Inv(s) && Run(s, a, t) && Inv(t) && Run(t, b, u)
    ensures Run(s, a + b, u)
    decreases |a|
  {
    if a == [] {
      assert a + b == b;
    } else {
      HeadTail(a, b);
      StepInv(s, a[0]);
      RunAppend(Step(s, a[0]), a[1..], t, b, u);
    }
  }

  // ---------------------------------------------------------------- snapshot isolation

  /** The tree made with root r has the same nodes with the same contents in both states. */
  ghost predicate SameTree<N>(g: Graph<N>, h: Graph<N>, r: N) {
    && (forall n :: n in g && g[n].owner == r ==> n in h && h[n] == g[n])
    && (forall n :: n in h && h[n].owner == r ==> n in g && g[n].owner == r)
  }

  lemma AttachIsolates<N>(g: Graph<N>, d: N, n: N, rec: Rec<N>, r: N)
    requires d in g && g[d].owner != r && rec.owner != r && (n in g ==> g[n].owner != r)
    ensures SameTree(g, Attach(g, d, n, rec), r)
  {
  }

  lemma DetachIsolates<N>(g: Graph<N>, roots: set<N>, m: N, r: N)
    requires Wf(g, roots) && Chained(g, m) && g[m].owner != r
    ensures SameTree(g, Detach(g, m), r)
  {
    assert NodeOk(g, roots, g[m].parent.value);
  }

  lemma StoreIsolates<N>(s: State<N>, n: N, bytes: Str, r: N)
    requires n in s.g && s.g[n].owner != r
    ensures SameTree(s.g, Store(s, n, bytes).0.g, r)
  {
  }

  lemma AddNodeIsolates<N>(s: State<N>, d: N, n: N, name: Str, isDir: bool, bytes: Str, r: N)
    requires d in s.g && n !in s.g && s.g[d].owner == s.root && r != s.root
    ensures var t := AddNode(s, d, n, name, isDir);
            n in t.g && SameTree(s.g, t.g, r) && SameTree(s.g, Store(t, n, bytes).0.g, r)
  {
    AttachIsolates(s.g, d, n, Rec(name, isDir, [], None, [], s.root), r);
    StoreIsolates(AddNode(s, d, n, name, isDir), n, bytes, r);
  }

  lemma CreateIsolates<N>(s: State<N>, path: Str, isDir: bool, n: N, bytes: Str, r: N)
    requires Inv(s) && (AddsAt(s, path) ==> n !in s.g) && r != s.root
    ensures var (t, ok) := Create(s, path, isDir, n);
            SameTree(s.g, t.g, r) && (ok ==> n in t.g && SameTree(s.g, Store(t, n, bytes).0.g, r))
  {
    if Create(s, path, isDir, n).1 {
      TargetGood(s, path);
      var (d, name) := Target(s, path).value;
      AddNodeIsolates(s, d, n, name, isDir, bytes, r);
    }
  }

  lemma WriteCwdIsolates<N>(s: State<N>, name: Str, data: Str, n: N, r: N)
    requires Inv(s) && (AddsToCwd(s, name) ==> n !in s.g) && r != s.root
    ensures SameTree(s.g, WriteCwd(s, name, data, n).0.g, r)
  {
    var k := Child(s.g, s.cwd, name);
    if k.Some? {
      CwdChildGood(s, name);
      StoreIsolates(s, k.value, Crypto.Cipher(s.key, data), r);
    } else if name != [] && Fits(s.used, NODE_SIZE) {
      AddNodeIsolates(s, s.cwd, n, Clip(name), false, Crypto.Cipher(s.key, data), r);
    }
  }

  lemma RenameIsolates<N>(s: State<N>, path: Str, newPath: Str, r: N)
    requires Inv(s) && r != s.root
    ensures SameTree(s.g, Rename(s, path, newPath).0.g, r)
  {
    if Rename(s, path, newPath).1 {
      ResolveGood(s, path);
      TargetGood(s, newPath);
      var m := Resolve(s, path).value;
      var (d, name) := Target(s, newPath).value;
      var g1 := Detach(s.g, m);
      DetachIsolates(s.g, s.roots, m, r);
      AttachIsolates(g1, d, m, g1[m].(name := name), r);
    }
  }

  lemma CopyIsolates<N>(s: State<N>, path: Str, newPath: Str, n: N, r: N)
    requires Inv(s) && (AddsCopy(s, path, newPath) ==> n !in s.g) && r != s.root
    ensures SameTree(s.g, Copy(s, path, newPath, n).0.g, r)
  {
    if Copy(s, path, newPath, n).0 != s {
      ResolveGood(s, path);
      TargetGood(s, newPath);
      var (d, name) := Target(s, newPath).value;
      AddNodeIsolates(s, d, n, name, false, s.g[Resolve(s, path).value].data, r);
    }
  }

  lemma DetachedIsolates<N>(s: State<N>, path: Str, r: N)
    requires Inv(s) && r != s.root
    ensures SameTree(s.g, Unlink(s, path).0.g, r) && SameTree(s.g, Rmdir(s, path).0.g, r)
  {
    if Resolve(s, path).Some? {
      ResolveGood(s, path);
      var m := Resolve(s, path).value;
      assert NodeOk(s.g, s.roots, m);
      if m != s.root {
        DetachIsolates(s.g, s.roots, m, r);
      }
    }
  }

  lemma CloneOwned<N>(h: Graph<N>, c: N, n: N)
    requires Wf(h, {c}) && n in h
    ensures h[n].owner == c
  {
    assert NodeOk(h, {c}, n);
  }

  lemma SnapCreateIsolates<N>(s: State<N>, name: Str, h: Graph<N>, c: N, used: nat, r: N)
    requires Inv(s) && r in s.roots && Enabled(s, SnapCreateOp(name, h, c, used))
    ensures SameTree(s.g, SnapCreate(s, name, h, c, used).0.g, r)
  {
    if SnapCreate(s, name, h, c, used).1 {
      forall n | n in h ensures h[n].owner == c {
        CloneOwned(h, c, n);
      }
    }
  }

  lemma StepFrame<N>(s: State<N>, op: Op<N>)
    requires Inv(s)
    ensures var t := Step(s, op);
            && s.roots <= t.roots && (op.SetKeyOp? || t.key == s.key) && (op.SnapCreateOp? || t.snaps == s.snaps)
  {
  }

  lemma SameTreeRefl<N>(g: Graph<N>, r: N)
    ensures SameTree(g, g, r)
  {
  }

  /** A call changes no tree but the live one. */
  lemma StepIsolates<N>(s: State<N>, op: Op<N>, r: N)
    requires Inv(s) && Enabled(s, op) && r in s.roots && r != s.root
    ensures SameTree(s.g, Step(s, op).g, r)
  {
    SameTreeRefl(s.g, r);
    match op
    case MkdirOp(path, n) => CreateIsolates(s, path, true, n, [], r);
    case TouchOp(path, n) => CreateIsolates(s, path, false, n, [], r);
    case WriteOp(path, data, n) => CreateIsolates(s, path, false, n, Crypto.Cipher(s.key, data), r);
    case WriteCwdOp(name, data, n) => WriteCwdIsolates(s, name, data, n, r);
    case ReadOp(path) =>
    case ChdirOp(path) =>
    case UnlinkOp(path) => DetachedIsolates(s, path, r);
    case RmdirOp(path) => DetachedIsolates(s, path, r);
    case RenameOp(path, newPath) => RenameIsolates(s, path, newPath, r);
    case CopyOp(path, newPath, n) => CopyIsolates(s, path, newPath, n, r);
    case SnapCreateOp(name, h, c, used) => SnapCreateIsolates(s, name, h, c, used, r);
    case SnapRestoreOp(name) =>
    case SetKeyOp(key) =>
    case OtherOp(usedAfter) =>
  }

  /** In no state from which one of the calls is made is r the live root. */
  ghost predicate Away<N>(s: State<N>, ops: seq<Op<N>>, r: N)
    requires Inv(s)
    decreases |ops|
  {
    ops != [] ==>
      && s.root != r && Enabled(s, ops[0])
      && (StepInv(s, ops[0]); Away(Step(s, ops[0]), ops[1..], r))
  }

  /** While a tree is not live, no run of calls changes it. */
  lemma {:induction false} RunIsolates<N>(s: State<N>, ops: seq<Op<N>>, t: State<N>, r: N)
    requires Inv(s) && Run(s, ops, t) && r in s.roots && Away(s, ops, r)
    ensures SameTree(s.g, t.g, r) && r in t.roots
    decreases |ops|
  {
    if ops != [] {
      StepInv(s, ops[0]);
      StepIsolates(s, ops[0], r);
      StepFrame(s, ops[0]);
      RunIsolates(Step(s, ops[0]), ops[1..], t, r);
    }
  }

  lemma {:induction false} SameTreeShape<N>(g: Graph<N>, roots: set<N>, h: Graph<N>, r: N, ks: seq<N>, f: Forest)
    requires Wf(g, roots) && SameTree(g, h, r)
    requires forall k :: k in ks ==> k in g && g[k].owner == r
    requires Shape(g, ks, f)
    ensures Shape(h, ks, f)
    decreases f
  {
    match f
    case Nil =>
    case Cons(_, _, kids, rest) =>
      assert NodeOk(g, roots, ks[0]);
      SameTreeShape(g, roots, h, r, g[ks[0]].kids, kids);
      SameTreeShape(g, roots, h, r, ks[1..], rest);
  }

  lemma SameTreeView<N>(g: Graph<N>, roots: set<N>, h: Graph<N>, r: N, q: seq<Str>)
    requires Wf(g, roots) && SameTree(g, h, r) && r in roots
    ensures View(g, r, q) == View(h, r, q)
  {
    var f := RootHasShape(g, roots, r);
    SameTreeShape(g, roots, h, r, [r], f);
    ShapeDecidesView(g, r, h, r, f, q);
  }

  lemma {:induction false} RunSnaps<N>(s: State<N>, ops: seq<Op<N>>, t: State<N>, name: Str)
    requires Inv(s) && Run(s, ops, t) && FindSnap(s.snaps, name).Some?
    ensures FindSnap(t.snaps, name) == FindSnap(s.snaps, name)
    decreases |ops|
  {
    if ops != [] {
      StepInv(s, ops[0]);
      StepSnaps(s, ops[0], name);
      RunSnaps(Step(s, ops[0]), ops[1..], t, name);
    }
  }

  lemma StepSnaps<N>(s: State<N>, op: Op<N>, name: Str)
    requires Inv(s) && Enabled(s, op) && FindSnap(s.snaps, name).Some?
    ensures FindSnap(Step(s, op).snaps, name) == FindSnap(s.snaps, name)
  {
    StepFrame(s, op);
    if op.SnapCreateOp? {
      SnapCreateSnaps(s, op.name, op.h, op.n, op.usedAfter, name);
    }
  }

  lemma SnapCreateSnaps<N>(s: State<N>, made: Str, h: Graph<N>, c: N, used: nat, name: Str)
    requires FindSnap(s.snaps, name).Some?
    ensures FindSnap(SnapCreate(s, made, h, c, used).0.snaps, name) == FindSnap(s.snaps, name)
  {
    assert ([Snap(made, c)] + s.snaps)[1..] == s.snaps;
  }

  lemma FoundRoot<N>(s: State<N>, name: Str)
    requires Inv(s) && FindSnap(s.snaps, name).Some?
    ensures FindSnap(s.snaps, name).value in s.roots
  {
  }

  /** Restoring a snapshot gives the tree it had when it was last live, or when it was made if it
      never was: whatever ran in between, as long as the snapshot was not live. */
  lemma RestoreFindsTree<N>(s: State<N>, ops: seq<Op<N>>, t: State<N>, name: Str, r: N, q: seq<Str>)
    requires Inv(s) && Run(s, ops, t) && name != []
    requires FindSnap(s.snaps, name) == Some(r) && Away(s, ops, r)
    ensures var (u, ok) := SnapRestore(t, name);
            ok && u.root == r && u.cwd == r && EntryAt(u, q) == View(s.g, r, q)
  {
    RunSnaps(s, ops, t, name);
    FoundRoot(s, name);
    RunIsolates(s, ops, t, r);
    SameTreeView(s.g, s.roots, t.g, r, q);
  }

  /** As it was last left: leave snapshot r by restoring another one, run anything that does not
      restore r, and restore r. */
  lemma RestoreAsLastLeft<N>(s: State<N>, other: Str, ops: seq<Op<N>>, t: State<N>, name: Str, q: seq<Str>)
    requires Inv(s) && name != [] && FindSnap(s.snaps, name) == Some(s.root)
    requires SnapRestore(s, other).1 && Inv(SnapRestore(s, other).0)
    requires Run(SnapRestore(s, other).0, ops, t) && Away(SnapRestore(s, other).0, ops, s.root)
    ensures SnapRestore(t, name).1 && EntryAt(SnapRestore(t, name).0, q) == EntryAt(s, q)
  {
    RestoreFindsTree(SnapRestore(s, other).0, ops, t, name, s.root, q);
  }

  lemma CloneView<N>(s: State<N>, h: Graph<N>, c: N, used: nat, f: Forest, q: seq<Str>)
    requires Inv(s) && IsClone(s, h, c, used) && Shape(s.g, [s.root], f) && Fits(s.used, Cost(f))
    ensures View(s.g + h, c, q) == EntryAt(s, q)
  {
    ClonedExactIff(f, s.used);
    UnionWf(s.g, s.roots, h, c);
    ShapeExtends(h, s.g + h, [c], f);
    ShapeDecidesView(s.g, s.root, s.g + h, c, f, q);
  }

  /** Create a snapshot, run any calls that do not make it live, restore it: every path holds what
      it held at creation, provided the clone fitted in the heap. */
  lemma SnapshotRoundTrip<N>(s: State<N>, name: Str, h: Graph<N>, c: N, used: nat, f: Forest,
                             ops: seq<Op<N>>, t: State<N>, q: seq<Str>)
    requires Inv(s) && Enabled(s, SnapCreateOp(name, h, c, used)) && SnapCreate(s, name, h, c, used).1
    requires Shape(s.g, [s.root], f) && Fits(s.used, Cost(f))
    requires var s1 := SnapCreate(s, name, h, c, used).0; Inv(s1) && Run(s1, ops, t) && Away(s1, ops, c)
    ensures SnapRestore(t, name).1 && EntryAt(SnapRestore(t, name).0, q) == EntryAt(s, q)
  {
    var s1 := SnapCreate(s, name, h, c, used).0;
    RestoreFindsTree(s1, ops, t, name, c, q);
    CloneView(s, h, c, used, f, q);
  }

  /** When fs_snap_create succeeds, and what it stores: the new name leads to the clone, every other
      name to what it led to before, and the heap has lost the clone and one list element. */
  lemma SnapCreateWhen<N>(s: State<N>, name: Str, h: Graph<N>, c: N, used: nat, f: Forest)
    requires Inv(s) && IsClone(s, h, c, used) && Shape(s.g, [s.root], f)
    ensures var (t, ok) := SnapCreate(s, name, h, c, used);
            && (ok <==> 1 <= |name| <= 31 && (forall x :: x in s.snaps ==> x.name != name)
                        && Fits(s.used, NODE_SIZE) && Fits(used, 40))
            && (ok ==> FindSnap(t.snaps, name) == Some(c) && t.used == used + 40
                       && (forall other: Str :: other != name ==> FindSnap(t.snaps, other) == FindSnap(s.snaps, other)))
            && (ok && Fits(s.used, Cost(f)) ==> t.used == s.used + Cost(f) + 40)
            && (!ok ==> t.g == s.g && t.snaps == s.snaps && t.roots == s.roots)
  {
    var (t, ok) := SnapCreate(s, name, h, c, used);
    NameIsFree(s.snaps, name);
    ClonedExactIff(f, s.used);
    if ok {
      assert t.snaps[1..] == s.snaps;
    }
  }

  lemma NameIsFree<N>(snaps: seq<Snap<N>>, name: Str)
    ensures FindSnap(snaps, name) == None <==> forall x :: x in snaps ==> x.name != name
  {
  }

  lemma RootNotClone<N>(s: State<N>, h: Graph<N>, c: N, used: nat)
    requires Inv(s) && IsClone(s, h, c, used)
    ensures s.root != c && c !in s.roots
  {
    assert s.root in s.g;
  }

  lemma CostAtLeastNode<N>(s: State<N>, f: Forest)
    requires Shape(s.g, [s.root], f)
    ensures Cost(f) >= NODE_SIZE
  {
    CostStep(f);
  }

  lemma OneCall<N>(s: State<N>, op: Op<N>, r: N)
    requires Inv(s) && Enabled(s, op)
    ensures Run(s, [op], Step(s, op)) && (s.root != r ==> Away(s, [op], r))
  {
    assert [op][1..] == [];
    StepInv(s, op);
  }

  /** The second of two snapshots leaves the first one as it is. */
  lemma FirstIsKept<N>(s: State<N>, a: Str, h: Graph<N>, c: N, used: nat, op: Op<N>, f: Forest, q: seq<Str>)
    requires Inv(s) && IsClone(s, h, c, used) && Shape(s.g, [s.root], f) && Fits(s.used, Cost(f))
    requires SnapCreate(s, a, h, c, used).1 && Inv(SnapCreate(s, a, h, c, used).0)
    requires Enabled(SnapCreate(s, a, h, c, used).0, op)
    ensures var u := Step(SnapCreate(s, a, h, c, used).0, op);
            SnapRestore(u, a).1 && EntryAt(SnapRestore(u, a).0, q) == EntryAt(s, q)
  {
    var t := SnapCreate(s, a, h, c, used).0;
    RootNotClone(s, h, c, used);
    OneCall(t, op, c);
    SnapshotRoundTrip(s, a, h, c, used, f, [op], Step(t, op), q);
  }

  /** A snapshot just made, restored at once. */
  lemma LastIsThere<N>(s: State<N>, b: Str, h: Graph<N>, c: N, used: nat, f: Forest, q: seq<Str>)
    requires Inv(s) && IsClone(s, h, c, used) && Shape(s.g, [s.root], f) && Fits(s.used, Cost(f))
    requires SnapCreate(s, b, h, c, used).1 && Inv(SnapCreate(s, b, h, c, used).0)
    ensures var u := SnapCreate(s, b, h, c, used).0;
            SnapRestore(u, b).1 && EntryAt(SnapRestore(u, b).0, q) == EntryAt(s, q)
  {
    SnapshotRoundTrip(s, b, h, c, used, f, [], SnapCreate(s, b, h, c, used).0, q);
  }

  /** Making a snapshot leaves the live tree, and its cost, as they are. */
  lemma LiveTreeStays<N>(s: State<N>, a: Str, h: Graph<N>, c: N, used: nat, f: Forest, q: seq<Str>)
    requires Inv(s) && IsClone(s, h, c, used) && Shape(s.g, [s.root], f)
    ensures var t := SnapCreate(s, a, h, c, used).0;
            t.root == s.root && Shape(t.g, [t.root], f) && EntryAt(t, q) == EntryAt(s, q)
  {
    var t := SnapCreate(s, a, h, c, used).0;
    ShapeExtends(s.g, t.g, [s.root], f);
    ShapeDecidesView(s.g, s.root, t.g, s.root, f, q);
  }

  /** Two snapshots, made one after the other with room on the heap: both are made, and restoring
      either one gives every path what it held. */
  lemma TwoSnapshots<N>(s: State<N>, a: Str, h: Graph<N>, c: N, used: nat,
                        b: Str, k: Graph<N>, d: N, more: nat, f: Forest, q: seq<Str>)
    requires Inv(s) && IsClone(s, h, c, used) && IsClone(SnapCreate(s, a, h, c, used).0, k, d, more)
    requires Shape(s.g, [s.root], f) && Fits(s.used, 2 * (Cost(f) + 40))
    requires 1 <= |a| <= 31 && 1 <= |b| <= 31 && a != b && forall x :: x in s.snaps ==> x.name != a && x.name != b
    ensures var (t, first) := SnapCreate(s, a, h, c, used);
            var (u, second) := SnapCreate(t, b, k, d, more);
            && first && second && SnapRestore(u, a).1 && SnapRestore(u, b).1
            && EntryAt(SnapRestore(u, a).0, q) == EntryAt(s, q) && EntryAt(SnapRestore(u, b).0, q) == EntryAt(s, q)
  {
    var t := SnapCreate(s, a, h, c, used).0;
    CostAtLeastNode(s, f);
    SnapCreateWhen(s, a, h, c, used, f);
    SnapCreateInv(s, a, h, c, used);
    LiveTreeStays(s, a, h, c, used, f, q);
    NameIsFree(s.snaps, b);
    NameIsFree(t.snaps, b);
    SnapCreateWhen(t, b, k, d, more, f);
    SnapCreateInv(t, b, k, d, more);
    ClonedExactIff(f, t.used);
    FirstIsKept(s, a, h, c, used, SnapCreateOp(b, k, d, more), f, q);
    LastIsThere(t, b, k, d, more, f, q);
  }

  // ---------------------------------------------------------------- what a call takes from the heap

  /** A new file of n bytes: the node, and the buffer if that fits too. */
  function FileBytes(used: nat, n: nat): nat {
    56 + if Fits(used + 56, n + 1) then n + 1 else 0
  }

  /** The bytes a call takes: 56 for a node, size + 1 for a buffer, 40 for a snapshot. */
  ghost function Takes<N>(s: State<N>, op: Op<N>): int {
    match op
    case MkdirOp(path, n) => if AddsAt(s, path) then 56 else 0
    case TouchOp(path, n) => if AddsAt(s, path) then 56 else 0
    case WriteOp(path, data, n) => if AddsAt(s, path) then FileBytes(s.used, |data|) else 0
    case WriteCwdOp(name, data, n) =>
      if AddsToCwd(s, name) then FileBytes(s.used, |data|)
      else if FillsInCwd(s, name) && Fits(s.used, |data| + 1) then |data| + 1 else 0
    case ReadOp(path) => match Read(s, path).1 { case Some(data) => |data| + 1 case None => 0 }
    case CopyOp(path, newPath, n) =>
      if !AddsCopy(s, path, newPath) then 0
      else
        var data := s.g[Resolve(s, path).value].data;
        if data == [] then 56 else FileBytes(s.used, |data|)
    case SnapCreateOp(name, h, c, used) =>
      if !(SnapNameOk(s, name) && Fits(s.used, 56)) then 0 else used - s.used + if Fits(used, 40) then 40 else 0
    case OtherOp(usedAfter) => usedAfter - s.used
    case _ => 0
  }

  /** fs_write_cwd finds a file to overwrite. */
  ghost predicate FillsInCwd<N>(s: State<N>, name: Str) {
    && name != [] && Child(s.g, s.cwd, name).Some?
    && Child(s.g, s.cwd, name).value in s.g && !s.g[Child(s.g, s.cwd, name).value].isDir
  }

  lemma WriteCwdTakes<N>(s: State<N>, name: Str, data: Str, n: N)
    requires Inv(s)
    ensures WriteCwd(s, name, data, n).0.used == s.used + Takes(s, WriteCwdOp(name, data, n))
  {
  }

  lemma CopyTakes<N>(s: State<N>, path: Str, newPath: Str, n: N)
    requires Inv(s)
    ensures Copy(s, path, newPath, n).0.used == s.used + Takes(s, CopyOp(path, newPath, n))
  {
    if Resolve(s, path).Some? {
      ResolveGood(s, path);
    }
  }

  lemma WriteTakes<N>(s: State<N>, path: Str, data: Str, n: N)
    ensures Write(s, path, data, n).0.used == s.used + Takes(s, WriteOp(path, data, n))
  {
  }

  /** The heap after a call: exactly that much less, and never more. */
  lemma StepTakes<N>(s: State<N>, op: Op<N>)
    requires Inv(s) && Enabled(s, op)
    ensures Step(s, op).used == s.used + Takes(s, op)
  {
    match op
    case WriteOp(path, data, n) => WriteTakes(s, path, data, n);
    case WriteCwdOp(name, data, n) => WriteCwdTakes(s, name, data, n);
    case CopyOp(path, newPath, n) => CopyTakes(s, path, newPath, n);
    case _ =>
  }

  // ---------------------------------------------------------------- orderly runs

  /** The working directory can be reached from the root. */
  ghost predicate Attached<N>(s: State<N>) {
    exists c :: At(s, c)
  }

  /** The three calls that can spoil a tree, each told by what it is about to do: write an unclean
      or clipped-and-taken name, remove the working directory, move it below itself. */
  ghost predicate Orderly<N>(s: State<N>, c: seq<Str>, op: Op<N>) {
    match op
    case WriteCwdOp(name, data, n) =>
      AddsToCwd(s, name) ==> SLASH !in Clip(name) && Child(s.g, s.cwd, Clip(name)) == None
    case RmdirOp(path) =>
      !(path != [] && Abs(c, path) == c && c != [] && forall x :: EntryAt(s, c + [x]) == None)
    case RenameOp(path, newPath) =>
      !(path != [] && CanMove(s, Abs(c, path), Abs(c, newPath))
        && Abs(c, path) <= Init(Abs(c, newPath)) && Abs(c, path) <= c)
    case _ => true
  }

  /** Where the working directory is after an orderly call. */
  ghost function CwdAfter<N>(s: State<N>, c: seq<Str>, op: Op<N>): seq<Str> {
    match op
    case ChdirOp(path) => if path != [] && EntryAt(s, Abs(c, path)) == Some(Dir) then Abs(c, path) else c
    case SnapRestoreOp(name) => if name != [] && FindSnap(s.snaps, name).Some? then [] else c
    case RenameOp(path, newPath) =>
      var p, dst := Abs(c, path), Abs(c, newPath);
      if path != [] && CanMove(s, p, dst) && p <= c then dst + c[|p|..] else c
    case _ => c
  }

  lemma WriteCwdAt<N>(s: State<N>, c: seq<Str>, name: Str, data: Str, n: N)
    requires Good(s, c) && Enabled(s, WriteCwdOp(name, data, n)) && Orderly(s, c, WriteCwdOp(name, data, n))
    ensures At(WriteCwd(s, name, data, n).0, c)
  {
    var k := Child(s.g, s.cwd, name);
    if name != [] && (k.Some? || Fits(s.used, NODE_SIZE)) {
      if k.Some? {
        CwdChildGood(s, name);
        assert NodeOk(s.g, s.roots, k.value);
      }
      WriteCwdEffect(s, c, name, data, n);
    }
  }

  lemma RenameAt<N>(s: State<N>, c: seq<Str>, path: Str, newPath: Str)
    requires Good(s, c) && NUL !in newPath
    ensures Orderly(s, c, RenameOp(path, newPath)) ==>
              At(Rename(s, path, newPath).0, CwdAfter(s, c, RenameOp(path, newPath)))
    ensures !Orderly(s, c, RenameOp(path, newPath)) ==> forall q :: !At(Rename(s, path, newPath).0, q)
  {
    if path != [] {
      var p, dst := Abs(c, path), Abs(c, newPath);
      RenameWhen(s, c, path, newPath);
      if CanMove(s, p, dst) {
        if p <= Init(dst) {
          RenameBelowItself(s, c, path, newPath);
        } else {
          RenameEffect(s, c, path, newPath);
        }
      }
    }
  }

  lemma RmdirAt<N>(s: State<N>, c: seq<Str>, path: Str)
    requires Good(s, c)
    ensures if Orderly(s, c, RmdirOp(path)) then At(Rmdir(s, path).0, c) else forall q :: !At(Rmdir(s, path).0, q)
  {
    if path != [] {
      RmdirEffect(s, c, path);
      EntryWalk(s, c);
    }
  }

  lemma StepAt<N>(s: State<N>, c: seq<Str>, op: Op<N>)
    requires Good(s, c) && Enabled(s, op) && Orderly(s, c, op)
    ensures At(Step(s, op), CwdAfter(s, c, op))
  {
    match op
    case MkdirOp(path, n) => CreateEffect(s, c, path, true, n);
    case TouchOp(path, n) => CreateEffect(s, c, path, false, n);
    case WriteOp(path, data, n) => WriteEffect(s, c, path, data, n);
    case WriteCwdOp(name, data, n) => WriteCwdAt(s, c, name, data, n);
    case ReadOp(path) =>
    case ChdirOp(path) => if path != [] { ChdirEffect(s, c, path); }
    case UnlinkOp(path) => if path != [] { UnlinkEffect(s, c, path); }
    case RmdirOp(path) => RmdirAt(s, c, path);
    case RenameOp(path, newPath) => RenameAt(s, c, path, newPath);
    case CopyOp(path, newPath, n) => if path != [] { CopyEffect(s, c, path, newPath, n); }
    case SnapCreateOp(name, h, r, used) => SnapCreateEffect(s, c, name, h, r, used, []);
    case SnapRestoreOp(name) => SnapRestoreEffect(s, name, []);
    case SetKeyOp(key) =>
    case OtherOp(usedAfter) =>
  }

  lemma StepGood<N>(s: State<N>, c: seq<Str>, op: Op<N>)
    requires Good(s, c) && Enabled(s, op) && Orderly(s, c, op)
    ensures Good(Step(s, op), CwdAfter(s, c, op))
  {
    StepInv(s, op);
    StepAt(s, c, op);
    if op.WriteCwdOp? {
      WriteCwdNamesIff(s, op.name, op.data, op.n);
    } else {
      StepNames(s, op);
    }
  }

  /** From a good state a call leaves names distinct and slash-free and the working directory in
      the tree exactly when it is orderly. */
  lemma StepOrderlyIff<N>(s: State<N>, c: seq<Str>, op: Op<N>)
    requires Good(s, c) && Enabled(s, op)
    ensures Names(Step(s, op)) && Attached(Step(s, op)) <==> Orderly(s, c, op)
  {
    if Orderly(s, c, op) {
      StepGood(s, c, op);
    } else if op.WriteCwdOp? {
      WriteCwdNamesIff(s, op.name, op.data, op.n);
    } else if op.RmdirOp? {
      RmdirAt(s, c, op.path);
    } else {
      RenameAt(s, c, op.path, op.newPath);
    }
  }

  /** The calls of the run are orderly, each in the state it is made in. */
  ghost predicate OrderlyRun<N>(s: State<N>, c: seq<Str>, ops: seq<Op<N>>)
    requires Good(s, c)
    decreases |ops|
  {
    ops != [] ==>
      && Enabled(s, ops[0]) && Orderly(s, c, ops[0])
      && (StepGood(s, c, ops[0]); OrderlyRun(Step(s, ops[0]), CwdAfter(s, c, ops[0]), ops[1..]))
  }

  /** In every state of the run names are distinct and slash-free and the working directory is in
      the tree. */
  ghost predicate TidyAlong<N>(s: State<N>, ops: seq<Op<N>>)
    requires Inv(s)
    decreases |ops|
  {
    && Names(s) && Attached(s)
    && (ops != [] ==> Enabled(s, ops[0]) && (StepInv(s, ops[0]); TidyAlong(Step(s, ops[0]), ops[1..])))
  }

  /** A run keeps the tree tidy throughout exactly when all its calls are orderly. */
  lemma {:induction false} RunTidyIff<N>(s: State<N>, c: seq<Str>, ops: seq<Op<N>>)
    requires Good(s, c)
    ensures TidyAlong(s, ops) <==> OrderlyRun(s, c, ops)
    decreases |ops|
  {
    if ops != [] && Enabled(s, ops[0]) {
      StepInv(s, ops[0]);
      StepOrderlyIff(s, c, ops[0]);
      if Orderly(s, c, ops[0]) {
        StepGood(s, c, ops[0]);
        RunTidyIff(Step(s, ops[0]), CwdAfter(s, c, ops[0]), ops[1..]);
      }
    }
  }

  lemma {:induction false} RunGood<N>(s: State<N>, c: seq<Str>, ops: seq<Op<N>>, t: State<N>) returns (ct: seq<Str>)
    requires Good(s, c) && OrderlyRun(s, c, ops) && Run(s, ops, t)
    ensures Good(t, ct)
    decreases |ops|
  {
    if ops == [] {
      return c;
    }
    StepGood(s, c, ops[0]);
    ct := RunGood(Step(s, ops[0]), CwdAfter(s, c, ops[0]), ops[1..], t);
  }

  lemma InitialGood<N>(n: N, key: Str, used: nat)
    ensures Good(Initial(n, key, used), [])
  {
    InitialInv(n, key, used);
  }

  /** Whatever orderly calls are made from the start on, the file system stays tidy. */
  lemma RunsStayGood<N>(n: N, key: Str, used: nat, ops: seq<Op<N>>, t: State<N>) returns (c: seq<Str>)
    requires (InitialGood(n, key, used);
              OrderlyRun(Initial(n, key, used), [], ops) && Run(Initial(n, key, used), ops, t))
    ensures Good(t, c)
  {
    InitialGood(n, key, used);
    c := RunGood(Initial(n, key, used), [], ops, t);
  }

  // ---------------------------------------------------------------- contents survive

  /** The calls that overwrite or remove the file at p, lose a directory above it, switch to another
      tree, or change the key. */
  ghost predicate Disturbs<N>(s: State<N>, c: seq<Str>, op: Op<N>, p: seq<Str>) {
    match op
    case WriteCwdOp(name, data, n) => c + [name] == p
    case UnlinkOp(path) => Abs(c, path) == p
    case RenameOp(path, newPath) =>
      && path != [] && CanMove(s, Abs(c, path), Abs(c, newPath))
      && Abs(c, path) <= p && Abs(c, path) <= Init(Abs(c, newPath))
    case SnapRestoreOp(name) => SnapRestore(s, name).1 && FindSnap(s.snaps, name) != Some(s.root)
    case SetKeyOp(key) => Crypto.KeyOf(key) != s.key
    case _ => false
  }

  /** Where the file at p is after a call: it moves along with any directory above it. */
  ghost function FileAfter<N>(s: State<N>, c: seq<Str>, op: Op<N>, p: seq<Str>): seq<Str> {
    match op
    case RenameOp(path, newPath) =>
      var src, dst := Abs(c, path), Abs(c, newPath);
      if path != [] && CanMove(s, src, dst) && src <= p then dst + p[|src|..] else p
    case _ => p
  }

  lemma WriteCwdKeeps<N>(s: State<N>, c: seq<Str>, name: Str, data: Str, n: N, p: seq<Str>)
    requires Good(s, c) && Enabled(s, WriteCwdOp(name, data, n)) && Orderly(s, c, WriteCwdOp(name, data, n))
    requires EntryAt(s, p).Some? && c + [name] != p
    ensures EntryAt(WriteCwd(s, name, data, n).0, p) == EntryAt(s, p)
  {
    var k := Child(s.g, s.cwd, name);
    if name != [] && (k.Some? || Fits(s.used, NODE_SIZE)) {
      if k.Some? {
        CwdChildGood(s, name);
        assert NodeOk(s.g, s.roots, k.value);
      } else {
        WalkSnoc(s.g, s.root, c, Clip(name));
        EntryWalk(s, c + [Clip(name)]);
      }
      WriteCwdEffect(s, c, name, data, n);
    }
  }

  lemma RenameKeepsOthers<N>(s: State<N>, c: seq<Str>, path: Str, newPath: Str, p: seq<Str>)
    requires Good(s, c) && NUL !in newPath && EntryAt(s, p).Some? && !(Abs(c, path) <= p)
    ensures EntryAt(Rename(s, path, newPath).0, p) == EntryAt(s, p)
  {
    if path != [] {
      var dst := Abs(c, newPath);
      RenameWhen(s, c, path, newPath);
      if CanMove(s, Abs(c, path), dst) {
        if dst <= p {
          PrefixSplit(dst, p);
          WalkAppend(s.g, s.root, dst, p[|dst|..]);
          EntryWalk(s, dst);
          EntryWalk(s, p);
        }
        if Abs(c, path) <= Init(dst) {
          RenameBelowItself(s, c, path, newPath);
        } else {
          RenameEffect(s, c, path, newPath);
        }
      }
    }
  }

  lemma Rebased(src: seq<Str>, dst: seq<Str>, p: seq<Str>)
    requires src <= p
    ensures dst <= dst + p[|src|..] && src + (dst + p[|src|..])[|dst|..] == p
  {
    assert (dst + p[|src|..])[|dst|..] == p[|src|..];
    PrefixSplit(src, p);
  }

  lemma RenameTakesAlong<N>(s: State<N>, c: seq<Str>, path: Str, newPath: Str, q: seq<Str>)
    requires Good(s, c) && path != [] && NUL !in newPath
    requires CanMove(s, Abs(c, path), Abs(c, newPath)) && !(Abs(c, path) <= Init(Abs(c, newPath)))
    requires Abs(c, newPath) <= q
    ensures EntryAt(Rename(s, path, newPath).0, q) == EntryAt(s, Abs(c, path) + q[|Abs(c, newPath)|..])
  {
    RenameEffect(s, c, path, newPath);
  }

  lemma RenameMovesFile<N>(s: State<N>, c: seq<Str>, path: Str, newPath: Str, p: seq<Str>)
    requires Good(s, c) && path != [] && NUL !in newPath && Abs(c, path) <= p
    requires CanMove(s, Abs(c, path), Abs(c, newPath)) && !(Abs(c, path) <= Init(Abs(c, newPath)))
    ensures EntryAt(Rename(s, path, newPath).0, Abs(c, newPath) + p[|Abs(c, path)|..]) == EntryAt(s, p)
  {
    Rebased(Abs(c, path), Abs(c, newPath), p);
    RenameTakesAlong(s, c, path, newPath, Abs(c, newPath) + p[|Abs(c, path)|..]);
  }

  lemma RenameKeepsFile<N>(s: State<N>, c: seq<Str>, path: Str, newPath: Str, p: seq<Str>)
    requires Good(s, c) && NUL !in newPath && EntryAt(s, p).Some? && !Disturbs(s, c, RenameOp(path, newPath), p)
    ensures EntryAt(Rename(s, path, newPath).0, FileAfter(s, c, RenameOp(path, newPath), p)) == EntryAt(s, p)
  {
    if path == [] {
      assert Rename(s, path, newPath).0 == s;
    } else if !CanMove(s, Abs(c, path), Abs(c, newPath)) {
      RenameWhen(s, c, path, newPath);
    } else if Abs(c, path) <= p {
      RenameMovesFile(s, c, path, newPath, p);
    } else {
      RenameKeepsOthers(s, c, path, newPath, p);
    }
  }

  lemma StepKeepsFile<N>(s: State<N>, c: seq<Str>, op: Op<N>, p: seq<Str>)
    requires Good(s, c) && Enabled(s, op) && Orderly(s, c, op) && !Disturbs(s, c, op, p)
    requires EntryAt(s, p).Some? && EntryAt(s, p).value.File?
    ensures EntryAt(Step(s, op), FileAfter(s, c, op, p)) == EntryAt(s, p)
  {
    match op
    case MkdirOp(path, n) => CreateEffect(s, c, path, true, n);
    case TouchOp(path, n) => CreateEffect(s, c, path, false, n);
    case WriteOp(path, data, n) => WriteEffect(s, c, path, data, n);
    case WriteCwdOp(name, data, n) => WriteCwdKeeps(s, c, name, data, n, p);
    case ReadOp(path) => if path != [] { ReadEffect(s, c, path); }
    case ChdirOp(path) =>
    case UnlinkOp(path) => if path != [] { UnlinkEffect(s, c, path); }
    case RmdirOp(path) => if path != [] { RmdirEffect(s, c, path); }
    case RenameOp(path, newPath) => RenameKeepsFile(s, c, path, newPath, p);
    case CopyOp(path, newPath, n) => if path != [] { CopyEffect(s, c, path, newPath, n); }
    case SnapCreateOp(name, h, r, used) => SnapCreateEffect(s, c, name, h, r, used, p);
    case SnapRestoreOp(name) =>
    case SetKeyOp(key) =>
    case OtherOp(usedAfter) =>
  }

  /** A run of orderly calls none of which disturbs the file that starts at p. */
  ghost predicate Calm<N>(s: State<N>, c: seq<Str>, ops: seq<Op<N>>, p: seq<Str>)
    requires Good(s, c)
    decreases |ops|
  {
    ops != [] ==>
      && Enabled(s, ops[0]) && Orderly(s, c, ops[0]) && !Disturbs(s, c, ops[0], p)
      && (StepGood(s, c, ops[0]);
          Calm(Step(s, ops[0]), CwdAfter(s, c, ops[0]), ops[1..], FileAfter(s, c, ops[0], p)))
  }

  /** Where a calm run takes the file that starts at p. */
  ghost function FileAtEnd<N>(s: State<N>, c: seq<Str>, ops: seq<Op<N>>, p: seq<Str>): seq<Str>
    requires Good(s, c) && Calm(s, c, ops, p)
    decreases |ops|
  {
    if ops == [] then p
    else
      StepGood(s, c, ops[0]);
      FileAtEnd(Step(s, ops[0]), CwdAfter(s, c, ops[0]), ops[1..], FileAfter(s, c, ops[0], p))
  }

  lemma {:induction false} RunKeepsFile<N>(s: State<N>, c: seq<Str>, ops: seq<Op<N>>, t: State<N>, p: seq<Str>)
      returns (ct: seq<Str>)
    requires Good(s, c) && Run(s, ops, t) && Calm(s, c, ops, p)
    requires EntryAt(s, p).Some? && EntryAt(s, p).value.File?
    ensures Good(t, ct) && EntryAt(t, FileAtEnd(s, c, ops, p)) == EntryAt(s, p) && t.key == s.key
    decreases |ops|
  {
    if ops == [] {
      return c;
    }
    StepGood(s, c, ops[0]);
    StepKeepsFile(s, c, ops[0], p);
    StepFrame(s, ops[0]);
    ct := RunKeepsFile(Step(s, ops[0]), CwdAfter(s, c, ops[0]), ops[1..], t, FileAfter(s, c, ops[0], p));
  }

  /** A stored file reads back after any calm run, wherever renames took it, by any spelling of its path. */
  lemma StoredSurvives<N>(s: State<N>, c: seq<Str>, ops: seq<Op<N>>, t: State<N>, p: seq<Str>, data: Str, again: Str)
    requires Good(s, c) && Run(s, ops, t) && Calm(s, c, ops, p) && data != []
    requires EntryAt(s, p) == Some(File(Crypto.Cipher(s.key, data)))
    requires again != [] && again[0] == SLASH && Tokens(again) == FileAtEnd(s, c, ops, p) && Fits(t.used, |data| + 1)
    ensures Read(t, again).1 == Some(data)
  {
    var ct := RunKeepsFile(s, c, ops, t, p);
    ReadEffect(t, ct, again);
    Crypto.CipherTwice(s.key, data);
  }

  /** What fs_write stored, fs_read returns after any calm run. */
  lemma ContentsSurvive<N>(s: State<N>, c: seq<Str>, path: Str, data: Str, n: N,
                           s1: State<N>, ops: seq<Op<N>>, t: State<N>, again: Str)
    requires Good(s, c) && NUL !in path && (AddsAt(s, path) ==> n !in s.g) && data != []
    requires Write(s, path, data, n) == (s1, true)
    requires Good(s1, c) && Run(s1, ops, t) && Calm(s1, c, ops, Abs(c, path))
    requires again != [] && again[0] == SLASH && Tokens(again) == FileAtEnd(s1, c, ops, Abs(c, path))
    requires Fits(t.used, |data| + 1)
    ensures Read(t, again).1 == Some(data)
  {
    WriteEffect(s, c, path, data, n);
    StoredSurvives(s1, c, ops, t, Abs(c, path), data, again);
  }

  lemma WriteCwdStores<N>(s: State<N>, c: seq<Str>, name: Str, data: Str, n: N)
    requires Good(s, c) && ValidName(name) && (AddsToCwd(s, name) ==> n !in s.g) && WriteCwd(s, name, data, n).1
    ensures EntryAt(WriteCwd(s, name, data, n).0, c + [name]) == Some(File(Crypto.Cipher(s.key, data)))
  {
    WriteCwdEffect(s, c, name, data, n);
  }

  /** So it does for fs_write_cwd, whether it made the file or overwrote it. */
  lemma CwdContentsSurvive<N>(s: State<N>, c: seq<Str>, name: Str, data: Str, n: N,
                              s1: State<N>, ops: seq<Op<N>>, t: State<N>, again: Str)
    requires Good(s, c) && ValidName(name) && (AddsToCwd(s, name) ==> n !in s.g) && data != []
    requires WriteCwd(s, name, data, n) == (s1, true)
    requires Good(s1, c) && Run(s1, ops, t) && Calm(s1, c, ops, c + [name])
    requires again != [] && again[0] == SLASH && Tokens(again) == FileAtEnd(s1, c, ops, c + [name])
    requires Fits(t.used, |data| + 1)
    ensures Read(t, again).1 == Some(data)
  {
    WriteCwdStores(s, c, name, data, n);
    StoredSurvives(s1, c, ops, t, c + [name], data, again);
  }
}
