/** What every call keeps, from any state and with any arguments: the tree invariant always, and
    the name and working-directory conditions exactly when stated. */
module FsInvariant {
  import opened Text
  import opened NodeGraph
  import opened GraphEdits
  import opened Forest
  import opened KernelHeap
  import opened FsState
  import Crypto

  lemma InitialInv<N>(n: N, key: Str, used: nat)
    ensures Inv(Initial(n, key, used)) && NamesOk(Initial(n, key, used).g, {n})
  {
    var s := Initial(n, key, used);
    assert NodeOk(s.g, s.roots, n);
  }

  // ---------------------------------------------------------------- the tree invariant

  lemma AddNodeInv<N>(s: State<N>, d: N, n: N, name: Str, isDir: bool)
    requires Inv(s) && d in s.g && s.g[d].isDir && s.g[d].owner == s.root && n !in s.g
    requires 1 <= |name| <= NAME_MAX && NUL !in name
    ensures Inv(AddNode(s, d, n, name, isDir))
    ensures n in AddNode(s, d, n, name, isDir).g && !AddNode(s, d, n, name, false).g[n].isDir
  {
    WfAttach(s.g, s.roots, d, n, Rec(name, isDir, [], None, [], s.root));
  }

  lemma SetDataWf<N>(g: Graph<N>, roots: set<N>, n: N, bytes: Str)
    requires Wf(g, roots) && n in g && !g[n].isDir && |bytes| < KHEAP_SIZE
    ensures Wf(SetData(g, n, bytes), roots)
  {
    var h := SetData(g, n, bytes);
    forall m | m in h ensures NodeOk(h, roots, m) {
      assert NodeOk(g, roots, m);
    }
  }

  lemma StoreInv<N>(s: State<N>, n: N, bytes: Str)
    requires Inv(s) && n in s.g && !s.g[n].isDir
    ensures Inv(Store(s, n, bytes).0)
  {
    if Store(s, n, bytes).1 {
      SetDataWf(s.g, s.roots, n, bytes);
    }
  }

  lemma CreateInv<N>(s: State<N>, path: Str, isDir: bool, n: N)
    requires Inv(s) && (AddsAt(s, path) ==> n !in s.g) && NUL !in path
    ensures var (t, ok) := Create(s, path, isDir, n);
            Inv(t) && (ok && !isDir ==> n in t.g && !t.g[n].isDir)
  {
    if Create(s, path, isDir, n).1 {
      TargetGood(s, path);
      var (d, name) := Target(s, path).value;
      AddNodeInv(s, d, n, name, isDir);
    }
  }

  lemma WriteInv<N>(s: State<N>, path: Str, data: Str, n: N)
    requires Inv(s) && (AddsAt(s, path) ==> n !in s.g) && NUL !in path
    ensures Inv(Write(s, path, data, n).0)
  {
    CreateInv(s, path, false, n);
    var (t, ok) := Create(s, path, false, n);
    if ok {
      StoreInv(t, n, Crypto.Cipher(s.key, data));
    }
  }

  lemma AddAndStoreInv<N>(s: State<N>, d: N, n: N, name: Str, bytes: Str)
    requires Inv(s) && d in s.g && s.g[d].isDir && s.g[d].owner == s.root && n !in s.g
    requires 1 <= |name| <= NAME_MAX && NUL !in name
    ensures var t := AddNode(s, d, n, name, false); Inv(t) && n in t.g && Inv(Store(t, n, bytes).0)
  {
    AddNodeInv(s, d, n, name, false);
    StoreInv(AddNode(s, d, n, name, false), n, bytes);
  }

  lemma CwdChildGood<N>(s: State<N>, name: Str)
    requires Inv(s) && Child(s.g, s.cwd, name).Some?
    ensures var m := Child(s.g, s.cwd, name).value; m in s.g && s.g[m].owner == s.root && m !in s.roots
  {
    assert NodeOk(s.g, s.roots, s.cwd);
  }

  lemma WriteCwdInv<N>(s: State<N>, name: Str, data: Str, n: N)
    requires Inv(s) && (AddsToCwd(s, name) ==> n !in s.g) && NUL !in name
    ensures Inv(WriteCwd(s, name, data, n).0)
  {
    var bytes := Crypto.Cipher(s.key, data);
    if name != [] {
      var k := Child(s.g, s.cwd, name);
      if k.Some? {
        CwdChildGood(s, name);
        if !s.g[k.value].isDir {
          StoreInv(s, k.value, bytes);
        }
      } else if Fits(s.used, NODE_SIZE) {
        AddAndStoreInv(s, s.cwd, n, Clip(name), bytes);
      }
    }
  }

  lemma DataFits<N>(s: State<N>, m: N)
    requires Inv(s) && m in s.g
    ensures |s.g[m].data| < KHEAP_SIZE
  {
    assert NodeOk(s.g, s.roots, m);
  }

  lemma DetachInv<N>(s: State<N>, m: N)
    requires Inv(s) && Chained(s.g, m)
    ensures Inv(s.(g := Detach(s.g, m)))
  {
    WfDetach(s.g, s.roots, m);
  }

  lemma UnlinkInv<N>(s: State<N>, path: Str)
    requires Inv(s)
    ensures Inv(Unlink(s, path).0)
  {
    if Unlink(s, path).1 {
      ResolveGood(s, path);
      assert NodeOk(s.g, s.roots, s.root);
      DetachInv(s, Resolve(s, path).value);
    }
  }

  lemma RmdirInv<N>(s: State<N>, path: Str)
    requires Inv(s)
    ensures Inv(Rmdir(s, path).0)
  {
    if Rmdir(s, path).1 {
      ResolveGood(s, path);
      DetachInv(s, Resolve(s, path).value);
    }
  }

  lemma RenameMovable<N>(s: State<N>, path: Str, newPath: Str)
    requires Inv(s) && NUL !in newPath && Rename(s, path, newPath).1
    ensures var (d, name) := Target(s, newPath).value;
            Movable(s.g, s.roots, Resolve(s, path).value, d, name) && SLASH !in name
  {
    ResolveGood(s, path);
    TargetGood(s, newPath);
  }

  lemma MoveInv<N>(s: State<N>, m: N, d: N, name: Str)
    requires Inv(s) && Movable(s.g, s.roots, m, d, name)
    ensures Inv(s.(g := Renamed(s.g, m, d, name)))
  {
    WfRenamed(s.g, s.roots, m, d, name);
    RenamedKeeps(s.g, m, d, name, s.cwd);
  }

  lemma RenameInv<N>(s: State<N>, path: Str, newPath: Str)
    requires Inv(s) && NUL !in newPath
    ensures Inv(Rename(s, path, newPath).0)
  {
    if Rename(s, path, newPath).1 {
      RenameMovable(s, path, newPath);
      var (d, name) := Target(s, newPath).value;
      MoveInv(s, Resolve(s, path).value, d, name);
    }
  }

  lemma CopyInv<N>(s: State<N>, path: Str, newPath: Str, n: N)
    requires Inv(s) && (AddsCopy(s, path, newPath) ==> n !in s.g) && NUL !in newPath
    ensures Inv(Copy(s, path, newPath, n).0)
  {
    if Copy(s, path, newPath, n).0 != s {
      ResolveGood(s, path);
      TargetGood(s, newPath);
      var m := Resolve(s, path).value;
      var (d, name) := Target(s, newPath).value;
      AddAndStoreInv(s, d, n, name, s.g[m].data);
    }
  }

  lemma UnionNodeOk<N>(g: Graph<N>, roots: set<N>, h: Graph<N>, c: N, m: N)
    requires Wf(g, roots) && Wf(h, {c}) && g.Keys !! h.Keys && m in g + h
    ensures NodeOk(g + h, roots + {c}, m)
  {
    if m in h {
      assert NodeOk(h, {c}, m);
    } else {
      assert NodeOk(g, roots, m);
    }
  }

  lemma UnionWf<N>(g: Graph<N>, roots: set<N>, h: Graph<N>, c: N)
    requires Wf(g, roots) && Wf(h, {c}) && g.Keys !! h.Keys
    ensures Wf(g + h, roots + {c})
  {
    forall m | m in g + h ensures NodeOk(g + h, roots + {c}, m) {
      UnionNodeOk(g, roots, h, c, m);
    }
  }

  lemma SnapsOkCons<N>(snaps: seq<Snap<N>>, roots: set<N>, name: Str, c: N)
    requires SnapsOk(snaps, roots) && FindSnap(snaps, name) == None && c !in roots
    ensures SnapsOk([Snap(name, c)] + snaps, roots + {c})
  {
  }

  lemma SnapCreateInv<N>(s: State<N>, name: Str, h: Graph<N>, c: N, used: nat)
    requires Inv(s) && Enabled(s, SnapCreateOp(name, h, c, used))
    ensures Inv(SnapCreate(s, name, h, c, used).0)
  {
    var (t, ok) := SnapCreate(s, name, h, c, used);
    if ok {
      UnionWf(s.g, s.roots, h, c);
      SnapsOkCons(s.snaps, s.roots, name, c);
    }
  }

  lemma SnapRestoreInv<N>(s: State<N>, name: Str)
    requires Inv(s)
    ensures Inv(SnapRestore(s, name).0)
  {
  }

  /** Every call keeps the tree invariant.  Nothing is asked of its arguments: removing the working
      directory and moving a directory below itself are included. */
  lemma StepInv<N>(s: State<N>, op: Op<N>)
    requires Inv(s) && Enabled(s, op)
    ensures Inv(Step(s, op))
  {
    match op
    case MkdirOp(path, n) => CreateInv(s, path, true, n);
    case TouchOp(path, n) => CreateInv(s, path, false, n);
    case WriteOp(path, data, n) => WriteInv(s, path, data, n);
    case WriteCwdOp(name, data, n) => WriteCwdInv(s, name, data, n);
    case ReadOp(path) =>
    case ChdirOp(path) => if Chdir(s, path).1 { ResolveGood(s, path); }
    case UnlinkOp(path) => UnlinkInv(s, path);
    case RmdirOp(path) => RmdirInv(s, path);
    case RenameOp(path, newPath) => RenameInv(s, path, newPath);
    case CopyOp(path, newPath, n) => CopyInv(s, path, newPath, n);
    case SnapCreateOp(name, h, c, used) => SnapCreateInv(s, name, h, c, used);
    case SnapRestoreOp(name) => SnapRestoreInv(s, name);
    case SetKeyOp(key) =>
    case OtherOp(usedAfter) =>
  }

  // ---------------------------------------------------------------- names

  ghost predicate Names<N>(s: State<N>) {
    NamesOk(s.g, s.roots)
  }

  lemma AddNodeNames<N>(s: State<N>, d: N, n: N, name: Str, isDir: bool)
    requires Inv(s) && Names(s) && d in s.g && s.g[d].isDir && s.g[d].owner == s.root && n !in s.g
    requires 1 <= |name| <= NAME_MAX && NUL !in name
    ensures Names(AddNode(s, d, n, name, isDir)) <==> SLASH !in name && Child(s.g, d, name) == None
  {
    NamesAttach(s.g, s.roots, d, n, Rec(name, isDir, [], None, [], s.root));
  }

  lemma SetDataNames<N>(g: Graph<N>, roots: set<N>, n: N, bytes: Str)
    requires n in g
    ensures NamesOk(SetData(g, n, bytes), roots) <==> NamesOk(g, roots)
  {
    var h := SetData(g, n, bytes);
    if NamesOk(g, roots) {
      forall m | m in h ensures KidNamesDistinct(h, h[m].kids) {
        SameNamesDistinct(g, h, g[m].kids);
      }
    }
    if NamesOk(h, roots) {
      forall m | m in g ensures KidNamesDistinct(g, g[m].kids) {
        SameNamesDistinct(h, g, h[m].kids);
      }
      forall m | m in g && m !in roots ensures SLASH !in g[m].name {
        assert m in h;
      }
    }
  }

  lemma StoreNames<N>(s: State<N>, n: N, bytes: Str)
    requires n in s.g
    ensures Names(Store(s, n, bytes).0) <==> Names(s)
  {
    SetDataNames(s.g, s.roots, n, bytes);
  }

  lemma CreateNames<N>(s: State<N>, path: Str, isDir: bool, n: N)
    requires Inv(s) && Names(s) && (AddsAt(s, path) ==> n !in s.g) && NUL !in path
    ensures Names(Create(s, path, isDir, n).0)
  {
    if Create(s, path, isDir, n).1 {
      TargetGood(s, path);
      var (d, name) := Target(s, path).value;
      AddNodeNames(s, d, n, name, isDir);
    }
  }

  /** fs_write_cwd checks neither slashes nor length.  It keeps names distinct and slash-free exactly
      when it adds nothing, or the clipped name it adds is slash-free and not taken. */
  lemma WriteCwdNamesIff<N>(s: State<N>, name: Str, data: Str, n: N)
    requires Inv(s) && Names(s) && (AddsToCwd(s, name) ==> n !in s.g) && NUL !in name
    ensures Names(WriteCwd(s, name, data, n).0) <==>
            (AddsToCwd(s, name) ==> SLASH !in Clip(name) && Child(s.g, s.cwd, Clip(name)) == None)
  {
    var bytes := Crypto.Cipher(s.key, data);
    if AddsToCwd(s, name) {
      AddNodeInv(s, s.cwd, n, Clip(name), false);
      AddNodeNames(s, s.cwd, n, Clip(name), false);
      StoreNames(AddNode(s, s.cwd, n, Clip(name), false), n, bytes);
    } else if name != [] && Child(s.g, s.cwd, name).Some? {
      CwdChildGood(s, name);
      StoreNames(s, Child(s.g, s.cwd, name).value, bytes);
    }
  }

  lemma DetachNames<N>(s: State<N>, m: N)
    requires Inv(s) && Names(s) && Chained(s.g, m)
    ensures NamesOk(Detach(s.g, m), s.roots)
  {
    NamesDetach(s.g, s.roots, m);
  }

  lemma RenameNames<N>(s: State<N>, path: Str, newPath: Str)
    requires Inv(s) && Names(s) && NUL !in newPath
    ensures Names(Rename(s, path, newPath).0)
  {
    if Rename(s, path, newPath).1 {
      RenameMovable(s, path, newPath);
      var (d, name) := Target(s, newPath).value;
      NamesRenamed(s.g, s.roots, Resolve(s, path).value, d, name);
    }
  }

  lemma CopyNames<N>(s: State<N>, path: Str, newPath: Str, n: N)
    requires Inv(s) && Names(s) && (AddsCopy(s, path, newPath) ==> n !in s.g) && NUL !in newPath
    ensures Names(Copy(s, path, newPath, n).0)
  {
    if Copy(s, path, newPath, n).0 != s {
      ResolveGood(s, path);
      TargetGood(s, newPath);
      var m := Resolve(s, path).value;
      var (d, name) := Target(s, newPath).value;
      AddNodeInv(s, d, n, name, false);
      AddNodeNames(s, d, n, name, false);
      StoreNames(AddNode(s, d, n, name, false), n, s.g[m].data);
    }
  }

  lemma UnionNames<N>(g: Graph<N>, roots: set<N>, h: Graph<N>, c: N)
    requires Wf(g, roots) && Wf(h, {c}) && g.Keys !! h.Keys && NamesOk(g, roots) && NamesOk(h, {c})
    ensures NamesOk(g + h, roots + {c})
  {
    var u := g + h;
    forall m | m in u ensures KidNamesDistinct(u, u[m].kids) {
      if m in h {
        assert NodeOk(h, {c}, m);
        SameNamesDistinct(h, u, h[m].kids);
      } else {
        assert NodeOk(g, roots, m);
        SameNamesDistinct(g, u, g[m].kids);
      }
    }
  }

  /** Every other call keeps names distinct and slash-free whatever its arguments are. */
  lemma StepNames<N>(s: State<N>, op: Op<N>)
    requires Inv(s) && Names(s) && Enabled(s, op) && !op.WriteCwdOp?
    ensures Names(Step(s, op))
  {
    match op
    case MkdirOp(path, n) => CreateNames(s, path, true, n);
    case TouchOp(path, n) => CreateNames(s, path, false, n);
    case WriteOp(path, data, n) =>
      CreateNames(s, path, false, n);
      CreateInv(s, path, false, n);
      if Create(s, path, false, n).1 {
        StoreNames(Create(s, path, false, n).0, n, Crypto.Cipher(s.key, data));
      }
    case ReadOp(path) =>
    case ChdirOp(path) =>
    case UnlinkOp(path) =>
      if Unlink(s, path).1 {
        ResolveGood(s, path);
        DetachNames(s, Resolve(s, path).value);
      }
    case RmdirOp(path) =>
      if Rmdir(s, path).1 {
        ResolveGood(s, path);
        DetachNames(s, Resolve(s, path).value);
      }
    case RenameOp(path, newPath) => RenameNames(s, path, newPath);
    case CopyOp(path, newPath, n) => CopyNames(s, path, newPath, n);
    case SnapCreateOp(name, h, c, used) =>
      if SnapCreate(s, name, h, c, used).1 {
        UnionNames(s.g, s.roots, h, c);
      }
    case SnapRestoreOp(name) =>
    case SetKeyOp(key) =>
    case OtherOp(usedAfter) =>
  }

  /** A 32-byte name written twice: the second call misses the clipped entry the first one made,
      and the directory ends with two entries of one name. */
  lemma LongNameIsDuplicated<N>(a: N, b: N, c: N)
    requires a != b && b != c && a != c
    ensures var s := Initial(a, [], 0);
            var name := seq(32, _ => 0x61);
            var t := WriteCwd(s, name, [], b);
            t.1 && Names(t.0) && WriteCwd(t.0, name, [], c).1 && !Names(WriteCwd(t.0, name, [], c).0)
  {
    var s := Initial(a, [], 0);
    var name: Str := seq(32, _ => 0x61);
    InitialInv(a, [], 0);
    WriteCwdNamesIff(s, name, [], b);
    WriteCwdInv(s, name, [], b);
    var t := WriteCwd(s, name, [], b).0;
    assert t.g[a].kids == [b] && t.g[b].name == Clip(name);
    assert Child(t.g, a, Clip(name)) == Some(b);
    assert Child(t.g, a, name) == None;
    WriteCwdNamesIff(t, name, [], c);
  }
}
