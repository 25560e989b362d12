/** Moving, copying and snapshots as operations on the map from paths to entries. */
module FsMoves {
  import opened Text
  import opened NodeGraph
  import opened GraphEdits
  import opened Forest
  import opened KernelHeap
  import opened FsState
  import opened FsInvariant
  import opened FsPaths

  // ---------------------------------------------------------------- fs_rename

  ghost predicate CanMove<N>(s: State<N>, p: seq<Str>, dst: seq<Str>) {
    p != [] && EntryAt(s, p).Some? && Vacant(s, dst)
  }

  lemma RenameWhen<N>(s: State<N>, c: seq<Str>, path: Str, newPath: Str)
    requires Good(s, c) && path != [] && NUL !in newPath
    ensures Rename(s, path, newPath).1 <==> CanMove(s, Abs(c, path), Abs(c, newPath))
    ensures !Rename(s, path, newPath).1 ==> Rename(s, path, newPath).0 == s
    ensures Rename(s, path, newPath).1 ==>
              Resolve(s, path).Some? && Target(s, newPath).Some?
              && Moves(s, Abs(c, path), Abs(c, newPath),
                       Resolve(s, path).value, Target(s, newPath).value.0, Target(s, newPath).value.1)
  {
    ResolveAbs(s, c, path);
    EntryWalk(s, Abs(c, path));
    TargetAbs(s, c, newPath);
    if Resolve(s, path).Some? {
      ResolveGood(s, path);
      if Resolve(s, path).value == s.root {
        UniquePath(s.g, s.roots, s.root, Abs(c, path), []);
      }
    }
    if Rename(s, path, newPath).1 {
      RenameMovable(s, path, newPath);
    }
  }

  /** Node m at path p can be put into directory d under `name`, which is the path `dst`. */
  ghost predicate Moves<N>(s: State<N>, p: seq<Str>, dst: seq<Str>, m: N, d: N, name: Str) {
    && Movable(s.g, s.roots, m, d, name) && Walk(s.g, s.root, p) == Some(m)
    && dst != [] && Walk(s.g, s.root, Init(dst)) == Some(d) && dst == Init(dst) + [name]
  }

  ghost function Moved<N>(s: State<N>, m: N, d: N, name: Str): State<N>
    requires Movable(s.g, s.roots, m, d, name)
  {
    s.(g := Renamed(s.g, m, d, name))
  }

  lemma MovedEntry<N>(s: State<N>, p: seq<Str>, dst: seq<Str>, m: N, d: N, name: Str, q: seq<Str>, src: seq<Str>)
    requires Inv(s) && Moves(s, p, dst, m, d, name)
    requires Walk(Renamed(s.g, m, d, name), s.root, q) == Walk(s.g, s.root, src)
    ensures EntryAt(Moved(s, m, d, name), q) == EntryAt(s, src)
  {
    EntryWalk(s, src);
    if Walk(s.g, s.root, src).Some? {
      RenamedKeeps(s.g, m, d, name, Walk(s.g, s.root, src).value);
    }
  }

  lemma MovedInto<N>(s: State<N>, p: seq<Str>, dst: seq<Str>, m: N, d: N, name: Str, q: seq<Str>)
    requires Inv(s) && Names(s) && Moves(s, p, dst, m, d, name) && !(p <= Init(dst)) && dst <= q
    ensures EntryAt(Moved(s, m, d, name), q) == EntryAt(s, p + q[|dst|..])
  {
    PrefixSplit(dst, q);
    WalkRenamedInto(s.g, s.roots, s.root, m, p, d, Init(dst), name, q[|dst|..]);
    MovedEntry(s, p, dst, m, d, name, q, p + q[|dst|..]);
  }

  /** Outside the moved subtree, a move re-keys the subtree's paths and leaves all others. */
  lemma MovedOutside<N>(s: State<N>, p: seq<Str>, dst: seq<Str>, m: N, d: N, name: Str, q: seq<Str>)
    requires Inv(s) && Names(s) && Moves(s, p, dst, m, d, name) && !(p <= Init(dst))
    ensures EntryAt(Moved(s, m, d, name), q) ==
            if dst <= q then EntryAt(s, p + q[|dst|..]) else if p <= q then None else EntryAt(s, q)
  {
    if dst <= q {
      MovedInto(s, p, dst, m, d, name, q);
    } else {
      WalkRenamed(s.g, s.roots, s.root, m, p, d, Init(dst), name, q);
    }
    if !(dst <= q) && !(p <= q) {
      MovedEntry(s, p, dst, m, d, name, q, q);
    }
  }

  /** Below itself, a move makes the whole subtree disappear. */
  lemma MovedInside<N>(s: State<N>, p: seq<Str>, dst: seq<Str>, m: N, d: N, name: Str, q: seq<Str>)
    requires Inv(s) && Names(s) && Moves(s, p, dst, m, d, name) && p <= Init(dst)
    ensures EntryAt(Moved(s, m, d, name), q) == if p <= q then None else EntryAt(s, q)
  {
    WalkRenamedBelowItself(s.g, s.roots, s.root, m, p, d, Init(dst), name, q);
    if !(p <= q) {
      MovedEntry(s, p, dst, m, d, name, q, q);
    }
  }

  /** fs_rename, into a directory outside the source: the subtree's paths are re-keyed, every other
      path keeps its entry, and the working directory moves along. */
  lemma RenameEffect<N>(s: State<N>, c: seq<Str>, path: Str, newPath: Str)
    requires Good(s, c) && path != [] && NUL !in newPath
    requires CanMove(s, Abs(c, path), Abs(c, newPath)) && !(Abs(c, path) <= Init(Abs(c, newPath)))
    ensures var (t, ok) := Rename(s, path, newPath); var p, dst := Abs(c, path), Abs(c, newPath);
            && ok && At(t, if p <= c then dst + c[|p|..] else c)
            && (forall q :: EntryAt(t, q) ==
                  if dst <= q then EntryAt(s, p + q[|dst|..]) else if p <= q then None else EntryAt(s, q))
  {
    RenameWhen(s, c, path, newPath);
    var p, dst := Abs(c, path), Abs(c, newPath);
    var m, d, name := Resolve(s, path).value, Target(s, newPath).value.0, Target(s, newPath).value.1;
    forall q ensures EntryAt(Moved(s, m, d, name), q) ==
                     if dst <= q then EntryAt(s, p + q[|dst|..]) else if p <= q then None else EntryAt(s, q) {
      MovedOutside(s, p, dst, m, d, name, q);
    }
    MovedCwd(s, c, p, dst, m, d, name);
  }

  lemma MovedCwd<N>(s: State<N>, c: seq<Str>, p: seq<Str>, dst: seq<Str>, m: N, d: N, name: Str)
    requires Good(s, c) && Moves(s, p, dst, m, d, name) && !(p <= Init(dst))
    ensures At(Moved(s, m, d, name), if p <= c then dst + c[|p|..] else c)
  {
    var c' := if p <= c then dst + c[|p|..] else c;
    WalkRenamed(s.g, s.roots, s.root, m, p, d, Init(dst), name, c');
    if p <= c {
      PrefixSplit(p, c);
      assert c'[|dst|..] == c[|p|..];
    } else if dst <= c {
      PrefixSplit(dst, c);
      WalkAppend(s.g, s.root, dst, c[|dst|..]);
      WalkSnoc(s.g, s.root, Init(dst), name);
    }
  }

  /** fs_rename of a directory below itself: the call succeeds and the subtree is lost, with the
      working directory if that was inside. */
  lemma RenameBelowItself<N>(s: State<N>, c: seq<Str>, path: Str, newPath: Str)
    requires Good(s, c) && path != [] && NUL !in newPath
    requires CanMove(s, Abs(c, path), Abs(c, newPath)) && Abs(c, path) <= Init(Abs(c, newPath))
    ensures var (t, ok) := Rename(s, path, newPath); var p := Abs(c, path);
            && ok
            && (forall q :: EntryAt(t, q) == if p <= q then None else EntryAt(s, q))
            && (if p <= c then forall q :: !At(t, q) else At(t, c))
  {
    RenameWhen(s, c, path, newPath);
    var p, dst := Abs(c, path), Abs(c, newPath);
    var m, d, name := Resolve(s, path).value, Target(s, newPath).value.0, Target(s, newPath).value.1;
    var t := Moved(s, m, d, name);
    forall q ensures EntryAt(t, q) == if p <= q then None else EntryAt(s, q) {
      MovedInside(s, p, dst, m, d, name, q);
    }
    forall q ensures if p <= c then !At(t, q) else q == c ==> At(t, q) {
      WalkRenamedBelowItself(s.g, s.roots, s.root, m, p, d, Init(dst), name, q);
      if Walk(s.g, s.root, q) == Some(s.cwd) {
        UniquePath(s.g, s.roots, s.root, c, q);
      }
    }
  }

  // ---------------------------------------------------------------- fs_copy

  /** fs_copy makes an independent file with the source's stored bytes; when only the buffer does
      not fit, the call fails and the empty file stays. */
  lemma CopyEffect<N>(s: State<N>, c: seq<Str>, path: Str, newPath: Str, n: N)
    requires Good(s, c) && path != [] && NUL !in newPath && (AddsCopy(s, path, newPath) ==> n !in s.g)
    ensures var (t, ok) := Copy(s, path, newPath, n); var p, dst := Abs(c, path), Abs(c, newPath);
            var made := EntryAt(s, p).Some? && EntryAt(s, p).value.File? && Vacant(s, dst) && Fits(s.used, NODE_SIZE);
            && At(t, c)
            && (ok <==>
                  && made
                  && (EntryAt(s, p) == Some(File([])) || Fits(s.used + NODE_SIZE, |EntryAt(s, p).value.bytes| + 1)))
            && (forall q :: EntryAt(t, q) ==
                  if made && q == dst then (if ok then EntryAt(s, p) else Some(File([]))) else EntryAt(s, q))
  {
    var p, dst := Abs(c, path), Abs(c, newPath);
    ResolveAbs(s, c, path);
    EntryWalk(s, p);
    TargetAbs(s, c, newPath);
    if Resolve(s, path).Some? && Target(s, newPath).Some? {
      ResolveGood(s, path);
      TargetGood(s, newPath);
      var m := Resolve(s, path).value;
      var (d, name) := Target(s, newPath).value;
      if !s.g[m].isDir && Fits(s.used, NODE_SIZE) {
        CopyMakes(s, c, d, dst, n, name, s.g[m].data);
      }
    }
  }

  lemma CopyMakes<N>(s: State<N>, c: seq<Str>, d: N, dst: seq<Str>, n: N, name: Str, bytes: Str)
    requires Good(s, c) && n !in s.g && dst != [] && dst == Init(dst) + [name]
    requires Walk(s.g, s.root, Init(dst)) == Some(d)
    requires d in s.g && s.g[d].isDir && s.g[d].owner == s.root && Child(s.g, d, name) == None
    requires 1 <= |name| <= NAME_MAX && NUL !in name
    ensures var s1 := AddNode(s, d, n, name, false);
            && n in s1.g && At(s1, c)
            && (forall q :: EntryAt(s1, q) == if q == dst then Some(File([])) else EntryAt(s, q))
    ensures var (t, ok) := Store(AddNode(s, d, n, name, false), n, bytes);
            && At(t, c) && (ok <==> Fits(s.used + NODE_SIZE, |bytes| + 1))
            && (forall q :: EntryAt(t, q) == if q == dst then Some(File(if ok then bytes else [])) else EntryAt(s, q))
  {
    AddNodeInv(s, d, n, name, false);
    AddNodeView(s, c, d, Init(dst), n, name, false);
    StoreView(AddNode(s, d, n, name, false), c, n, dst, bytes);
  }

  // ---------------------------------------------------------------- snapshots

  lemma {:induction false} WalkUnion<N>(g: Graph<N>, roots: set<N>, h: Graph<N>, start: N, q: seq<Str>)
    requires Wf(g, roots) && g.Keys !! h.Keys && start in g
    ensures Walk(g + h, start, q) == Walk(g, start, q)
    decreases |q|
  {
    if q != [] {
      assert NodeOk(g, roots, start);
      FindFrame(g, g + h, g[start].kids, q[0]);
      if Child(g, start, q[0]).Some? {
        WalkUnion(g, roots, h, Child(g, start, q[0]).value, q[1..]);
      }
    }
  }

  /** fs_snap_create shows at no path of the live tree. */
  lemma SnapCreateEffect<N>(s: State<N>, c: seq<Str>, name: Str, h: Graph<N>, r: N, used: nat, q: seq<Str>)
    requires Good(s, c) && Enabled(s, SnapCreateOp(name, h, r, used))
    ensures var t := SnapCreate(s, name, h, r, used).0; At(t, c) && EntryAt(t, q) == EntryAt(s, q)
  {
    if SnapCreate(s, name, h, r, used).1 {
      WalkUnion(s.g, s.roots, h, s.root, c);
      WalkUnion(s.g, s.roots, h, s.root, q);
      EntryWalk(s, q);
    }
  }

  /** fs_snap_restore makes the snapshot's own tree the live one and its root the working directory. */
  lemma SnapRestoreEffect<N>(s: State<N>, name: Str, q: seq<Str>)
    requires Inv(s)
    ensures var (t, ok) := SnapRestore(s, name);
            && (ok <==> name != [] && FindSnap(s.snaps, name).Some?)
            && (ok ==> At(t, []) && EntryAt(t, q) == View(s.g, FindSnap(s.snaps, name).value, q))
            && (!ok ==> t == s)
  {
  }
}
