/** The file system as a state machine.  A step is a call of fs.c with the addresses the allocator
    hands it; the address is an argument because the heap decides it, not the caller. */
module FsState {
  import opened Text
  import opened NodeGraph
  import opened GraphEdits
  import opened Forest
  import opened KernelHeap
  import Crypto

  const SNAP_SIZE: nat := 40     // sizeof(snap_t) on i386
  const SNAP_NAME_MAX: nat := 31 // MAX_SNAP_NAME - 1

  datatype Snap<N> = Snap(name: Str, root: N)

  /** `roots` are the roots ever made: the first one and every snapshot's.  `used` is the offset of
      the bump heap. */
  datatype State<!N(==)> = State(
    g: Graph<N>, root: N, cwd: N, snaps: seq<Snap<N>>, roots: set<N>, key: Crypto.Key, used: nat)

  ghost predicate Inv<N>(s: State<N>) {
    && Wf(s.g, s.roots) && s.root in s.roots
    && s.cwd in s.g && s.g[s.cwd].isDir && s.g[s.cwd].owner == s.root
    && SnapsOk(s.snaps, s.roots)
  }

  ghost predicate SnapsOk<N>(snaps: seq<Snap<N>>, roots: set<N>) {
    && (forall x :: x in snaps ==> x.root in roots)
    && (forall i, j :: 0 <= i < j < |snaps| ==> snaps[i].name != snaps[j].name && snaps[i].root != snaps[j].root)
  }

  /** fs_init */
  ghost function Initial<N>(n: N, key: Str, used: nat): State<N> {
    State(map[n := Rec([SLASH], true, [], Some(n), [], n)], n, n, [], {n}, Crypto.KeyOf(key), used)
  }

  // ---------------------------------------------------------------- resolving paths

  ghost function StartOf<N>(s: State<N>, path: Str): N {
    if path != [] && path[0] == SLASH then s.root else s.cwd
  }

  /** fs_resolve without want_parent */
  ghost function Resolve<N>(s: State<N>, path: Str): Option<N> {
    if path == [] then None else Walk(s.g, StartOf(s, path), Tokens(path))
  }

  /** fs_resolve with want_parent, as its callers use it: the directory and the missing last name.
      When the last component exists its name comes back empty, and every caller then fails. */
  ghost function Target<N>(s: State<N>, path: Str): (t: Option<(N, Str)>)
    ensures t.Some? ==> t.value.0 in s.g && s.g[t.value.0].isDir && Child(s.g, t.value.0, t.value.1) == None
    ensures t.Some? ==> Tokens(path) != [] && t.value.1 == Tokens(path)[|Tokens(path)| - 1]
  {
    var c := Tokens(path);
    if path == [] || c == [] then None else
      match Walk(s.g, StartOf(s, path), c[..|c| - 1])
      case None => None
      case Some(d) =>
        if d in s.g && s.g[d].isDir && Child(s.g, d, c[|c| - 1]) == None then Some((d, c[|c| - 1])) else None
  }

  lemma WalkGood<N>(s: State<N>, start: N, p: seq<Str>)
    requires Inv(s) && start in {s.root, s.cwd} && Walk(s.g, start, p).Some?
    ensures var m := Walk(s.g, start, p).value;
            && m in s.g && s.g[m].owner == s.root
            && (p != [] ==> m !in s.roots && Chained(s.g, m))
  {
    WalkStays(s.g, s.roots, start, p);
    if p != [] {
      WalkLast(s.g, start, p);
      WalkStays(s.g, s.roots, start, p[..|p| - 1]);
      assert NodeOk(s.g, s.roots, Walk(s.g, start, p[..|p| - 1]).value);
    }
  }

  lemma RelativeHasTokens(path: Str)
    requires path != [] && path[0] != SLASH
    ensures Tokens(path) != []
  {
  }

  lemma ResolveGood<N>(s: State<N>, path: Str)
    requires Inv(s) && Resolve(s, path).Some?
    ensures var m := Resolve(s, path).value;
            && m in s.g && s.g[m].owner == s.root
            && (m == s.root || (m !in s.roots && Chained(s.g, m)))
  {
    WalkGood(s, StartOf(s, path), Tokens(path));
    if path[0] != SLASH {
      RelativeHasTokens(path);
    }
  }

  lemma TargetGood<N>(s: State<N>, path: Str)
    requires Inv(s) && Target(s, path).Some?
    ensures var (d, name) := Target(s, path).value;
            && s.g[d].owner == s.root && 1 <= |name| <= NAME_MAX && SLASH !in name
            && (NUL !in path ==> NUL !in name)
  {
    var c := Tokens(path);
    WalkGood(s, StartOf(s, path), c[..|c| - 1]);
    TokensValid(path);
    assert c[|c| - 1] in c;
  }

  // ---------------------------------------------------------------- operations

  /** The parts of the state that only snapshots, restores and key changes touch. */
  ghost predicate SameFrame<N>(s: State<N>, t: State<N>) {
    t.snaps == s.snaps && t.roots == s.roots && t.root == s.root && t.key == s.key
  }

  ghost function AddNode<N>(s: State<N>, d: N, n: N, name: Str, isDir: bool): State<N>
    requires d in s.g
  {
    s.(g := Attach(s.g, d, n, Rec(name, isDir, [], None, [], s.root)), used := s.used + NODE_SIZE)
  }

  /** The tail of fs_write and fs_write_cwd: a fresh buffer takes the encrypted bytes. */
  ghost function Store<N>(s: State<N>, n: N, bytes: Str): (r: (State<N>, bool))
    requires n in s.g
    ensures SameFrame(s, r.0)
  {
    if !Fits(s.used, |bytes| + 1) then (s, false)
    else (s.(g := SetData(s.g, n, bytes), used := s.used + |bytes| + 1), true)
  }

  /** fs_mkdir and fs_touch */
  ghost function Create<N>(s: State<N>, path: Str, isDir: bool, n: N): (r: (State<N>, bool))
    ensures SameFrame(s, r.0)
  {
    if |path| >= PATH_SIZE || !Fits(s.used, NODE_SIZE) then (s, false) else
      match Target(s, path)
      case None => (s, false)
      case Some((d, name)) => (AddNode(s, d, n, name, isDir), true)
  }

  ghost function Write<N>(s: State<N>, path: Str, data: Str, n: N): (r: (State<N>, bool))
    ensures SameFrame(s, r.0)
  {
    var (s1, ok) := Create(s, path, false, n);
    if !ok then (s, false) else Store(s1, n, Crypto.Cipher(s.key, data))
  }

  ghost function WriteCwd<N>(s: State<N>, name: Str, data: Str, n: N): (r: (State<N>, bool))
    requires s.cwd in s.g
    ensures SameFrame(s, r.0)
  {
    if name == [] || !s.g[s.cwd].isDir then (s, false) else
      match Child(s.g, s.cwd, name)
      case Some(m) =>
        if m !in s.g || s.g[m].isDir then (s, false) else Store(s, m, Crypto.Cipher(s.key, data))
      case None =>
        if !Fits(s.used, NODE_SIZE) then (s, false)
        else Store(AddNode(s, s.cwd, n, Clip(name), false), n, Crypto.Cipher(s.key, data))
  }

  /** fs_read: the state changes only by the buffer that is handed out. */
  ghost function Read<N>(s: State<N>, path: Str): (r: (State<N>, Option<Str>))
    ensures SameFrame(s, r.0)
  {
    match Resolve(s, path)
    case None => (s, None)
    case Some(m) =>
      if m !in s.g || s.g[m].isDir || s.g[m].data == [] || !Fits(s.used, |s.g[m].data| + 1) then (s, None)
      else (s.(used := s.used + |s.g[m].data| + 1), Some(Crypto.Cipher(s.key, s.g[m].data)))
  }

  ghost function Chdir<N>(s: State<N>, path: Str): (r: (State<N>, bool))
    ensures SameFrame(s, r.0)
  {
    match Resolve(s, path)
    case None => (s, false)
    case Some(m) => if m in s.g && s.g[m].isDir then (s.(cwd := m), true) else (s, false)
  }

  ghost function Unlink<N>(s: State<N>, path: Str): (r: (State<N>, bool))
    requires Inv(s)
    ensures SameFrame(s, r.0)
  {
    match Resolve(s, path)
    case None => (s, false)
    case Some(m) =>
      ResolveGood(s, path);
      if s.g[m].isDir then (s, false) else (s.(g := Detach(s.g, m)), true)
  }

  ghost function Rmdir<N>(s: State<N>, path: Str): (r: (State<N>, bool))
    requires Inv(s)
    ensures SameFrame(s, r.0)
  {
    match Resolve(s, path)
    case None => (s, false)
    case Some(m) =>
      ResolveGood(s, path);
      if !s.g[m].isDir || s.g[m].kids != [] || m == s.root then (s, false)
      else (s.(g := Detach(s.g, m)), true)
  }

  ghost function Rename<N>(s: State<N>, oldPath: Str, newPath: Str): (r: (State<N>, bool))
    requires Inv(s)
    ensures SameFrame(s, r.0)
  {
    match Resolve(s, oldPath)
    case None => (s, false)
    case Some(m) =>
      ResolveGood(s, oldPath);
      match Target(s, newPath)
      case None => (s, false)
      case Some((d, name)) =>
        if m == s.root then (s, false) else (s.(g := Renamed(s.g, m, d, name)), true)
  }

  /** The tail of fs_copy: a new file takes stored bytes as they are. */
  ghost function CopyInto<N>(s: State<N>, d: N, n: N, name: Str, data: Str): (r: (State<N>, bool))
    requires d in s.g
    ensures SameFrame(s, r.0)
  {
    if !Fits(s.used, NODE_SIZE) then (s, false)
    else if data == [] then (AddNode(s, d, n, name, false), true)
    else Store(AddNode(s, d, n, name, false), n, data)
  }

  ghost function Copy<N>(s: State<N>, srcPath: Str, dstPath: Str, n: N): (r: (State<N>, bool))
    requires Inv(s)
    ensures SameFrame(s, r.0)
  {
    match Resolve(s, srcPath)
    case None => (s, false)
    case Some(m) =>
      ResolveGood(s, srcPath);
      if s.g[m].isDir then (s, false) else
        match Target(s, dstPath)
        case None => (s, false)
        case Some((d, name)) => CopyInto(s, d, n, name, s.g[m].data)
  }

  ghost function FindSnap<N>(snaps: seq<Snap<N>>, name: Str): (r: Option<N>)
    ensures r.Some? ==> Snap(name, r.value) in snaps
    ensures r.None? ==> forall x :: x in snaps ==> x.name != name
  {
    if snaps == [] then None
    else if snaps[0] == Snap(name, snaps[0].root) then Some(snaps[0].root)
    else FindSnap(snaps[1..], name)
  }

  ghost predicate SnapNameOk<N>(s: State<N>, name: Str) {
    1 <= |name| <= SNAP_NAME_MAX && FindSnap(s.snaps, name) == None
  }

  /** h is the memory fs_clone_tree filled: a tree of its own, rooted at c, spelling what the
      allocator let it copy of the live tree, and leaving the heap at `used`. */
  ghost predicate IsClone<N>(s: State<N>, h: Graph<N>, c: N, used: nat) {
    && h.Keys !! s.g.Keys && c in h && Wf(h, {c})
    && (NamesOk(s.g, s.roots) ==> NamesOk(h, {c}))
    && (forall f :: Shape(s.g, [s.root], f) ==> Shape(h, [c], Cloned(f, s.used).0) && used == Cloned(f, s.used).1)
  }

  /** fs_snap_create.  Memory that a failing call leaves behind is unreachable and not tracked. */
  ghost function SnapCreate<N>(s: State<N>, name: Str, h: Graph<N>, c: N, used: nat): (State<N>, bool) {
    if !SnapNameOk(s, name) || !Fits(s.used, NODE_SIZE) then (s, false)
    else if !Fits(used, SNAP_SIZE) then (s.(used := used), false)
    else (s.(g := s.g + h, snaps := [Snap(name, c)] + s.snaps, roots := s.roots + {c}, used := used + SNAP_SIZE), true)
  }

  ghost function SnapRestore<N>(s: State<N>, name: Str): (State<N>, bool) {
    match FindSnap(s.snaps, name)
    case Some(r) => if name == [] then (s, false) else (s.(root := r, cwd := r), true)
    case None => (s, false)
  }

  // ---------------------------------------------------------------- steps

  datatype Op<!N(==)> =
    | MkdirOp(path: Str, n: N)
    | TouchOp(path: Str, n: N)
    | WriteOp(path: Str, data: Str, n: N)
    | WriteCwdOp(name: Str, data: Str, n: N)
    | ReadOp(path: Str)
    | ChdirOp(path: Str)
    | UnlinkOp(path: Str)
    | RmdirOp(path: Str)
    | RenameOp(path: Str, newPath: Str)
    | CopyOp(path: Str, newPath: Str, n: N)
    | SnapCreateOp(name: Str, h: Graph<N>, n: N, usedAfter: nat)
    | SnapRestoreOp(name: Str)
    | SetKeyOp(key: Str)
    | OtherOp(usedAfter: nat)

  /** The calls that make a node. */
  ghost predicate AddsAt<N>(s: State<N>, path: Str) {
    |path| < PATH_SIZE && Fits(s.used, NODE_SIZE) && Target(s, path).Some?
  }

  ghost predicate AddsToCwd<N>(s: State<N>, name: Str) {
    name != [] && Child(s.g, s.cwd, name) == None && Fits(s.used, NODE_SIZE)
  }

  ghost predicate AddsCopy<N>(s: State<N>, path: Str, newPath: Str) {
    && Resolve(s, path).Some? && Resolve(s, path).value in s.g && !s.g[Resolve(s, path).value].isDir
    && Target(s, newPath).Some? && Fits(s.used, NODE_SIZE)
  }

  /** Strings end at their NUL, and the allocator hands out memory not handed out before. */
  ghost predicate Enabled<N>(s: State<N>, op: Op<N>) {
    match op
    case MkdirOp(path, n) => NUL !in path && (AddsAt(s, path) ==> n !in s.g)
    case TouchOp(path, n) => NUL !in path && (AddsAt(s, path) ==> n !in s.g)
    case WriteOp(path, data, n) => NUL !in path && (AddsAt(s, path) ==> n !in s.g)
    case WriteCwdOp(name, data, n) => NUL !in name && (AddsToCwd(s, name) ==> n !in s.g)
    case RenameOp(path, newPath) => NUL !in newPath
    case CopyOp(path, newPath, n) => NUL !in newPath && (AddsCopy(s, path, newPath) ==> n !in s.g)
    case SnapCreateOp(name, h, c, used) =>
      SnapNameOk(s, name) && Fits(s.used, NODE_SIZE) ==> IsClone(s, h, c, used)
    case OtherOp(usedAfter) => s.used <= usedAfter < KHEAP_SIZE
    case _ => true
  }

  ghost function Step<N>(s: State<N>, op: Op<N>): State<N>
    requires Inv(s)
  {
    match op
    case MkdirOp(path, n) => Create(s, path, true, n).0
    case TouchOp(path, n) => Create(s, path, false, n).0
    case WriteOp(path, data, n) => Write(s, path, data, n).0
    case WriteCwdOp(name, data, n) => WriteCwd(s, name, data, n).0
    case ReadOp(path) => Read(s, path).0
    case ChdirOp(path) => Chdir(s, path).0
    case UnlinkOp(path) => Unlink(s, path).0
    case RmdirOp(path) => Rmdir(s, path).0
    case RenameOp(path, newPath) => Rename(s, path, newPath).0
    case CopyOp(path, newPath, n) => Copy(s, path, newPath, n).0
    case SnapCreateOp(name, h, c, used) => SnapCreate(s, name, h, c, used).0
    case SnapRestoreOp(name) => SnapRestore(s, name).0
    case SetKeyOp(key) => s.(key := Crypto.KeyOf(key))
    case OtherOp(usedAfter) => s.(used := usedAfter)
  }

  /** t is what the call makes of s. */
  ghost predicate Steps<N>(s: State<N>, op: Op<N>, t: State<N>)
    requires Inv(s)
  {
    Enabled(s, op) && t == Step(s, op)
  }
}
