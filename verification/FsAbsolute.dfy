/** Calls with absolute paths: their effects are the same whether or not the working directory is
    still in the tree. */
module FsAbsolute {
  import opened Text
  import opened NodeGraph
  import opened Forest
  import opened KernelHeap
  import opened FsState
  import opened FsInvariant
  import opened FsPaths
  import opened FsMoves
  import Crypto

  predicate Absolute(path: Str) {
    path != [] && path[0] == SLASH
  }

  /** The same tree with the working directory at its root. */
  ghost function AtRoot<N>(s: State<N>): State<N> {
    s.(cwd := s.root)
  }

  lemma AtRootGood<N>(s: State<N>)
    requires Inv(s) && Names(s)
    ensures Good(AtRoot(s), [])
  {
    assert NodeOk(s.g, s.roots, s.root);
  }

  lemma AtRootEntries<N>(s: State<N>)
    ensures forall q :: EntryAt(AtRoot(s), q) == EntryAt(s, q)
    ensures forall q :: Vacant(AtRoot(s), q) == Vacant(s, q)
  {
  }

  lemma AbsoluteTarget<N>(s: State<N>, path: Str)
    requires Absolute(path)
    ensures Resolve(AtRoot(s), path) == Resolve(s, path) && Target(AtRoot(s), path) == Target(s, path)
    ensures Abs([], path) == Tokens(path)
  {
  }

  /** fs_mkdir and fs_touch */
  lemma CreateAbsolute<N>(s: State<N>, path: Str, isDir: bool, n: N)
    requires Inv(s) && Names(s) && Absolute(path) && NUL !in path && (AddsAt(s, path) ==> n !in s.g)
    ensures var (t, ok) := Create(s, path, isDir, n); var p := Tokens(path);
            && (ok <==> |path| < PATH_SIZE && Fits(s.used, NODE_SIZE) && Vacant(s, p))
            && (forall q :: EntryAt(t, q) ==
                  if ok && q == p then Some(if isDir then Dir else File([])) else EntryAt(s, q))
  {
    AtRootGood(s);
    AtRootEntries(s);
    AbsoluteTarget(s, path);
    CreateEffect(AtRoot(s), [], path, isDir, n);
  }

  lemma AddNodeTransfers<N>(s: State<N>, d: N, n: N, name: Str, isDir: bool)
    requires d in s.g
    ensures AddNode(AtRoot(s), d, n, name, isDir) == AtRoot(AddNode(s, d, n, name, isDir))
  {
  }

  lemma StoreTransfers<N>(s: State<N>, n: N, bytes: Str)
    requires n in s.g
    ensures Store(AtRoot(s), n, bytes) == (AtRoot(Store(s, n, bytes).0), Store(s, n, bytes).1)
  {
  }

  lemma CreateTransfers<N>(s: State<N>, path: Str, isDir: bool, n: N)
    requires Absolute(path)
    ensures Create(AtRoot(s), path, isDir, n) == (AtRoot(Create(s, path, isDir, n).0), Create(s, path, isDir, n).1)
  {
    AbsoluteTarget(s, path);
    if Target(s, path).Some? {
      var (d, name) := Target(s, path).value;
      AddNodeTransfers(s, d, n, name, isDir);
    }
  }

  lemma WriteTransfers<N>(s: State<N>, path: Str, data: Str, n: N)
    requires Absolute(path)
    ensures Write(AtRoot(s), path, data, n) == (AtRoot(Write(s, path, data, n).0), Write(s, path, data, n).1)
  {
    CreateTransfers(s, path, false, n);
    var (t, ok) := Create(s, path, false, n);
    if ok {
      StoreTransfers(t, n, Crypto.Cipher(s.key, data));
    }
  }

  /** fs_write */
  lemma WriteAbsolute<N>(s: State<N>, path: Str, data: Str, n: N)
    requires Inv(s) && Names(s) && Absolute(path) && NUL !in path && (AddsAt(s, path) ==> n !in s.g)
    ensures var (t, ok) := Write(s, path, data, n); var p := Tokens(path);
            var made := |path| < PATH_SIZE && Fits(s.used, NODE_SIZE) && Vacant(s, p);
            && (ok <==> made && Fits(s.used + NODE_SIZE, |data| + 1))
            && (forall q :: EntryAt(t, q) ==
                  if made && q == p then Some(File(if ok then Crypto.Cipher(s.key, data) else [])) else EntryAt(s, q))
  {
    AtRootGood(s);
    AtRootEntries(s);
    AbsoluteTarget(s, path);
    WriteTransfers(s, path, data, n);
    AtRootEntries(Write(s, path, data, n).0);
    WriteEffect(AtRoot(s), [], path, data, n);
  }

  lemma ReadTransfers<N>(s: State<N>, path: Str)
    requires Absolute(path)
    ensures Read(AtRoot(s), path).1 == Read(s, path).1
  {
    AbsoluteTarget(s, path);
  }

  /** What fs_read hands out of an entry. */
  ghost function Handed<N>(s: State<N>, e: Option<Entry>): Option<Str> {
    if e.Some? && e.value.File? && e.value.bytes != [] && Fits(s.used, |e.value.bytes| + 1)
    then Some(Crypto.Cipher(s.key, e.value.bytes)) else None
  }

  lemma ReadHands<N>(s: State<N>, c: seq<Str>, path: Str)
    requires Good(s, c) && path != []
    ensures Read(s, path).1 == Handed(s, EntryAt(s, Abs(c, path)))
  {
    ReadEffect(s, c, path);
  }

  lemma HandedTransfers<N>(s: State<N>, q: seq<Str>)
    ensures Handed(AtRoot(s), EntryAt(AtRoot(s), q)) == Handed(s, EntryAt(s, q))
  {
  }

  /** fs_read */
  lemma ReadAbsolute<N>(s: State<N>, path: Str)
    requires Inv(s) && Names(s) && Absolute(path)
    ensures Read(s, path).1 == Handed(s, EntryAt(s, Tokens(path)))
  {
    AtRootGood(s);
    ReadTransfers(s, path);
    ReadHands(AtRoot(s), [], path);
    HandedTransfers(s, Tokens(path));
  }

  /** fs_chdir: it brings a lost working directory back into the tree. */
  lemma ChdirAbsolute<N>(s: State<N>, path: Str)
    requires Inv(s) && Names(s) && Absolute(path)
    ensures var (t, ok) := Chdir(s, path); var p := Tokens(path);
            && (ok <==> EntryAt(s, p) == Some(Dir)) && (ok ==> Good(t, p)) && (!ok ==> t == s)
  {
    AtRootGood(s);
    AtRootEntries(s);
    AbsoluteTarget(s, path);
    ChdirEffect(AtRoot(s), [], path);
    if Chdir(s, path).1 {
      ResolveGood(s, path);
    }
  }

  lemma ChdirToRoot<N>(s: State<N>)
    requires Inv(s) && Names(s)
    ensures Chdir(s, [SLASH]).1 && Good(Chdir(s, [SLASH]).0, [])
  {
    assert SkipSlashes([SLASH]) == [];
    assert NodeOk(s.g, s.roots, s.root);
    ChdirAbsolute(s, [SLASH]);
  }

  /** fs_unlink */
  lemma UnlinkAbsolute<N>(s: State<N>, path: Str)
    requires Inv(s) && Names(s) && Absolute(path)
    ensures var (t, ok) := Unlink(s, path); var p := Tokens(path);
            && (ok <==> EntryAt(s, p).Some? && EntryAt(s, p).value.File?)
            && (forall q :: EntryAt(t, q) == if ok && q == p then None else EntryAt(s, q))
  {
    AtRootGood(s);
    AtRootEntries(s);
    AbsoluteTarget(s, path);
    UnlinkEffect(AtRoot(s), [], path);
  }

  /** fs_rmdir */
  lemma RmdirAbsolute<N>(s: State<N>, path: Str)
    requires Inv(s) && Names(s) && Absolute(path)
    ensures var (t, ok) := Rmdir(s, path); var p := Tokens(path);
            && (ok <==> p != [] && EntryAt(s, p) == Some(Dir) && forall x :: EntryAt(s, p + [x]) == None)
            && (forall q :: EntryAt(t, q) == if ok && q == p then None else EntryAt(s, q))
  {
    AtRootGood(s);
    AtRootEntries(s);
    AbsoluteTarget(s, path);
    RmdirEffect(AtRoot(s), [], path);
  }

  lemma RenameTransfers<N>(s: State<N>, path: Str, newPath: Str)
    requires Inv(s) && Inv(AtRoot(s)) && Absolute(path) && Absolute(newPath)
    ensures Rename(AtRoot(s), path, newPath) == (AtRoot(Rename(s, path, newPath).0), Rename(s, path, newPath).1)
  {
    AbsoluteTarget(s, path);
    AbsoluteTarget(s, newPath);
    if Resolve(s, path).Some? {
      ResolveGood(s, path);
    }
  }

  /** fs_rename */
  lemma RenameAbsolute<N>(s: State<N>, path: Str, newPath: Str)
    requires Inv(s) && Names(s) && Absolute(path) && Absolute(newPath) && NUL !in newPath
    ensures var (t, ok) := Rename(s, path, newPath); var p, dst := Tokens(path), Tokens(newPath);
            && (ok <==> CanMove(s, p, dst))
            && (forall q :: EntryAt(t, q) ==
                  if !ok then EntryAt(s, q)
                  else if dst <= q && !(p <= Init(dst)) then EntryAt(s, p + q[|dst|..])
                  else if p <= q then None else EntryAt(s, q))
  {
    var s0, p, dst := AtRoot(s), Tokens(path), Tokens(newPath);
    AtRootGood(s);
    AtRootEntries(s);
    AbsoluteTarget(s, path);
    AbsoluteTarget(s, newPath);
    RenameTransfers(s, path, newPath);
    AtRootEntries(Rename(s, path, newPath).0);
    RenameWhen(s0, [], path, newPath);
    if CanMove(s0, p, dst) {
      if p <= Init(dst) {
        RenameBelowItself(s0, [], path, newPath);
      } else {
        RenameEffect(s0, [], path, newPath);
      }
    }
  }

  lemma CopyIntoTransfers<N>(s: State<N>, d: N, n: N, name: Str, data: Str)
    requires d in s.g
    ensures CopyInto(AtRoot(s), d, n, name, data) ==
              (AtRoot(CopyInto(s, d, n, name, data).0), CopyInto(s, d, n, name, data).1)
  {
    AddNodeTransfers(s, d, n, name, false);
    StoreTransfers(AddNode(s, d, n, name, false), n, data);
  }

  lemma CopyTransfers<N>(s: State<N>, path: Str, newPath: Str, n: N)
    requires Inv(s) && Inv(AtRoot(s)) && Absolute(path) && Absolute(newPath)
    ensures Copy(AtRoot(s), path, newPath, n) == (AtRoot(Copy(s, path, newPath, n).0), Copy(s, path, newPath, n).1)
  {
    AbsoluteTarget(s, path);
    AbsoluteTarget(s, newPath);
    if Resolve(s, path).Some? {
      ResolveGood(s, path);
      ResolveGood(AtRoot(s), path);
      if Target(s, newPath).Some? {
        var (d, name) := Target(s, newPath).value;
        CopyIntoTransfers(s, d, n, name, s.g[Resolve(s, path).value].data);
      }
    }
  }

  /** fs_copy */
  lemma CopyAbsolute<N>(s: State<N>, path: Str, newPath: Str, n: N)
    requires Inv(s) && Names(s) && Absolute(path) && Absolute(newPath) && NUL !in newPath
    requires AddsCopy(s, path, newPath) ==> n !in s.g
    ensures var (t, ok) := Copy(s, path, newPath, n); var p, dst := Tokens(path), Tokens(newPath);
            var made := EntryAt(s, p).Some? && EntryAt(s, p).value.File? && Vacant(s, dst) && Fits(s.used, NODE_SIZE);
            && (ok <==>
                  && made
                  && (EntryAt(s, p) == Some(File([])) || Fits(s.used + NODE_SIZE, |EntryAt(s, p).value.bytes| + 1)))
            && (forall q :: EntryAt(t, q) ==
                  if made && q == dst then (if ok then EntryAt(s, p) else Some(File([]))) else EntryAt(s, q))
  {
    AtRootGood(s);
    AtRootEntries(s);
    AbsoluteTarget(s, path);
    AbsoluteTarget(s, newPath);
    CopyTransfers(s, path, newPath, n);
    AtRootEntries(Copy(s, path, newPath, n).0);
    CopyEffect(AtRoot(s), [], path, newPath, n);
  }
}
