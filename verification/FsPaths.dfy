/** Every call as an operation on a map from absolute paths to entries: when it succeeds, and what
    it leaves at every path, in terms of that map alone.

    The statements assume distinct names and a working directory still in the tree, at path c. */
module FsPaths {
  import opened Text
  import opened NodeGraph
  import opened GraphEdits
  import opened Forest
  import opened KernelHeap
  import opened FsState
  import opened FsInvariant
  import Crypto

  ghost function EntryAt<N>(s: State<N>, q: seq<Str>): Option<Entry> {
    View(s.g, s.root, q)
  }

  /** c is the path of the working directory. */
  ghost predicate At<N>(s: State<N>, c: seq<Str>) {
    Walk(s.g, s.root, c) == Some(s.cwd)
  }

  ghost predicate Good<N>(s: State<N>, c: seq<Str>) {
    Inv(s) && Names(s) && At(s, c)
  }

  /** The absolute component list of a path argument. */
  function Abs(c: seq<Str>, path: Str): seq<Str> {
    if path != [] && path[0] == SLASH then Tokens(path) else c + Tokens(path)
  }

  function Init(q: seq<Str>): seq<Str>
    requires q != []
  {
    q[..|q| - 1]
  }

  /** A path at which fs.c makes new entries: missing, below an existing directory. */
  ghost predicate Vacant<N>(s: State<N>, q: seq<Str>) {
    q != [] && EntryAt(s, Init(q)) == Some(Dir) && EntryAt(s, q) == None
  }

  // ---------------------------------------------------------------- resolving

  lemma ResolveAbs<N>(s: State<N>, c: seq<Str>, path: Str)
    requires Good(s, c) && path != []
    ensures Resolve(s, path) == Walk(s.g, s.root, Abs(c, path))
  {
    WalkAppend(s.g, s.root, c, Tokens(path));
  }

  lemma EntryWalk<N>(s: State<N>, q: seq<Str>)
    requires Inv(s)
    ensures EntryAt(s, q).Some? <==> Walk(s.g, s.root, q).Some?
    ensures EntryAt(s, q).Some? ==>
              Walk(s.g, s.root, q).value in s.g && EntryAt(s, q) == Some(EntryOf(s.g[Walk(s.g, s.root, q).value]))
  {
    if Walk(s.g, s.root, q).Some? {
      WalkGood(s, s.root, q);
    }
  }

  lemma InitAppend(c: seq<Str>, t: seq<Str>)
    requires t != []
    ensures Init(c + t) == c + t[..|t| - 1] && (c + t)[|c + t| - 1] == t[|t| - 1]
  {
  }

  lemma VacantWalk<N>(s: State<N>, q: seq<Str>)
    requires Inv(s) && q != []
    ensures Vacant(s, q) <==>
            match Walk(s.g, s.root, Init(q))
            case None => false
            case Some(d) => d in s.g && s.g[d].isDir && Child(s.g, d, q[|q| - 1]) == None
  {
    EntryWalk(s, Init(q));
    EntryWalk(s, q);
    SnocParts(q);
    WalkSnoc(s.g, s.root, Init(q), q[|q| - 1]);
  }

  lemma AbsParts(c: seq<Str>, path: Str)
    requires Tokens(path) != []
    ensures var t, p := Tokens(path), Abs(c, path);
            && p != [] && p[|p| - 1] == t[|t| - 1] && p == Init(p) + [t[|t| - 1]]
            && Init(p) == (if path[0] == SLASH then [] else c) + t[..|t| - 1]
  {
    var t := Tokens(path);
    var base := if path[0] == SLASH then [] else c;
    InitAppend(base, t);
    SnocParts(base + t);
    assert Abs(c, path) == base + t by {
      assert [] + t == t;
    }
  }

  lemma StartWalk<N>(s: State<N>, c: seq<Str>, path: Str, u: seq<Str>)
    requires At(s, c) && path != []
    ensures Walk(s.g, StartOf(s, path), u) == Walk(s.g, s.root, (if path[0] == SLASH then [] else c) + u)
  {
    WalkAppend(s.g, s.root, c, u);
    assert [] + u == u;
  }

  /** fs_resolve with want_parent finds a place for a new entry exactly at the vacant paths. */
  lemma TargetAbs<N>(s: State<N>, c: seq<Str>, path: Str)
    requires Good(s, c)
    ensures Target(s, path).Some? <==> Vacant(s, Abs(c, path))
    ensures Target(s, path).Some? ==>
              var (d, name) := Target(s, path).value;
              && Abs(c, path) == Init(Abs(c, path)) + [name]
              && Walk(s.g, s.root, Init(Abs(c, path))) == Some(d)
  {
    var t := Tokens(path);
    if t == [] {
      EntryWalk(s, c);
      assert c + t == c;
    } else {
      AbsParts(c, path);
      StartWalk(s, c, path, t[..|t| - 1]);
      VacantWalk(s, Abs(c, path));
    }
  }

  // ---------------------------------------------------------------- new entries and new bytes

  lemma AddNodeWalk<N>(s: State<N>, d: N, pd: seq<Str>, n: N, name: Str, isDir: bool, q: seq<Str>)
    requires Inv(s) && n !in s.g && Walk(s.g, s.root, pd) == Some(d) && d in s.g && s.g[d].isDir
    requires Child(s.g, d, name) == None && 1 <= |name| <= NAME_MAX && NUL !in name
    ensures Walk(AddNode(s, d, n, name, isDir).g, s.root, q) ==
            if q == pd + [name] then Some(n) else Walk(s.g, s.root, q)
  {
    WalkGood(s, s.root, pd);
    WalkAttachLeaf(s.g, s.roots, d, n, Rec(name, isDir, [], None, [], s.root), s.root, q);
    if EndsAt(s.g, s.root, q, d, name) {
      UniquePath(s.g, s.roots, s.root, pd, Init(q));
      SnocParts(q);
    }
  }

  lemma {:induction false} WalkSetData<N>(g: Graph<N>, n: N, bytes: Str, start: N, q: seq<Str>)
    requires n in g
    ensures Walk(SetData(g, n, bytes), start, q) == Walk(g, start, q)
    decreases |q|
  {
    if q != [] {
      var h := SetData(g, n, bytes);
      FindFrame(g, h, Kids(g, start), q[0]);
      if Child(g, start, q[0]).Some? {
        WalkSetData(g, n, bytes, Child(g, start, q[0]).value, q[1..]);
      }
    }
  }

  /** New bytes show at the node's path and nowhere else. */
  lemma SetDataView<N>(s: State<N>, n: N, pn: seq<Str>, bytes: Str, q: seq<Str>)
    requires Inv(s) && n in s.g && !s.g[n].isDir && Walk(s.g, s.root, pn) == Some(n)
    ensures View(SetData(s.g, n, bytes), s.root, q) == if q == pn then Some(File(bytes)) else EntryAt(s, q)
  {
    WalkSetData(s.g, n, bytes, s.root, q);
    if Walk(s.g, s.root, q) == Some(n) {
      UniquePath(s.g, s.roots, s.root, pn, q);
    }
  }

  lemma AddNodeEntry<N>(s: State<N>, d: N, pd: seq<Str>, n: N, name: Str, isDir: bool, q: seq<Str>)
    requires Inv(s) && n !in s.g && Walk(s.g, s.root, pd) == Some(d) && d in s.g && s.g[d].isDir
    requires Child(s.g, d, name) == None && 1 <= |name| <= NAME_MAX && NUL !in name
    ensures EntryAt(AddNode(s, d, n, name, isDir), q) ==
            if q == pd + [name] then Some(if isDir then Dir else File([])) else EntryAt(s, q)
  {
    AddNodeWalk(s, d, pd, n, name, isDir, q);
    EntryWalk(s, q);
  }

  lemma AddNodeView<N>(s: State<N>, c: seq<Str>, d: N, pd: seq<Str>, n: N, name: Str, isDir: bool)
    requires Good(s, c) && n !in s.g && Walk(s.g, s.root, pd) == Some(d) && d in s.g && s.g[d].isDir
    requires Child(s.g, d, name) == None && 1 <= |name| <= NAME_MAX && NUL !in name
    ensures var t := AddNode(s, d, n, name, isDir);
            && At(t, c) && Walk(t.g, t.root, pd + [name]) == Some(n)
            && (forall q :: EntryAt(t, q) ==
                  if q == pd + [name] then Some(if isDir then Dir else File([])) else EntryAt(s, q))
  {
    var t := AddNode(s, d, n, name, isDir);
    AddNodeAbsent(s, d, pd, name);
    forall q ensures EntryAt(t, q) ==
                     if q == pd + [name] then Some(if isDir then Dir else File([])) else EntryAt(s, q) {
      AddNodeEntry(s, d, pd, n, name, isDir, q);
    }
    AddNodeWalk(s, d, pd, n, name, isDir, pd + [name]);
    AddNodeWalk(s, d, pd, n, name, isDir, c);
  }

  lemma AddNodeAbsent<N>(s: State<N>, d: N, pd: seq<Str>, name: Str)
    requires Walk(s.g, s.root, pd) == Some(d) && Child(s.g, d, name) == None
    ensures Walk(s.g, s.root, pd + [name]) == None
  {
    WalkSnoc(s.g, s.root, pd, name);
  }

  // ---------------------------------------------------------------- fs_mkdir, fs_touch

  lemma CreateEffect<N>(s: State<N>, c: seq<Str>, path: Str, isDir: bool, n: N)
    requires Good(s, c) && (AddsAt(s, path) ==> n !in s.g) && NUL !in path
    ensures var (t, ok) := Create(s, path, isDir, n); var p := Abs(c, path);
            && (ok <==> |path| < PATH_SIZE && Fits(s.used, NODE_SIZE) && Vacant(s, p))
            && (!ok ==> t == s)
            && (ok ==> At(t, c) && Walk(t.g, t.root, p) == Some(n))
            && (ok ==> forall q :: EntryAt(t, q) ==
                         if q == p then Some(if isDir then Dir else File([])) else EntryAt(s, q))
  {
    TargetAbs(s, c, path);
    if Create(s, path, isDir, n).1 {
      TargetGood(s, path);
      var (d, name) := Target(s, path).value;
      AddNodeView(s, c, d, Init(Abs(c, path)), n, name, isDir);
    }
  }

  lemma StoreView<N>(s: State<N>, c: seq<Str>, n: N, pn: seq<Str>, bytes: Str)
    requires Inv(s) && At(s, c) && n in s.g && !s.g[n].isDir && Walk(s.g, s.root, pn) == Some(n)
    ensures var (t, ok) := Store(s, n, bytes);
            && At(t, c) && (ok <==> Fits(s.used, |bytes| + 1))
            && (forall q :: EntryAt(t, q) == if ok && q == pn then Some(File(bytes)) else EntryAt(s, q))
  {
    var (t, ok) := Store(s, n, bytes);
    if ok {
      WalkSetData(s.g, n, bytes, s.root, c);
      forall q ensures EntryAt(t, q) == if q == pn then Some(File(bytes)) else EntryAt(s, q) {
        SetDataView(s, n, pn, bytes, q);
      }
    }
  }

  /** fs_write makes a new file and never overwrites one; when only the buffer does not fit, the
      call fails and the empty file stays. */
  lemma WriteEffect<N>(s: State<N>, c: seq<Str>, path: Str, data: Str, n: N)
    requires Good(s, c) && (AddsAt(s, path) ==> n !in s.g) && NUL !in path
    ensures var (t, ok) := Write(s, path, data, n); var p := Abs(c, path);
            var made := |path| < PATH_SIZE && Fits(s.used, NODE_SIZE) && Vacant(s, p);
            && At(t, c)
            && (ok <==> made && Fits(s.used + NODE_SIZE, |data| + 1))
            && (forall q :: EntryAt(t, q) ==
                  if made && q == p then Some(File(if ok then Crypto.Cipher(s.key, data) else []))
                  else EntryAt(s, q))
  {
    CreateEffect(s, c, path, false, n);
    CreateInv(s, path, false, n);
    var (s1, made) := Create(s, path, false, n);
    if made {
      StoreView(s1, c, n, Abs(c, path), Crypto.Cipher(s.key, data));
    }
  }

  /** What fs_write leaves on the heap, byte by byte: the text under the key, plain only where the key
      byte is 0. */
  lemma StoredBytes<N>(s: State<N>, c: seq<Str>, path: Str, data: Str, n: N)
    requires Good(s, c) && (AddsAt(s, path) ==> n !in s.g) && NUL !in path && Write(s, path, data, n).1
    ensures var e := EntryAt(Write(s, path, data, n).0, Abs(c, path));
            && e.Some? && e.value.File? && |e.value.bytes| == |data|
            && (forall i :: 0 <= i < |data| ==>
                  e.value.bytes[i] ^ s.key[i % |s.key|] == data[i]
                  && (e.value.bytes[i] == data[i] <==> s.key[i % |s.key|] == 0))
  {
    WriteEffect(s, c, path, data, n);
    forall i | 0 <= i < |data|
      ensures Crypto.Cipher(s.key, data)[i] ^ s.key[i % |s.key|] == data[i]
      ensures Crypto.Cipher(s.key, data)[i] == data[i] <==> s.key[i % |s.key|] == 0
    {
      Crypto.CipherHidesIff(s.key, data, i);
      Crypto.XorTwice(data[i], s.key[i % |s.key|]);
    }
  }

  /** fs_write_cwd makes or overwrites the file of that name in the working directory.  A long name
      is looked up whole but stored clipped; the effect is the expected one when the clipped name
      finds what the whole name finds, as it does for every name of at most 31 bytes. */
  lemma WriteCwdEffect<N>(s: State<N>, c: seq<Str>, name: Str, data: Str, n: N)
    requires Good(s, c) && (AddsToCwd(s, name) ==> n !in s.g) && NUL !in name && name != []
    requires Child(s.g, s.cwd, name) == Child(s.g, s.cwd, Clip(name))
    ensures var (t, ok) := WriteCwd(s, name, data, n); var p := c + [Clip(name)];
            var made := EntryAt(s, p) == None && Fits(s.used, NODE_SIZE);
            && At(t, c)
            && (ok <==> || (made && Fits(s.used + NODE_SIZE, |data| + 1))
                        || (EntryAt(s, p).Some? && EntryAt(s, p).value.File? && Fits(s.used, |data| + 1)))
            && (forall q :: EntryAt(t, q) ==
                  if q == p && ok then Some(File(Crypto.Cipher(s.key, data)))
                  else if q == p && made then Some(File([]))
                  else EntryAt(s, q))
  {
    var bytes := Crypto.Cipher(s.key, data);
    var p := c + [Clip(name)];
    WalkSnoc(s.g, s.root, c, Clip(name));
    EntryWalk(s, p);
    var k := Child(s.g, s.cwd, name);
    if k.Some? {
      if !s.g[k.value].isDir {
        StoreView(s, c, k.value, p, bytes);
      }
    } else if Fits(s.used, NODE_SIZE) {
      AddNodeInv(s, s.cwd, n, Clip(name), false);
      AddNodeView(s, c, s.cwd, c, n, Clip(name), false);
      StoreView(AddNode(s, s.cwd, n, Clip(name), false), c, n, p, bytes);
    }
  }

  /** When fs_write_cwd succeeds, for a name that is not clipped. */
  lemma WriteCwdWhen<N>(s: State<N>, c: seq<Str>, name: Str, data: Str, n: N)
    requires Good(s, c) && NUL !in name && name != [] && Clip(name) == name
    ensures var e := EntryAt(s, c + [name]);
            WriteCwd(s, name, data, n).1 <==>
              && e != Some(Dir) && (e == None ==> Fits(s.used, NODE_SIZE))
              && Fits(if e == None then s.used + NODE_SIZE else s.used, |data| + 1)
  {
    WalkSnoc(s.g, s.root, c, name);
    EntryWalk(s, c + [name]);
  }

  // ---------------------------------------------------------------- fs_read, fs_chdir

  /** fs_read hands out the decrypted bytes of a non-empty file and changes no entry. */
  lemma ReadEffect<N>(s: State<N>, c: seq<Str>, path: Str)
    requires Good(s, c) && path != []
    ensures var (t, data) := Read(s, path); var e := EntryAt(s, Abs(c, path));
            && t.g == s.g && t.root == s.root && t.cwd == s.cwd
            && data == if e.Some? && e.value.File? && e.value.bytes != [] && Fits(s.used, |e.value.bytes| + 1)
                       then Some(Crypto.Cipher(s.key, e.value.bytes)) else None
  {
    ResolveAbs(s, c, path);
    EntryWalk(s, Abs(c, path));
  }

  lemma ChdirEffect<N>(s: State<N>, c: seq<Str>, path: Str)
    requires Good(s, c) && path != []
    ensures var (t, ok) := Chdir(s, path); var p := Abs(c, path);
            && (ok <==> EntryAt(s, p) == Some(Dir))
            && t.g == s.g && t.root == s.root && At(t, if ok then p else c)
  {
    ResolveAbs(s, c, path);
    EntryWalk(s, Abs(c, path));
  }

  // ---------------------------------------------------------------- fs_unlink, fs_rmdir

  lemma NothingBelowLeaf<N>(s: State<N>, m: N, p: seq<Str>, q: seq<Str>)
    requires Walk(s.g, s.root, p) == Some(m) && Kids(s.g, m) == [] && p <= q && p != q
    ensures Walk(s.g, s.root, q) == None
  {
    var t := q[|p|..];
    PrefixSplit(p, q);
    WalkAppend(s.g, s.root, p, t);
    assert Child(s.g, m, t[0]) == None;
  }

  lemma DetachKeeps<N>(g: Graph<N>, m: N, k: N)
    requires Chained(g, m)
    ensures k in Detach(g, m) <==> k in g
    ensures k in g ==> EntryOf(Detach(g, m)[k]) == EntryOf(g[k])
  {
  }

  lemma DetachLeafWalk<N>(s: State<N>, m: N, p: seq<Str>, q: seq<Str>)
    requires Inv(s) && Names(s) && m in s.g && m !in s.roots && s.g[m].kids == []
    requires Walk(s.g, s.root, p) == Some(m)
    ensures Chained(s.g, m)
    ensures Walk(Detach(s.g, m), s.root, q) == if q == p then None else Walk(s.g, s.root, q)
  {
    DetachFromRoot(s.g, s.roots, s.root, m, p, q);
    if p <= q && p != q {
      NothingBelowLeaf(s, m, p, q);
    }
  }

  lemma DetachLeafView<N>(s: State<N>, m: N, p: seq<Str>, q: seq<Str>)
    requires Inv(s) && Names(s) && m in s.g && m !in s.roots && s.g[m].kids == []
    requires Walk(s.g, s.root, p) == Some(m)
    ensures Chained(s.g, m)
    ensures Walk(Detach(s.g, m), s.root, q) == if q == p then None else Walk(s.g, s.root, q)
    ensures View(Detach(s.g, m), s.root, q) == if q == p then None else EntryAt(s, q)
  {
    DetachLeafWalk(s, m, p, q);
    if q != p && Walk(s.g, s.root, q).Some? {
      DetachKeeps(s.g, m, Walk(s.g, s.root, q).value);
    }
  }

  lemma UnlinkEffect<N>(s: State<N>, c: seq<Str>, path: Str)
    requires Good(s, c) && path != []
    ensures var (t, ok) := Unlink(s, path); var p := Abs(c, path);
            && (ok <==> EntryAt(s, p).Some? && EntryAt(s, p).value.File?)
            && At(t, c)
            && (forall q :: EntryAt(t, q) == if ok && q == p then None else EntryAt(s, q))
  {
    var p := Abs(c, path);
    ResolveAbs(s, c, path);
    EntryWalk(s, p);
    if Unlink(s, path).1 {
      var m := Resolve(s, path).value;
      ResolveGood(s, path);
      assert NodeOk(s.g, s.roots, m);
      forall q ensures View(Detach(s.g, m), s.root, q) == if q == p then None else EntryAt(s, q) {
        DetachLeafView(s, m, p, q);
      }
      DetachLeafView(s, m, p, c);
    }
  }

  lemma EmptyDirIff<N>(s: State<N>, m: N, p: seq<Str>)
    requires Inv(s) && Names(s) && m in s.g && Walk(s.g, s.root, p) == Some(m)
    ensures s.g[m].kids == [] <==> forall x :: EntryAt(s, p + [x]) == None
  {
    if s.g[m].kids != [] {
      var k := s.g[m].kids[0];
      assert NodeOk(s.g, s.roots, m);
      FindMember(s.g, s.g[m].kids, k);
      WalkSnoc(s.g, s.root, p, s.g[k].name);
      EntryWalk(s, p + [s.g[k].name]);
    } else {
      forall x ensures EntryAt(s, p + [x]) == None {
        WalkSnoc(s.g, s.root, p, x);
      }
    }
  }

  /** fs_rmdir removes an empty directory other than the root.  The working directory stays in the
      tree exactly when it is not the one removed. */
  lemma RmdirEffect<N>(s: State<N>, c: seq<Str>, path: Str)
    requires Good(s, c) && path != []
    ensures var (t, ok) := Rmdir(s, path); var p := Abs(c, path);
            && (ok <==> p != [] && EntryAt(s, p) == Some(Dir) && forall x :: EntryAt(s, p + [x]) == None)
            && (forall q :: EntryAt(t, q) == if ok && q == p then None else EntryAt(s, q))
            && (At(t, c) <==> !(ok && p == c))
            && (ok && p == c ==> forall q :: !At(t, q))
  {
    var p := Abs(c, path);
    ResolveAbs(s, c, path);
    EntryWalk(s, p);
    if Resolve(s, path).Some? {
      var m := Resolve(s, path).value;
      ResolveGood(s, path);
      EmptyDirIff(s, m, p);
      if m == s.root {
        UniquePath(s.g, s.roots, s.root, p, []);
      }
      if Rmdir(s, path).1 {
        RmdirWalks(s, c, m, p);
      }
    }
  }

  lemma RmdirWalks<N>(s: State<N>, c: seq<Str>, m: N, p: seq<Str>)
    requires Good(s, c) && m in s.g && m !in s.roots && s.g[m].kids == [] && Walk(s.g, s.root, p) == Some(m)
    ensures Chained(s.g, m)
    ensures var t := s.(g := Detach(s.g, m));
            && (forall q :: EntryAt(t, q) == if q == p then None else EntryAt(s, q))
            && (At(t, c) <==> p != c)
            && (p == c ==> forall q :: !At(t, q))
  {
    DetachLeafView(s, m, p, c);
    var t := s.(g := Detach(s.g, m));
    forall q ensures EntryAt(t, q) == if q == p then None else EntryAt(s, q) {
      DetachLeafView(s, m, p, q);
    }
    if p == c {
      forall q ensures !At(t, q) {
        DetachLeafView(s, m, p, q);
        if At(t, q) {
          UniquePath(s.g, s.roots, s.root, p, q);
        }
      }
    }
  }
}
