/** What fs_list prints, in its order: how every call changes the listing of every directory. */
module FsListing {
  import opened Text
  import opened NodeGraph
  import opened GraphEdits
  import opened Forest
  import opened KernelHeap
  import opened FsState
  import opened FsInvariant
  import opened FsPaths
  import opened FsMoves
  import FsNodes
  import opened FileSystem
  import FsRuns
  import Crypto

  /** One line of a listing. */
  datatype Item = Item(name: Str, isDir: bool)

  ghost function ItemOf<N>(g: Graph<N>, n: N): Item {
    if n in g then Item(g[n].name, g[n].isDir) else Item([], false)
  }

  ghost function Items<N>(g: Graph<N>, ks: seq<N>): seq<Item> {
    seq(|ks|, i requires 0 <= i < |ks| => ItemOf(g, ks[i]))
  }

  /** The listing of the directory at a path; a file, or nothing at all, lists nothing. */
  ghost function Listing<N>(s: State<N>, q: seq<Str>): seq<Item> {
    match Walk(s.g, s.root, q)
    case None => []
    case Some(m) => Items(s.g, Kids(s.g, m))
  }

  /** A listing without its line of that name, the others in their order. */
  function Minus(l: seq<Item>, name: Str): seq<Item> {
    if l == [] then [] else if l[0].name == name then l[1..] else [l[0]] + Minus(l[1..], name)
  }

  /** The line goes from where it stood. */
  lemma {:induction false} MinusCuts(a: seq<Item>, x: Item, b: seq<Item>)
    requires forall y :: y in a ==> y.name != x.name
    ensures Minus(a + [x] + b, x.name) == a + b
  {
    if a == [] {
      assert ([x] + b)[1..] == b && a + b == b && a + [x] + b == [x] + b;
    } else {
      assert (a + [x] + b)[1..] == a[1..] + [x] + b;
      MinusCuts(a[1..], x, b);
    }
  }

  // ---------------------------------------------------------------- the graph edits

  lemma ItemsAgree<N>(g: Graph<N>, h: Graph<N>, ks: seq<N>)
    requires forall k :: k in ks ==> ItemOf(h, k) == ItemOf(g, k)
    ensures Items(h, ks) == Items(g, ks)
  {
  }

  lemma ItemsCons<N>(g: Graph<N>, ks: seq<N>)
    requires ks != []
    ensures Items(g, ks) == [ItemOf(g, ks[0])] + Items(g, ks[1..])
  {
  }

  lemma ItemsAttach<N>(g: Graph<N>, roots: set<N>, d: N, n: N, r: Rec<N>, m: N)
    requires Wf(g, roots) && Attachable(g, roots, d, n, r) && m in g
    ensures var h := Attach(g, d, n, r);
            Items(h, h[m].kids) == (if m == d then [Item(r.name, r.isDir)] else []) + Items(g, g[m].kids)
  {
    var h := Attach(g, d, n, r);
    NamesElsewhere(g, roots, d, n, r, m);
    assert NodeOk(g, roots, m);
    ItemsAgree(g, h, g[m].kids);
    if m == d {
      assert h[d].kids == [n] + g[d].kids;
      ItemsCons(h, h[d].kids);
      assert h[d].kids[1..] == g[d].kids;
    } else {
      assert [] + Items(g, g[m].kids) == Items(g, g[m].kids);
    }
  }

  lemma {:induction false} ItemsWithout<N>(g: Graph<N>, ks: seq<N>, x: N)
    requires KidNamesDistinct(g, ks) && x in ks && forall k :: k in ks ==> k in g
    ensures Items(g, Without(ks, x)) == Minus(Items(g, ks), g[x].name)
  {
    NotRepeated(g, ks);
    ItemsCons(g, ks);
    if ks[0] == x {
      WithoutAbsent(ks[1..], x);
      assert Items(g, ks)[1..] == Items(g, ks[1..]);
    } else {
      assert x in ks[1..];
      FindMember(g, ks, x);
      assert KidNamesDistinct(g, ks[1..]) by {
        assert forall i :: 0 <= i < |ks[1..]| ==> ks[1..][i] == ks[i + 1];
      }
      ItemsWithout(g, ks[1..], x);
      var rest := Without(ks[1..], x);
      assert Without(ks, x) == [ks[0]] + rest;
      ItemsCons(g, [ks[0]] + rest);
      assert ([ks[0]] + rest)[1..] == rest;
      assert Items(g, ks)[1..] == Items(g, ks[1..]);
    }
  }

  lemma ItemsDetach<N>(g: Graph<N>, roots: set<N>, n: N, m: N)
    requires Wf(g, roots) && NamesOk(g, roots) && Chained(g, n) && m in g
    ensures var h := Detach(g, n);
            Items(h, h[m].kids) ==
              if g[n].parent == Some(m) then Minus(Items(g, g[m].kids), g[n].name) else Items(g, g[m].kids)
  {
    var h := Detach(g, n);
    assert NodeOk(g, roots, m);
    ItemsAgree(g, h, h[m].kids);
    if g[n].parent == Some(m) {
      ItemsWithout(g, g[m].kids, n);
    }
  }

  // ---------------------------------------------------------------- new entries

  lemma AddNodeLists<N>(s: State<N>, d: N, pd: seq<Str>, n: N, name: Str, isDir: bool, q: seq<Str>)
    requires Inv(s) && n !in s.g && Walk(s.g, s.root, pd) == Some(d) && d in s.g && s.g[d].isDir
    requires Child(s.g, d, name) == None && 1 <= |name| <= NAME_MAX && NUL !in name
    ensures Listing(AddNode(s, d, n, name, isDir), q) ==
              if q == pd then [Item(name, isDir)] + Listing(s, q) else Listing(s, q)
  {
    AddNodeWalk(s, d, pd, n, name, isDir, q);
    AddNodeAbsent(s, d, pd, name);
    WalkGood(s, s.root, pd);
    if q != pd + [name] && Walk(s.g, s.root, q).Some? {
      WalkGood(s, s.root, q);
      var m := Walk(s.g, s.root, q).value;
      ItemsAttach(s.g, s.roots, d, n, Rec(name, isDir, [], None, [], s.root), m);
      if m == d {
        UniquePath(s.g, s.roots, s.root, pd, q);
      }
    }
  }

  lemma StoreLists<N>(s: State<N>, n: N, bytes: Str, q: seq<Str>)
    requires n in s.g
    ensures Listing(Store(s, n, bytes).0, q) == Listing(s, q)
  {
    if Fits(s.used, |bytes| + 1) {
      var h := SetData(s.g, n, bytes);
      WalkSetData(s.g, n, bytes, s.root, q);
      if Walk(s.g, s.root, q).Some? {
        ItemsAgree(s.g, h, Kids(s.g, Walk(s.g, s.root, q).value));
      }
    }
  }

  /** A new entry comes first in its directory, and no other listing changes. */
  ghost predicate ListsFirst<N>(s: State<N>, t: State<N>, p: seq<Str>, isDir: bool)
    requires p != []
  {
    forall q :: Listing(t, q) ==
                  if q == Init(p) then [Item(p[|p| - 1], isDir)] + Listing(s, q) else Listing(s, q)
  }

  ghost predicate ListsSame<N>(s: State<N>, t: State<N>) {
    forall q :: Listing(t, q) == Listing(s, q)
  }

  lemma AddNodeListsFirst<N>(s: State<N>, d: N, p: seq<Str>, n: N, name: Str, isDir: bool, bytes: Str)
    requires Inv(s) && n !in s.g && p != [] && p == Init(p) + [name] && Walk(s.g, s.root, Init(p)) == Some(d)
    requires d in s.g && s.g[d].isDir && Child(s.g, d, name) == None && 1 <= |name| <= NAME_MAX && NUL !in name
    ensures var t := AddNode(s, d, n, name, isDir);
            n in t.g && ListsFirst(s, t, p, isDir) && ListsFirst(s, Store(t, n, bytes).0, p, isDir)
  {
    var t := AddNode(s, d, n, name, isDir);
    assert p[|p| - 1] == name;
    forall q ensures Listing(t, q) == if q == Init(p) then [Item(name, isDir)] + Listing(s, q) else Listing(s, q) {
      AddNodeLists(s, d, Init(p), n, name, isDir, q);
    }
    forall q ensures Listing(Store(t, n, bytes).0, q) == Listing(t, q) {
      StoreLists(t, n, bytes, q);
    }
  }

  /** fs_mkdir and fs_touch: the new name comes first in the listing of its directory. */
  lemma CreateLists<N>(s: State<N>, c: seq<Str>, path: Str, isDir: bool, n: N)
    requires Good(s, c) && (AddsAt(s, path) ==> n !in s.g) && NUL !in path
    ensures var (t, ok) := Create(s, path, isDir, n); var p := Abs(c, path);
            (ok ==> p != [] && ListsFirst(s, t, p, isDir)) && (!ok ==> ListsSame(s, t))
  {
    TargetAbs(s, c, path);
    if Create(s, path, isDir, n).1 {
      TargetGood(s, path);
      var (d, name) := Target(s, path).value;
      AddNodeListsFirst(s, d, Abs(c, path), n, name, isDir, []);
    }
  }

  /** fs_write lists like fs_touch, also when it fails because only the bytes do not fit. */
  lemma WriteLists<N>(s: State<N>, c: seq<Str>, path: Str, data: Str, n: N)
    requires Good(s, c) && (AddsAt(s, path) ==> n !in s.g) && NUL !in path
    ensures var (t, ok) := Write(s, path, data, n); var p := Abs(c, path);
            if AddsAt(s, path) then p != [] && ListsFirst(s, t, p, false) else !ok && ListsSame(s, t)
  {
    TargetAbs(s, c, path);
    if AddsAt(s, path) {
      TargetGood(s, path);
      var (d, name) := Target(s, path).value;
      AddNodeListsFirst(s, d, Abs(c, path), n, name, false, Crypto.Cipher(s.key, data));
    }
  }

  /** fs_write_cwd: a new name comes first, a file that is overwritten keeps its place. */
  lemma WriteCwdLists<N>(s: State<N>, c: seq<Str>, name: Str, data: Str, n: N)
    requires Good(s, c) && (AddsToCwd(s, name) ==> n !in s.g) && ValidName(name)
    ensures var t := WriteCwd(s, name, data, n).0;
            if AddsToCwd(s, name) then ListsFirst(s, t, c + [name], false) else ListsSame(s, t)
  {
    var bytes := Crypto.Cipher(s.key, data);
    assert Clip(name) == name && Init(c + [name]) == c;
    if AddsToCwd(s, name) {
      AddNodeListsFirst(s, s.cwd, c + [name], n, name, false, bytes);
    } else if Child(s.g, s.cwd, name).Some? {
      CwdChildGood(s, name);
      forall q ensures Listing(WriteCwd(s, name, data, n).0, q) == Listing(s, q) {
        StoreLists(s, Child(s.g, s.cwd, name).value, bytes, q);
      }
    }
  }

  /** fs_copy: the copy comes first in its directory. */
  lemma CopyLists<N>(s: State<N>, c: seq<Str>, path: Str, newPath: Str, n: N)
    requires Good(s, c) && path != [] && NUL !in newPath && (AddsCopy(s, path, newPath) ==> n !in s.g)
    ensures var (t, ok) := Copy(s, path, newPath, n); var p := Abs(c, newPath);
            if AddsCopy(s, path, newPath) then p != [] && ListsFirst(s, t, p, false) else !ok && ListsSame(s, t)
  {
    TargetAbs(s, c, newPath);
    CopyIs(s, path, newPath, n);
    if AddsCopy(s, path, newPath) {
      CopyIntoLists(s, Target(s, newPath).value.0, Abs(c, newPath), n, Target(s, newPath).value.1,
                    s.g[Resolve(s, path).value].data);
    }
  }

  lemma CopyIs<N>(s: State<N>, path: Str, newPath: Str, n: N)
    requires Inv(s) && path != [] && NUL !in newPath
    ensures if AddsCopy(s, path, newPath) then
              var (d, name) := Target(s, newPath).value;
              && d in s.g && s.g[d].isDir && Child(s.g, d, name) == None && 1 <= |name| <= NAME_MAX && NUL !in name
              && Copy(s, path, newPath, n) == CopyInto(s, d, n, name, s.g[Resolve(s, path).value].data)
            else Copy(s, path, newPath, n) == (s, false)
  {
    if Resolve(s, path).Some? {
      ResolveGood(s, path);
    }
    if Target(s, newPath).Some? {
      TargetGood(s, newPath);
    }
  }

  lemma CopyIntoLists<N>(s: State<N>, d: N, p: seq<Str>, n: N, name: Str, data: Str)
    requires Inv(s) && n !in s.g && p != [] && p == Init(p) + [name] && Walk(s.g, s.root, Init(p)) == Some(d)
    requires d in s.g && s.g[d].isDir && Child(s.g, d, name) == None && 1 <= |name| <= NAME_MAX && NUL !in name
    requires Fits(s.used, NODE_SIZE)
    ensures ListsFirst(s, CopyInto(s, d, n, name, data).0, p, false)
  {
    AddNodeListsFirst(s, d, p, n, name, false, data);
  }

  // ---------------------------------------------------------------- entries that go

  lemma ParentAt<N>(s: State<N>, m: N, p: seq<Str>)
    requires Inv(s) && p != [] && Walk(s.g, s.root, p) == Some(m)
    ensures m in s.g && s.g[m].name == p[|p| - 1] && s.g[m].parent == Walk(s.g, s.root, Init(p))
  {
    WalkGood(s, s.root, p);
    WalkLast(s.g, s.root, p);
    WalkGood(s, s.root, Init(p));
    assert NodeOk(s.g, s.roots, Walk(s.g, s.root, Init(p)).value);
  }

  /** What a node lists once m, at path p, is taken out of its chain. */
  lemma DetachLists<N>(s: State<N>, m: N, p: seq<Str>, k: N, q: seq<Str>)
    requires Inv(s) && Names(s) && Chained(s.g, m) && p != [] && Walk(s.g, s.root, p) == Some(m)
    requires Walk(s.g, s.root, q) == Some(k)
    ensures k in s.g
    ensures var h := Detach(s.g, m);
            Items(h, h[k].kids) == if q == Init(p) then Minus(Listing(s, q), p[|p| - 1]) else Listing(s, q)
  {
    ParentAt(s, m, p);
    WalkGood(s, s.root, q);
    ItemsDetach(s.g, s.roots, m, k);
    if s.g[m].parent == Some(k) {
      UniquePath(s.g, s.roots, s.root, q, Init(p));
    }
  }

  /** The name goes from the listing of its directory, and no other listing changes. */
  ghost predicate ListsWithout<N>(s: State<N>, t: State<N>, p: seq<Str>)
    requires p != []
  {
    forall q :: Listing(t, q) == if q == Init(p) then Minus(Listing(s, q), p[|p| - 1]) else Listing(s, q)
  }

  lemma LeafListsWithout<N>(s: State<N>, m: N, p: seq<Str>)
    requires Inv(s) && Names(s) && m in s.g && m !in s.roots && s.g[m].kids == []
    requires Walk(s.g, s.root, p) == Some(m) && p != []
    ensures Chained(s.g, m) && ListsWithout(s, s.(g := Detach(s.g, m)), p)
  {
    DetachLeafWalk(s, m, p, p);
    var t := s.(g := Detach(s.g, m));
    forall q ensures Listing(t, q) == if q == Init(p) then Minus(Listing(s, q), p[|p| - 1]) else Listing(s, q) {
      DetachLeafWalk(s, m, p, q);
      if Walk(s.g, s.root, q).Some? {
        DetachLists(s, m, p, Walk(s.g, s.root, q).value, q);
      }
      if q == Init(p) {
        WalkLast(s.g, s.root, p);
      }
    }
  }

  lemma UnlinkLists<N>(s: State<N>, c: seq<Str>, path: Str)
    requires Good(s, c) && path != []
    ensures var (t, ok) := Unlink(s, path); var p := Abs(c, path);
            if ok then p != [] && ListsWithout(s, t, p) else ListsSame(s, t)
  {
    ResolveAbs(s, c, path);
    if Unlink(s, path).1 {
      ResolveGood(s, path);
      var m := Resolve(s, path).value;
      assert NodeOk(s.g, s.roots, m);
      LeafListsWithout(s, m, Abs(c, path));
    }
  }

  lemma RmdirLists<N>(s: State<N>, c: seq<Str>, path: Str)
    requires Good(s, c) && path != []
    ensures var (t, ok) := Rmdir(s, path); var p := Abs(c, path);
            if ok then p != [] && ListsWithout(s, t, p) else ListsSame(s, t)
  {
    ResolveAbs(s, c, path);
    if Rmdir(s, path).1 {
      ResolveGood(s, path);
      LeafListsWithout(s, Resolve(s, path).value, Abs(c, path));
    }
  }

  // ---------------------------------------------------------------- fs_rename

  /** The listing at q once the entry at p has gone from its directory and come first in that of dst. */
  ghost function ListedAfterMove<N>(s: State<N>, p: seq<Str>, dst: seq<Str>, q: seq<Str>): seq<Item>
    requires p != [] && dst != [] && EntryAt(s, p).Some?
  {
    var cut := if q == Init(p) then Minus(Listing(s, q), p[|p| - 1]) else Listing(s, q);
    if q == Init(dst) then [Item(dst[|dst| - 1], EntryAt(s, p) == Some(Dir))] + cut else cut
  }

  lemma MovedItems<N>(s: State<N>, p: seq<Str>, dst: seq<Str>, m: N, d: N, name: Str, k: N, q: seq<Str>)
    requires Inv(s) && Names(s) && Moves(s, p, dst, m, d, name) && p != []
    requires Walk(s.g, s.root, q) == Some(k)
    ensures EntryAt(s, p).Some? && k in s.g
    ensures var h := Renamed(s.g, m, d, name);
            k in h && Items(h, h[k].kids) == ListedAfterMove(s, p, dst, q)
  {
    EntryWalk(s, p);
    WalkGood(s, s.root, q);
    DetachLists(s, m, p, k, q);
    RenamedIsAttach(s.g, s.roots, m, d, name);
    var g1 := Detach(s.g, m);
    ItemsAttach(g1, s.roots, d, m, g1[m].(name := name), k);
    if k == d {
      UniquePath(s.g, s.roots, s.root, q, Init(dst));
    }
  }

  lemma MovedListing<N>(s: State<N>, p: seq<Str>, dst: seq<Str>, m: N, d: N, name: Str, q: seq<Str>, src: seq<Str>)
    requires Inv(s) && Names(s) && Moves(s, p, dst, m, d, name) && p != []
    requires Walk(Renamed(s.g, m, d, name), s.root, q) == Walk(s.g, s.root, src)
    ensures EntryAt(s, p).Some?
    ensures Walk(s.g, s.root, src).Some? ==> Listing(Moved(s, m, d, name), q) == ListedAfterMove(s, p, dst, src)
    ensures Walk(s.g, s.root, src) == None ==> Listing(Moved(s, m, d, name), q) == Listing(s, src) == []
  {
    EntryWalk(s, p);
    if Walk(s.g, s.root, src).Some? {
      MovedItems(s, p, dst, m, d, name, Walk(s.g, s.root, src).value, src);
    }
  }

  lemma MovedPrefix(p: seq<Str>, dst: seq<Str>, u: seq<Str>)
    requires p != [] && dst != [] && !(p <= Init(dst))
    ensures p + u != Init(p) && p + u != Init(dst)
  {
    assert |p + u| > |Init(p)| && p <= p + u;
  }

  ghost function ListedAfterRename<N>(s: State<N>, p: seq<Str>, dst: seq<Str>, q: seq<Str>): seq<Item>
    requires p != [] && dst != [] && EntryAt(s, p).Some?
  {
    if dst <= q then Listing(s, p + q[|dst|..]) else if p <= q then [] else ListedAfterMove(s, p, dst, q)
  }

  lemma ListedInside<N>(s: State<N>, p: seq<Str>, dst: seq<Str>, m: N, d: N, name: Str, q: seq<Str>)
    requires Inv(s) && Names(s) && Moves(s, p, dst, m, d, name) && p != [] && !(p <= Init(dst)) && dst <= q
    ensures Listing(Moved(s, m, d, name), q) == Listing(s, p + q[|dst|..])
  {
    PrefixSplit(dst, q);
    WalkRenamedInto(s.g, s.roots, s.root, m, p, d, Init(dst), name, q[|dst|..]);
    MovedPrefix(p, dst, q[|dst|..]);
    MovedListing(s, p, dst, m, d, name, q, p + q[|dst|..]);
  }

  lemma ListedAside<N>(s: State<N>, p: seq<Str>, dst: seq<Str>, m: N, d: N, name: Str, q: seq<Str>)
    requires Inv(s) && Names(s) && Moves(s, p, dst, m, d, name) && CanMove(s, p, dst)
    requires Walk(Renamed(s.g, m, d, name), s.root, q) == Walk(s.g, s.root, q)
    ensures Listing(Moved(s, m, d, name), q) == ListedAfterMove(s, p, dst, q)
  {
    MovedListing(s, p, dst, m, d, name, q, q);
    DirsAreThere(s, p, dst, q);
  }

  /** Into a directory outside the source: the entry goes from the listing of its old directory and
      comes first in that of the new one, the listings below it move along, no other one changes. */
  lemma RenameLists<N>(s: State<N>, c: seq<Str>, path: Str, newPath: Str, q: seq<Str>)
    requires Good(s, c) && path != [] && NUL !in newPath
    requires CanMove(s, Abs(c, path), Abs(c, newPath)) && !(Abs(c, path) <= Init(Abs(c, newPath)))
    ensures Listing(Rename(s, path, newPath).0, q) == ListedAfterRename(s, Abs(c, path), Abs(c, newPath), q)
  {
    RenameWhen(s, c, path, newPath);
    MovedLists(s, Abs(c, path), Abs(c, newPath), Resolve(s, path).value,
               Target(s, newPath).value.0, Target(s, newPath).value.1, q);
  }

  lemma MovedLists<N>(s: State<N>, p: seq<Str>, dst: seq<Str>, m: N, d: N, name: Str, q: seq<Str>)
    requires Inv(s) && Names(s) && Moves(s, p, dst, m, d, name) && CanMove(s, p, dst) && !(p <= Init(dst))
    ensures Listing(Moved(s, m, d, name), q) == ListedAfterRename(s, p, dst, q)
  {
    WalkRenamed(s.g, s.roots, s.root, m, p, d, Init(dst), name, q);
    if dst <= q {
      ListedInside(s, p, dst, m, d, name, q);
    } else if !(p <= q) {
      ListedAside(s, p, dst, m, d, name, q);
    }
  }

  /** Below itself: the entry goes from the listing of its directory, and all listings below it. */
  lemma RenameBelowItselfLists<N>(s: State<N>, c: seq<Str>, path: Str, newPath: Str, q: seq<Str>)
    requires Good(s, c) && path != [] && NUL !in newPath
    requires CanMove(s, Abs(c, path), Abs(c, newPath)) && Abs(c, path) <= Init(Abs(c, newPath))
    ensures var t := Rename(s, path, newPath).0; var p := Abs(c, path);
            Listing(t, q) == if p <= q then []
                             else if q == Init(p) then Minus(Listing(s, q), p[|p| - 1]) else Listing(s, q)
  {
    RenameWhen(s, c, path, newPath);
    MovedBelowLists(s, Abs(c, path), Abs(c, newPath), Resolve(s, path).value,
                    Target(s, newPath).value.0, Target(s, newPath).value.1, q);
  }

  lemma MovedBelowLists<N>(s: State<N>, p: seq<Str>, dst: seq<Str>, m: N, d: N, name: Str, q: seq<Str>)
    requires Inv(s) && Names(s) && Moves(s, p, dst, m, d, name) && CanMove(s, p, dst) && p <= Init(dst)
    ensures Listing(Moved(s, m, d, name), q) ==
              if p <= q then [] else if q == Init(p) then Minus(Listing(s, q), p[|p| - 1]) else Listing(s, q)
  {
    WalkRenamedBelowItself(s.g, s.roots, s.root, m, p, d, Init(dst), name, q);
    if !(p <= q) {
      MovedListing(s, p, dst, m, d, name, q, q);
      DirsAreThere(s, p, dst, q);
    }
  }

  /** The directories of both paths are there, so a path to nothing is neither. */
  lemma DirsAreThere<N>(s: State<N>, p: seq<Str>, dst: seq<Str>, q: seq<Str>)
    requires Inv(s) && CanMove(s, p, dst)
    ensures Walk(s.g, s.root, q) == None ==> q != Init(p) && q != Init(dst)
  {
    EntryWalk(s, p);
    EntryWalk(s, Init(dst));
    WalkLast(s.g, s.root, p);
  }

  // ---------------------------------------------------------------- snapshots

  /** The listing a non-empty path names in a chain. */
  function Below(f: Forest, q: seq<Str>): seq<Item>
    requires q != []
  {
    match f
    case Nil => []
    case Cons(name, _, kids, rest) =>
      if name != q[0] then Below(rest, q) else if |q| == 1 then Lines(kids) else Below(kids, q[1..])
  }

  function Lines(f: Forest): seq<Item> {
    match f
    case Nil => []
    case Cons(name, entry, _, rest) => [Item(name, entry == Dir)] + Lines(rest)
  }

  lemma {:induction false} ShapeLines<N>(g: Graph<N>, ks: seq<N>, f: Forest)
    requires Shape(g, ks, f)
    ensures Items(g, ks) == Lines(f)
  {
    if f.Cons? {
      ShapeLines(g, ks[1..], f.rest);
      ItemsCons(g, ks);
    }
  }

  ghost function ListingFrom<N>(g: Graph<N>, n: N, q: seq<Str>): seq<Item> {
    match Walk(g, n, q)
    case None => []
    case Some(m) => Items(g, Kids(g, m))
  }

  lemma {:induction false} ShapeBelow<N>(g: Graph<N>, ks: seq<N>, f: Forest, q: seq<Str>)
    requires Shape(g, ks, f) && q != []
    ensures Below(f, q) ==
            match FindKid(g, ks, q[0]) { case None => [] case Some(k) => ListingFrom(g, k, q[1..]) }
    decreases f
  {
    match f
    case Nil =>
    case Cons(name, entry, kids, rest) =>
      ShapeBelow(g, ks[1..], rest, q);
      if name == q[0] {
        if |q| > 1 {
          ShapeBelow(g, g[ks[0]].kids, kids, q[1..]);
        } else {
          ShapeLines(g, g[ks[0]].kids, kids);
        }
      }
  }

  /** Graphs whose roots carry the same tree list the same at every path. */
  lemma ShapeDecidesListing<N, M>(g: Graph<N>, r: N, h: Graph<M>, s: M, f: Forest, q: seq<Str>)
    requires Shape(g, [r], f) && Shape(h, [s], f)
    ensures ListingFrom(g, r, q) == ListingFrom(h, s, q)
  {
    if q == [] {
      ShapeLines(g, g[r].kids, f.kids);
      ShapeLines(h, h[s].kids, f.kids);
    } else {
      ShapeBelow(g, g[r].kids, f.kids, q);
      ShapeBelow(h, h[s].kids, f.kids, q);
    }
  }

  /** Create a snapshot, run any calls that do not make it live, restore it: every directory lists what
      it listed at creation, in the same order, provided the clone fitted. */
  lemma SnapshotLists<N>(s: State<N>, name: Str, h: Graph<N>, c: N, used: nat, f: Forest,
                         ops: seq<Op<N>>, t: State<N>, q: seq<Str>)
    requires Inv(s) && Enabled(s, SnapCreateOp(name, h, c, used)) && SnapCreate(s, name, h, c, used).1
    requires Shape(s.g, [s.root], f) && Fits(s.used, Cost(f))
    requires var s1 := SnapCreate(s, name, h, c, used).0;
             Inv(s1) && FsRuns.Run(s1, ops, t) && FsRuns.Away(s1, ops, c)
    ensures Listing(SnapRestore(t, name).0, q) == Listing(s, q)
  {
    var s1 := SnapCreate(s, name, h, c, used).0;
    FsRuns.RestoreFindsTree(s1, ops, t, name, c, q);
    CloneShape(s, h, c, used, f);
    RestoredShape(s1, ops, t, name, c, f);
    ShapeDecidesListing(s.g, s.root, t.g, c, f, q);
  }

  lemma CloneShape<N>(s: State<N>, h: Graph<N>, c: N, used: nat, f: Forest)
    requires IsClone(s, h, c, used) && Shape(s.g, [s.root], f) && Fits(s.used, Cost(f))
    ensures Shape(s.g + h, [c], f)
  {
    ClonedExactIff(f, s.used);
    ShapeExtends(h, s.g + h, [c], f);
  }

  lemma RestoredShape<N>(s: State<N>, ops: seq<Op<N>>, t: State<N>, name: Str, r: N, f: Forest)
    requires Inv(s) && FsRuns.Run(s, ops, t) && FsRuns.Away(s, ops, r)
    requires FindSnap(s.snaps, name) == Some(r) && Shape(s.g, [r], f)
    ensures Shape(t.g, [r], f)
  {
    FsRuns.FoundRoot(s, name);
    FsRuns.RunIsolates(s, ops, t, r);
    FsRuns.SameTreeShape(s.g, s.roots, t.g, r, [r], f);
  }

  // ---------------------------------------------------------------- fs_list

  /** fs_list, collecting what it hands to its callback, wherever the working directory is. */
  method List(fs: FileSystem) returns (out: seq<Item>)
    requires fs.Valid()
    ensures out == Items(fs.g, Kids(fs.g, fs.cwd))
    ensures forall c {:trigger At(fs.S(), c)} :: At(fs.S(), c) ==> out == Listing(fs.S(), c)
  {
    ghost var ks := Kids(fs.g, fs.cwd);
    assert FsNodes.NodeLinked(fs.g, fs.cwd);
    var cur, i := fs.cwd.child, 0;
    out := [];
    while cur != null
      invariant 0 <= i <= |ks| && cur == FsNodes.Nth(ks, i) && out == Items(fs.g, ks[..i])
      decreases |ks| - i
    {
      FsNodes.NextAt(fs.g, fs.roots, fs.cwd, i);
      assert FsNodes.NodeLinked(fs.g, cur);
      out := out + [Item(cur.name, cur.isDir)];
      assert ks[..i + 1] == ks[..i] + [ks[i]];
      cur := cur.sibling;
      i := i + 1;
    }
    assert ks[..i] == ks;
  }
}
