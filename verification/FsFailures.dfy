/** Concrete runs, from a fresh file system, in which calls succeed and something is lost. */
module FsFailures {
  import opened Text
  import opened NodeGraph
  import opened Forest
  import opened KernelHeap
  import opened FsState
  import opened FsInvariant
  import opened FsPaths
  import opened FsMoves
  import opened FsRuns
  import opened FsDeep

  /** A fresh file system after mkdir(a). */
  ghost function OneDirectory<N>(root: N, n: N, a: Str, used: nat): State<N> {
    Create(Initial(root, [], used), a, true, n).0
  }

  lemma FreshIsBottom<N>(root: N, used: nat)
    ensures Bottom(Initial(root, [], used), [])
  {
    InitialGood(root, [], used);
  }

  lemma OneStep<N>(s: State<N>, op: Op<N>)
    requires Inv(s) && Enabled(s, op)
    ensures Run(s, [op], Step(s, op))
  {
    assert [op][1..] == [];
    StepInv(s, op);
  }

  lemma OneDirectoryIs<N>(root: N, n: N, a: Str, used: nat)
    requires root != n && Fits(used, NODE_SIZE) && ValidName(a)
    ensures Inv(Initial(root, [], used))
    ensures var t := OneDirectory(root, n, a, used);
            && Run(Initial(root, [], used), [MkdirOp(a, n)], t) && Good(t, [])
            && EntryAt(t, [a]) == Some(Dir) && Leaf(t, [a]) && t.used == used + NODE_SIZE
  {
    var s := Initial(root, [], used);
    TokensOfName(a);
    FreshIsBottom(root, used);
    MakeLevel(s, [], a, n);
    MadeNodes(s, a, n);
    assert [] + [a] == [a];
    OneStep(s, MkdirOp(a, n));
  }

  // ---------------------------------------------------------------- moving a directory below itself

  lemma BelowIsVacant<N>(s: State<N>, a: Str, b: Str)
    requires Inv(s) && EntryAt(s, [a]) == Some(Dir) && Leaf(s, [a])
    ensures CanMove(s, [a], [a, b])
  {
    assert Init([a, b]) == [a] && [a] + [b] == [a, b];
  }

  /** mkdir(a); rename(a, "/a/b"): the call succeeds and the directory is gone. */
  lemma RenameLosesDirectory<N>(root: N, n: N, a: Str, b: Str)
    requires root != n && ValidName(a) && ValidName(b) && Inv(OneDirectory(root, n, a, 0))
    ensures EntryAt(OneDirectory(root, n, a, 0), [a]) == Some(Dir)
    ensures var (t, ok) := Rename(OneDirectory(root, n, a, 0), a, Printed([a, b])); ok && EntryAt(t, [a]) == None
  {
    var s := OneDirectory(root, n, a, 0);
    OneDirectoryIs(root, n, a, 0);
    TokensOfName(a);
    TokensOfPrinted([a, b]);
    BelowIsVacant(s, a, b);
    PrintedClean(a, b);
    MovedBelow(s, a, Printed([a, b]), [a], [a, b]);
  }

  lemma PrintedClean(a: Str, b: Str)
    requires ValidName(a) && ValidName(b)
    ensures NUL !in Printed([a, b]) && Printed([a, b]) != [] && Printed([a, b])[0] == SLASH
  {
    assert [a, b][1..] == [b] && [b][1..] == [];
    assert Joined([b]) == [SLASH] + b + [];
    assert Printed([a, b]) == [SLASH] + a + Joined([b]);
  }

  lemma MovedBelow<N>(s: State<N>, path: Str, newPath: Str, p: seq<Str>, dst: seq<Str>)
    requires Good(s, []) && path != [] && NUL !in newPath && Abs([], path) == p && Abs([], newPath) == dst
    requires CanMove(s, p, dst) && p <= Init(dst)
    ensures var (t, ok) := Rename(s, path, newPath); ok && EntryAt(t, p) == None
  {
    RenameBelowItself(s, [], path, newPath);
  }

  // ---------------------------------------------------------------- removing the working directory

  /** mkdir(a); chdir(a); rmdir("/a"): the call succeeds and no path leads to the working directory. */
  lemma RmdirLosesCwd<N>(root: N, n: N, a: Str)
    requires root != n && ValidName(a)
    ensures var s := Chdir(OneDirectory(root, n, a, 0), a).0;
            && Good(s, [a]) && Rmdir(s, Printed([a])).1 && !Attached(Rmdir(s, Printed([a])).0)
  {
    var s := OneDirectory(root, n, a, 0);
    OneDirectoryIs(root, n, a, 0);
    TokensOfName(a);
    assert [] + [a] == [a];
    EnterLevel(s, [], a);
    var t := Chdir(s, a).0;
    SameEntries(s, t, [a]);
    TokensOfPrinted([a]);
    assert Printed([a]) != [] && Printed([a])[0] == SLASH;
    RmdirEffect(t, [a], Printed([a]));
  }

  // ---------------------------------------------------------------- a snapshot without its contents

  /** 100 bytes are left after the mkdir: room for the copy of the root and the snapshot, not for a. */
  const TIGHT: nat := KHEAP_SIZE - 100 - NODE_SIZE

  lemma TreeOfOne<N>(root: N, n: N, a: Str, used: nat)
    requires root != n && Fits(used, NODE_SIZE) && ValidName(a)
    ensures Shape(OneDirectory(root, n, a, used).g, [root], Cons([SLASH], Dir, Cons(a, Dir, Nil, Nil), Nil))
  {
    OneDirectoryIs(root, n, a, used);
    TokensOfName(a);
  }

  lemma CloneOfRootAlone(a: Str)
    ensures Cloned(Cons([SLASH], Dir, Cons(a, Dir, Nil, Nil), Nil), KHEAP_SIZE - 100)
            == (Cons([SLASH], Dir, Nil, Nil), KHEAP_SIZE - 100 + NODE_SIZE)
  {
  }

  /** The memory of that clone: a root without children. */
  ghost function RootAlone<N>(c: N): Graph<N> {
    map[c := Rec([SLASH], true, [], Some(c), [], c)]
  }

  lemma RootAloneIsClone<N>(root: N, n: N, c: N, a: Str)
    requires root != n && c != root && c != n && ValidName(a)
    ensures IsClone(OneDirectory(root, n, a, TIGHT), RootAlone(c), c, KHEAP_SIZE - 100 + NODE_SIZE)
  {
    var s, h := OneDirectory(root, n, a, TIGHT), RootAlone(c);
    OneDirectoryIs(root, n, a, TIGHT);
    TokensOfName(a);
    assert NodeOk(h, {c}, c);
    TreeOfOne(root, n, a, TIGHT);
    CloneOfRootAlone(a);
    forall f | Shape(s.g, [s.root], f)
      ensures Shape(h, [c], Cloned(f, s.used).0) && KHEAP_SIZE - 100 + NODE_SIZE == Cloned(f, s.used).1
    {
      ShapeUnique(s.g, [root], f, Cons([SLASH], Dir, Cons(a, Dir, Nil, Nil), Nil));
      assert [c][1..] == [];
    }
  }

  /** mkdir(a) with 100 bytes left, snapshot, restore: both calls succeed and the directory is gone. */
  lemma PartialSnapshot<N>(root: N, n: N, c: N, a: Str, name: Str)
    requires root != n && c != root && c != n && ValidName(a) && 1 <= |name| <= SNAP_NAME_MAX
    ensures var s := OneDirectory(root, n, a, TIGHT); var used := KHEAP_SIZE - 100 + NODE_SIZE;
            && EntryAt(s, [a]) == Some(Dir) && Enabled(s, SnapCreateOp(name, RootAlone(c), c, used))
            && var (t, made) := SnapCreate(s, name, RootAlone(c), c, used);
               var (u, restored) := SnapRestore(t, name);
               made && restored && EntryAt(u, [a]) == None
  {
    OneDirectoryIs(root, n, a, TIGHT);
    RootAloneIsClone(root, n, c, a);
  }
}
