/** Where `cd ..` goes wrong: a reachable working directory whose path takes 128 bytes. */
module FsDeep {
  import opened Text
  import opened NodeGraph
  import opened Forest
  import opened KernelHeap
  import opened FsState
  import opened FsInvariant
  import opened FsPaths
  import opened FsRuns
  import opened Shell

  /** The longest name there is: 31 letters a. */
  const LONG: Str := seq(NAME_MAX, _ => 0x61)

  ghost predicate Leaf<N>(s: State<N>, c: seq<Str>) {
    forall x :: EntryAt(s, c + [x]) == None
  }

  lemma LongTokens()
    ensures ValidName(LONG) && Tokens(LONG) == [LONG]
  {
    assert LONG[0] == 0x61;
    assert forall i :: 0 <= i < |LONG| ==> LONG[i] == 0x61;
    TokensOfName(LONG);
  }

  /** An empty directory to go down from. */
  ghost predicate Bottom<N>(s: State<N>, c: seq<Str>) {
    Good(s, c) && EntryAt(s, c) == Some(Dir) && Leaf(s, c)
  }

  lemma MakeEntry<N>(s: State<N>, c: seq<Str>, name: Str, n: N, q: seq<Str>)
    requires Bottom(s, c) && n !in s.g && Fits(s.used, NODE_SIZE) && ValidName(name) && Tokens(name) == [name]
    ensures Create(s, name, true, n).1
    ensures var t := Create(s, name, true, n).0;
            At(t, c) && EntryAt(t, q) == if q == c + [name] then Some(Dir) else EntryAt(s, q)
  {
    assert Init(c + [name]) == c;
    CreateEffect(s, c, name, true, n);
  }

  /** mkdir of a new name in an empty working directory. */
  lemma MakeLevel<N>(s: State<N>, c: seq<Str>, name: Str, n: N)
    requires Bottom(s, c) && n !in s.g && Fits(s.used, NODE_SIZE) && ValidName(name) && Tokens(name) == [name]
    ensures Create(s, name, true, n).1
    ensures var t := Create(s, name, true, n).0;
            Good(t, c) && EntryAt(t, c + [name]) == Some(Dir) && Leaf(t, c + [name])
  {
    var p := c + [name];
    MakeEntry(s, c, name, n, p);
    StepGood(s, c, MkdirOp(name, n));
    forall x ensures EntryAt(Create(s, name, true, n).0, p + [x]) == None {
      MakeEntry(s, c, name, n, p + [x]);
      NothingBelow(s, p, [x]);
      assert |p + [x]| != |p|;
    }
  }

  lemma MadeNodes<N>(s: State<N>, name: Str, n: N)
    requires Create(s, name, true, n).1
    ensures var t := Create(s, name, true, n).0; t.g.Keys == s.g.Keys + {n} && t.used == s.used + NODE_SIZE
  {
  }

  /** cd into it. */
  lemma EnterLevel<N>(s: State<N>, c: seq<Str>, name: Str)
    requires Good(s, c) && ValidName(name) && Tokens(name) == [name] && EntryAt(s, c + [name]) == Some(Dir)
    ensures var t := Chdir(s, name).0;
            Good(t, c + [name]) && t == s.(cwd := t.cwd)
  {
    ChdirEffect(s, c, name);
    StepGood(s, c, ChdirOp(name));
  }

  lemma SameEntries<N>(s: State<N>, t: State<N>, p: seq<Str>)
    requires t == s.(cwd := t.cwd)
    ensures EntryAt(t, p) == EntryAt(s, p) && (Leaf(t, p) <==> Leaf(s, p))
  {
  }

  lemma Deepen<N>(s: State<N>, c: seq<Str>, name: Str, n: N) returns (t: State<N>)
    requires Bottom(s, c) && n !in s.g && Fits(s.used, NODE_SIZE) && ValidName(name) && Tokens(name) == [name]
    ensures Run(s, [MkdirOp(name, n), ChdirOp(name)], t) && Bottom(t, c + [name])
    ensures t.g.Keys == s.g.Keys + {n} && t.used == s.used + NODE_SIZE
  {
    MakeLevel(s, c, name, n);
    MadeNodes(s, name, n);
    var s1 := Create(s, name, true, n).0;
    EnterLevel(s1, c, name);
    t := Chdir(s1, name).0;
    SameEntries(s1, t, c + [name]);
    RunTwo(s, MkdirOp(name, n), ChdirOp(name));
  }

  lemma NothingBelow<N>(s: State<N>, p: seq<Str>, q: seq<Str>)
    requires Inv(s) && EntryAt(s, p) == None
    ensures EntryAt(s, p + q) == None
  {
    EntryWalk(s, p);
    WalkAppend(s.g, s.root, p, q);
  }

  lemma RunTwo<N>(s: State<N>, a: Op<N>, b: Op<N>)
    requires Inv(s) && Enabled(s, a) && Inv(Step(s, a)) && Enabled(Step(s, a), b)
    ensures Run(s, [a, b], Step(Step(s, a), b))
  {
    assert [a, b][1..] == [b] && [b][1..] == [];
    StepInv(s, a);
    StepInv(Step(s, a), b);
    assert Run(Step(s, a), [b], Step(Step(s, a), b));
  }

  function Repeat(name: Str, k: nat): seq<Str> {
    seq(k, _ => name)
  }

  /** The nodes from k on are still free. */
  ghost predicate Free<N>(g: Graph<N>, nodes: seq<N>, k: nat) {
    forall i :: k <= i < |nodes| ==> nodes[i] !in g
  }

  lemma FreeStep<N>(g: Graph<N>, h: Graph<N>, nodes: seq<N>, k: nat)
    requires Free(g, nodes, k) && Distinct(nodes) && k < |nodes| && h.Keys == g.Keys + {nodes[k]}
    ensures Free(h, nodes, k + 1)
  {
    assert forall i :: k < i < |nodes| ==> nodes[i] != nodes[k];
  }

  lemma RepeatSnoc(name: Str, k: nat)
    ensures Repeat(name, k + 1) == Repeat(name, k) + [name]
  {
  }

  /** k levels down, every directory with the same name. */
  lemma {:induction false} Descend<N>(s: State<N>, name: Str, nodes: seq<N>, k: nat)
      returns (ops: seq<Op<N>>, t: State<N>)
    requires Bottom(s, []) && Free(s.g, nodes, 0) && Distinct(nodes) && k <= |nodes|
    requires ValidName(name) && Tokens(name) == [name] && Fits(s.used, k * NODE_SIZE)
    ensures Run(s, ops, t) && Bottom(t, Repeat(name, k)) && Free(t.g, nodes, k) && t.used == s.used + k * NODE_SIZE
    decreases k
  {
    if k == 0 {
      assert Repeat(name, 0) == [];
      return [], s;
    }
    var before, u := Descend(s, name, nodes, k - 1);
    ops, t := DescendOne(s, before, u, name, k - 1, nodes[k - 1]);
    FreeStep(u.g, t.g, nodes, k - 1);
  }

  lemma DescendOne<N>(s: State<N>, before: seq<Op<N>>, u: State<N>, name: Str, k: nat, n: N)
      returns (ops: seq<Op<N>>, t: State<N>)
    requires Inv(s) && Run(s, before, u) && Bottom(u, Repeat(name, k)) && n !in u.g && Fits(u.used, NODE_SIZE)
    requires ValidName(name) && Tokens(name) == [name]
    ensures Run(s, ops, t) && Bottom(t, Repeat(name, k + 1))
    ensures t.g.Keys == u.g.Keys + {n} && t.used == u.used + NODE_SIZE
  {
    t := Deepen(u, Repeat(name, k), name, n);
    RepeatSnoc(name, k);
    var last := [MkdirOp(name, n), ChdirOp(name)];
    ops := before + last;
    RunAppend(s, before, u, last, t);
  }

  lemma {:induction false} JoinedRepeat(name: Str, k: nat)
    ensures |Joined(Repeat(name, k))| == k * (|name| + 1)
  {
    if k > 0 {
      assert Repeat(name, k)[1..] == Repeat(name, k - 1);
      JoinedRepeat(name, k - 1);
    }
  }

  lemma RepeatTail(name: Str, k: nat, j: nat)
    requires j <= k
    ensures Repeat(name, k)[j..] == Repeat(name, k - j) && Repeat(name, k)[..j] == Repeat(name, j)
  {
  }

  lemma PrefixIsDir<N>(s: State<N>, p: seq<Str>, q: seq<Str>)
    requires Inv(s) && EntryAt(s, p + q).Some? && q != []
    ensures EntryAt(s, p) == Some(Dir)
  {
    EntryWalk(s, p + q);
    WalkAppend(s.g, s.root, p, q);
    EntryWalk(s, p);
    assert NodeOk(s.g, s.roots, Walk(s.g, s.root, p).value);
  }

  lemma StartIsBottom<N>(root: N)
    ensures Bottom(Initial(root, [], 0), [])
  {
    InitialGood(root, [], 0);
  }

  /** When all names but the first are printed, cd .. reads them from the root. */
  lemma CdUpFromTail<N>(t: State<N>, c: seq<Str>, p: seq<Str>)
    requires Good(t, c) && |c| > 1 && |Joined(c)| >= PATH_SIZE > |Joined(c[1..])|
    requires p == Init(c[1..]) && EntryAt(t, p) == Some(Dir)
    ensures Cd(t, DOT_DOT).1 && At(Cd(t, DOT_DOT).0, p)
  {
    var k := CdUpIs(t, c);
    assert c[0..] == c;
    assert k == 1;
    EntryWalk(t, p);
  }

  lemma OnePlace<N>(s: State<N>, t: State<N>, p: seq<Str>, q: seq<Str>)
    requires Inv(s) && t == s.(cwd := t.cwd) && At(t, p) && p != q
    ensures !At(t, q)
  {
    if At(t, q) {
      UniquePath(s.g, s.roots, s.root, p, q);
    }
  }

  /** Where the working directory has a path of four equal names and 128 bytes. */
  lemma FourDown<N>(t: State<N>, name: Str)
    requires |name| == NAME_MAX && Good(t, Repeat(name, 4))
    ensures |Printed(Repeat(name, 4))| == PATH_SIZE
    ensures var u := Cd(t, DOT_DOT); u.1 && At(u.0, Repeat(name, 2)) && !At(u.0, Repeat(name, 3))
  {
    var c, p := Repeat(name, 4), Repeat(name, 2);
    JoinedRepeat(name, 4);
    JoinedRepeat(name, 3);
    RepeatTail(name, 4, 1);
    RepeatTail(name, 3, 2);
    EntryWalk(t, c);
    assert p + p == c;
    PrefixIsDir(t, p, p);
    CdUpFromTail(t, c, p);
    assert |Repeat(name, 3)| != |p|;
    OnePlace(t, Cd(t, DOT_DOT).0, p, Repeat(name, 3));
  }

  /** Four such directories down the path takes 128 bytes; fs_getcwd prints its last three names, and
      cd .. reads them from the root: it succeeds, and ends two levels up. */
  lemma CdUpGoesAstray<N>(root: N, nodes: seq<N>) returns (ops: seq<Op<N>>, t: State<N>)
    requires |nodes| == 4 && Distinct(nodes) && root !in nodes && Inv(Initial(root, [], 0))
    ensures Run(Initial(root, [], 0), ops, t) && Good(t, Repeat(LONG, 4)) && |Printed(Repeat(LONG, 4))| == PATH_SIZE
    ensures var u := Cd(t, DOT_DOT); u.1 && At(u.0, Repeat(LONG, 2)) && !At(u.0, Repeat(LONG, 3))
  {
    LongTokens();
    StartIsBottom(root);
    ops, t := Descend(Initial(root, [], 0), LONG, nodes, 4);
    FourDown(t, LONG);
  }
}
