/** fs_resolve on the node objects. */
module FsResolve {
  import opened Text
  import opened NodeGraph
  import opened FsState
  import opened FsNodes

  /** How a caller of fs_resolve with want_parent reads its answer. */
  ghost predicate Answers(r: Node?, last: Str, t: Option<(Node, Str)>)
    reads r
  {
    match t
    case Some((d, name)) => r == d && last == name && last != [] && d.isDir
    case None => r == null || !r.isDir || last == []
  }

  /** The components still to be walked. */
  ghost function Left(more: bool, comp: Str, p: Str): seq<Str> {
    if more then [comp] + Tokens(p) else []
  }

  /** What fs_resolve with want_parent makes of the components left below n. */
  ghost function PlaceFor<N>(g: Graph<N>, n: N, c: seq<Str>): Option<(N, Str)> {
    if c == [] then None
    else match Child(g, n, c[0])
      case Some(k) => PlaceFor(g, k, c[1..])
      case None => if |c| == 1 && n in g && g[n].isDir then Some((n, c[0])) else None
  }

  lemma {:induction false} PlaceForIs<N>(g: Graph<N>, n: N, c: seq<Str>)
    requires c != []
    ensures PlaceFor(g, n, c) ==
            match Walk(g, n, c[..|c| - 1])
            case None => None
            case Some(d) =>
              if d in g && g[d].isDir && Child(g, d, c[|c| - 1]) == None then Some((d, c[|c| - 1])) else None
    decreases |c|
  {
    var k := Child(g, n, c[0]);
    if |c| > 1 {
      assert c[1..][..|c[1..]| - 1] == c[..|c| - 1][1..];
      if k.Some? {
        PlaceForIs(g, k.value, c[1..]);
      }
    }
  }

  lemma TargetIsPlace<N>(s: State<N>, path: Str)
    requires path != []
    ensures Target(s, path) == PlaceFor(s.g, StartOf(s, path), Tokens(path))
  {
    if Tokens(path) != [] {
      PlaceForIs(s.g, StartOf(s, path), Tokens(path));
    }
  }

  lemma OneStep<N>(g: Graph<N>, n: N, comp: Str, rest: seq<Str>)
    ensures var c := [comp] + rest;
            match Child(g, n, comp)
            case Some(k) => Walk(g, n, c) == Walk(g, k, rest) && PlaceFor(g, n, c) == PlaceFor(g, k, rest)
            case None =>
              Walk(g, n, c) == None
              && PlaceFor(g, n, c) == if rest == [] && n in g && g[n].isDir then Some((n, comp)) else None
  {
    assert ([comp] + rest)[1..] == rest;
  }

  /** The loop of fs_resolve. */
  method Follow(start: Node, path: Str, wantParent: bool, ghost g: Graph<Node>, ghost roots: set<Node>)
      returns (r: Node?, last: Str)
    requires Wf(g, roots) && Linked(g) && start in g
    ensures !wantParent ==> r == Ref(Walk(g, start, Tokens(path)))
    ensures wantParent ==> Answers(r, last, PlaceFor(g, start, Tokens(path)))
    ensures r != null ==> r in g
  {
    var cur := start;
    var parent: Node? := null;
    var more, comp, p := NextComponent(path);
    while more
      invariant cur in g && (parent != null ==> parent in g)
      invariant Walk(g, cur, Left(more, comp, p)) == Walk(g, start, Tokens(path))
      invariant PlaceFor(g, cur, Left(more, comp, p)) == PlaceFor(g, start, Tokens(path))
      invariant more ==> comp != []
      invariant p == [] <==> Tokens(p) == []
      decreases |p|, more
    {
      parent := cur;
      OneStep(g, cur, comp, Tokens(p));
      var next := FindInDir(cur, comp, g, roots);
      if next == null {
        assert NodeLinked(g, cur);
        if wantParent && p == [] {
          return cur, comp;
        }
        return null, [];
      }
      assert NodeOk(g, roots, cur);
      cur := next;
      more, comp, p := NextComponent(p);
    }
    last := [];
    r := if wantParent && parent != null then parent else cur;
  }

  /** fs_resolve; the last name comes back empty unless it is the one component that is missing. */
  method Lookup(root: Node, cwd: Node, path: Str, wantParent: bool, ghost s: State<Node>) returns (r: Node?, last: Str)
    requires Inv(s) && Linked(s.g) && root == s.root && cwd == s.cwd
    ensures !wantParent ==> Resolve(s, path) == if r == null then None else Some(r)
    ensures wantParent ==> Answers(r, last, Target(s, path))
    ensures r != null ==> r in s.g && s.g[r].isDir == r.isDir
  {
    if path == [] {
      return null, [];
    }
    TargetIsPlace(s, path);
    r, last := Follow(if path[0] == SLASH then root else cwd, path, wantParent, s.g, s.roots);
    if r != null {
      assert NodeLinked(s.g, r);
    }
  }
}
