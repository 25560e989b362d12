/** The nodes of the file system as a graph: every node's name, kind, stored bytes, parent link
    and ordered chain of children, plus the root of the tree the node was created for.

    Nothing here needs the graph to be a tree.  A detached directory or a cycle made by moving a
    directory below itself is well formed; it just cannot be reached from a root. */
module NodeGraph {
  import opened Text
  import opened KernelHeap

  datatype Rec<N> = Rec(name: Str, isDir: bool, data: Str, parent: Option<N>, kids: seq<N>, owner: N)

  type Graph<!N(==)> = map<N, Rec<N>>

  ghost function NameOf<N>(g: Graph<N>, n: N): Str {
    if n in g then g[n].name else []
  }

  ghost function Kids<N>(g: Graph<N>, n: N): seq<N> {
    if n in g then g[n].kids else []
  }

  /** The first node of a sibling chain with the given name. */
  ghost function FindKid<N>(g: Graph<N>, ks: seq<N>, name: Str): (r: Option<N>)
    ensures r.Some? ==> r.value in ks && NameOf(g, r.value) == name
    ensures r.None? ==> forall k :: k in ks ==> NameOf(g, k) != name
  {
    if ks == [] then None
    else if NameOf(g, ks[0]) == name then Some(ks[0])
    else FindKid(g, ks[1..], name)
  }

  ghost function Child<N>(g: Graph<N>, n: N, name: Str): Option<N> {
    FindKid(g, Kids(g, n), name)
  }

  /** The node reached from n by a list of names. */
  ghost function Walk<N>(g: Graph<N>, n: N, path: seq<Str>): Option<N> {
    if path == [] then Some(n)
    else match Child(g, n, path[0])
      case None => None
      case Some(k) => Walk(g, k, path[1..])
  }

  ghost predicate Distinct<T>(s: seq<T>) {
    forall i, j :: 0 <= i < j < |s| ==> s[i] != s[j]
  }

  ghost predicate NodeOk<N>(g: Graph<N>, roots: set<N>, d: N)
    requires d in g
  {
    && (if g[d].isDir then g[d].data == [] else g[d].kids == [])
    && Distinct(g[d].kids) && |g[d].data| < KHEAP_SIZE
    && (forall k :: k in g[d].kids ==> k in g && k !in roots && g[k].parent == Some(d) && g[k].owner == g[d].owner)
    && (g[d].parent.Some? && d !in roots ==> g[d].parent.value in g && d in g[g[d].parent.value].kids)
    && (d !in roots ==> 1 <= |g[d].name| <= NAME_MAX && NUL !in g[d].name)
    && g[d].owner in roots
  }

  /** Every chained node's parent field names the directory whose chain holds it, so no node is in
      two chains; every parent field names such a directory; files have no children. */
  ghost predicate Wf<N>(g: Graph<N>, roots: set<N>) {
    && (forall r :: r in roots ==>
         r in g && g[r].isDir && g[r].name == [SLASH] && g[r].parent == Some(r) && g[r].owner == r)
    && (forall d {:trigger NodeOk(g, roots, d)} :: d in g ==> NodeOk(g, roots, d))
  }

  /** No two entries of a directory share a name, and no name holds a slash. */
  ghost predicate NamesOk<N>(g: Graph<N>, roots: set<N>) {
    && (forall n :: n in g && n !in roots ==> SLASH !in g[n].name)
    && (forall d :: d in g ==> KidNamesDistinct(g, g[d].kids))
  }

  ghost predicate KidNamesDistinct<N>(g: Graph<N>, ks: seq<N>) {
    forall i, j :: 0 <= i < j < |ks| ==> NameOf(g, ks[i]) != NameOf(g, ks[j])
  }

  // ---------------------------------------------------------------- walking

  lemma {:induction false} WalkAppend<N>(g: Graph<N>, n: N, p: seq<Str>, q: seq<Str>)
    ensures Walk(g, n, p + q) ==
            match Walk(g, n, p) { case None => None case Some(m) => Walk(g, m, q) }
  {
    if p == [] {
      assert p + q == q;
    } else {
      assert (p + q)[0] == p[0] && (p + q)[1..] == p[1..] + q;
      match Child(g, n, p[0])
      case None =>
      case Some(k) => WalkAppend(g, k, p[1..], q);
    }
  }

  lemma WalkSnoc<N>(g: Graph<N>, n: N, p: seq<Str>, y: Str)
    ensures Walk(g, n, p + [y]) ==
            match Walk(g, n, p) { case None => None case Some(m) => Child(g, m, y) }
  {
    WalkAppend(g, n, p, [y]);
    match Walk(g, n, p)
    case None =>
    case Some(m) =>
      if Child(g, m, y).Some? {
        assert Walk(g, Child(g, m, y).value, [y][1..]) == Child(g, m, y);
      }
  }

  lemma SnocParts(q: seq<Str>)
    requires q != []
    ensures q == q[..|q| - 1] + [q[|q| - 1]]
  {
  }

  /** The last step of a walk goes from a directory to a member of its chain. */
  lemma WalkLast<N>(g: Graph<N>, n: N, q: seq<Str>)
    requires q != [] && Walk(g, n, q).Some?
    ensures var d := Walk(g, n, q[..|q| - 1]);
            d.Some? && Walk(g, n, q).value in Kids(g, d.value)
            && NameOf(g, Walk(g, n, q).value) == q[|q| - 1]
            && Child(g, d.value, q[|q| - 1]) == Walk(g, n, q)
  {
    SnocParts(q);
    WalkSnoc(g, n, q[..|q| - 1], q[|q| - 1]);
  }

  lemma {:induction false} WalkStays<N>(g: Graph<N>, roots: set<N>, n: N, p: seq<Str>)
    requires Wf(g, roots) && n in g && Walk(g, n, p).Some?
    ensures var m := Walk(g, n, p).value; m in g && g[m].owner == g[n].owner && (p != [] ==> m !in roots)
  {
    if p != [] {
      var k := Child(g, n, p[0]).value;
      assert NodeOk(g, roots, n);
      WalkStays(g, roots, k, p[1..]);
    }
  }

  /** In a well-formed graph a node has at most one path from a root. */
  lemma {:induction false} UniquePath<N>(g: Graph<N>, roots: set<N>, r: N, p: seq<Str>, q: seq<Str>)
    requires Wf(g, roots) && r in roots
    requires Walk(g, r, p).Some? && Walk(g, r, p) == Walk(g, r, q)
    ensures p == q
    decreases |p|
  {
    WalkStays(g, roots, r, p);
    WalkStays(g, roots, r, q);
    if p != [] && q != [] {
      WalkLast(g, r, p);
      WalkLast(g, r, q);
      var d, e := Walk(g, r, p[..|p| - 1]).value, Walk(g, r, q[..|q| - 1]).value;
      WalkStays(g, roots, r, p[..|p| - 1]);
      WalkStays(g, roots, r, q[..|q| - 1]);
      assert NodeOk(g, roots, d) && NodeOk(g, roots, e);
      UniquePath(g, roots, r, p[..|p| - 1], q[..|q| - 1]);
      SnocParts(p);
      SnocParts(q);
    }
  }

  lemma {:induction false} FindFrame<N>(g: Graph<N>, h: Graph<N>, ks: seq<N>, name: Str)
    requires forall k :: k in ks ==> NameOf(g, k) == NameOf(h, k)
    ensures FindKid(g, ks, name) == FindKid(h, ks, name)
  {
    if ks != [] {
      FindFrame(g, h, ks[1..], name);
    }
  }

  /** With distinct names a member of a chain is the one its name finds. */
  lemma {:induction false} FindMember<N>(g: Graph<N>, ks: seq<N>, k: N)
    requires k in ks && KidNamesDistinct(g, ks)
    ensures FindKid(g, ks, NameOf(g, k)) == Some(k)
  {
    if ks[0] != k {
      FindMember(g, ks[1..], k);
    }
  }
}
