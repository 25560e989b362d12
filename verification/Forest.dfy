/** Trees as values.  A chain of siblings, each with its own chain of children, is the shape that
    the first-child and next-sibling links spell out, and the shape the recursive walks follow. */
module Forest {
  import opened Text
  import opened NodeGraph
  import opened KernelHeap

  datatype Entry = Dir | File(bytes: Str)

  datatype Forest = Nil | Cons(name: Str, entry: Entry, kids: Forest, rest: Forest)

  ghost function EntryOf<N>(r: Rec<N>): Entry {
    if r.isDir then Dir else File(r.data)
  }

  /** What a path names: nothing, a directory, or a file with its stored bytes. */
  ghost function View<N>(g: Graph<N>, start: N, q: seq<Str>): Option<Entry> {
    match Walk(g, start, q)
    case None => None
    case Some(m) => if m in g then Some(EntryOf(g[m])) else None
  }

  /** The chain ks of g, with everything below it, spells f. */
  ghost predicate Shape<N>(g: Graph<N>, ks: seq<N>, f: Forest)
    decreases f
  {
    match f
    case Nil => ks == []
    case Cons(name, entry, kids, rest) =>
      && ks != [] && ks[0] in g && g[ks[0]].name == name && EntryOf(g[ks[0]]) == entry
      && Shape(g, g[ks[0]].kids, kids) && Shape(g, ks[1..], rest)
  }

  lemma {:induction false} ShapeUnique<N>(g: Graph<N>, ks: seq<N>, f: Forest, h: Forest)
    requires Shape(g, ks, f) && Shape(g, ks, h)
    ensures f == h
    decreases f
  {
    match f
    case Nil =>
    case Cons(_, _, kids, rest) =>
      ShapeUnique(g, g[ks[0]].kids, kids, h.kids);
      ShapeUnique(g, ks[1..], rest, h.rest);
  }

  lemma {:induction false} ShapeExtends<N>(g: Graph<N>, h: Graph<N>, ks: seq<N>, f: Forest)
    requires Shape(g, ks, f) && forall n :: n in g ==> n in h && h[n] == g[n]
    ensures Shape(h, ks, f)
    decreases f
  {
    match f
    case Nil =>
    case Cons(_, _, kids, rest) =>
      ShapeExtends(g, h, g[ks[0]].kids, kids);
      ShapeExtends(g, h, ks[1..], rest);
  }

  /** The entry a non-empty path names in a chain. */
  function Look(f: Forest, q: seq<Str>): Option<Entry>
    requires q != []
  {
    match f
    case Nil => None
    case Cons(name, entry, kids, rest) =>
      if name != q[0] then Look(rest, q)
      else if |q| == 1 then Some(entry)
      else Look(kids, q[1..])
  }

  lemma {:induction false} ShapeLook<N>(g: Graph<N>, ks: seq<N>, f: Forest, q: seq<Str>)
    requires Shape(g, ks, f) && q != []
    ensures Look(f, q) ==
            match FindKid(g, ks, q[0]) { case None => None case Some(k) => View(g, k, q[1..]) }
    decreases f
  {
    match f
    case Nil =>
    case Cons(name, entry, kids, rest) =>
      ShapeLook(g, ks[1..], rest, q);
      if name == q[0] && |q| > 1 {
        ShapeLook(g, g[ks[0]].kids, kids, q[1..]);
      }
  }

  /** Graphs whose roots carry the same tree show the same entry at every path. */
  lemma ShapeDecidesView<N, M>(g: Graph<N>, r: N, h: Graph<M>, s: M, f: Forest, q: seq<Str>)
    requires Shape(g, [r], f) && Shape(h, [s], f)
    ensures View(g, r, q) == View(h, s, q)
  {
    if q != [] {
      ShapeLook(g, g[r].kids, f.kids, q);
      ShapeLook(h, h[s].kids, f.kids, q);
    }
  }

  // ---------------------------------------------------------------- every root has a tree

  lemma {:induction false} DistinctBound<T>(s: seq<T>, u: set<T>)
    requires Distinct(s) && forall x :: x in s ==> x in u
    ensures |s| <= |u|
  {
    if s != [] {
      var t := s[..|s| - 1];
      var x := s[|s| - 1];
      assert forall y :: y in t ==> y in u - {x};
      DistinctBound(t, u - {x});
    }
  }

  /** A line of descent from a root down to d. */
  ghost predicate Descent<N>(g: Graph<N>, roots: set<N>, line: seq<N>, d: N) {
    && line != [] && line[0] in roots && line[|line| - 1] == d && Distinct(line)
    && (forall n :: n in line ==> n in g)
    && (forall i :: 1 <= i < |line| ==> g[line[i]].parent == Some(line[i - 1]))
  }

  lemma NotOnLine<N>(g: Graph<N>, roots: set<N>, line: seq<N>, d: N, k: N)
    requires Wf(g, roots) && Descent(g, roots, line, d) && k in g[d].kids
    ensures k in g && k !in roots && g[k].parent == Some(d) && k !in line
  {
    assert NodeOk(g, roots, d);
    forall i | 0 <= i < |line| ensures line[i] != k {
      if i > 0 {
        assert g[line[i]].parent == Some(line[i - 1]);
      }
    }
  }

  lemma DistinctSnoc<T>(s: seq<T>, x: T)
    requires Distinct(s) && x !in s
    ensures Distinct(s + [x])
  {
  }

  lemma DescentExtends<N>(g: Graph<N>, roots: set<N>, line: seq<N>, d: N, k: N)
    requires Wf(g, roots) && Descent(g, roots, line, d) && k in g[d].kids
    ensures k in g && Descent(g, roots, line + [k], k)
    ensures |line| < |g|
  {
    NotOnLine(g, roots, line, d, k);
    DistinctSnoc(line, k);
    DistinctBound(line + [k], g.Keys);
  }

  lemma {:induction false} ShapeBelow<N>(g: Graph<N>, roots: set<N>, line: seq<N>, d: N, ks: seq<N>) returns (f: Forest)
    requires Wf(g, roots) && Descent(g, roots, line, d)
    requires forall k :: k in ks ==> k in g[d].kids
    ensures Shape(g, ks, f)
    decreases |g| - |line|, |ks|
  {
    if ks == [] {
      return Nil;
    }
    var k := ks[0];
    DescentExtends(g, roots, line, d, k);
    var kids := ShapeBelow(g, roots, line + [k], k, g[k].kids);
    var rest := ShapeBelow(g, roots, line, d, ks[1..]);
    f := Cons(g[k].name, EntryOf(g[k]), kids, rest);
  }

  /** Whatever moves were made, what hangs from a root is a finite tree. */
  lemma RootHasShape<N>(g: Graph<N>, roots: set<N>, r: N) returns (f: Forest)
    requires Wf(g, roots) && r in roots
    ensures Shape(g, [r], f)
  {
    var kids := ShapeBelow(g, roots, [r], r, g[r].kids);
    f := Cons(g[r].name, EntryOf(g[r]), kids, Nil);
    assert [r][1..] == [];
  }

  // ---------------------------------------------------------------- cloning

  const NODE_SIZE: nat := 56 // sizeof(fs_node_t) on i386

  /** fs_clone_tree of a chain, started when `used` bytes of the heap are taken.  A node that does
      not fit is dropped with everything after and below it; bytes that do not fit are dropped. */
  function Cloned(f: Forest, used: nat): (r: (Forest, nat))
  {
    match f
    case Nil => (Nil, used)
    case Cons(name, entry, kids, rest) =>
      if !Fits(used, NODE_SIZE) then (Nil, used) else
        var (e, u) := ClonedEntry(entry, used + NODE_SIZE);
        var (k, v) := Cloned(kids, u);
        var (r, w) := Cloned(rest, v);
        (Cons(name, e, k, r), w)
  }

  function ClonedTree(f: Forest, used: nat): Forest {
    Cloned(f, used).0
  }

  function ClonedEnd(f: Forest, used: nat): nat {
    Cloned(f, used).1
  }

  function ClonedEntry(entry: Entry, used: nat): (Entry, nat) {
    if entry == Dir || entry == File([]) then (entry, used)
    else if Fits(used, |entry.bytes| + 1) then (entry, used + |entry.bytes| + 1)
    else (File([]), used)
  }

  function NodeCount(f: Forest): nat {
    match f case Nil => 0 case Cons(_, _, kids, rest) => 1 + NodeCount(kids) + NodeCount(rest)
  }

  function BufferSize(entry: Entry): nat {
    if entry.Dir? || entry.bytes == [] then 0 else |entry.bytes| + 1
  }

  function BufferBytes(f: Forest): nat {
    match f
    case Nil => 0
    case Cons(_, entry, kids, rest) => BufferSize(entry) + BufferBytes(kids) + BufferBytes(rest)
  }

  /** The bytes an undisturbed clone takes from the heap. */
  function Cost(f: Forest): nat {
    NodeCount(f) * NODE_SIZE + BufferBytes(f)
  }

  lemma CostStep(f: Forest)
    requires f.Cons?
    ensures Cost(f) == NODE_SIZE + BufferSize(f.entry) + Cost(f.kids) + Cost(f.rest)
  {
  }

  lemma {:induction false} ClonedGrows(f: Forest, used: nat)
    ensures Cloned(f, used).1 >= used
  {
    if f.Cons? && Fits(used, NODE_SIZE) {
      var (e, u) := ClonedEntry(f.entry, used + NODE_SIZE);
      ClonedGrows(f.kids, u);
      ClonedGrows(f.rest, Cloned(f.kids, u).1);
    }
  }

  /** A clone is the whole tree exactly when its cost fits in the heap, and then that is what it
      consumes. */
  lemma {:induction false} ClonedExactIff(f: Forest, used: nat)
    requires f != Nil
    ensures Cloned(f, used).0 == f <==> Fits(used, Cost(f))
    ensures Fits(used, Cost(f)) ==> Cloned(f, used).1 == used + Cost(f)
  {
    CostStep(f);
    if Fits(used, NODE_SIZE) {
      var (e, u) := ClonedEntry(f.entry, used + NODE_SIZE);
      var v := Cloned(f.kids, u).1;
      if f.kids != Nil {
        ClonedExactIff(f.kids, u);
      }
      if f.rest != Nil {
        ClonedExactIff(f.rest, v);
      }
    }
  }
}
