/** fs_find, with its one path buffer shared by the whole recursion, and fs_tree_cwd. */
module FsSearch {
  import opened Text
  import opened NodeGraph
  import opened Forest
  import opened FsState
  import opened FsInvariant
  import opened FsPaths
  import opened FsCwd
  import opened FsNodes
  import opened FileSystem
  import opened Preorder

  // ---------------------------------------------------------------- kstrstr

  /** kstrncmp of the bytes from hay[i] on with the whole needle. */
  method MatchesAt(hay: Str, i: nat, needle: Str) returns (r: bool)
    requires i <= |hay|
    ensures r == OccursAt(hay, i, needle)
  {
    var j := 0;
    while j < |needle| && i + j < |hay| && hay[i + j] == needle[j]
      invariant 0 <= j <= |needle| && i + j <= |hay|
      invariant forall k :: 0 <= k < j ==> hay[i + k] == needle[k]
    {
      j := j + 1;
    }
    OccursBytes(hay, i, needle);
    r := j == |needle|;
  }

  lemma OccursBytes(hay: Str, i: nat, needle: Str)
    ensures OccursAt(hay, i, needle) <==>
              i + |needle| <= |hay| && forall j :: 0 <= j < |needle| ==> hay[i + j] == needle[j]
  {
    if OccursAt(hay, i, needle) {
      forall j | 0 <= j < |needle| ensures hay[i + j] == needle[j] {
        assert hay[i..i + |needle|][j] == hay[i + j];
      }
    }
  }

  method Contains(hay: Str, needle: Str) returns (r: bool)
    ensures r == Has(hay, needle)
  {
    if |needle| == 0 {
      HasNothing(hay);
      return true;
    }
    var i := 0;
    while i < |hay|
      invariant 0 <= i <= |hay| && forall k: nat :: k < i ==> !OccursAt(hay, k, needle)
    {
      r := MatchesAt(hay, i, needle);
      if r {
        return;
      }
      i := i + 1;
    }
    r := false;
  }

  // ---------------------------------------------------------------- the path buffer

  /** What the buffer shows for the path with text t; the root's own text is empty. */
  function Shown(t: Str): Str {
    if t == [] then [SLASH] else t
  }

  ghost predicate Holds(buf: array<Byte>, n: nat, t: Str)
    reads buf
  {
    n < buf.Length == PATH_SIZE && buf[..n] == Shown(t) && buf[n] == NUL && |t| != 1
  }

  method PutBytes(buf: array<Byte>, at: nat, name: Str)
    requires buf.Length == PATH_SIZE && at + |name| < PATH_SIZE
    modifies buf
    ensures buf[..at + |name|] == old(buf[..at]) + name && buf[at + |name|] == NUL
  {
    ghost var front := buf[..at];
    var j := 0;
    while j < |name| && at + j + 1 < PATH_SIZE
      invariant 0 <= j <= |name| && buf[..at + j] == front + name[..j]
    {
      buf[at + j] := name[j];
      j := j + 1;
    }
    buf[at + |name|] := NUL;
    assert buf[..at + |name|] == front + name;
  }

  /** A slash and the name go behind the path in the buffer. */
  method PutName(buf: array<Byte>, n: nat, name: Str, ghost t: Str) returns (len: nat)
    requires Holds(buf, n, t) && name != [] && |t| + 1 + |name| < PATH_SIZE
    modifies buf
    ensures Holds(buf, len, t + [SLASH] + name)
  {
    if n == 1 && buf[0] == SLASH {
      assert buf[..1] == [SLASH] && t == [];
      PutBytes(buf, 1, name);
      len := n + |name|;
      assert t + [SLASH] + name == [SLASH] + name;
    } else {
      len := n;
      assert buf[..n] == t;
      if len + 1 < PATH_SIZE {
        buf[len] := SLASH;
        len := len + 1;
        buf[len] := NUL;
      }
      assert buf[..len] == t + [SLASH];
      PutBytes(buf, len, name);
      len := len + |name|;
    }
  }

  method CutBack(buf: array<Byte>, n: nat, ghost len: nat, ghost t: Str, ghost name: Str)
    requires n == |Shown(t)| && |t| != 1 && Holds(buf, len, t + [SLASH] + name)
    modifies buf
    ensures Holds(buf, n, t)
  {
    assert buf[..len] == t + [SLASH] + name;
    assert buf[..n] == buf[..len][..n];
    buf[n] := NUL;
  }

  // ---------------------------------------------------------------- fs_find_walk

  /** The lines printed for the hits below the path with text t. */
  function Lines(t: Str, hits: seq<seq<Str>>): (r: seq<Str>)
    ensures |r| == |hits| && forall i :: 0 <= i < |r| ==> r[i] == t + Joined(hits[i])
  {
    seq(|hits|, i requires 0 <= i < |hits| => t + Joined(hits[i]))
  }

  lemma LinesUnder(t: Str, name: Str, hits: seq<seq<Str>>)
    ensures Lines(t, Under(name, hits)) == Lines(t + [SLASH] + name, hits)
  {
    forall i | 0 <= i < |hits| ensures Lines(t, Under(name, hits))[i] == Lines(t + [SLASH] + name, hits)[i] {
      assert ([name] + hits[i])[1..] == hits[i];
      assert t + ([SLASH] + name + Joined(hits[i])) == t + [SLASH] + name + Joined(hits[i]);
    }
  }

  lemma LinesConcat(t: Str, a: seq<seq<Str>>, b: seq<seq<Str>>, c: seq<seq<Str>>)
    ensures Lines(t, a + b + c) == Lines(t, a) + Lines(t, b) + Lines(t, c)
  {
  }

  lemma LinesOwn(t: Str, name: Str)
    ensures Lines(t, [[name]]) == [t + [SLASH] + name]
  {
    assert Joined([name]) == [SLASH] + name;
    assert t + ([SLASH] + name) == t + [SLASH] + name;
    assert Lines(t, [[name]])[0] == t + [SLASH] + name;
  }

  /** The line of a node itself and those from below it. */
  ghost function LinesAt(t: Str, f: Forest, needle: Str): seq<Str>
    requires f.Cons?
  {
    (if Has(f.name, needle) then [t + [SLASH] + f.name] else []) + Lines(t + [SLASH] + f.name, Hits(f.kids, needle))
  }

  lemma LinesOfCons(t: Str, f: Forest, needle: Str)
    requires f.Cons?
    ensures Lines(t, Hits(f, needle)) == LinesAt(t, f, needle) + Lines(t, Hits(f.rest, needle))
  {
    var kids := Hits(f.kids, needle);
    LinesUnder(t, f.name, kids);
    if Has(f.name, needle) {
      LinesConcat(t, [[f.name]], Under(f.name, kids), Hits(f.rest, needle));
      LinesOwn(t, f.name);
    } else {
      LinesConcat(t, [], Under(f.name, kids), Hits(f.rest, needle));
    }
  }

  /** One round of the loop: the node, and everything below it. */
  method FindAt(node: Node, buf: array<Byte>, n: nat, needle: Str,
                ghost g: Graph<Node>, ghost roots: set<Node>, ghost ks: seq<Node>, ghost f: Forest, ghost t: Str)
      returns (out: seq<Str>)
    requires Wf(g, roots) && Linked(g) && ks != [] && node == ks[0] && node !in roots
    requires Shape(g, ks, f) && Short(|t|, f) && Holds(buf, n, t)
    modifies buf
    ensures Holds(buf, n, t) && out == LinesAt(t, f, needle)
    decreases NodeCount(f), 0
  {
    assert NodeLinked(g, node) && NodeOk(g, roots, node);
    var len := PutName(buf, n, node.name, t);
    out := [];
    var hit := Contains(node.name, needle);
    if hit {
      out := [buf[..len]];
    }
    var below := FindBelow(node, buf, len, needle, g, roots, f.kids, t + [SLASH] + node.name);
    out := out + below;
    CutBack(buf, n, len, t, node.name);
  }

  method FindBelow(node: Node, buf: array<Byte>, n: nat, needle: Str,
                   ghost g: Graph<Node>, ghost roots: set<Node>, ghost f: Forest, ghost t: Str)
      returns (out: seq<Str>)
    requires Wf(g, roots) && Linked(g) && node in g
    requires Shape(g, g[node].kids, f) && Short(|t|, f) && Holds(buf, n, t)
    modifies buf
    ensures Holds(buf, n, t) && out == Lines(t, Hits(f, needle))
    decreases NodeCount(f), 2
  {
    assert NodeLinked(g, node) && NodeOk(g, roots, node);
    out := [];
    if node.isDir && node.child != null {
      out := FindWalk(node.child, buf, n, needle, g, roots, node, f, t);
    }
  }

  /** fs_find_walk on the children of d; the path buffer comes back as it was. */
  method FindWalk(first: Node?, buf: array<Byte>, n: nat, needle: Str,
                  ghost g: Graph<Node>, ghost roots: set<Node>, ghost d: Node, ghost f: Forest, ghost t: Str)
      returns (out: seq<Str>)
    requires Wf(g, roots) && Linked(g) && d in g && first == Nth(g[d].kids, 0)
    requires Shape(g, g[d].kids, f) && Short(|t|, f) && Holds(buf, n, t)
    modifies buf
    ensures Holds(buf, n, t) && out == Lines(t, Hits(f, needle))
    decreases NodeCount(f), 1
  {
    ghost var ks, i, r := g[d].kids, 0, f;
    var node := first;
    out := [];
    assert ks[0..] == ks;
    while node != null
      invariant 0 <= i <= |ks| && node == Nth(ks, i)
      invariant Shape(g, ks[i..], r) && Short(|t|, r) && NodeCount(r) <= NodeCount(f)
      invariant Holds(buf, n, t) && out + Lines(t, Hits(r, needle)) == Lines(t, Hits(f, needle))
      decreases NodeCount(r)
    {
      NextAt(g, roots, d, i);
      assert NodeOk(g, roots, d) && ks[i] in ks && NodeLinked(g, node);
      var lines := FindAt(node, buf, n, needle, g, roots, ks[i..], r, t);
      LinesOfCons(t, r, needle);
      Regroup(out, lines, Lines(t, Hits(r.rest, needle)));
      out := out + lines;
      assert ks[i..][1..] == ks[i + 1..];
      node, i, r := node.sibling, i + 1, r.rest;
    }
  }

  // ---------------------------------------------------------------- what the lines say

  lemma {:induction false} ShapeNames<N>(g: Graph<N>, roots: set<N>, ks: seq<N>, f: Forest)
    requires NamesOk(g, roots) && KidNamesDistinct(g, ks) && Shape(g, ks, f)
    ensures NamesDistinct(f)
    ensures TopNames(f) == set k | k in ks :: NameOf(g, k)
    decreases f
  {
    if f.Cons? {
      ShapeNames(g, roots, ks[1..], f.rest);
      ShapeNames(g, roots, g[ks[0]].kids, f.kids);
      NamesOfChain(g, ks);
    }
  }

  lemma NamesOfChain<N>(g: Graph<N>, ks: seq<N>)
    requires ks != []
    ensures (set k | k in ks :: NameOf(g, k)) == {NameOf(g, ks[0])} + (set k | k in ks[1..] :: NameOf(g, k))
    ensures KidNamesDistinct(g, ks) ==> NameOf(g, ks[0]) !in (set k | k in ks[1..] :: NameOf(g, k))
  {
    forall k | k in ks ensures k == ks[0] || k in ks[1..] {
      assert ks == [ks[0]] + ks[1..];
    }
  }

  lemma LookIsView<N>(g: Graph<N>, m: N, f: Forest, q: seq<Str>)
    requires m in g && Shape(g, g[m].kids, f) && q != []
    ensures Look(f, q) == View(g, m, q)
  {
    ShapeLook(g, g[m].kids, f, q);
  }

  /** The forest below the directory at path c holds what the paths below c name. */
  lemma LookIsEntry<N>(s: State<N>, c: seq<Str>, m: N, f: Forest, q: seq<Str>)
    requires Inv(s) && Walk(s.g, s.root, c) == Some(m) && m in s.g && Shape(s.g, s.g[m].kids, f) && q != []
    ensures Look(f, q) == EntryAt(s, c + q)
  {
    LookIsView(s.g, m, f, q);
    WalkAppend(s.g, s.root, c, q);
  }

  lemma {:induction false} ShapeOfKid<N>(g: Graph<N>, ks: seq<N>, f: Forest, name: Str) returns (h: Forest)
    requires Shape(g, ks, f) && FindKid(g, ks, name).Some?
    ensures var k := FindKid(g, ks, name).value; k in g && Shape(g, g[k].kids, h)
    decreases f
  {
    if f.name == name {
      h := f.kids;
    } else {
      h := ShapeOfKid(g, ks[1..], f.rest, name);
    }
  }

  lemma {:induction false} ShapeAt<N>(g: Graph<N>, m: N, f: Forest, c: seq<Str>) returns (h: Forest)
    requires m in g && Shape(g, g[m].kids, f) && Walk(g, m, c).Some?
    ensures Walk(g, m, c).value in g && Shape(g, g[Walk(g, m, c).value].kids, h)
    decreases |c|
  {
    if c == [] {
      h := f;
    } else {
      var k := ShapeOfKid(g, g[m].kids, f, c[0]);
      h := ShapeAt(g, Child(g, m, c[0]).value, k, c[1..]);
    }
  }

  /** The live tree below an attached directory is finite. */
  lemma ForestAt<N>(s: State<N>, c: seq<Str>) returns (f: Forest)
    requires Inv(s) && Walk(s.g, s.root, c).Some?
    ensures var m := Walk(s.g, s.root, c).value; m in s.g && Shape(s.g, s.g[m].kids, f)
  {
    var whole := RootHasShape(s.g, s.roots, s.root);
    f := ShapeAt(s.g, s.root, whole.kids, c);
  }

  /** The hits of fs_find are the paths of exactly the nodes with the needle in their name. */
  lemma FindIsExact<N>(s: State<N>, f: Forest, needle: Str, q: seq<Str>)
    requires Inv(s) && Names(s) && s.root in s.g && Shape(s.g, s.g[s.root].kids, f)
    ensures q in Hits(f, needle) <==> q != [] && EntryAt(s, q).Some? && Has(q[|q| - 1], needle)
  {
    ShapeNames(s.g, s.roots, s.g[s.root].kids, f);
    HitsAre(f, needle, q);
    if q != [] {
      LookIsEntry(s, [], s.root, f, q);
      assert [] + q == q;
    }
  }

  lemma HitIsPath<N>(s: State<N>, f: Forest, needle: Str, i: nat)
    requires Inv(s) && Names(s) && s.root in s.g && Shape(s.g, s.g[s.root].kids, f) && i < |Hits(f, needle)|
    ensures Lines([], Hits(f, needle))[i] == Printed(Hits(f, needle)[i])
    ensures ValidNames(Hits(f, needle)[i])
  {
    var q := Hits(f, needle)[i];
    FindIsExact(s, f, needle, q);
    EntryWalk(s, q);
    WalkNames(s, q);
  }

  /** Line by line: the absolute path of a hit, in preorder, and no line twice. */
  lemma FindIsPreorder<N>(s: State<N>, f: Forest, needle: Str, i: nat, j: nat)
    requires Inv(s) && Names(s) && s.root in s.g && Shape(s.g, s.g[s.root].kids, f)
    requires i < j < |Hits(f, needle)|
    ensures var h := Hits(f, needle); var lines := Lines([], h);
            && lines[i] == Printed(h[i]) && lines[j] == Printed(h[j]) && lines[i] != lines[j]
            && h[i] != [] && h[j] != [] && Before(f, h[i], h[j])
  {
    var h := Hits(f, needle);
    ShapeNames(s.g, s.roots, s.g[s.root].kids, f);
    HitsSorted(f, needle, i, j);
    BeforeOneWay(f, h[i], h[j]);
    HitIsPath(s, f, needle, i);
    HitIsPath(s, f, needle, j);
    if Printed(h[i]) == Printed(h[j]) {
      PrintedInjective(h[i], h[j]);
    }
  }

  lemma PathsFit<N>(s: State<N>, f: Forest)
    requires Inv(s) && Names(s) && s.root in s.g && Shape(s.g, s.g[s.root].kids, f)
    ensures Short(0, f) <==> forall q :: EntryAt(s, q).Some? ==> |Printed(q)| < PATH_SIZE
  {
    ShapeNames(s.g, s.roots, s.g[s.root].kids, f);
    ShortIff(0, f);
    forall q: seq<Str> | q != [] ensures Look(f, q) == EntryAt(s, q) && |Printed(q)| == |Joined(q)| {
      LookIsEntry(s, [], s.root, f, q);
      assert [] + q == q;
    }
    assert Printed([]) == [SLASH];
    if Short(0, f) {
      forall q | EntryAt(s, q).Some? ensures |Printed(q)| < PATH_SIZE {
        if q != [] {
          assert Look(f, q) == EntryAt(s, q);
          assert 0 + |Joined(q)| < PATH_SIZE;
        }
      }
    } else {
      var q := ShortWitness(0, f);
      assert EntryAt(s, q).Some?;
    }
  }

  lemma {:induction false} ShapeHasNames<N>(g: Graph<N>, roots: set<N>, ks: seq<N>, f: Forest)
    requires Wf(g, roots) && Shape(g, ks, f) && forall k :: k in ks ==> k in g && k !in roots
    ensures NoEmptyNames(f)
    decreases f
  {
    if f.Cons? {
      assert NodeOk(g, roots, ks[0]);
      ShapeHasNames(g, roots, g[ks[0]].kids, f.kids);
      ShapeHasNames(g, roots, ks[1..], f.rest);
    }
  }

  /** fs_find_walk writes outside its 128-byte buffer exactly when some path is too long. */
  lemma OverrunsIff<N>(s: State<N>, f: Forest)
    requires Inv(s) && s.root in s.g && Shape(s.g, s.g[s.root].kids, f)
    ensures (exists i :: i in NulsAt(0, f) && i >= PATH_SIZE) <==> !Short(0, f)
  {
    assert NodeOk(s.g, s.roots, s.root);
    ShapeHasNames(s.g, s.roots, s.g[s.root].kids, f);
    InsideIffShort(0, f);
  }

  /** fs_find; Short is what keeps fs_find_walk inside its buffer. */
  method Find(fs: FileSystem, name: Str) returns (ok: bool, out: seq<Str>)
    requires fs.Valid() && forall f :: Shape(fs.g, Kids(fs.g, fs.root), f) ==> Short(0, f)
    ensures ok == (name != []) && (!ok ==> out == [])
    ensures forall f :: ok && Shape(fs.g, Kids(fs.g, fs.root), f) ==> out == Lines([], Hits(f, name))
  {
    out := [];
    if name == [] {
      return false, [];
    }
    ghost var f := ForestAt(fs.S(), []);
    assert NodeLinked(fs.g, fs.root);
    var buf := new Byte[PATH_SIZE];
    buf[0], buf[1] := SLASH, NUL;
    assert buf[..1] == [SLASH];
    if fs.root.child != null {
      out := FindWalk(fs.root.child, buf, 1, name, fs.g, fs.roots, fs.root, f, []);
    }
    ok := true;
    forall h | Shape(fs.g, Kids(fs.g, fs.root), h) ensures out == Lines([], Hits(h, name)) {
      ShapeUnique(fs.g, Kids(fs.g, fs.root), f, h);
    }
  }

  // ---------------------------------------------------------------- fs_tree_cwd

  method TreeWalk(first: Node?, depth: nat, ghost g: Graph<Node>, ghost roots: set<Node>, ghost d: Node,
                  ghost f: Forest)
      returns (out: seq<Row>)
    requires Wf(g, roots) && Linked(g) && d in g && first == Nth(g[d].kids, 0) && Shape(g, g[d].kids, f)
    ensures out == Rows(f, depth)
    decreases NodeCount(f)
  {
    ghost var ks, i, r := g[d].kids, 0, f;
    var node := first;
    out := [];
    assert ks[0..] == ks;
    while node != null
      invariant 0 <= i <= |ks| && node == Nth(ks, i)
      invariant Shape(g, ks[i..], r) && NodeCount(r) <= NodeCount(f)
      invariant out + Rows(r, depth) == Rows(f, depth)
      decreases NodeCount(r)
    {
      NextAt(g, roots, d, i);
      assert NodeLinked(g, node) && NodeOk(g, roots, node);
      var below := [];
      if node.isDir && node.child != null {
        below := TreeWalk(node.child, depth + 1, g, roots, node, r.kids);
      }
      Regroup(out, [Row(node.name, node.isDir, depth)] + below, Rows(r.rest, depth));
      out := out + ([Row(node.name, node.isDir, depth)] + below);
      assert ks[i..][1..] == ks[i + 1..];
      node, i, r := node.sibling, i + 1, r.rest;
    }
  }

  /** fs_tree_cwd.  Below a directory that was moved below itself the walk would not end; c is the
      path of the working directory. */
  method TreeCwd(fs: FileSystem, ghost c: seq<Str>) returns (out: seq<Row>)
    requires fs.Valid() && At(fs.S(), c)
    ensures forall f :: Shape(fs.g, Kids(fs.g, fs.cwd), f) ==> out == Rows(f, 0)
  {
    ghost var f := ForestAt(fs.S(), c);
    assert NodeLinked(fs.g, fs.cwd);
    out := [];
    if fs.cwd.isDir {
      out := TreeWalk(fs.cwd.child, 0, fs.g, fs.roots, fs.cwd, f);
    }
    forall h | Shape(fs.g, Kids(fs.g, fs.cwd), h) ensures out == Rows(h, 0) {
      ShapeUnique(fs.g, Kids(fs.g, fs.cwd), f, h);
    }
  }

  /** The rows of fs_tree_cwd: every path below the working directory, in preorder and each once,
      with its last name, its kind and its depth below the working directory. */
  lemma TreeIsExact<N>(s: State<N>, c: seq<Str>, f: Forest)
    requires Good(s, c) && s.cwd in s.g && Shape(s.g, s.g[s.cwd].kids, f)
    ensures forall q :: q in Hits(f, []) <==> q != [] && EntryAt(s, c + q).Some?
    ensures |Rows(f, 0)| == |Hits(f, [])|
    ensures forall i :: 0 <= i < |Rows(f, 0)| ==>
              var q := Hits(f, [])[i];
              q != [] && EntryAt(s, c + q).Some?
              && Rows(f, 0)[i] == Row(q[|q| - 1], EntryAt(s, c + q) == Some(Dir), |q| - 1)
    ensures forall i, j :: 0 <= i < j < |Rows(f, 0)| ==>
              var h := Hits(f, []); h[i] != [] && h[j] != [] && Before(f, h[i], h[j])
  {
    ShapeNames(s.g, s.roots, s.g[s.cwd].kids, f);
    RowsLength(f, 0);
    forall q ensures q in Hits(f, []) <==> q != [] && EntryAt(s, c + q).Some? {
      HitsAre(f, [], q);
      if q != [] {
        HasNothing(q[|q| - 1]);
        LookIsEntry(s, c, s.cwd, f, q);
      }
    }
    forall i | 0 <= i < |Rows(f, 0)|
      ensures var q := Hits(f, [])[i];
              q != [] && EntryAt(s, c + q).Some?
              && Rows(f, 0)[i] == Row(q[|q| - 1], EntryAt(s, c + q) == Some(Dir), |q| - 1)
    {
      RowsArePaths(f, 0, i);
      LookIsEntry(s, c, s.cwd, f, Hits(f, [])[i]);
    }
    forall i, j | 0 <= i < j < |Rows(f, 0)|
      ensures var h := Hits(f, []); h[i] != [] && h[j] != [] && Before(f, h[i], h[j])
    {
      HitsSorted(f, [], i, j);
    }
  }
}
