/** The nodes as linked objects, and the chain surgery of fs.c, tied to the graph of NodeGraph. */
module FsNodes {
  import opened Text
  import opened NodeGraph
  import opened GraphEdits

  class Node {
    var name: Str
    var isDir: bool
    /** The bytes of `data`; NULL and an empty buffer are both [], and no code tells them apart. */
    var data: Str
    var parent: Node?
    var child: Node?
    var sibling: Node?

    /** fs_new_node, once kmalloc has answered */
    constructor (name: Str, isDir: bool)
      ensures this.name == Clip(name) && this.isDir == isDir && data == []
      ensures parent == null && child == null && sibling == null
    {
      this.name, this.isDir, data := Clip(name), isDir, [];
      parent, child, sibling := null, null, null;
    }
  }

  ghost function Ref(o: Option<Node>): Node? {
    match o case None => null case Some(n) => n
  }

  ghost function Nth(ks: seq<Node>, i: nat): Node? {
    if i < |ks| then ks[i] else null
  }

  /** What follows x in a chain. */
  ghost function After(ks: seq<Node>, x: Node): Node? {
    if ks == [] then null else if ks[0] == x then Nth(ks, 1) else After(ks[1..], x)
  }

  ghost function Next(g: Graph<Node>, n: Node): Node?
    requires n in g
  {
    match g[n].parent case None => null case Some(p) => After(Kids(g, p), n)
  }

  ghost predicate NodeLinked(g: Graph<Node>, n: Node)
    requires n in g
    reads n
  {
    && n.name == g[n].name && n.isDir == g[n].isDir && n.data == g[n].data
    && n.parent == Ref(g[n].parent) && n.child == Nth(g[n].kids, 0) && n.sibling == Next(g, n)
  }

  /** The fields and links of the objects spell exactly the graph g. */
  ghost predicate Linked(g: Graph<Node>)
    reads g.Keys
  {
    forall n {:trigger NodeLinked(g, n)} :: n in g ==> NodeLinked(g, n)
  }

  lemma {:induction false} AfterAt(ks: seq<Node>, i: nat)
    requires Distinct(ks) && i < |ks|
    ensures After(ks, ks[i]) == Nth(ks, i + 1)
  {
    if i > 0 {
      AfterAt(ks[1..], i - 1);
    }
  }

  lemma NextAt(g: Graph<Node>, roots: set<Node>, d: Node, i: nat)
    requires Wf(g, roots) && d in g && i < |g[d].kids|
    ensures var k := g[d].kids[i]; k in g && Next(g, k) == Nth(g[d].kids, i + 1)
  {
    assert NodeOk(g, roots, d) && g[d].kids[i] in g[d].kids;
    AfterAt(g[d].kids, i);
  }

  lemma FindStep(g: Graph<Node>, ks: seq<Node>, i: nat, name: Str)
    requires i < |ks|
    ensures FindKid(g, ks[i..], name) == if NameOf(g, ks[i]) == name then Some(ks[i]) else FindKid(g, ks[i + 1..], name)
  {
    assert ks[i..][1..] == ks[i + 1..];
  }

  /** fs_find_in_dir */
  method FindInDir(dir: Node, name: Str, ghost g: Graph<Node>, ghost roots: set<Node>) returns (r: Node?)
    requires Wf(g, roots) && Linked(g) && dir in g
    ensures r == Ref(Child(g, dir, name))
  {
    ghost var ks, i := g[dir].kids, 0;
    assert NodeLinked(g, dir);
    r := dir.child;
    assert ks[0..] == ks;
    while r != null
      invariant 0 <= i <= |ks| && r == Nth(ks, i)
      invariant FindKid(g, ks[i..], name) == Child(g, dir, name)
      decreases |ks| - i
    {
      FindStep(g, ks, i, name);
      NextAt(g, roots, dir, i);
      assert NodeLinked(g, r);
      if r.name == name {
        return;
      }
      r := r.sibling;
      i := i + 1;
    }
  }

  // ---------------------------------------------------------------- putting a node in a chain

  /** A node that is in no chain, ready to be linked. */
  ghost predicate Loose(g: Graph<Node>, n: Node) {
    n in g && g[n].parent == None && forall m :: m in g ==> n !in g[m].kids
  }

  lemma NextAttach(g: Graph<Node>, d: Node, n: Node, m: Node)
    requires d in g && Loose(g, n) && m in g
    ensures Next(Attach(g, d, n, g[n]), m) == if m == n then Nth(g[d].kids, 0) else Next(g, m)
  {
    var h := Attach(g, d, n, g[n]);
    assert h[d].kids == [n] + g[d].kids && h[d].kids[1..] == g[d].kids;
  }

  /** The three assignments that end fs_mkdir, fs_touch, fs_write_cwd, fs_rename and fs_copy. */
  method LinkFirst(d: Node, n: Node, ghost g: Graph<Node>)
    requires Linked(g) && d in g && Loose(g, n)
    modifies n`parent, n`sibling, d`child
    ensures Linked(Attach(g, d, n, g[n]))
  {
    ghost var h := Attach(g, d, n, g[n]);
    assert NodeLinked(g, d);
    n.parent := d;
    n.sibling := d.child;
    d.child := n;
    forall m | m in h ensures NodeLinked(h, m) {
      assert old(NodeLinked(g, m));
      NextAttach(g, d, n, m);
    }
  }

  lemma LooseNew(g: Graph<Node>, roots: set<Node>, n: Node, r: Rec<Node>)
    requires Wf(g, roots) && n !in g && r.parent == None && r.kids == []
    ensures Loose(g[n := r], n)
  {
    forall m | m in g ensures n !in g[m].kids {
      assert NodeOk(g, roots, m);
    }
  }

  lemma NextNew(g: Graph<Node>, roots: set<Node>, n: Node, r: Rec<Node>, m: Node)
    requires Wf(g, roots) && n !in g && r.parent == None && m in g[n := r]
    ensures Next(g[n := r], m) == if m == n then null else Next(g, m)
  {
    if m in g {
      assert NodeOk(g, roots, m);
    }
  }

  /** Linking a node that was just made. */
  method LinkNew(d: Node, n: Node, ghost r: Rec<Node>, ghost g: Graph<Node>, ghost roots: set<Node>)
    requires Wf(g, roots) && Linked(g) && d in g && n !in g && r.parent == None && r.kids == []
    requires n.name == r.name && n.isDir == r.isDir && n.data == r.data
    requires n.parent == null && n.child == null && n.sibling == null
    modifies n`parent, n`sibling, d`child
    ensures Linked(Attach(g, d, n, r))
  {
    ghost var h := g[n := r];
    LooseNew(g, roots, n, r);
    forall m | m in h ensures NodeLinked(h, m) {
      NextNew(g, roots, n, r, m);
      assert m in g ==> NodeLinked(g, m);
    }
    LinkFirst(d, n, h);
    assert Attach(h, d, n, r) == Attach(g, d, n, r);
  }

  // ---------------------------------------------------------------- taking a node out of a chain

  lemma DistinctTail(ks: seq<Node>)
    requires Distinct(ks) && ks != []
    ensures Distinct(ks[1..]) && ks[0] !in ks[1..]
  {
  }

  lemma AfterMember(ks: seq<Node>, y: Node)
    ensures After(ks, y) == null || After(ks, y) in ks
  {
  }

  lemma FirstWithout(ks: seq<Node>, x: Node)
    requires Distinct(ks) && x in ks
    ensures Nth(Without(ks, x), 0) == if ks[0] == x then After(ks, x) else ks[0]
  {
    DistinctTail(ks);
    if ks[0] == x {
      WithoutAbsent(ks[1..], x);
    }
  }

  lemma {:induction false} AfterWithout(ks: seq<Node>, x: Node, y: Node)
    requires Distinct(ks) && x in ks && y in ks && x != y
    ensures After(Without(ks, x), y) == if After(ks, y) == x then After(ks, x) else After(ks, y)
  {
    var rest := ks[1..];
    DistinctTail(ks);
    if ks[0] == x {
      WithoutAbsent(rest, x);
      AfterMember(rest, y);
      assert Without(ks, x) == rest;
    } else if ks[0] == y {
      FirstWithout(rest, x);
      assert Without(ks, x)[1..] == Without(rest, x);
    } else {
      AfterWithout(rest, x, y);
      assert Without(ks, x)[1..] == Without(rest, x);
    }
  }

  lemma AfterAbsent(ks: seq<Node>, y: Node)
    requires y !in ks
    ensures After(ks, y) == null
  {
  }

  lemma AfterIs(ks: seq<Node>, y: Node, i: nat)
    requires Distinct(ks) && y in ks && i < |ks|
    ensures After(ks, y) == ks[i] <==> i > 0 && y == ks[i - 1]
  {
    var j :| 0 <= j < |ks| && ks[j] == y;
    AfterAt(ks, j);
  }

  /** How taking node out of place i moves the sibling links: the one into it leads past it. */
  lemma NextDetach(g: Graph<Node>, roots: set<Node>, node: Node, p: Node, i: nat, m: Node)
    requires Wf(g, roots) && Chained(g, node) && g[node].parent == Some(p) && m in g
    requires i < |g[p].kids| && g[p].kids[i] == node && node !in roots
    ensures Next(Detach(g, node), m) ==
            if m == node then null
            else if i > 0 && m == g[p].kids[i - 1] then Nth(g[p].kids, i + 1)
            else Next(g, m)
  {
    var ks := g[p].kids;
    assert NodeOk(g, roots, p) && NodeOk(g, roots, m);
    assert i > 0 ==> ks[i - 1] in ks;
    AfterAt(ks, i);
    if m in ks && m != node {
      AfterWithout(ks, node, m);
      AfterIs(ks, m, i);
    } else if m != node && g[m].parent == Some(p) {
      AfterAbsent(ks, m);
      AfterAbsent(Without(ks, node), m);
    }
  }

  lemma FirstDetach(g: Graph<Node>, roots: set<Node>, node: Node, p: Node, i: nat)
    requires Wf(g, roots) && Chained(g, node) && g[node].parent == Some(p)
    requires i < |g[p].kids| && g[p].kids[i] == node
    ensures Nth(Detach(g, node)[p].kids, 0) == if i == 0 then Nth(g[p].kids, 1) else g[p].kids[0]
  {
    assert NodeOk(g, roots, p);
    FirstWithout(g[p].kids, node);
    AfterAt(g[p].kids, i);
  }

  /** The links spell g, but the link into node leads past it and node is cut off. */
  ghost predicate Rewired(g: Graph<Node>, prev: Node?, node: Node, p: Node, m: Node)
    requires m in g && node in g
    reads m
  {
    && m.name == g[m].name && m.isDir == g[m].isDir && m.data == g[m].data
    && m.parent == (if m == node then null else Ref(g[m].parent))
    && m.child == (if prev == null && m == p then Next(g, node) else Nth(g[m].kids, 0))
    && m.sibling == (if m == node then null else if m == prev then Next(g, node) else Next(g, m))
  }

  lemma RewiredLinked(g: Graph<Node>, roots: set<Node>, prev: Node?, node: Node, p: Node, i: nat, m: Node)
    requires Wf(g, roots) && Chained(g, node) && g[node].parent == Some(p) && node !in roots && m in g
    requires i < |g[p].kids| && g[p].kids[i] == node && prev == if i == 0 then null else g[p].kids[i - 1]
    requires Rewired(g, prev, node, p, m)
    ensures NodeLinked(Detach(g, node), m)
  {
    NextAt(g, roots, p, i);
    NextDetach(g, roots, node, p, i, m);
    FirstDetach(g, roots, node, p, i);
  }

  /** fs_detach_from_parent; `prev` is the node whose sibling link leads to `cur`, or null while the
      parent's child link does. */
  method DetachFromParent(node: Node, ghost g: Graph<Node>, ghost roots: set<Node>)
    requires Wf(g, roots) && Linked(g) && Chained(g, node) && node !in roots
    modifies g.Keys`child, g.Keys`sibling, g.Keys`parent
    ensures Linked(Detach(g, node))
  {
    ghost var p := g[node].parent.value;
    ghost var ks := g[p].kids;
    assert NodeOk(g, roots, p) && NodeLinked(g, p) && NodeLinked(g, node);
    var parent := node.parent;
    var prev: Node?, cur := null, parent.child;
    ghost var i := 0;
    while cur != null && cur != node
      invariant 0 <= i <= |ks| && cur == Nth(ks, i)
      invariant prev == if i == 0 then null else ks[i - 1]
      invariant node !in ks[..i]
      decreases |ks| - i
      modifies {}
    {
      NextAt(g, roots, p, i);
      assert NodeLinked(g, cur);
      prev, cur := cur, cur.sibling;
      i := i + 1;
    }
    if cur == node {
      Unlink(prev, parent, node, i, g, roots);
    }
  }

  method Unlink(prev: Node?, parent: Node, node: Node, ghost i: nat, ghost g: Graph<Node>, ghost roots: set<Node>)
    requires Wf(g, roots) && Linked(g) && Chained(g, node) && node !in roots
    requires g[node].parent == Some(parent) && i < |g[parent].kids| && g[parent].kids[i] == node
    requires prev == if i == 0 then null else g[parent].kids[i - 1]
    modifies g.Keys`child, g.Keys`sibling, g.Keys`parent
    ensures Linked(Detach(g, node))
  {
    assert NodeOk(g, roots, parent);
    assert prev != null ==> prev in g[parent].kids;
    Redirect(prev, parent, node, g);
    forall m | m in g ensures NodeLinked(Detach(g, node), m) {
      RewiredLinked(g, roots, prev, node, parent, i, m);
    }
  }

  method Redirect(prev: Node?, parent: Node, node: Node, ghost g: Graph<Node>)
    requires Linked(g) && node in g && parent in g && prev != node && (prev != null ==> prev in g)
    modifies g.Keys`child, g.Keys`sibling, g.Keys`parent
    ensures forall m :: m in g ==> Rewired(g, prev, node, parent, m)
  {
    assert NodeLinked(g, node);
    if prev == null {
      parent.child := node.sibling;
    } else {
      prev.sibling := node.sibling;
    }
    node.sibling := null;
    node.parent := null;
    forall m | m in g ensures Rewired(g, prev, node, parent, m) {
      assert old(NodeLinked(g, m));
    }
  }

  // ---------------------------------------------------------------- a file's bytes

  method StoreBytes(node: Node, bytes: Str, ghost g: Graph<Node>)
    requires Linked(g) && node in g
    modifies node`data
    ensures Linked(SetData(g, node, bytes))
  {
    ghost var h := SetData(g, node, bytes);
    node.data := bytes;
    forall m | m in h ensures NodeLinked(h, m) {
      assert old(NodeLinked(g, m)) && Next(h, m) == Next(g, m);
    }
  }

  // ---------------------------------------------------------------- moving a node

  lemma DetachedIsLoose(g: Graph<Node>, roots: set<Node>, n: Node)
    requires Wf(g, roots) && Chained(g, n) && n !in roots
    ensures Loose(Detach(g, n), n)
  {
    var h := Detach(g, n);
    WfDetach(g, roots, n);
    forall m | m in h ensures n !in h[m].kids {
      assert NodeOk(h, roots, m);
    }
  }

  /** How fs_rename ends: detach, write the new name, put in front of the directory's chain. */
  method Relink(src: Node, dir: Node, name: Str, ghost g: Graph<Node>, ghost roots: set<Node>)
    requires Wf(g, roots) && Linked(g) && Chained(g, src) && src !in roots && dir in g && |name| <= NAME_MAX
    modifies g.Keys
    ensures Linked(Renamed(g, src, dir, name))
  {
    DetachFromParent(src, g, roots);
    ghost var g1 := Detach(g, src);
    DetachedIsLoose(g, roots, src);
    SetName(src, name, g1);
    ghost var r: Rec<Node> := g1[src].(name := name);
    ghost var g2: Graph<Node> := g1[src := r];
    LooseRenamed(g1, src, name);
    LinkFirst(dir, src, g2);
    assert Attach(g2, dir, src, r) == Attach(g1, dir, src, r);
  }

  lemma LooseRenamed(g: Graph<Node>, n: Node, name: Str)
    requires Loose(g, n)
    ensures Loose(g[n := g[n].(name := name)], n)
  {
  }

  method SetName(n: Node, name: Str, ghost g: Graph<Node>)
    requires Linked(g) && n in g
    modifies n`name
    ensures Linked(g[n := g[n].(name := Clip(name))])
  {
    ghost var h := g[n := g[n].(name := Clip(name))];
    n.name := Clip(name);
    forall m | m in h ensures NodeLinked(h, m) {
      assert old(NodeLinked(g, m)) && Next(h, m) == Next(g, m);
    }
  }
}
