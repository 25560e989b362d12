/** Deep cloning of the node objects, and why what it builds is a tree of its own. */
module FsClone {
  import opened Text
  import opened NodeGraph
  import opened KernelHeap
  import opened Forest
  import opened FsState
  import opened FsNodes

  // ---------------------------------------------------------------- pieces of a copy

  ghost predicate PieceNode<N>(h: Graph<N>, s: seq<N>, m: N)
    requires m in h
  {
    && (if h[m].isDir then h[m].data == [] else h[m].kids == [])
    && Distinct(h[m].kids) && |h[m].data| < KHEAP_SIZE
    && (forall k :: k in h[m].kids ==> k in h && k !in s && h[k].parent == Some(m))
    && (m !in s ==>
          && h[m].parent.Some? && h[m].parent.value in h && m in h[h[m].parent.value].kids
          && 1 <= |h[m].name| <= NAME_MAX && NUL !in h[m].name)
  }

  /** h is a copied forest with top chain s, whose nodes name `parent`. */
  ghost predicate PieceOk<N>(h: Graph<N>, s: seq<N>, parent: Option<N>) {
    && Distinct(s) && (forall m :: m in s ==> m in h && h[m].parent == parent)
    && (forall m {:trigger PieceNode(h, s, m)} :: m in h ==> PieceNode(h, s, m))
  }

  ghost predicate PieceNames<N>(h: Graph<N>, s: seq<N>) {
    forall m :: m in h ==> KidNamesDistinct(h, h[m].kids) && (m !in s ==> SLASH !in h[m].name)
  }

  /** A copied chain has the names of a prefix of the original one. */
  ghost predicate CopiesNames<N>(g: Graph<N>, ks: seq<N>, h: Graph<N>, s: seq<N>) {
    |s| <= |ks| && forall i :: 0 <= i < |s| ==> s[i] in h && ks[i] in g && h[s[i]].name == g[ks[i]].name
  }

  ghost function Join<N>(hk: Graph<N>, hr: Graph<N>, c: N, r: Rec<N>): Graph<N> {
    (hk + hr)[c := r]
  }

  ghost predicate Joinable<N>(hk: Graph<N>, sk: seq<N>, hr: Graph<N>, sr: seq<N>, c: N, r: Rec<N>) {
    && PieceOk(hk, sk, Some(c)) && PieceOk(hr, sr, r.parent)
    && hk.Keys !! hr.Keys && c !in hk && c !in hr && r.parent != Some(c)
    && r.kids == sk && (if r.isDir then r.data == [] else sk == []) && |r.data| < KHEAP_SIZE
    && (forall k :: k in sk ==> k in hk && 1 <= |hk[k].name| <= NAME_MAX && NUL !in hk[k].name)
  }

  lemma JoinNode<N>(hk: Graph<N>, sk: seq<N>, hr: Graph<N>, sr: seq<N>, c: N, r: Rec<N>, m: N)
    requires Joinable(hk, sk, hr, sr, c, r) && (m in hk || m in hr || m == c)
    ensures PieceNode(Join(hk, hr, c, r), [c] + sr, m)
  {
    if m in hk {
      assert PieceNode(hk, sk, m);
    } else if m in hr {
      assert PieceNode(hr, sr, m);
    }
  }

  lemma JoinOk<N>(hk: Graph<N>, sk: seq<N>, hr: Graph<N>, sr: seq<N>, c: N, r: Rec<N>)
    requires Joinable(hk, sk, hr, sr, c, r)
    ensures PieceOk(Join(hk, hr, c, r), [c] + sr, r.parent)
  {
    var h := Join(hk, hr, c, r);
    forall m | m in h ensures PieceNode(h, [c] + sr, m) {
      JoinNode(hk, sk, hr, sr, c, r, m);
    }
  }

  lemma JoinNames<N>(hk: Graph<N>, sk: seq<N>, hr: Graph<N>, sr: seq<N>, c: N, r: Rec<N>)
    requires Joinable(hk, sk, hr, sr, c, r) && PieceNames(hk, sk) && PieceNames(hr, sr)
    requires KidNamesDistinct(hk, sk) && forall k :: k in sk ==> k in hk && SLASH !in hk[k].name
    ensures PieceNames(Join(hk, hr, c, r), [c] + sr)
  {
    var h := Join(hk, hr, c, r);
    forall m | m in h ensures KidNamesDistinct(h, h[m].kids) && (m !in [c] + sr ==> SLASH !in h[m].name) {
      if m in hk {
        assert PieceNode(hk, sk, m) && KidNamesDistinct(hk, hk[m].kids);
      } else if m in hr {
        assert PieceNode(hr, sr, m) && KidNamesDistinct(hr, hr[m].kids);
      }
    }
  }

  lemma {:induction false} JoinShape<N>(hk: Graph<N>, sk: seq<N>, hr: Graph<N>, sr: seq<N>, c: N, r: Rec<N>,
                                        fk: Forest, fr: Forest)
    requires hk.Keys !! hr.Keys && c !in hk && c !in hr && r.kids == sk
    requires Shape(hk, sk, fk) && Shape(hr, sr, fr)
    ensures Shape(Join(hk, hr, c, r), [c] + sr, Cons(r.name, EntryOf(r), fk, fr))
  {
    var h := Join(hk, hr, c, r);
    ShapeExtends(hk, h, sk, fk);
    ShapeExtends(hr, h, sr, fr);
    assert ([c] + sr)[1..] == sr;
  }

  /** A complete copy with its single top node made its own parent, and everything tagged with it. */
  ghost function Rooted<N>(h: Graph<N>, c: N): Graph<N> {
    map m | m in h :: if m == c then h[m].(parent := Some(c), owner := c) else h[m].(owner := c)
  }

  lemma RootedWf<N>(h: Graph<N>, c: N)
    requires PieceOk(h, [c], None) && c in h && h[c].isDir && h[c].name == [SLASH]
    ensures Wf(Rooted(h, c), {c})
    ensures PieceNames(h, [c]) ==> NamesOk(Rooted(h, c), {c})
  {
    var t := Rooted(h, c);
    assert c in [c];
    forall m | m in t ensures NodeOk(t, {c}, m) {
      assert PieceNode(h, [c], m);
    }
    if PieceNames(h, [c]) {
      forall m | m in t ensures KidNamesDistinct(t, t[m].kids) {
        assert KidNamesDistinct(h, h[m].kids) && PieceNode(h, [c], m);
      }
    }
  }

  lemma {:induction false} RootedShape<N>(h: Graph<N>, c: N, ks: seq<N>, f: Forest)
    requires Shape(h, ks, f)
    ensures Shape(Rooted(h, c), ks, f)
    decreases f
  {
    match f
    case Nil =>
    case Cons(_, _, kids, rest) =>
      RootedShape(h, c, h[ks[0]].kids, kids);
      RootedShape(h, c, ks[1..], rest);
  }

  // ---------------------------------------------------------------- the objects

  ghost function Opt(n: Node?): Option<Node> {
    if n == null then None else Some(n)
  }

  ghost predicate PieceLinkedAt(h: Graph<Node>, s: seq<Node>, m: Node)
    requires m in h
    reads m
  {
    && m.name == h[m].name && m.isDir == h[m].isDir && m.data == h[m].data
    && m.parent == Ref(h[m].parent) && m.child == Nth(h[m].kids, 0)
    && m.sibling == if m in s then After(s, m) else Next(h, m)
  }

  /** The objects of a piece spell it; the top chain's links are those of s. */
  ghost predicate PieceLinked(h: Graph<Node>, s: seq<Node>)
    reads h.Keys
  {
    forall m {:trigger PieceLinkedAt(h, s, m)} :: m in h ==> PieceLinkedAt(h, s, m)
  }

  /** The chain ks as the sibling links of g spell it, to its end. */
  ghost predicate ChainOf(g: Graph<Node>, ks: seq<Node>) {
    forall i :: 0 <= i < |ks| ==> ks[i] in g && Next(g, ks[i]) == Nth(ks, i + 1)
  }

  lemma KidsChain(g: Graph<Node>, roots: set<Node>, d: Node)
    requires Wf(g, roots) && d in g
    ensures ChainOf(g, g[d].kids)
  {
    forall i | 0 <= i < |g[d].kids| ensures g[d].kids[i] in g && Next(g, g[d].kids[i]) == Nth(g[d].kids, i + 1) {
      NextAt(g, roots, d, i);
    }
  }

  lemma CopiedKids(g: Graph<Node>, roots: set<Node>, d: Node, h: Graph<Node>, s: seq<Node>)
    requires Wf(g, roots) && d in g && CopiesNames(g, g[d].kids, h, s)
    ensures forall k :: k in s ==> k in h && 1 <= |h[k].name| <= NAME_MAX && NUL !in h[k].name
    ensures NamesOk(g, roots) ==> KidNamesDistinct(h, s) && forall k :: k in s ==> SLASH !in h[k].name
  {
    var ks := g[d].kids;
    assert NodeOk(g, roots, d) && (NamesOk(g, roots) ==> KidNamesDistinct(g, ks));
    forall i | 0 <= i < |s|
      ensures s[i] in h && 1 <= |h[s[i]].name| <= NAME_MAX && NUL !in h[s[i]].name
      ensures NamesOk(g, roots) ==> SLASH !in h[s[i]].name
    {
      assert ks[i] in ks && NodeOk(g, roots, ks[i]);
    }
  }

  lemma JoinNext(hk: Graph<Node>, sk: seq<Node>, hr: Graph<Node>, sr: seq<Node>, c: Node, r: Rec<Node>, m: Node)
    requires Joinable(hk, sk, hr, sr, c, r) && (m in hk || m in hr || m == c)
    ensures var h, s := Join(hk, hr, c, r), [c] + sr;
            (if m in s then After(s, m) else Next(h, m)) ==
            if m == c then Nth(sr, 0)
            else if m in hk then (if m in sk then After(sk, m) else Next(hk, m))
            else (if m in sr then After(sr, m) else Next(hr, m))
  {
    if m in hk {
      assert PieceNode(hk, sk, m);
    } else if m in hr {
      assert PieceNode(hr, sr, m);
    }
    assert ([c] + sr)[1..] == sr;
  }

  lemma {:induction false} JoinLinked(hk: Graph<Node>, sk: seq<Node>, hr: Graph<Node>, sr: seq<Node>, c: Node,
                                      r: Rec<Node>)
    requires Joinable(hk, sk, hr, sr, c, r) && PieceLinked(hk, sk) && PieceLinked(hr, sr)
    requires c.name == r.name && c.isDir == r.isDir && c.data == r.data && c.parent == Ref(r.parent)
    requires c.child == Nth(sk, 0) && c.sibling == Nth(sr, 0)
    ensures PieceLinked(Join(hk, hr, c, r), [c] + sr)
  {
    var h, s := Join(hk, hr, c, r), [c] + sr;
    forall m | m in h ensures PieceLinkedAt(h, s, m) {
      JoinNext(hk, sk, hr, sr, c, r, m);
      if m in hk {
        assert PieceLinkedAt(hk, sk, m);
      } else if m in hr {
        assert PieceLinkedAt(hr, sr, m);
      }
    }
  }

  ghost function EntryHeld(n: Node): Entry
    reads n
  {
    if n.isDir then Dir else File(n.data)
  }

  /** fs_new_node */
  method NewNode(name: Str, isDir: bool, heap: Heap) returns (n: Node?)
    requires heap.Valid()
    modifies heap
    ensures heap.Valid() && (n != null <==> Fits(old(heap.offset), NODE_SIZE))
    ensures n == null ==> heap.offset == old(heap.offset)
    ensures n != null ==>
              && fresh(n) && heap.offset == old(heap.offset) + NODE_SIZE
              && n.name == Clip(name) && n.isDir == isDir && n.data == []
              && n.parent == null && n.child == null && n.sibling == null
  {
    var p := heap.Kmalloc(NODE_SIZE);
    if p == 0 {
      return null;
    }
    n := new Node(name, isDir);
  }

  /** The copying loop of fs_clone_tree and fs_copy. */
  method CopyBytes(data: Str) returns (bytes: Str)
    ensures bytes == data
  {
    var buf := new Byte[|data| + 1];
    var i := 0;
    while i < |data|
      invariant 0 <= i <= |data| && buf[..i] == data[..i]
    {
      buf[i] := data[i];
      i := i + 1;
    }
    buf[|data|] := NUL;
    bytes := buf[..|data|];
  }

  /** One node of the copy: its bytes are copied when there are any and they fit. */
  method CloneNode(n: Node, parent: Node?, heap: Heap, ghost entry: Entry) returns (copy: Node?)
    requires heap.Valid() && |n.name| <= NAME_MAX && |n.data| < KHEAP_SIZE
    requires entry == EntryHeld(n)
    modifies heap
    ensures heap.Valid() && (copy != null <==> Fits(old(heap.offset), NODE_SIZE))
    ensures copy == null ==> heap.offset == old(heap.offset)
    ensures copy != null ==>
              && fresh(copy) && copy.name == n.name && copy.isDir == n.isDir
              && copy.parent == parent && copy.child == null && copy.sibling == null
              && (copy.isDir ==> copy.data == []) && |copy.data| < KHEAP_SIZE
              && ClonedEntry(entry, old(heap.offset) + NODE_SIZE) == (EntryHeld(copy), heap.offset)
  {
    copy := NewNode(n.name, n.isDir, heap);
    if copy == null {
      return;
    }
    copy.parent := parent;
    if !n.isDir && n.data != [] {
      var p := heap.Kmalloc(|n.data| + 1);
      if p != 0 {
        var bytes := CopyBytes(n.data);
        copy.data := bytes;
      }
    }
  }

  /** Everything the copy h with top chain s promises about the chain ks of g. */
  ghost predicate CopyOf<N>(g: Graph<N>, roots: set<N>, ks: seq<N>, h: Graph<N>, s: seq<N>, parent: Option<N>) {
    && PieceOk(h, s, parent) && CopiesNames(g, ks, h, s)
    && (NamesOk(g, roots) ==> PieceNames(h, s))
  }

  ghost function CopyRec(c: Node, parent: Node?, data: Str, sk: seq<Node>): Rec<Node>
    reads c
  {
    Rec(c.name, c.isDir, data, Opt(parent), sk, c)
  }

  /** A copied node, the copy of its children and the copy of what follows it make one copy. */
  lemma {:induction false} CopyJoined(g: Graph<Node>, roots: set<Node>, ks: seq<Node>, parent: Node?, c: Node,
                   hk: Graph<Node>, sk: seq<Node>, hr: Graph<Node>, sr: seq<Node>)
    requires Wf(g, roots) && ks != [] && ks[0] in g && c.name == g[ks[0]].name
    requires CopyOf(g, roots, g[ks[0]].kids, hk, sk, Some(c)) && CopyOf(g, roots, ks[1..], hr, sr, Opt(parent))
    requires Joinable(hk, sk, hr, sr, c, CopyRec(c, parent, c.data, sk))
    ensures CopyOf(g, roots, ks, Join(hk, hr, c, CopyRec(c, parent, c.data, sk)), [c] + sr, Opt(parent))
  {
    var r := CopyRec(c, parent, c.data, sk);
    JoinOk(hk, sk, hr, sr, c, r);
    CopiedKids(g, roots, ks[0], hk, sk);
    if NamesOk(g, roots) {
      JoinNames(hk, sk, hr, sr, c, r);
    }
  }

  lemma EmptyCopy(g: Graph<Node>, roots: set<Node>, ks: seq<Node>, parent: Node?)
    ensures CopyOf(g, roots, ks, map[], [], Opt(parent)) && PieceLinked(map[], [])
  {
  }

  lemma ChainOfRest(g: Graph<Node>, ks: seq<Node>)
    requires ChainOf(g, ks) && ks != []
    ensures ks[0] in g && Next(g, ks[0]) == Nth(ks[1..], 0) && ChainOf(g, ks[1..])
  {
    forall i | 0 <= i < |ks[1..]| ensures ks[1..][i] in g && Next(g, ks[1..][i]) == Nth(ks[1..], i + 1) {
      assert ks[1..][i] == ks[i + 1];
    }
  }

  /** The fields of a copy that are set before its links are. */
  ghost function Body(c: Node): (Str, bool, Str, Node?)
    reads c
  {
    (c.name, c.isDir, c.data, c.parent)
  }

  ghost predicate CopiedAs(c: Node, r: Rec<Node>, parent: Node?)
    reads c
  {
    && c.name == r.name && c.isDir == r.isDir && c.parent == parent
    && (c.isDir ==> c.data == []) && |c.data| < KHEAP_SIZE
  }

  lemma {:induction false} CanJoin(g: Graph<Node>, roots: set<Node>, ks: seq<Node>, parent: Node?, c: Node,
                hk: Graph<Node>, sk: seq<Node>, hr: Graph<Node>, sr: seq<Node>)
    requires Wf(g, roots) && ks != [] && ks[0] in g && CopiedAs(c, g[ks[0]], parent)
    requires CopyOf(g, roots, g[ks[0]].kids, hk, sk, Some(c)) && CopyOf(g, roots, ks[1..], hr, sr, Opt(parent))
    requires hk.Keys !! hr.Keys && c !in hk && c !in hr && c != parent
    ensures Joinable(hk, sk, hr, sr, c, CopyRec(c, parent, c.data, sk))
  {
    assert NodeOk(g, roots, ks[0]);
    CopiedKids(g, roots, ks[0], hk, sk);
  }

  /** The three parts of a copy make a copy, and it spells what the allocator let through. */
  lemma {:induction false} Assembled(g: Graph<Node>, roots: set<Node>, ks: seq<Node>, f: Forest, used: nat, u: nat,
                                     parent: Node?, c: Node,
                                     hk: Graph<Node>, sk: seq<Node>, hr: Graph<Node>, sr: seq<Node>)
      returns (h: Graph<Node>, s: seq<Node>)
    requires Wf(g, roots) && ks != [] && Shape(g, ks, f) && CopiedAs(c, g[ks[0]], parent)
    requires CopyOf(g, roots, g[ks[0]].kids, hk, sk, Some(c)) && CopyOf(g, roots, ks[1..], hr, sr, Opt(parent))
    requires PieceLinked(hk, sk) && PieceLinked(hr, sr)
    requires hk.Keys !! hr.Keys && c !in hk && c !in hr && c != parent
    requires c.child == Nth(sk, 0) && c.sibling == Nth(sr, 0)
    requires Fits(used, NODE_SIZE)
    requires ClonedEntry(f.entry, used + NODE_SIZE) == (EntryHeld(c), u)
    requires Shape(hk, sk, ClonedTree(f.kids, u)) && Shape(hr, sr, ClonedTree(f.rest, ClonedEnd(f.kids, u)))
    ensures CopyOf(g, roots, ks, h, s, Opt(parent)) && PieceLinked(h, s) && Shape(h, s, ClonedTree(f, used))
    ensures s == [c] + sr && h.Keys == hk.Keys + hr.Keys + {c}
    ensures ClonedEnd(f, used) == ClonedEnd(f.rest, ClonedEnd(f.kids, u))
  {
    var r := CopyRec(c, parent, c.data, sk);
    h, s := Join(hk, hr, c, r), [c] + sr;
    CanJoin(g, roots, ks, parent, c, hk, sk, hr, sr);
    CopyJoined(g, roots, ks, parent, c, hk, sk, hr, sr);
    JoinLinked(hk, sk, hr, sr, c, r);
    JoinShape(hk, sk, hr, sr, c, r, ClonedTree(f.kids, u), ClonedTree(f.rest, ClonedEnd(f.kids, u)));
  }

  /** fs_clone_tree: copies the forest whose chain starts at n onto fresh memory, as far as the
      heap allows. */
  method CloneTree(n: Node?, parent: Node?, heap: Heap,
                   ghost g: Graph<Node>, ghost roots: set<Node>, ghost ks: seq<Node>, ghost f: Forest)
      returns (copy: Node?, ghost h: Graph<Node>, ghost s: seq<Node>)
    requires Wf(g, roots) && Linked(g) && heap.Valid()
    requires Shape(g, ks, f) && ChainOf(g, ks) && n == Nth(ks, 0)
    modifies heap
    ensures heap.Valid() && heap.offset == ClonedEnd(f, old(heap.offset))
    ensures Shape(h, s, ClonedTree(f, old(heap.offset))) && copy == Nth(s, 0)
    ensures CopyOf(g, roots, ks, h, s, Opt(parent)) && PieceLinked(h, s)
    ensures fresh(h.Keys)
    decreases f, 2
  {
    h, s := map[], [];
    EmptyCopy(g, roots, ks, parent);
    if n == null {
      return null, h, s;
    }
    assert NodeLinked(g, n) && NodeOk(g, roots, n);
    copy := CloneNode(n, parent, heap, f.entry);
    if copy == null {
      return;
    }
    ghost var made;
    h, s, made := CloneLinks(n, copy, parent, heap, g, roots, ks, f, old(heap.offset));
  }

  method CloneLinks(n: Node, copy: Node, parent: Node?, heap: Heap,
                    ghost g: Graph<Node>, ghost roots: set<Node>, ghost ks: seq<Node>, ghost f: Forest, ghost used: nat)
      returns (ghost h: Graph<Node>, ghost s: seq<Node>, ghost made: set<Node>)
    requires Wf(g, roots) && Linked(g) && heap.Valid()
    requires Shape(g, ks, f) && ChainOf(g, ks) && ks != [] && n == ks[0]
    requires CopiedAs(copy, g[n], parent) && copy !in g && copy != parent
    requires Fits(used, NODE_SIZE) && ClonedEntry(f.entry, used + NODE_SIZE) == (EntryHeld(copy), heap.offset)
    modifies heap, copy`child, copy`sibling
    ensures heap.Valid() && heap.offset == ClonedEnd(f, used)
    ensures Shape(h, s, ClonedTree(f, used)) && s != [] && s[0] == copy
    ensures CopyOf(g, roots, ks, h, s, Opt(parent)) && PieceLinked(h, s)
    ensures h.Keys == made + {copy} && fresh(made)
    decreases f, 1
  {
    ghost var u := heap.offset;
    ghost var hk, sk := CloneKids(n, copy, heap, g, roots, f);
    ghost var hr, sr := CloneRest(n, copy, parent, heap, g, roots, ks, f, hk, sk);
    made := hk.Keys + hr.Keys;
    assert fresh(made);
    h, s := Assembled(g, roots, ks, f, used, u, parent, copy, hk, sk, hr, sr);
  }

  /** The children of the copy of n. */
  method CloneKids(n: Node, copy: Node, heap: Heap, ghost g: Graph<Node>, ghost roots: set<Node>, ghost f: Forest)
      returns (ghost hk: Graph<Node>, ghost sk: seq<Node>)
    requires Wf(g, roots) && Linked(g) && heap.Valid()
    requires n in g && f.Cons? && Shape(g, g[n].kids, f.kids) && copy !in g
    modifies heap, copy`child
    ensures heap.Valid() && heap.offset == ClonedEnd(f.kids, old(heap.offset))
    ensures Shape(hk, sk, ClonedTree(f.kids, old(heap.offset))) && copy.child == Nth(sk, 0)
    ensures CopyOf(g, roots, g[n].kids, hk, sk, Some(copy)) && PieceLinked(hk, sk)
    ensures Body(copy) == old(Body(copy))
    ensures fresh(hk.Keys)
    decreases f, 0
  {
    assert NodeLinked(g, n);
    KidsChain(g, roots, n);
    var childCopy: Node?;
    childCopy, hk, sk := CloneTree(n.child, copy, heap, g, roots, g[n].kids, f.kids);
    copy.child := childCopy;
    forall m | m in hk ensures PieceLinkedAt(hk, sk, m) {
    }
  }

  /** What follows the copy of n in its chain. */
  method CloneRest(n: Node, copy: Node, parent: Node?, heap: Heap,
                   ghost g: Graph<Node>, ghost roots: set<Node>, ghost ks: seq<Node>, ghost f: Forest,
                   ghost hk: Graph<Node>, ghost sk: seq<Node>)
      returns (ghost hr: Graph<Node>, ghost sr: seq<Node>)
    requires Wf(g, roots) && Linked(g) && heap.Valid()
    requires ChainOf(g, ks) && ks != [] && n == ks[0] && f.Cons? && Shape(g, ks[1..], f.rest) && copy !in g
    requires PieceLinked(hk, sk) && copy !in hk
    modifies heap, copy`sibling
    ensures heap.Valid() && heap.offset == ClonedEnd(f.rest, old(heap.offset))
    ensures Shape(hr, sr, ClonedTree(f.rest, old(heap.offset))) && copy.sibling == Nth(sr, 0)
    ensures CopyOf(g, roots, ks[1..], hr, sr, Opt(parent)) && PieceLinked(hr, sr)
    ensures Body(copy) == old(Body(copy)) && copy.child == old(copy.child)
    ensures PieceLinked(hk, sk) && hk.Keys !! hr.Keys && fresh(hr.Keys)
    decreases f, 0
  {
    ChainOfRest(g, ks);
    assert NodeLinked(g, n);
    var siblingCopy: Node?;
    siblingCopy, hr, sr := CloneTree(n.sibling, parent, heap, g, roots, ks[1..], f.rest);
    SetSibling(copy, siblingCopy, hk, sk, hr, sr);
  }

  method SetSibling(copy: Node, sibling: Node?, ghost hk: Graph<Node>, ghost sk: seq<Node>,
                    ghost hr: Graph<Node>, ghost sr: seq<Node>)
    requires PieceLinked(hk, sk) && PieceLinked(hr, sr) && copy !in hk && copy !in hr
    modifies copy`sibling
    ensures copy.sibling == sibling && PieceLinked(hk, sk) && PieceLinked(hr, sr)
  {
    copy.sibling := sibling;
    forall m | m in hr ensures PieceLinkedAt(hr, sr, m) {
      assert old(PieceLinkedAt(hr, sr, m));
    }
    forall m | m in hk ensures PieceLinkedAt(hk, sk, m) {
      assert old(PieceLinkedAt(hk, sk, m));
    }
  }

  // ---------------------------------------------------------------- the root of a copy

  lemma RootChain(g: Graph<Node>, roots: set<Node>, r: Node)
    requires Wf(g, roots) && r in roots
    ensures ChainOf(g, [r])
  {
    assert NodeOk(g, roots, r);
    AfterAbsent(g[r].kids, r);
  }

  lemma SoleTop(g: Graph<Node>, r: Node, h: Graph<Node>, c: Node, top: seq<Node>)
    requires CopiesNames(g, [r], h, top) && c == Nth(top, 0)
    ensures top == [c] && c in h && r in g && h[c].name == g[r].name
  {
  }

  /** The assignment root_copy->parent = root_copy. */
  method MakeRoot(c: Node, ghost h: Graph<Node>)
    requires c in h && PieceOk(h, [c], None) && PieceLinked(h, [c])
    modifies c`parent
    ensures Linked(Rooted(h, c))
  {
    c.parent := c;
    forall m | m in Rooted(h, c) ensures NodeLinked(Rooted(h, c), m) {
      assert old(PieceLinkedAt(h, [c], m)) && PieceNode(h, [c], m);
      RootedNext(h, c, m);
    }
  }

  lemma RootedNext(h: Graph<Node>, c: Node, m: Node)
    requires c in h && PieceOk(h, [c], None) && m in h
    ensures Next(Rooted(h, c), m) == if m == c then null else Next(h, m)
  {
    assert PieceNode(h, [c], m) && PieceNode(h, [c], c) && c in [c];
    if m == c {
      AfterAbsent(h[c].kids, c);
    }
  }

  /** A rooted copy is what fs_snap_create is meant to make. */
  lemma CloneDone(s: State<Node>, f: Forest, h: Graph<Node>, c: Node, top: seq<Node>)
    requires Inv(s) && Shape(s.g, [s.root], f) && c == Nth(top, 0)
    requires CopyOf(s.g, s.roots, [s.root], h, top, None) && h.Keys !! s.g.Keys
    requires Shape(h, top, ClonedTree(f, s.used))
    ensures top == [c] && IsClone(s, Rooted(h, c), c, ClonedEnd(f, s.used))
  {
    SoleTop(s.g, s.root, h, c, top);
    RootedWf(h, c);
    RootedShape(h, c, [c], ClonedTree(f, s.used));
    forall e | Shape(s.g, [s.root], e) ensures e == f {
      ShapeUnique(s.g, [s.root], e, f);
    }
  }

  lemma UnionLinked(g: Graph<Node>, h: Graph<Node>, roots: set<Node>, c: Node)
    requires Linked(g) && Linked(h) && Wf(g, roots) && Wf(h, {c}) && g.Keys !! h.Keys
    ensures Linked(g + h)
  {
    forall m | m in g + h ensures NodeLinked(g + h, m) {
      if m in h {
        assert NodeLinked(h, m) && NodeOk(h, {c}, m);
      } else {
        assert NodeLinked(g, m) && NodeOk(g, roots, m);
      }
    }
  }
}
