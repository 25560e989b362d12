/** The four ways the file system changes its nodes, what each does to every path, and what each
    keeps.  Paths are walked from any start node, so the laws hold for detached directories too. */
module GraphEdits {
  import opened Text
  import opened NodeGraph
  import opened KernelHeap

  /** Make n, with record r, the first child of d. */
  ghost function Attach<N>(g: Graph<N>, d: N, n: N, r: Rec<N>): Graph<N>
    requires d in g
  {
    var g1 := g[n := r.(parent := Some(d))];
    g1[d := g1[d].(kids := [n] + g1[d].kids)]
  }

  ghost function Without<T>(s: seq<T>, x: T): (r: seq<T>)
    ensures forall k :: k in r ==> k in s && k != x
    ensures forall k :: k in s && k != x ==> k in r
  {
    if s == [] then [] else (if s[0] == x then [] else [s[0]]) + Without(s[1..], x)
  }

  /** Take n out of its parent's chain. */
  ghost function Detach<N>(g: Graph<N>, n: N): Graph<N>
    requires n in g && g[n].parent.Some? && g[n].parent.value in g
  {
    var d := g[n].parent.value;
    var g1 := g[d := g[d].(kids := Without(g[d].kids, n))];
    g1[n := g1[n].(parent := None)]
  }

  ghost function Renamed<N>(g: Graph<N>, n: N, d: N, name: Str): Graph<N>
    requires n in g && g[n].parent.Some? && g[n].parent.value in g && d in g
  {
    var g1 := Detach(g, n);
    Attach(g1, d, n, g1[n].(name := name))
  }

  ghost function SetData<N>(g: Graph<N>, n: N, bytes: Str): Graph<N>
    requires n in g
  {
    g[n := g[n].(data := bytes)]
  }

  // ---------------------------------------------------------------- Attach

  /** n is a fresh node without children, or a detached one that keeps its kind and its children. */
  ghost predicate Attachable<N>(g: Graph<N>, roots: set<N>, d: N, n: N, r: Rec<N>) {
    && d in g && g[d].isDir && n !in roots && (r.isDir ==> r.data == []) && |r.data| < KHEAP_SIZE
    && r.kids == Kids(g, n) && r.owner == g[d].owner && 1 <= |r.name| <= NAME_MAX && NUL !in r.name
    && (n in g ==> g[n].parent == None && r.isDir == g[n].isDir && r.owner == g[n].owner)
  }

  lemma ConsDistinct<T>(x: T, s: seq<T>)
    requires Distinct(s) && x !in s
    ensures Distinct([x] + s)
  {
  }

  lemma NodeAttachDir<N>(g: Graph<N>, roots: set<N>, d: N, n: N, r: Rec<N>)
    requires Wf(g, roots) && Attachable(g, roots, d, n, r)
    ensures NodeOk(Attach(g, d, n, r), roots, d)
  {
    assert NodeOk(g, roots, d);
    var ks := Kids(g, d);
    assert Kids(Attach(g, d, n, r), d) == [n] + ks;
    ConsDistinct(n, ks);
    forall k | k in [n] + ks ensures k == n || k in ks {
    }
  }

  lemma NodeAttachOther<N>(g: Graph<N>, roots: set<N>, d: N, n: N, r: Rec<N>, m: N)
    requires Wf(g, roots) && Attachable(g, roots, d, n, r) && (m in g || m == n) && m != d
    ensures NodeOk(Attach(g, d, n, r), roots, m)
  {
    assert NodeOk(g, roots, d);
    if m in g {
      assert NodeOk(g, roots, m);
    }
  }

  lemma WfAttach<N>(g: Graph<N>, roots: set<N>, d: N, n: N, r: Rec<N>)
    requires Wf(g, roots) && Attachable(g, roots, d, n, r)
    ensures Wf(Attach(g, d, n, r), roots)
  {
    forall m | m in Attach(g, d, n, r) ensures NodeOk(Attach(g, d, n, r), roots, m) {
      if m == d {
        NodeAttachDir(g, roots, d, n, r);
      } else {
        NodeAttachOther(g, roots, d, n, r, m);
      }
    }
  }

  lemma SameNamesDistinct<N>(g: Graph<N>, h: Graph<N>, ks: seq<N>)
    requires KidNamesDistinct(g, ks) && forall k :: k in ks ==> NameOf(h, k) == NameOf(g, k)
    ensures KidNamesDistinct(h, ks)
  {
  }

  lemma ConsNamesDistinct<N>(g: Graph<N>, n: N, ks: seq<N>)
    requires KidNamesDistinct(g, ks) && forall k :: k in ks ==> NameOf(g, k) != NameOf(g, n)
    ensures KidNamesDistinct(g, [n] + ks)
  {
  }

  lemma NamesElsewhere<N>(g: Graph<N>, roots: set<N>, d: N, n: N, r: Rec<N>, m: N)
    requires Wf(g, roots) && Attachable(g, roots, d, n, r)
    ensures forall k :: k in Kids(g, m) ==> k != n && NameOf(Attach(g, d, n, r), k) == NameOf(g, k)
  {
    if m in g {
      assert NodeOk(g, roots, m);
    }
  }

  lemma KidNamesAttach<N>(g: Graph<N>, roots: set<N>, d: N, n: N, r: Rec<N>, m: N)
    requires Wf(g, roots) && NamesOk(g, roots) && Attachable(g, roots, d, n, r)
    requires Child(g, d, r.name) == None && (m in g || m == n)
    ensures KidNamesDistinct(Attach(g, d, n, r), Attach(g, d, n, r)[m].kids)
  {
    var h := Attach(g, d, n, r);
    NamesElsewhere(g, roots, d, n, r, m);
    SameNamesDistinct(g, h, Kids(g, m));
    if m == d {
      ConsNamesDistinct(h, n, g[d].kids);
    }
  }

  lemma TakenNameAttach<N>(g: Graph<N>, roots: set<N>, d: N, n: N, r: Rec<N>)
    requires Wf(g, roots) && Attachable(g, roots, d, n, r) && Child(g, d, r.name).Some?
    ensures !NamesOk(Attach(g, d, n, r), roots)
  {
    var h := Attach(g, d, n, r);
    NamesElsewhere(g, roots, d, n, r, d);
    var k := Child(g, d, r.name).value;
    var i :| 0 <= i < |g[d].kids| && g[d].kids[i] == k;
    assert h[d].kids[0] == n && h[d].kids[i + 1] == k;
    assert NameOf(h, n) == NameOf(h, k);
    assert !KidNamesDistinct(h, h[d].kids);
  }

  /** A new entry keeps names distinct and slash-free exactly when its own name is slash-free and
      not already taken. */
  lemma NamesAttach<N>(g: Graph<N>, roots: set<N>, d: N, n: N, r: Rec<N>)
    requires Wf(g, roots) && NamesOk(g, roots) && Attachable(g, roots, d, n, r)
    ensures NamesOk(Attach(g, d, n, r), roots) <==> SLASH !in r.name && Child(g, d, r.name) == None
  {
    var h := Attach(g, d, n, r);
    if Child(g, d, r.name).Some? {
      TakenNameAttach(g, roots, d, n, r);
    } else if SLASH !in r.name {
      forall m | m in h ensures KidNamesDistinct(h, h[m].kids) {
        KidNamesAttach(g, roots, d, n, r, m);
      }
    } else {
      assert n in h && n !in roots;
    }
  }

  lemma ChildAttach<N>(g: Graph<N>, roots: set<N>, d: N, n: N, r: Rec<N>, m: N, y: Str)
    requires Wf(g, roots) && Attachable(g, roots, d, n, r)
    ensures Child(Attach(g, d, n, r), m, y) == if m == d && y == r.name then Some(n) else Child(g, m, y)
  {
    var h := Attach(g, d, n, r);
    NamesElsewhere(g, roots, d, n, r, m);
    FindFrame(g, h, Kids(g, m), y);
    if m == d {
      assert h[d].kids[1..] == g[d].kids;
    }
  }

  ghost predicate EndsAt<N>(g: Graph<N>, start: N, q: seq<Str>, d: N, name: Str) {
    q != [] && q[|q| - 1] == name && Walk(g, start, q[..|q| - 1]) == Some(d)
  }

  lemma EndsAtNothing<N>(g: Graph<N>, start: N, q: seq<Str>, d: N, name: Str)
    requires EndsAt(g, start, q, d, name) && Child(g, d, name) == None
    ensures Walk(g, start, q) == None
  {
    SnocParts(q);
    WalkSnoc(g, start, q[..|q| - 1], name);
  }

  /** Attaching a fresh leaf makes exactly one path appear: the directory's followed by the name. */
  lemma {:induction false} WalkAttachLeaf<N>(g: Graph<N>, roots: set<N>, d: N, n: N, r: Rec<N>, start: N, q: seq<Str>)
    requires Wf(g, roots) && Attachable(g, roots, d, n, r) && n !in g
    requires Child(g, d, r.name) == None && start in g
    ensures Walk(Attach(g, d, n, r), start, q) ==
            if EndsAt(g, start, q, d, r.name) then Some(n) else Walk(g, start, q)
    decreases |q|
  {
    if q != [] {
      var p, y := q[..|q| - 1], q[|q| - 1];
      var h := Attach(g, d, n, r);
      WalkAttachLeaf(g, roots, d, n, r, start, p);
      SnocParts(q);
      WalkSnoc(g, start, p, y);
      WalkSnoc(h, start, p, y);
      if EndsAt(g, start, p, d, r.name) {
        EndsAtNothing(g, start, p, d, r.name);
        assert Child(g, n, y) == None;
        ChildAttach(g, roots, d, n, r, n, y);
      } else if Walk(g, start, p).Some? {
        ChildAttach(g, roots, d, n, r, Walk(g, start, p).value, y);
      }
    }
  }

  /** A walk that never takes the new step is unchanged. */
  lemma {:induction false} WalkAttachAway<N>(g: Graph<N>, roots: set<N>, d: N, n: N, r: Rec<N>, start: N, q: seq<Str>)
    requires Wf(g, roots) && Attachable(g, roots, d, n, r)
    requires forall i :: 0 <= i < |q| ==> q[i] != r.name || Walk(g, start, q[..i]) != Some(d)
    ensures Walk(Attach(g, d, n, r), start, q) == Walk(g, start, q)
    decreases |q|
  {
    if q != [] {
      var p, y := q[..|q| - 1], q[|q| - 1];
      assert forall i :: 0 <= i < |p| ==> p[..i] == q[..i] && p[i] == q[i];
      WalkAttachAway(g, roots, d, n, r, start, p);
      SnocParts(q);
      WalkSnoc(g, start, p, y);
      WalkSnoc(Attach(g, d, n, r), start, p, y);
      if Walk(g, start, p).Some? {
        ChildAttach(g, roots, d, n, r, Walk(g, start, p).value, y);
      }
    }
  }

  // ---------------------------------------------------------------- Detach

  ghost predicate Chained<N>(g: Graph<N>, n: N) {
    n in g && g[n].parent.Some? && g[n].parent.value in g && n in g[g[n].parent.value].kids
  }

  lemma {:induction false} WithoutDistinct<T>(s: seq<T>, x: T)
    requires Distinct(s)
    ensures Distinct(Without(s, x))
  {
    if s != [] {
      WithoutDistinct(s[1..], x);
      assert s[0] !in s[1..];
    }
  }

  lemma NodeDetach<N>(g: Graph<N>, roots: set<N>, n: N, m: N)
    requires Wf(g, roots) && Chained(g, n) && m in g
    ensures NodeOk(Detach(g, n), roots, m)
  {
    var p := g[n].parent.value;
    assert NodeOk(g, roots, p) && NodeOk(g, roots, m);
    WithoutDistinct(g[p].kids, n);
  }

  lemma WfDetach<N>(g: Graph<N>, roots: set<N>, n: N)
    requires Wf(g, roots) && Chained(g, n)
    ensures Wf(Detach(g, n), roots)
  {
    assert NodeOk(g, roots, g[n].parent.value);
    forall m | m in Detach(g, n) ensures NodeOk(Detach(g, n), roots, m) {
      NodeDetach(g, roots, n, m);
    }
  }

  lemma {:induction false} WithoutNames<N>(g: Graph<N>, ks: seq<N>, x: N)
    requires KidNamesDistinct(g, ks)
    ensures KidNamesDistinct(g, Without(ks, x))
  {
    if ks != [] {
      WithoutNames(g, ks[1..], x);
      var rest := Without(ks[1..], x);
      forall k | k in rest ensures NameOf(g, k) != NameOf(g, ks[0]) {
        var i :| 0 <= i < |ks[1..]| && ks[1..][i] == k;
        assert ks[i + 1] == k;
      }
    }
  }

  lemma KidNamesDetach<N>(g: Graph<N>, n: N, m: N)
    requires m in g && Chained(g, n) && KidNamesDistinct(g, g[m].kids)
    ensures KidNamesDistinct(Detach(g, n), Detach(g, n)[m].kids)
  {
    var h := Detach(g, n);
    WithoutNames(g, g[m].kids, n);
    SameNamesDistinct(g, h, h[m].kids);
  }

  lemma {:induction false} NamesDetach<N>(g: Graph<N>, roots: set<N>, n: N)
    requires Wf(g, roots) && NamesOk(g, roots) && Chained(g, n)
    ensures NamesOk(Detach(g, n), roots)
  {
    forall m | m in Detach(g, n) ensures KidNamesDistinct(Detach(g, n), Detach(g, n)[m].kids) {
      KidNamesDetach(g, n, m);
    }
  }

  lemma NotRepeated<N>(g: Graph<N>, ks: seq<N>)
    requires ks != [] && KidNamesDistinct(g, ks)
    ensures ks[0] !in ks[1..]
  {
    assert forall i :: 0 <= i < |ks[1..]| ==> ks[1..][i] == ks[i + 1];
  }

  lemma {:induction false} FindWithout<N>(g: Graph<N>, ks: seq<N>, x: N, y: Str)
    requires x in ks && KidNamesDistinct(g, ks)
    ensures FindKid(g, Without(ks, x), y) == if y == NameOf(g, x) then None else FindKid(g, ks, y)
  {
    NotRepeated(g, ks);
    if ks[0] == x {
      WithoutAbsent(ks[1..], x);
      FindMember(g, ks, x);
      forall k | k in ks[1..] ensures NameOf(g, k) != NameOf(g, x) {
        FindMember(g, ks, k);
      }
    } else {
      FindWithout(g, ks[1..], x, y);
      FindMember(g, ks, x);
    }
  }

  lemma WithoutAbsent<T>(s: seq<T>, x: T)
    requires x !in s
    ensures Without(s, x) == s
  {
  }

  lemma ChildDetach<N>(g: Graph<N>, roots: set<N>, n: N, m: N, y: Str)
    requires Wf(g, roots) && Chained(g, n) && KidNamesDistinct(g, g[g[n].parent.value].kids)
    requires m in g
    ensures Child(Detach(g, n), m, y) == if Child(g, m, y) == Some(n) then None else Child(g, m, y)
  {
    var h, p := Detach(g, n), g[n].parent.value;
    FindFrame(g, h, h[m].kids, y);
    assert NodeOk(g, roots, m);
    if m == p {
      FindWithout(g, g[p].kids, n, y);
      FindMember(g, g[p].kids, n);
    }
  }

  /** The walk enters n through one of its steps. */
  ghost predicate Enters<N>(g: Graph<N>, start: N, q: seq<Str>, n: N)
    decreases |q|
  {
    q != [] && (Walk(g, start, q) == Some(n) || Enters(g, start, q[..|q| - 1], n))
  }

  /** Exactly the paths that enter n disappear. */
  lemma {:induction false} WalkDetach<N>(g: Graph<N>, roots: set<N>, n: N, start: N, q: seq<Str>)
    requires Wf(g, roots) && Chained(g, n) && KidNamesDistinct(g, g[g[n].parent.value].kids)
    requires start in g
    ensures Walk(Detach(g, n), start, q) == if Enters(g, start, q, n) then None else Walk(g, start, q)
    decreases |q|
  {
    if q != [] {
      var p, y := q[..|q| - 1], q[|q| - 1];
      WalkDetach(g, roots, n, start, p);
      SnocParts(q);
      WalkSnoc(g, start, p, y);
      WalkSnoc(Detach(g, n), start, p, y);
      if Walk(g, start, p).Some? {
        WalkStays(g, roots, start, p);
        ChildDetach(g, roots, n, Walk(g, start, p).value, y);
      }
    }
  }

  /** From a root, a walk enters an attached node exactly when the node's path is a prefix. */
  lemma {:induction false} EntersIffPrefix<N>(g: Graph<N>, roots: set<N>, r: N, n: N, pn: seq<Str>, q: seq<Str>)
    requires Wf(g, roots) && r in roots && pn != [] && Walk(g, r, pn) == Some(n)
    ensures Enters(g, r, q, n) <==> pn <= q
    decreases |q|
  {
    if q != [] {
      var p := q[..|q| - 1];
      EntersIffPrefix(g, roots, r, n, pn, p);
      assert pn <= q <==> pn == q || pn <= p by {
        SnocParts(q);
        if pn <= q && |pn| < |q| {
          assert pn == p[..|pn|];
        }
      }
      if Walk(g, r, q) == Some(n) {
        UniquePath(g, roots, r, pn, q);
      }
    }
  }

  // ---------------------------------------------------------------- Renamed

  ghost predicate Movable<N>(g: Graph<N>, roots: set<N>, n: N, d: N, name: Str) {
    && Chained(g, n) && n !in roots && d in g && g[d].isDir && g[d].owner == g[n].owner
    && Child(g, d, name) == None && 1 <= |name| <= NAME_MAX && NUL !in name
  }

  lemma RenamedIsAttach<N>(g: Graph<N>, roots: set<N>, n: N, d: N, name: Str)
    requires Wf(g, roots) && NamesOk(g, roots) && Movable(g, roots, n, d, name)
    ensures var g1 := Detach(g, n);
            && Wf(g1, roots) && NamesOk(g1, roots)
            && Attachable(g1, roots, d, n, g1[n].(name := name))
            && Child(g1, d, name) == None
  {
    WfDetach(g, roots, n);
    assert NodeOk(g, roots, n);
    NamesDetach(g, roots, n);
    assert KidNamesDistinct(g, g[g[n].parent.value].kids);
    ChildDetach(g, roots, n, d, name);
  }

  lemma RenamedKeeps<N>(g: Graph<N>, n: N, d: N, name: Str, m: N)
    requires Chained(g, n) && d in g && m in g
    ensures var h := Renamed(g, n, d, name);
            && h.Keys == g.Keys && h[m].isDir == g[m].isDir && h[m].data == g[m].data && h[m].owner == g[m].owner
            && NameOf(h, m) == if m == n then name else NameOf(g, m)
  {
  }

  lemma WfRenamed<N>(g: Graph<N>, roots: set<N>, n: N, d: N, name: Str)
    requires Wf(g, roots) && Movable(g, roots, n, d, name)
    ensures Wf(Renamed(g, n, d, name), roots)
  {
    var g1 := Detach(g, n);
    WfDetach(g, roots, n);
    assert NodeOk(g, roots, n);
    WfAttach(g1, roots, d, n, g1[n].(name := name));
  }

  lemma NamesRenamed<N>(g: Graph<N>, roots: set<N>, n: N, d: N, name: Str)
    requires Wf(g, roots) && NamesOk(g, roots) && Movable(g, roots, n, d, name) && SLASH !in name
    ensures NamesOk(Renamed(g, n, d, name), roots)
  {
    var g1 := Detach(g, n);
    RenamedIsAttach(g, roots, n, d, name);
    NamesAttach(g1, roots, d, n, g1[n].(name := name));
  }

  lemma DetachFromRoot<N>(g: Graph<N>, roots: set<N>, r: N, n: N, pn: seq<Str>, q: seq<Str>)
    requires Wf(g, roots) && NamesOk(g, roots) && r in roots && n !in roots
    requires Walk(g, r, pn) == Some(n)
    ensures Chained(g, n)
    ensures Walk(Detach(g, n), r, q) == if pn <= q then None else Walk(g, r, q)
  {
    WalkStays(g, roots, r, pn);
    WalkLast(g, r, pn);
    var d := Walk(g, r, pn[..|pn| - 1]).value;
    WalkStays(g, roots, r, pn[..|pn| - 1]);
    assert NodeOk(g, roots, d);
    assert KidNamesDistinct(g, g[d].kids);
    WalkDetach(g, roots, n, r, q);
    EntersIffPrefix(g, roots, r, n, pn, q);
  }

  /** What lies below a detached node stays as it was. */
  lemma DetachBelow<N>(g: Graph<N>, roots: set<N>, r: N, n: N, pn: seq<Str>, t: seq<Str>)
    requires Wf(g, roots) && NamesOk(g, roots) && r in roots && Chained(g, n)
    requires Walk(g, r, pn) == Some(n)
    ensures Walk(Detach(g, n), n, t) == Walk(g, n, t) == Walk(g, r, pn + t)
  {
    assert KidNamesDistinct(g, g[g[n].parent.value].kids);
    WalkDetach(g, roots, n, n, t);
    WalkAppend(g, r, pn, t);
    NeverReenters(g, roots, r, n, pn, t);
  }

  lemma {:induction false} NeverReenters<N>(g: Graph<N>, roots: set<N>, r: N, n: N, pn: seq<Str>, t: seq<Str>)
    requires Wf(g, roots) && r in roots && Walk(g, r, pn) == Some(n)
    ensures !Enters(g, n, t, n)
    decreases |t|
  {
    if t != [] {
      NeverReenters(g, roots, r, n, pn, t[..|t| - 1]);
      if Walk(g, n, t) == Some(n) {
        WalkAppend(g, r, pn, t);
        UniquePath(g, roots, r, pn, pn + t);
      }
    }
  }

  lemma GraftReached<N>(g: Graph<N>, roots: set<N>, d: N, n: N, r: Rec<N>, root: N, pd: seq<Str>)
    requires Wf(g, roots) && Attachable(g, roots, d, n, r) && root in roots
    requires Walk(g, root, pd) == Some(d)
    ensures Walk(Attach(g, d, n, r), root, pd + [r.name]) == Some(n)
  {
    forall i | 0 <= i < |pd| ensures Walk(g, root, pd[..i]) != Some(d) {
      if Walk(g, root, pd[..i]) == Some(d) {
        UniquePath(g, roots, root, pd, pd[..i]);
      }
    }
    WalkAttachAway(g, roots, d, n, r, root, pd);
    WalkSnoc(Attach(g, d, n, r), root, pd, r.name);
    ChildAttach(g, roots, d, n, r, d, r.name);
  }

  /** What lies below n is then found below the path pd + [name]. */
  lemma GraftBelow<N>(g: Graph<N>, roots: set<N>, d: N, n: N, r: Rec<N>, root: N, pd: seq<Str>, t: seq<Str>)
    requires Wf(g, roots) && Attachable(g, roots, d, n, r) && root in roots
    requires Walk(g, root, pd) == Some(d)
    requires forall u :: Walk(g, n, u) != Some(d)
    ensures Walk(Attach(g, d, n, r), root, (pd + [r.name]) + t) == Walk(g, n, t)
  {
    GraftReached(g, roots, d, n, r, root, pd);
    WalkAppend(Attach(g, d, n, r), root, pd + [r.name], t);
    WalkAttachAway(g, roots, d, n, r, n, t);
  }

  lemma TakeSnoc(q: seq<Str>, i: nat)
    requires i < |q|
    ensures q[..i] + [q[i]] == q[..i + 1] && q[..i] + [q[i]] <= q
  {
  }

  lemma GraftAside<N>(g: Graph<N>, roots: set<N>, d: N, n: N, r: Rec<N>, root: N, pd: seq<Str>, q: seq<Str>)
    requires Wf(g, roots) && Attachable(g, roots, d, n, r) && root in roots
    requires Walk(g, root, pd) == Some(d) && !(pd + [r.name] <= q)
    ensures Walk(Attach(g, d, n, r), root, q) == Walk(g, root, q)
  {
    forall i | 0 <= i < |q| && q[i] == r.name ensures Walk(g, root, q[..i]) != Some(d) {
      if Walk(g, root, q[..i]) == Some(d) {
        UniquePath(g, roots, root, pd, q[..i]);
        TakeSnoc(q, i);
      }
    }
    WalkAttachAway(g, roots, d, n, r, root, q);
  }

  lemma PrefixSplit(p: seq<Str>, q: seq<Str>)
    requires p <= q
    ensures q == p + q[|p|..]
  {
  }

  /** The destination is not below n once n is detached. */
  lemma OutsideAfterDetach<N>(g: Graph<N>, roots: set<N>, root: N, n: N, pn: seq<Str>, d: N, pd: seq<Str>)
    requires Wf(g, roots) && NamesOk(g, roots) && root in roots && Chained(g, n)
    requires Walk(g, root, pn) == Some(n) && Walk(g, root, pd) == Some(d) && !(pn <= pd)
    ensures forall t :: Walk(Detach(g, n), n, t) != Some(d)
  {
    forall t ensures Walk(Detach(g, n), n, t) != Some(d) {
      DetachBelow(g, roots, root, n, pn, t);
      if Walk(g, root, pn + t) == Some(d) {
        UniquePath(g, roots, root, pd, pn + t);
      }
    }
  }

  lemma WalkRenamedInto<N>(g: Graph<N>, roots: set<N>, root: N, n: N, pn: seq<Str>, d: N, pd: seq<Str>, name: Str,
                           t: seq<Str>)
    requires Wf(g, roots) && NamesOk(g, roots) && root in roots && Movable(g, roots, n, d, name)
    requires Walk(g, root, pn) == Some(n) && Walk(g, root, pd) == Some(d) && !(pn <= pd)
    ensures Walk(Renamed(g, n, d, name), root, (pd + [name]) + t) == Walk(g, root, pn + t)
  {
    var g1 := Detach(g, n);
    RenamedIsAttach(g, roots, n, d, name);
    DetachFromRoot(g, roots, root, n, pn, pd);
    OutsideAfterDetach(g, roots, root, n, pn, d, pd);
    GraftBelow(g1, roots, d, n, g1[n].(name := name), root, pd, t);
    DetachBelow(g, roots, root, n, pn, t);
  }

  lemma WalkRenamedAside<N>(g: Graph<N>, roots: set<N>, root: N, n: N, pn: seq<Str>, d: N, pd: seq<Str>, name: Str,
                            q: seq<Str>)
    requires Wf(g, roots) && NamesOk(g, roots) && root in roots && Movable(g, roots, n, d, name)
    requires Walk(g, root, pn) == Some(n) && Walk(g, root, pd) == Some(d) && !(pn <= pd)
    requires !(pd + [name] <= q)
    ensures Walk(Renamed(g, n, d, name), root, q) == if pn <= q then None else Walk(g, root, q)
  {
    var g1 := Detach(g, n);
    RenamedIsAttach(g, roots, n, d, name);
    DetachFromRoot(g, roots, root, n, pn, pd);
    GraftAside(g1, roots, d, n, g1[n].(name := name), root, pd, q);
    DetachFromRoot(g, roots, root, n, pn, q);
  }

  /** Moving a node re-keys its whole subtree, provided the destination is outside it. */
  lemma WalkRenamed<N>(g: Graph<N>, roots: set<N>, root: N, n: N, pn: seq<Str>, d: N, pd: seq<Str>, name: Str,
                       q: seq<Str>)
    requires Wf(g, roots) && NamesOk(g, roots) && root in roots && Movable(g, roots, n, d, name)
    requires Walk(g, root, pn) == Some(n) && Walk(g, root, pd) == Some(d) && !(pn <= pd)
    ensures Walk(Renamed(g, n, d, name), root, q) ==
            if pd + [name] <= q then Walk(g, root, pn + q[|pd| + 1..])
            else if pn <= q then None else Walk(g, root, q)
  {
    if pd + [name] <= q {
      PrefixSplit(pd + [name], q);
      WalkRenamedInto(g, roots, root, n, pn, d, pd, name, q[|pd| + 1..]);
    } else {
      WalkRenamedAside(g, roots, root, n, pn, d, pd, name, q);
    }
  }

  /** Moving a directory below itself makes the whole subtree unreachable. */
  lemma WalkRenamedBelowItself<N>(g: Graph<N>, roots: set<N>, root: N, n: N, pn: seq<Str>, d: N, pd: seq<Str>,
                                  name: Str, q: seq<Str>)
    requires Wf(g, roots) && NamesOk(g, roots) && root in roots && Movable(g, roots, n, d, name)
    requires Walk(g, root, pn) == Some(n) && Walk(g, root, pd) == Some(d) && pn <= pd
    ensures Walk(Renamed(g, n, d, name), root, q) == if pn <= q then None else Walk(g, root, q)
  {
    var g1 := Detach(g, n);
    RenamedIsAttach(g, roots, n, d, name);
    forall i | 0 <= i < |q| ensures Walk(g1, root, q[..i]) != Some(d) {
      DetachFromRoot(g, roots, root, n, pn, q[..i]);
      if Walk(g, root, q[..i]) == Some(d) {
        UniquePath(g, roots, root, pd, q[..i]);
      }
    }
    WalkAttachAway(g1, roots, d, n, g1[n].(name := name), root, q);
    DetachFromRoot(g, roots, root, n, pn, q);
  }
}
