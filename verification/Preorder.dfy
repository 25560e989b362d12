/** What fs_find and fs_tree_cwd report of a tree: paths in preorder. */
module Preorder {
  import opened Text
  import opened Forest

  ghost predicate Has(hay: Str, needle: Str) {
    exists i: nat :: OccursAt(hay, i, needle)
  }

  predicate OccursAt(hay: Str, i: nat, needle: Str) {
    i + |needle| <= |hay| && hay[i..i + |needle|] == needle
  }

  function Under(name: Str, paths: seq<seq<Str>>): (r: seq<seq<Str>>)
    ensures |r| == |paths| && forall i :: 0 <= i < |r| ==> r[i] == [name] + paths[i]
  {
    seq(|paths|, i requires 0 <= i < |paths| => [name] + paths[i])
  }

  /** The paths of the nodes with the needle in their name, in the order of the walk. */
  ghost function Hits(f: Forest, needle: Str): seq<seq<Str>> {
    match f
    case Nil => []
    case Cons(name, _, kids, rest) =>
      (if Has(name, needle) then [[name]] else []) + Under(name, Hits(kids, needle)) + Hits(rest, needle)
  }

  function TopNames(f: Forest): set<Str> {
    match f case Nil => {} case Cons(name, _, _, rest) => {name} + TopNames(rest)
  }

  predicate NamesDistinct(f: Forest) {
    match f
    case Nil => true
    case Cons(name, _, kids, rest) => name !in TopNames(rest) && NamesDistinct(kids) && NamesDistinct(rest)
  }

  // ---------------------------------------------------------------- exactly the matching paths

  lemma {:induction false} LookTop(f: Forest, q: seq<Str>)
    requires q != [] && Look(f, q).Some?
    ensures q[0] in TopNames(f)
  {
    if f.name != q[0] {
      LookTop(f.rest, q);
    }
  }

  lemma LookCons(f: Forest, q: seq<Str>)
    requires f.Cons? && q != []
    ensures Look(f, [f.name] + q) == Look(f.kids, q)
    ensures |Joined([f.name] + q)| == 1 + |f.name| + |Joined(q)|
    ensures f.name !in TopNames(f.rest) && Look(f.rest, q).Some? ==> Look(f, q) == Look(f.rest, q)
  {
    assert ([f.name] + q)[1..] == q;
    if Look(f.rest, q).Some? {
      LookTop(f.rest, q);
    }
  }

  lemma {:induction false} HitsTop(f: Forest, needle: Str, q: seq<Str>)
    requires q in Hits(f, needle)
    ensures q != [] && q[0] in TopNames(f)
  {
    if q in Hits(f.rest, needle) {
      HitsTop(f.rest, needle, q);
    }
  }

  lemma InUnder(name: Str, paths: seq<seq<Str>>, q: seq<Str>)
    ensures q in Under(name, paths) <==> q != [] && q[0] == name && q[1..] in paths
  {
    if q != [] && q[0] == name && q[1..] in paths {
      var i :| 0 <= i < |paths| && paths[i] == q[1..];
      assert Under(name, paths)[i] == q;
    }
  }

  lemma {:induction false} HitsAre(f: Forest, needle: Str, q: seq<Str>)
    requires NamesDistinct(f)
    ensures q in Hits(f, needle) <==> q != [] && Look(f, q).Some? && Has(q[|q| - 1], needle)
    decreases f
  {
    if f.Cons? && q != [] {
      HitsAre(f.rest, needle, q);
      HitsAre(f.kids, needle, q[1..]);
      InUnder(f.name, Hits(f.kids, needle), q);
      if q[0] == f.name {
        if Look(f.rest, q).Some? {
          LookTop(f.rest, q);
        }
        assert |q| == 1 ==> q == [f.name];
      }
    } else if q in Hits(f, needle) {
      HitsTop(f, needle, q);
    }
  }

  // ---------------------------------------------------------------- in preorder, each once

  /** a comes before b: a leads to b, or where they part a's name is earlier in the chain. */
  ghost predicate Before(f: Forest, a: seq<Str>, b: seq<Str>)
    requires a != [] && b != []
  {
    match f
    case Nil => false
    case Cons(name, _, kids, rest) =>
      if a[0] == name && b[0] == name then |b| > 1 && (|a| == 1 || Before(kids, a[1..], b[1..]))
      else if b[0] == name then false
      else a[0] == name || Before(rest, a, b)
  }

  lemma {:induction false} BeforeOneWay(f: Forest, a: seq<Str>, b: seq<Str>)
    requires a != [] && b != [] && Before(f, a, b)
    ensures a != b && !Before(f, b, a)
    decreases f
  {
    if a[0] == f.name && b[0] == f.name {
      if |a| > 1 {
        BeforeOneWay(f.kids, a[1..], b[1..]);
      }
    } else if a[0] != f.name {
      BeforeOneWay(f.rest, a, b);
    }
  }

  lemma PartAt<T>(a: seq<T>, b: seq<T>, c: seq<T>, i: nat)
    requires i < |a + b + c|
    ensures (a + b + c)[i] == if i < |a| then a[i] else if i < |a| + |b| then b[i - |a|] else c[i - |a| - |b|]
  {
  }

  /** Which part of a forest the i-th hit is in: its first node, the children of that, or the rest. */
  datatype Part = Own | InKids(i: nat) | InRest(i: nat)

  ghost function PartOf(f: Forest, needle: Str, i: nat): Part
    requires f.Cons?
  {
    var own := if Has(f.name, needle) then 1 else 0;
    var n := |Hits(f.kids, needle)|;
    if i < own then Own else if i < own + n then InKids(i - own) else InRest(i - own - n)
  }

  lemma HitAt(f: Forest, needle: Str, i: nat)
    requires f.Cons? && i < |Hits(f, needle)|
    ensures match PartOf(f, needle, i)
            case Own => i == 0 && Has(f.name, needle) && Hits(f, needle)[i] == [f.name]
            case InKids(k) => k < |Hits(f.kids, needle)| && Hits(f, needle)[i] == [f.name] + Hits(f.kids, needle)[k]
            case InRest(k) => k < |Hits(f.rest, needle)| && Hits(f, needle)[i] == Hits(f.rest, needle)[k]
  {
    PartAt(if Has(f.name, needle) then [[f.name]] else [],
           Under(f.name, Hits(f.kids, needle)), Hits(f.rest, needle), i);
  }

  lemma BeforeKids(f: Forest, a: seq<Str>, b: seq<Str>)
    requires f.Cons? && b != []
    ensures Before(f, [f.name], [f.name] + b)
    ensures a != [] && Before(f.kids, a, b) ==> Before(f, [f.name] + a, [f.name] + b)
  {
    assert ([f.name] + a)[1..] == a && ([f.name] + b)[1..] == b;
  }

  lemma BeforeRest(f: Forest, a: seq<Str>, b: seq<Str>)
    requires f.Cons? && a != [] && b != [] && b[0] != f.name
    ensures a[0] == f.name || Before(f.rest, a, b) ==> Before(f, a, b)
  {
  }

  /** The hits come strictly in preorder, so no path comes twice. */
  lemma {:induction false} HitsSorted(f: Forest, needle: Str, i: nat, j: nat)
    requires NamesDistinct(f) && i < j < |Hits(f, needle)|
    ensures var h := Hits(f, needle); h[i] != [] && h[j] != [] && Before(f, h[i], h[j])
    decreases f
  {
    HitAt(f, needle, i);
    HitAt(f, needle, j);
    match PartOf(f, needle, j)
    case Own =>
    case InKids(l) =>
      var b := Hits(f.kids, needle)[l];
      HitsTop(f.kids, needle, b);
      match PartOf(f, needle, i) {
        case Own => BeforeKids(f, [], b);
        case InKids(k) =>
          HitsSorted(f.kids, needle, k, l);
          BeforeKids(f, Hits(f.kids, needle)[k], b);
      }
    case InRest(l) =>
      var b := Hits(f.rest, needle)[l];
      HitsTop(f.rest, needle, b);
      HitsTop(f, needle, Hits(f, needle)[i]);
      if PartOf(f, needle, i).InRest? {
        HitsSorted(f.rest, needle, PartOf(f, needle, i).i, l);
      }
      BeforeRest(f, Hits(f, needle)[i], b);
  }

  // ---------------------------------------------------------------- the tree listing

  datatype Row = Row(name: Str, isDir: bool, depth: nat)

  /** The reports of fs_tree_walk. */
  function Rows(f: Forest, depth: nat): seq<Row> {
    match f
    case Nil => []
    case Cons(name, entry, kids, rest) => [Row(name, entry.Dir?, depth)] + Rows(kids, depth + 1) + Rows(rest, depth)
  }

  lemma HasNothing(name: Str)
    ensures Has(name, [])
  {
    assert OccursAt(name, 0, []);
  }

  lemma {:induction false} RowsLength(f: Forest, depth: nat)
    ensures |Rows(f, depth)| == |Hits(f, [])|
  {
    if f.Cons? {
      HasNothing(f.name);
      RowsLength(f.kids, depth + 1);
      RowsLength(f.rest, depth);
    }
  }

  lemma RowAt(f: Forest, depth: nat, i: nat)
    requires f.Cons? && i < |Hits(f, [])|
    ensures |Rows(f, depth)| == |Hits(f, [])|
    ensures match PartOf(f, [], i)
            case Own => Rows(f, depth)[i] == Row(f.name, f.entry.Dir?, depth)
            case InKids(k) => k < |Rows(f.kids, depth + 1)| && Rows(f, depth)[i] == Rows(f.kids, depth + 1)[k]
            case InRest(k) => k < |Rows(f.rest, depth)| && Rows(f, depth)[i] == Rows(f.rest, depth)[k]
  {
    HasNothing(f.name);
    RowsLength(f, depth);
    RowsLength(f.kids, depth + 1);
    RowsLength(f.rest, depth);
    PartAt([Row(f.name, f.entry.Dir?, depth)], Rows(f.kids, depth + 1), Rows(f.rest, depth), i);
  }

  ghost predicate RowIs(f: Forest, depth: nat, q: seq<Str>, row: Row) {
    && q != [] && Look(f, q).Some?
    && row == Row(q[|q| - 1], Look(f, q).value.Dir?, depth + |q| - 1)
  }

  lemma RowBelow(f: Forest, depth: nat, q: seq<Str>, row: Row)
    requires f.Cons?
    ensures RowIs(f.kids, depth + 1, q, row) ==> RowIs(f, depth, [f.name] + q, row)
    ensures RowIs(f.rest, depth, q, row) && f.name !in TopNames(f.rest) ==> RowIs(f, depth, q, row)
  {
    if q != [] {
      LookCons(f, q);
    }
  }

  /** Row by row: every path below, in preorder, with its kind and true depth. */
  lemma {:induction false} RowsArePaths(f: Forest, depth: nat, i: nat)
    requires NamesDistinct(f) && i < |Hits(f, [])|
    ensures |Rows(f, depth)| == |Hits(f, [])| && RowIs(f, depth, Hits(f, [])[i], Rows(f, depth)[i])
    decreases f
  {
    HitAt(f, [], i);
    RowAt(f, depth, i);
    match PartOf(f, [], i)
    case Own =>
    case InKids(k) =>
      RowsArePaths(f.kids, depth + 1, k);
      RowBelow(f, depth, Hits(f.kids, [])[k], Rows(f, depth)[i]);
    case InRest(k) =>
      RowsArePaths(f.rest, depth, k);
      RowBelow(f, depth, Hits(f.rest, [])[k], Rows(f, depth)[i]);
  }

  // ---------------------------------------------------------------- paths that fit in a buffer

  /** Every path below a text of n bytes stays under 128 bytes. */
  predicate Short(n: nat, f: Forest)
    decreases f
  {
    match f
    case Nil => true
    case Cons(name, _, kids, rest) => n + 1 + |name| < PATH_SIZE && Short(n + 1 + |name|, kids) && Short(n, rest)
  }

  lemma ShortStep(f: Forest, q: seq<Str>)
    requires f.Cons? && q != [] && q[0] == f.name
    ensures |Joined(q)| == 1 + |f.name| + |Joined(q[1..])|
    ensures Look(f, q).Some? && |q| > 1 ==> Look(f.kids, q[1..]).Some?
  {
  }

  lemma {:induction false} ShortIff(n: nat, f: Forest)
    requires NamesDistinct(f)
    ensures Short(n, f) <==> forall q :: q != [] && Look(f, q).Some? ==> n + |Joined(q)| < PATH_SIZE
    decreases f
  {
    if f == Nil {
      return;
    }
    var m := n + 1 + |f.name|;
    ShortIff(m, f.kids);
    ShortIff(n, f.rest);
    if Short(n, f) {
      forall q | q != [] && Look(f, q).Some? ensures n + |Joined(q)| < PATH_SIZE {
        if q[0] == f.name {
          ShortStep(f, q);
        }
      }
    } else {
      var _ := ShortWitness(n, f);
    }
  }

  lemma {:induction false} ShortWitness(n: nat, f: Forest) returns (q: seq<Str>)
    requires NamesDistinct(f) && !Short(n, f)
    ensures q != [] && Look(f, q).Some? && n + |Joined(q)| >= PATH_SIZE
    decreases f
  {
    if !Short(n, f.rest) {
      q := ShortWitness(n, f.rest);
      LookCons(f, q);
    } else if n + 1 + |f.name| >= PATH_SIZE {
      q := [f.name];
      assert q[1..] == [];
    } else {
      var t := ShortWitness(n + 1 + |f.name|, f.kids);
      LookCons(f, t);
      q := [f.name] + t;
    }
  }

  /** Where fs_find_walk writes the NUL behind a node's path, when the path above it takes n bytes: the
      slash is left out when it does not fit, the NUL is written without a test. */
  function NulAt(n: nat, name: Str): nat {
    (if n + 1 < PATH_SIZE then n + 1 else n) + |name|
  }

  function NulsAt(n: nat, f: Forest): set<nat>
    decreases f
  {
    match f
    case Nil => {}
    case Cons(name, _, kids, rest) => {NulAt(n, name)} + NulsAt(NulAt(n, name), kids) + NulsAt(n, rest)
  }

  predicate NoEmptyNames(f: Forest) {
    match f case Nil => true case Cons(name, _, kids, rest) => name != [] && NoEmptyNames(kids) && NoEmptyNames(rest)
  }

  /** The walk writes inside its buffer exactly when every path is short enough. */
  lemma {:induction false} InsideIffShort(n: nat, f: Forest)
    requires n < PATH_SIZE && NoEmptyNames(f)
    ensures (forall i :: i in NulsAt(n, f) ==> i < PATH_SIZE) <==> Short(n, f)
    decreases f
  {
    if f.Cons? {
      var m := NulAt(n, f.name);
      InsideIffShort(n, f.rest);
      assert NulsAt(n, f) == {m} + NulsAt(m, f.kids) + NulsAt(n, f.rest);
      assert m in NulsAt(n, f) && NulsAt(m, f.kids) <= NulsAt(n, f) && NulsAt(n, f.rest) <= NulsAt(n, f);
      if m < PATH_SIZE {
        assert m == n + 1 + |f.name|;
        InsideIffShort(m, f.kids);
      }
    }
  }
}
