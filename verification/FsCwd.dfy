/** fs_getcwd: the path printer that climbs the parent links and builds its text from the right by
    shifting a 128-byte buffer in place; and how it fits the resolver. */
module FsCwd {
  import opened Text
  import opened NodeGraph
  import opened FsState
  import opened FsInvariant
  import opened FsPaths
  import opened FsNodes

  /** The text gathered by climbing from n, in front of what is there already.  It stops at the
      root, at a detached directory, or when the next name does not fit. */
  ghost function Climb<N>(g: Graph<N>, root: N, n: Option<N>, text: Str): Str
    decreases PATH_SIZE - |text|
  {
    match n
    case None => text
    case Some(m) =>
      if m == root || m !in g || |text| + |g[m].name| + 1 >= PATH_SIZE then text
      else Climb(g, root, g[m].parent, [SLASH] + g[m].name + text)
  }

  ghost function CwdText<N>(s: State<N>): Str {
    var t := Climb(s.g, s.root, Some(s.cwd), []);
    if t == [] then [SLASH] else t
  }

  // ---------------------------------------------------------------- the text of an attached directory

  lemma ParentOnPath<N>(s: State<N>, p: seq<Str>)
    requires Inv(s) && p != [] && Walk(s.g, s.root, p).Some?
    ensures var m := Walk(s.g, s.root, p).value;
            && m in s.g && m != s.root && s.g[m].name == p[|p| - 1]
            && s.g[m].parent == Walk(s.g, s.root, Init(p)) && s.g[m].parent.Some?
  {
    WalkLast(s.g, s.root, p);
    WalkGood(s, s.root, p);
    WalkGood(s, s.root, Init(p));
    assert NodeOk(s.g, s.roots, Walk(s.g, s.root, Init(p)).value);
  }

  lemma JoinedSnoc(p: seq<Str>, t: seq<Str>)
    requires p != []
    ensures [SLASH] + p[|p| - 1] + Joined(t) == Joined([p[|p| - 1]] + t)
    ensures Init(p) + ([p[|p| - 1]] + t) == p + t
    ensures |Joined([p[|p| - 1]] + t)| == |Joined(t)| + |p[|p| - 1]| + 1
  {
    assert ([p[|p| - 1]] + t)[1..] == t;
  }

  lemma LastTails(p: seq<Str>, t: seq<Str>)
    requires p != []
    ensures p[|p|..] + t == t && p[|p| - 1..] + t == [p[|p| - 1]] + t
  {
  }

  lemma TailMoves(p: seq<Str>, t: seq<Str>, k: nat)
    requires p != [] && k <= |p| - 1
    ensures Init(p)[k..] + ([p[|p| - 1]] + t) == p[k..] + t
  {
    assert p[k..] == Init(p)[k..] + [p[|p| - 1]];
  }

  /** Climbing from path p with the text of t in front gives the text of a tail of p + t: all of it,
      or the longest tail that fits. */
  lemma {:induction false} ClimbTail<N>(s: State<N>, p: seq<Str>, t: seq<Str>) returns (k: nat)
    requires Inv(s) && Walk(s.g, s.root, p).Some? && |Joined(t)| < PATH_SIZE
    ensures k <= |p| && |Joined(p[k..] + t)| < PATH_SIZE
    ensures Climb(s.g, s.root, Walk(s.g, s.root, p), Joined(t)) == Joined(p[k..] + t)
    ensures k > 0 ==> |Joined(p[k - 1..] + t)| >= PATH_SIZE
    decreases |p|
  {
    if p == [] {
      assert p[0..] + t == t;
      return 0;
    }
    ParentOnPath(s, p);
    JoinedSnoc(p, t);
    var u := [p[|p| - 1]] + t;
    if |Joined(u)| >= PATH_SIZE {
      k := |p|;
      LastTails(p, t);
    } else {
      k := ClimbTail(s, Init(p), u);
      TailMoves(p, t, k);
      if k > 0 {
        TailMoves(p, t, k - 1);
      }
    }
  }

  lemma {:induction false} JoinedLonger(c: seq<Str>, k: nat, j: nat)
    requires k <= j <= |c|
    ensures |Joined(c[j..])| <= |Joined(c[k..])|
    decreases j - k
  {
    if k < j {
      assert c[k..][1..] == c[k + 1..];
      JoinedLonger(c, k + 1, j);
    }
  }

  lemma LastNameFits<N>(s: State<N>, c: seq<Str>)
    requires Inv(s) && At(s, c) && c != []
    ensures |Joined(c[|c| - 1..])| < PATH_SIZE
  {
    ParentOnPath(s, c);
    WalkGood(s, s.root, c);
    assert NodeOk(s.g, s.roots, s.cwd);
    assert c[|c| - 1..] == [c[|c| - 1]] && Joined([c[|c| - 1]][1..]) == [];
  }

  /** fs_getcwd prints the longest tail of the path that fits in the buffer. */
  lemma CwdTextIsLongestTail<N>(s: State<N>, c: seq<Str>) returns (k: nat)
    requires Inv(s) && At(s, c) && c != []
    ensures k < |c| && CwdText(s) == Joined(c[k..]) && |CwdText(s)| < PATH_SIZE
    ensures forall j :: 0 <= j <= |c| ==> (|Joined(c[j..])| < PATH_SIZE <==> k <= j)
  {
    assert Joined([]) == [];
    k := ClimbTail(s, c, []);
    assert forall j :: 0 <= j <= |c| ==> c[j..] + [] == c[j..];
    LastNameFits(s, c);
    assert c[k..] != [];
    forall j | 0 <= j <= |c| ensures |Joined(c[j..])| < PATH_SIZE <==> k <= j {
      if k <= j {
        JoinedLonger(c, k, j);
      } else {
        JoinedLonger(c, j, k - 1);
      }
    }
  }

  /** A path under 128 bytes is printed whole. */
  lemma CwdTextIsPath<N>(s: State<N>, c: seq<Str>)
    requires Inv(s) && At(s, c) && |Printed(c)| < PATH_SIZE
    ensures CwdText(s) == Printed(c)
  {
    if c == [] {
      assert Climb(s.g, s.root, Some(s.cwd), []) == [];
    } else {
      var k := CwdTextIsLongestTail(s, c);
      assert c[0..] == c;
    }
  }

  lemma {:induction false} WalkNames<N>(s: State<N>, p: seq<Str>)
    requires Inv(s) && Names(s) && Walk(s.g, s.root, p).Some?
    ensures ValidNames(p)
    decreases |p|
  {
    if p != [] {
      ParentOnPath(s, p);
      WalkNames(s, Init(p));
      WalkGood(s, s.root, p);
      assert NodeOk(s.g, s.roots, Walk(s.g, s.root, p).value);
      SnocParts(p);
    }
  }

  /** The printer and the resolver are inverse: changing to what fs_getcwd prints is a no-op. */
  lemma ChdirToCwdText<N>(s: State<N>, c: seq<Str>)
    requires Good(s, c) && |Printed(c)| < PATH_SIZE
    ensures Chdir(s, CwdText(s)) == (s, true)
  {
    CwdTextIsPath(s, c);
    WalkNames(s, c);
    TokensOfPrinted(c);
  }

  // ---------------------------------------------------------------- the buffer

  /** The backwards shifting loop: the first pos bytes move up by k. */
  method ShiftUp(tmp: array<Byte>, pos: nat, k: nat)
    requires pos + k < tmp.Length && k > 0
    modifies tmp
    ensures forall j :: 0 <= j < pos ==> tmp[k + j] == old(tmp[j])
  {
    var i := pos + k;
    while i > k
      invariant k <= i <= pos + k
      invariant forall j :: 0 <= j < i - k ==> tmp[j] == old(tmp[j])
      invariant forall j :: i <= j < pos + k ==> tmp[j] == old(tmp[j - k])
    {
      i := i - 1;
      tmp[i] := tmp[i - k];
    }
  }

  lemma PrefixText(text: Str, name: Str, was: Str)
    requires |text| == |name| + 1 + |was| && text[0] == SLASH
    requires forall j :: 0 <= j < |name| ==> text[1 + j] == name[j]
    requires forall j :: 0 <= j < |was| ==> text[|name| + 1 + j] == was[j]
    ensures text == [SLASH] + name + was
  {
  }

  /** One round of the climbing loop: a slash and the name go in front of the text. */
  method Prefix(tmp: array<Byte>, pos: nat, name: Str)
    requires pos + |name| + 1 < tmp.Length
    modifies tmp
    ensures tmp[..pos + |name| + 1] == [SLASH] + name + old(tmp[..pos]) && tmp[pos + |name| + 1] == NUL
  {
    ghost var k, was := |name| + 1, tmp[..pos];
    ShiftUp(tmp, pos, |name| + 1);
    tmp[0] := SLASH;
    var i := 0;
    while i < |name|
      invariant 0 <= i <= |name| && tmp[0] == SLASH
      invariant forall j :: 0 <= j < i ==> tmp[1 + j] == name[j]
      invariant forall j :: 0 <= j < pos ==> tmp[k + j] == was[j]
    {
      tmp[1 + i] := name[i];
      i := i + 1;
    }
    tmp[pos + |name| + 1] := NUL;
    PrefixText(tmp[..k + pos], name, was);
  }

  method CopyOut(tmp: array<Byte>, pos: nat, buf: array<Byte>)
    requires pos < tmp.Length <= buf.Length && tmp[pos] == NUL && tmp != buf
    modifies buf
    ensures buf[..pos] == tmp[..pos] && buf[pos] == NUL
  {
    var i := 0;
    while i <= pos
      invariant 0 <= i <= pos + 1 && buf[..i] == tmp[..i]
    {
      buf[i] := tmp[i];
      i := i + 1;
    }
    assert buf[pos] == buf[..pos + 1][pos];
  }

  /** The climbing loop: it ends at the root, at a detached directory or at a name that does not fit. */
  method ClimbUp(root: Node, cwd: Node, tmp: array<Byte>, ghost s: State<Node>) returns (pos: nat)
    requires Inv(s) && Linked(s.g) && root == s.root && cwd == s.cwd && tmp.Length == PATH_SIZE
    modifies tmp
    ensures pos < PATH_SIZE && tmp[..pos] == Climb(s.g, root, Some(cwd), []) && tmp[pos] == NUL
  {
    pos := 0;
    var n: Node? := cwd;
    tmp[0] := NUL;
    assert tmp[..0] == [];
    while n != null && n != root
      invariant n != null ==> n in s.g
      invariant 0 <= pos < PATH_SIZE && tmp[pos] == NUL
      invariant Climb(s.g, root, if n == null then None else Some(n), tmp[..pos]) == Climb(s.g, root, Some(cwd), [])
      decreases PATH_SIZE - pos
    {
      assert NodeLinked(s.g, n) && NodeOk(s.g, s.roots, n);
      if pos + |n.name| + 1 >= PATH_SIZE {
        break;
      }
      Prefix(tmp, pos, n.name);
      pos := pos + |n.name| + 1;
      n := n.parent;
    }
  }

  lemma FirstNameFits<N>(s: State<N>)
    requires Inv(s) && s.cwd != s.root
    ensures Climb(s.g, s.root, Some(s.cwd), []) != []
  {
    assert NodeOk(s.g, s.roots, s.cwd);
    ClimbGrows(s.g, s.root, s.g[s.cwd].parent, [SLASH] + s.g[s.cwd].name + []);
  }

  lemma {:induction false} ClimbGrows<N>(g: Graph<N>, root: N, n: Option<N>, text: Str)
    ensures |Climb(g, root, n, text)| >= |text|
    decreases PATH_SIZE - |text|
  {
    if n.Some? && n.value != root && n.value in g && |text| + |g[n.value].name| + 1 < PATH_SIZE {
      ClimbGrows(g, root, g[n.value].parent, [SLASH] + g[n.value].name + text);
    }
  }

  /** fs_getcwd; the text is what the static buffer holds up to its NUL. */
  method GetCwd(root: Node, cwd: Node, buf: array<Byte>, ghost s: State<Node>) returns (text: Str)
    requires Inv(s) && Linked(s.g) && root == s.root && cwd == s.cwd && buf.Length == PATH_SIZE
    modifies buf
    ensures text == CwdText(s) && |text| < PATH_SIZE && buf[..|text|] == text && buf[|text|] == NUL
  {
    if cwd == root {
      buf[0], buf[1] := SLASH, NUL;
      assert Climb(s.g, s.root, Some(s.cwd), []) == [] && buf[..1] == [SLASH];
      return [SLASH];
    }
    var tmp := new Byte[PATH_SIZE];
    var pos := ClimbUp(root, cwd, tmp, s);
    FirstNameFits(s);
    assert pos > 0; // so the branch for an empty text is never taken
    CopyOut(tmp, pos, buf);
    text := buf[..pos];
  }
}
