/** The shell's cd: ".." is string surgery on the printed working directory. */
module Shell {
  import opened Text
  import opened NodeGraph
  import opened FsState
  import opened Forest
  import opened FsPaths
  import opened FsCwd
  import opened FileSystem

  const DOT: Byte := 0x2E
  const DOT_DOT: Str := [DOT, DOT]

  // ---------------------------------------------------------------- the surgery as a function

  function UpToSlash(t: Str): Str {
    if t == [] || t[|t| - 1] == SLASH then t else UpToSlash(t[..|t| - 1])
  }

  /** The text handed to fs_chdir when the working directory prints as t. */
  function UpText(t: Str): Str {
    if t == [SLASH] then t
    else
      var cut := if |t| > 1 && t[|t| - 1] == SLASH then t[..|t| - 1] else t;
      var up := UpToSlash(cut);
      if up == [] then [SLASH] else up
  }

  ghost function Cd<N>(s: State<N>, path: Str): (State<N>, bool) {
    if path == [] then (s, false)
    else if path == DOT_DOT then Chdir(s, UpText(CwdText(s)))
    else Chdir(s, path)
  }

  lemma {:induction false} UpToSlashAfter(t: Str, name: Str)
    requires SLASH !in name
    ensures UpToSlash(t + [SLASH] + name) == t + [SLASH]
  {
    var whole := t + [SLASH] + name;
    if name == [] {
      assert whole == t + [SLASH];
    } else {
      assert whole[..|whole| - 1] == t + [SLASH] + name[..|name| - 1];
      assert whole[|whole| - 1] == name[|name| - 1];
      UpToSlashAfter(t, name[..|name| - 1]);
    }
  }

  lemma SlashBehind(name: Str, rest: Str)
    requires rest == [] || rest[0] == SLASH
    ensures ([SLASH] + name + rest) + [SLASH] == [SLASH] + name + (rest + [SLASH])
    ensures (rest + [SLASH])[0] == SLASH
  {
  }

  lemma {:induction false} TokensOfJoinedSlash(names: seq<Str>)
    requires ValidNames(names)
    ensures Tokens(Joined(names) + [SLASH]) == names
  {
    if names == [] {
      assert Joined(names) + [SLASH] == [SLASH];
      assert SkipSlashes([SLASH]) == [];
    } else {
      assert ValidName(names[0]);
      TokensOfJoinedSlash(names[1..]);
      SlashBehind(names[0], Joined(names[1..]));
      TokensOfSlashName(names[0], Joined(names[1..]) + [SLASH]);
    }
  }

  /** On the text of a path the surgery leaves the text of the parent and a slash. */
  lemma UpTextOfPath(p: seq<Str>)
    requires ValidNames(p) && p != []
    ensures UpText(Joined(p)) == Joined(Init(p)) + [SLASH]
    ensures Tokens(UpText(Joined(p))) == Init(p)
  {
    var last := p[|p| - 1];
    assert ValidName(last);
    JoinedAppend(Init(p), [last]);
    assert p == Init(p) + [last];
    assert [last][1..] + [last] == [last];
    assert Joined([last]) == [SLASH] + last;
    var text := Joined(Init(p)) + [SLASH] + last;
    assert Joined(p) == text && text[|text| - 1] == last[|last| - 1];
    UpToSlashAfter(Joined(Init(p)), last);
    assert ValidNames(Init(p));
    TokensOfJoinedSlash(Init(p));
  }

  // ---------------------------------------------------------------- cd .. and the parent link

  /** cd .. looks up, from the root, the parent of the longest tail of the path that prints. */
  lemma CdUpIs<N>(s: State<N>, c: seq<Str>) returns (k: nat)
    requires Good(s, c) && c != []
    ensures k < |c| && (k == 0 <==> |Printed(c)| < PATH_SIZE)
    ensures forall j :: 0 <= j <= |c| ==> (|Joined(c[j..])| < PATH_SIZE <==> k <= j)
    ensures Cd(s, DOT_DOT) == match Walk(s.g, s.root, Init(c[k..]))
                              case None => (s, false)
                              case Some(d) => if d in s.g && s.g[d].isDir then (s.(cwd := d), true) else (s, false)
  {
    k := CwdTextIsLongestTail(s, c);
    assert c[0..] == c;
    WalkNames(s, c);
    var p := c[k..];
    assert ValidNames(p);
    UpTextOfPath(p);
    var up := UpText(Joined(p));
    assert up[0] == SLASH by {
      assert Joined(Init(p)) != [] ==> Joined(Init(p))[0] == SLASH;
    }
  }

  /** cd .. follows the parent link exactly when the path of the working directory is under
      128 bytes. */
  lemma CdUpIsParentIff<N>(s: State<N>, c: seq<Str>)
    requires Good(s, c) && c != [] && s.cwd in s.g
    ensures var (t, ok) := Cd(s, DOT_DOT);
            (ok && s.g[s.cwd].parent == Some(t.cwd)) <==> |Printed(c)| < PATH_SIZE
    ensures var (t, ok) := Cd(s, DOT_DOT);
            (ok && At(t, Init(c))) <==> |Printed(c)| < PATH_SIZE
  {
    var k := CdUpIs(s, c);
    ParentOnPath(s, c);
    EntryWalk(s, Init(c));
    ParentIsDir(s, c);
    assert c[0..] == c;
    if k > 0 && Walk(s.g, s.root, Init(c[k..])) == Walk(s.g, s.root, Init(c)) {
      UniquePath(s.g, s.roots, s.root, Init(c), Init(c[k..]));
      assert false;
    }
  }

  lemma ParentIsDir<N>(s: State<N>, c: seq<Str>)
    requires Good(s, c) && c != []
    ensures EntryAt(s, Init(c)) == Some(Dir)
  {
    ParentOnPath(s, c);
    WalkGood(s, s.root, Init(c));
    WalkLast(s.g, s.root, c);
    assert NodeOk(s.g, s.roots, Walk(s.g, s.root, Init(c)).value);
  }

  /** At the root cd .. stays. */
  lemma CdUpAtRoot<N>(s: State<N>)
    requires Good(s, [])
    ensures Cd(s, DOT_DOT) == (s, true)
  {
    assert CwdText(s) == [SLASH];
    assert Tokens([SLASH]) == [] by {
      assert SkipSlashes([SLASH]) == [];
    }
  }

  // ---------------------------------------------------------------- every other path

  /** Any path but ".." names the directory that cd goes to, exactly when it is one; the tree stays,
      and a cd that fails changes nothing. */
  lemma CdElsewhere<N>(s: State<N>, c: seq<Str>, path: Str)
    requires Good(s, c) && path != [0x2E, 0x2E]
    ensures var (t, ok) := Cd(s, path); var p := Abs(c, path);
            && (ok <==> path != [] && EntryAt(s, p) == Some(Dir))
            && At(t, if ok then p else c) && (!ok ==> t == s)
            && (forall q :: EntryAt(t, q) == EntryAt(s, q))
  {
    if path != [] {
      ChdirEffect(s, c, path);
    }
  }

  // ---------------------------------------------------------------- the buffer

  /** The loop that erases the last path segment from the 128-byte buffer. */
  method EraseSegment(buf: array<Byte>, n: nat) returns (i: nat)
    requires n < buf.Length && buf[n] == NUL
    modifies buf
    ensures i <= n && old(buf[..n])[..i] == buf[..i] == UpToSlash(old(buf[..n])) && buf[i] == NUL
  {
    i := n;
    ghost var t := buf[..n];
    while i > 0 && buf[i - 1] != SLASH
      invariant 0 <= i <= n && buf[i] == NUL
      invariant buf[..i] == t[..i] && UpToSlash(buf[..i]) == UpToSlash(t)
    {
      assert buf[..i][..i - 1] == buf[..i - 1];
      buf[i - 1] := NUL;
      i := i - 1;
    }
  }

  /** The surgery on the text in buf. */
  method Up(buf: array<Byte>, n: nat) returns (len: nat)
    requires buf.Length == PATH_SIZE && 1 <= n < PATH_SIZE && buf[n] == NUL && NUL !in buf[..n]
    modifies buf
    ensures len < PATH_SIZE && buf[..len] == UpText(old(buf[..n])) && buf[len] == NUL
  {
    ghost var t := buf[..n];
    assert forall j :: 0 <= j < n ==> buf[j] == t[j] && t[j] != NUL;
    if buf[0] == SLASH && buf[1] == NUL {
      assert n == 1 && t == [SLASH];
      return n;
    }
    len := n;
    if len > 1 && buf[len - 1] == SLASH {
      buf[len - 1] := NUL;
      len := len - 1;
      assert buf[..len] == t[..n - 1];
    }
    len := EraseSegment(buf, len);
    if len == 0 {
      buf[0], buf[1] := SLASH, NUL;
      len := 1;
      assert buf[..1] == [SLASH];
    }
  }

  method CopyText(text: Str, buf: array<Byte>)
    requires |text| < PATH_SIZE == buf.Length
    modifies buf
    ensures buf[..|text|] == text && buf[|text|] == NUL
  {
    var i := 0;
    while i < |text| && i < PATH_SIZE - 1
      invariant 0 <= i <= |text| && buf[..i] == text[..i]
    {
      buf[i] := text[i];
      i := i + 1;
    }
    buf[i] := NUL;
  }

  /** cmd_cd */
  method CmdCd(fs: FileSystem, path: Str) returns (ok: bool)
    requires fs.Valid()
    modifies fs`cwd
    ensures fs.Valid() && (fs.S(), ok) == Cd(old(fs.S()), path)
  {
    if path == [] {
      return false;
    }
    if path == DOT_DOT {
      var cwdBuf, buf := new Byte[PATH_SIZE], new Byte[PATH_SIZE];
      var text := GetCwd(fs.root, fs.cwd, cwdBuf, fs.S());
      CwdTextIsText(fs.S());
      CopyText(text, buf);
      var len := Up(buf, |text|);
      ok := fs.Chdir(buf[..len]);
      return;
    }
    ok := fs.Chdir(path);
  }

  lemma CwdTextIsText<N>(s: State<N>)
    requires FsState.Inv(s)
    ensures |CwdText(s)| >= 1 && NUL !in CwdText(s)
  {
    ClimbHasNoNul(s, Some(s.cwd), []);
  }

  lemma {:induction false} ClimbHasNoNul<N>(s: State<N>, n: Option<N>, text: Str)
    requires FsState.Inv(s) && NUL !in text
    ensures NUL !in Climb(s.g, s.root, n, text)
    decreases PATH_SIZE - |text|
  {
    if n.Some? && n.value != s.root && n.value in s.g && |text| + |s.g[n.value].name| + 1 < PATH_SIZE {
      assert NodeOk(s.g, s.roots, n.value);
      ClimbHasNoNul(s, s.g[n.value].parent, [SLASH] + s.g[n.value].name + text);
    }
  }
}
