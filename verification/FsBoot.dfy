/** fs_bootstrap.c: the first layout of the tree, as a program of file system calls whose effect is
    that of a script played on a map from paths to entries. */
module FsBoot {
  import opened CTypes
  import opened Text
  import opened NodeGraph
  import opened Forest
  import opened KernelHeap
  import opened FsState
  import opened FsPaths
  import opened FsAbsolute
  import opened FsRuns
  import opened FsCwd
  import opened FileSystem
  import opened FsSearch
  import opened Preorder
  import Crypto
  import Shell

  // ---------------------------------------------------------------- names and texts

  /** The names and paths that fs_bootstrap spells out, and the texts it writes. */
  datatype Plan = Plan(
    bin: Str, home: Str, etc: Str, vars: Str, log: Str, rootUser: Str, student: Str, motd: Str, readme: Str,
    varPath: Str, homePath: Str, etcPath: Str, rootHome: Str, studentHome: Str, sentinel: Str,
    motdText: Str, rootText: Str, studentText: Str)

  const ROOT: Str := [0x2F] // "/"
  const ONE: Str := [0x31]  // "1"

  predicate PlanOk(p: Plan) {
    && NUL !in p.bin && NUL !in p.home && NUL !in p.etc && NUL !in p.vars && NUL !in p.log
    && NUL !in p.rootUser && NUL !in p.student && NUL !in p.motd && NUL !in p.readme && NUL !in p.sentinel
    && |p.motdText| + 1 + KHEAP_SIZE <= WORDS && |p.rootText| + 1 + KHEAP_SIZE <= WORDS
    && |p.studentText| + 1 + KHEAP_SIZE <= WORDS
  }

  // ---------------------------------------------------------------- scripts

  /** The tree as a finite map, the path of the working directory, and the heap offset. */
  datatype World = World(tree: map<seq<Str>, Entry>, cwd: seq<Str>, used: nat, key: Crypto.Key)

  function EntryIn(w: World, q: seq<Str>): Option<Entry> {
    if q in w.tree then Some(w.tree[q]) else None
  }

  /** The file system is in that world. */
  ghost predicate Shows<N>(s: State<N>, w: World) {
    && Good(s, w.cwd) && s.used == w.used && s.key == w.key
    && forall q :: EntryAt(s, q) == EntryIn(w, q)
  }

  datatype Call = Mk(path: Str) | Wr(path: Str, data: Str) | Rd(path: Str) | Cd(path: Str)

  function MakesIn(w: World, path: Str): bool {
    var p := Abs(w.cwd, path);
    && path != [] && |path| < PATH_SIZE && Fits(w.used, NODE_SIZE)
    && p != [] && EntryIn(w, Init(p)) == Some(Dir) && EntryIn(w, p) == None
  }

  function HandedIn(w: World, path: Str): Option<Str> {
    var e := EntryIn(w, Abs(w.cwd, path));
    if path != [] && e.Some? && e.value.File? && e.value.bytes != [] && Fits(w.used, |e.value.bytes| + 1)
    then Some(Crypto.Cipher(w.key, e.value.bytes)) else None
  }

  /** What one call makes of a world, whether it succeeds or not. */
  function PlayOne(w: World, call: Call): World {
    match call
    case Mk(path) =>
      if MakesIn(w, path) then w.(tree := w.tree[Abs(w.cwd, path) := Dir], used := w.used + NODE_SIZE) else w
    case Wr(path, data) =>
      if !MakesIn(w, path) then w
      else
        var v := w.(tree := w.tree[Abs(w.cwd, path) := File([])], used := w.used + NODE_SIZE);
        if !Fits(v.used, |data| + 1) then v
        else v.(tree := v.tree[Abs(w.cwd, path) := File(Crypto.Cipher(w.key, data))], used := v.used + |data| + 1)
    case Rd(path) =>
      match HandedIn(w, path) { case None => w case Some(data) => w.(used := w.used + |data| + 1) }
    case Cd(path) =>
      if path != [] && EntryIn(w, Abs(w.cwd, path)) == Some(Dir) then w.(cwd := Abs(w.cwd, path)) else w
  }

  function Play(w: World, script: seq<Call>): World
    decreases |script|
  {
    if script == [] then w else Play(PlayOne(w, script[0]), script[1..])
  }

  lemma {:induction false} PlayAppend(w: World, a: seq<Call>, b: seq<Call>)
    ensures Play(w, a + b) == Play(Play(w, a), b)
    decreases |a|
  {
    if a == [] {
      assert a + b == b;
    } else {
      HeadTail(a, b);
      PlayAppend(PlayOne(w, a[0]), a[1..], b);
    }
  }

  // ---------------------------------------------------------------- one call plays one line

  lemma AbsEmpty(c: seq<Str>)
    ensures Abs(c, []) == c
  {
    assert Tokens([]) == [] by { NoTokens([]); }
    assert c + [] == c;
  }

  lemma MakesShown<N>(s: State<N>, w: World, path: Str)
    requires Shows(s, w)
    ensures MakesIn(w, path) <==>
              path != [] && |path| < PATH_SIZE && Fits(s.used, NODE_SIZE) && Vacant(s, Abs(w.cwd, path))
  {
  }

  lemma MkPlays<N>(s: State<N>, w: World, path: Str, n: N)
    requires Shows(s, w) && NUL !in path && (AddsAt(s, path) ==> n !in s.g)
    ensures Shows(Create(s, path, true, n).0, PlayOne(w, Mk(path)))
  {
    MakesShown(s, w, path);
    CreateEffect(s, w.cwd, path, true, n);
    StepGood(s, w.cwd, MkdirOp(path, n));
    if path == [] {
      AbsEmpty(w.cwd);
    }
  }

  lemma WriteUses<N>(s: State<N>, path: Str, data: Str, n: N)
    ensures var (t, ok) := Write(s, path, data, n); var made := Create(s, path, false, n).1;
            t.used == if !made then s.used else if ok then s.used + NODE_SIZE + |data| + 1 else s.used + NODE_SIZE
  {
  }

  lemma WrPlays<N>(s: State<N>, w: World, path: Str, data: Str, n: N)
    requires Shows(s, w) && NUL !in path && (AddsAt(s, path) ==> n !in s.g)
    ensures Shows(Write(s, path, data, n).0, PlayOne(w, Wr(path, data)))
  {
    MakesShown(s, w, path);
    WriteUses(s, path, data, n);
    CreateEffect(s, w.cwd, path, false, n);
    WriteEffect(s, w.cwd, path, data, n);
    WriteStaysGood(s, w.cwd, path, data, n);
    if path == [] {
      AbsEmpty(w.cwd);
    }
  }

  lemma WriteStaysGood<N>(s: State<N>, c: seq<Str>, path: Str, data: Str, n: N)
    requires Good(s, c) && NUL !in path && (AddsAt(s, path) ==> n !in s.g)
    ensures var t := Write(s, path, data, n).0; Good(t, c) && t.key == s.key
  {
    StepGood(s, c, WriteOp(path, data, n));
  }

  lemma RdPlays<N>(s: State<N>, w: World, path: Str)
    requires Shows(s, w)
    ensures Shows(Read(s, path).0, PlayOne(w, Rd(path))) && Read(s, path).1 == HandedIn(w, path)
  {
    if path == [] {
      assert Read(s, path) == (s, None);
    } else {
      ReadEffect(s, w.cwd, path);
      ReadStaysGood(s, w.cwd, path);
    }
  }

  lemma ReadStaysGood<N>(s: State<N>, c: seq<Str>, path: Str)
    requires Good(s, c)
    ensures var (t, data) := Read(s, path);
            && Good(t, c) && t.key == s.key && t.used == (if data.Some? then s.used + |data.value| + 1 else s.used)
            && forall q :: EntryAt(t, q) == EntryAt(s, q)
  {
    StepGood(s, c, ReadOp(path));
  }

  lemma CdPlays<N>(s: State<N>, w: World, path: Str)
    requires Shows(s, w)
    ensures Shows(Chdir(s, path).0, PlayOne(w, Cd(path)))
  {
    if path == [] {
      assert Chdir(s, path) == (s, false);
    } else {
      ChdirStaysGood(s, w.cwd, path);
    }
  }

  lemma ChdirStaysGood<N>(s: State<N>, c: seq<Str>, path: Str)
    requires Good(s, c) && path != []
    ensures var (t, ok) := Chdir(s, path);
            && (ok <==> EntryAt(s, Abs(c, path)) == Some(Dir)) && Good(t, if ok then Abs(c, path) else c)
            && t.key == s.key && t.used == s.used && forall q :: EntryAt(t, q) == EntryAt(s, q)
  {
    ChdirEffect(s, c, path);
    if Chdir(s, path).1 {
      ResolveGood(s, path);
    }
  }

  // ---------------------------------------------------------------- the calls

  method BootMkdir(fs: FileSystem, path: Str, ghost w: World)
    requires fs.Valid() && Shows(fs.S(), w) && NUL !in path
    modifies fs, fs.heap, fs.g.Keys
    ensures fs.Valid() && Shows(fs.S(), PlayOne(w, Mk(path))) && fresh(fs.g.Keys - old(fs.g.Keys))
  {
    ghost var s := fs.S();
    var _, n := fs.Mkdir(path);
    MkPlays(s, w, path, n);
  }

  method BootWrite(fs: FileSystem, path: Str, data: Str, ghost w: World)
    requires fs.Valid() && Shows(fs.S(), w) && NUL !in path && |data| + 1 + KHEAP_SIZE <= WORDS
    modifies fs, fs.heap, fs.g.Keys
    ensures fs.Valid() && Shows(fs.S(), PlayOne(w, Wr(path, data))) && fresh(fs.g.Keys - old(fs.g.Keys))
  {
    ghost var s := fs.S();
    var _, n := fs.Write(path, data);
    WrPlays(s, w, path, data, n);
  }

  method BootChdir(fs: FileSystem, path: Str, ghost w: World)
    requires fs.Valid() && Shows(fs.S(), w)
    modifies fs`cwd
    ensures fs.Valid() && Shows(fs.S(), PlayOne(w, Cd(path)))
  {
    ghost var s := fs.S();
    var _ := fs.Chdir(path);
    CdPlays(s, w, path);
  }

  lemma PlayTwo(w: World, a: Call, b: Call)
    ensures Play(w, [a, b]) == PlayOne(PlayOne(w, a), b)
  {
    assert [a, b][1..] == [b] && [b][1..] == [];
    assert Play(PlayOne(w, a), [b]) == Play(PlayOne(PlayOne(w, a), b), []);
  }

  lemma PlayThree(w: World, a: Call, b: Call, c: Call)
    ensures Play(w, [a, b, c]) == PlayOne(PlayOne(PlayOne(w, a), b), c)
  {
    assert [a, b, c][1..] == [b, c];
    PlayTwo(PlayOne(w, a), b, c);
  }

  method TwoDirectories(fs: FileSystem, first: Str, second: Str, ghost w: World)
    requires fs.Valid() && Shows(fs.S(), w) && NUL !in first && NUL !in second
    modifies fs, fs.heap, fs.g.Keys
    ensures fs.Valid() && Shows(fs.S(), Play(w, [Mk(first), Mk(second)])) && fresh(fs.g.Keys - old(fs.g.Keys))
  {
    BootMkdir(fs, first, w);
    BootMkdir(fs, second, PlayOne(w, Mk(first)));
    PlayTwo(w, Mk(first), Mk(second));
  }

  method DirectoryUnder(fs: FileSystem, path: Str, name: Str, ghost w: World)
    requires fs.Valid() && Shows(fs.S(), w) && NUL !in name
    modifies fs, fs.heap, fs.g.Keys
    ensures fs.Valid() && Shows(fs.S(), Play(w, [Cd(path), Mk(name), Cd(ROOT)])) && fresh(fs.g.Keys - old(fs.g.Keys))
  {
    ghost var v := PlayOne(w, Cd(path));
    BootChdir(fs, path, w);
    BootMkdir(fs, name, v);
    BootChdir(fs, ROOT, PlayOne(v, Mk(name)));
    PlayThree(w, Cd(path), Mk(name), Cd(ROOT));
  }

  method TwoUnder(fs: FileSystem, path: Str, first: Str, second: Str, ghost w: World)
    requires fs.Valid() && Shows(fs.S(), w) && NUL !in first && NUL !in second
    modifies fs, fs.heap, fs.g.Keys
    ensures fs.Valid() && fresh(fs.g.Keys - old(fs.g.Keys))
    ensures Shows(fs.S(), PlayOne(Play(PlayOne(w, Cd(path)), [Mk(first), Mk(second)]), Cd(ROOT)))
  {
    ghost var v := PlayOne(w, Cd(path));
    BootChdir(fs, path, w);
    TwoDirectories(fs, first, second, v);
    BootChdir(fs, ROOT, Play(v, [Mk(first), Mk(second)]));
  }

  method FileIn(fs: FileSystem, path: Str, name: Str, data: Str, ghost w: World)
    requires fs.Valid() && Shows(fs.S(), w) && NUL !in name && |data| + 1 + KHEAP_SIZE <= WORDS
    modifies fs, fs.heap, fs.g.Keys
    ensures fs.Valid() && fresh(fs.g.Keys - old(fs.g.Keys))
    ensures Shows(fs.S(), PlayOne(PlayOne(w, Cd(path)), Wr(name, data)))
  {
    BootChdir(fs, path, w);
    BootWrite(fs, name, data, PlayOne(w, Cd(path)));
  }

  method FileUnder(fs: FileSystem, path: Str, name: Str, data: Str, ghost w: World)
    requires fs.Valid() && Shows(fs.S(), w) && NUL !in name && |data| + 1 + KHEAP_SIZE <= WORDS
    modifies fs, fs.heap, fs.g.Keys
    ensures fs.Valid() && fresh(fs.g.Keys - old(fs.g.Keys))
    ensures Shows(fs.S(), Play(w, [Cd(path), Wr(name, data), Cd(ROOT)]))
  {
    FileIn(fs, path, name, data, w);
    BootChdir(fs, ROOT, PlayOne(PlayOne(w, Cd(path)), Wr(name, data)));
    PlayThree(w, Cd(path), Wr(name, data), Cd(ROOT));
  }

  // ---------------------------------------------------------------- the whole boot

  function WithFour(w: World, p: Plan): World {
    Play(Play(w, [Mk(p.bin), Mk(p.home)]), [Mk(p.etc), Mk(p.vars)])
  }

  function WithLog(w: World, p: Plan): World {
    Play(w, [Cd(p.varPath), Mk(p.log), Cd(ROOT)])
  }

  function WithHomes(w: World, p: Plan): World {
    PlayOne(Play(PlayOne(w, Cd(p.homePath)), [Mk(p.rootUser), Mk(p.student)]), Cd(ROOT))
  }

  function WithMotd(w: World, p: Plan): World {
    Play(w, [Cd(p.etcPath), Wr(p.motd, p.motdText), Cd(ROOT)])
  }

  function WithReadmes(w: World, p: Plan): World {
    Play(Play(w, [Cd(p.rootHome), Wr(p.readme, p.rootText), Cd(ROOT)]),
         [Cd(p.studentHome), Wr(p.readme, p.studentText), Cd(ROOT)])
  }

  function WithSentinel(w: World, p: Plan): World {
    PlayOne(PlayOne(w, Cd(ROOT)), Wr(p.sentinel, ONE))
  }

  function LaidOut(w: World, p: Plan): World {
    WithSentinel(WithReadmes(WithMotd(WithHomes(WithLog(WithFour(w, p), p), p), p), p), p)
  }

  /** What fs_bootstrap makes of a world: no new layout when the sentinel can be read. */
  function Boot(w: World, p: Plan, saved: Str): World {
    var v := PlayOne(w, Cd(ROOT));
    var seen := PlayOne(v, Rd(p.sentinel));
    PlayOne(if HandedIn(v, p.sentinel).Some? then seen else LaidOut(seen, p), Cd(saved))
  }

  method FourDirectories(fs: FileSystem, p: Plan, ghost w: World)
    requires fs.Valid() && Shows(fs.S(), w) && PlanOk(p)
    modifies fs, fs.heap, fs.g.Keys
    ensures fs.Valid() && Shows(fs.S(), WithFour(w, p)) && fresh(fs.g.Keys - old(fs.g.Keys))
  {
    TwoDirectories(fs, p.bin, p.home, w);
    TwoDirectories(fs, p.etc, p.vars, Play(w, [Mk(p.bin), Mk(p.home)]));
  }

  method LogDirectory(fs: FileSystem, p: Plan, ghost w: World)
    requires fs.Valid() && Shows(fs.S(), w) && PlanOk(p)
    modifies fs, fs.heap, fs.g.Keys
    ensures fs.Valid() && Shows(fs.S(), WithLog(w, p)) && fresh(fs.g.Keys - old(fs.g.Keys))
  {
    DirectoryUnder(fs, p.varPath, p.log, w);
  }

  method HomeDirectories(fs: FileSystem, p: Plan, ghost w: World)
    requires fs.Valid() && Shows(fs.S(), w) && PlanOk(p)
    modifies fs, fs.heap, fs.g.Keys
    ensures fs.Valid() && Shows(fs.S(), WithHomes(w, p)) && fresh(fs.g.Keys - old(fs.g.Keys))
  {
    TwoUnder(fs, p.homePath, p.rootUser, p.student, w);
  }

  method Motd(fs: FileSystem, p: Plan, ghost w: World)
    requires fs.Valid() && Shows(fs.S(), w) && PlanOk(p)
    modifies fs, fs.heap, fs.g.Keys
    ensures fs.Valid() && Shows(fs.S(), WithMotd(w, p)) && fresh(fs.g.Keys - old(fs.g.Keys))
  {
    FileUnder(fs, p.etcPath, p.motd, p.motdText, w);
  }

  method Readmes(fs: FileSystem, p: Plan, ghost w: World)
    requires fs.Valid() && Shows(fs.S(), w) && PlanOk(p)
    modifies fs, fs.heap, fs.g.Keys
    ensures fs.Valid() && Shows(fs.S(), WithReadmes(w, p)) && fresh(fs.g.Keys - old(fs.g.Keys))
  {
    FileUnder(fs, p.rootHome, p.readme, p.rootText, w);
    FileUnder(fs, p.studentHome, p.readme, p.studentText,
              Play(w, [Cd(p.rootHome), Wr(p.readme, p.rootText), Cd(ROOT)]));
  }

  method Sentinel(fs: FileSystem, p: Plan, ghost w: World)
    requires fs.Valid() && Shows(fs.S(), w) && PlanOk(p)
    modifies fs, fs.heap, fs.g.Keys
    ensures fs.Valid() && Shows(fs.S(), WithSentinel(w, p)) && fresh(fs.g.Keys - old(fs.g.Keys))
  {
    FileIn(fs, ROOT, p.sentinel, ONE, w);
  }

  method RootDirectories(fs: FileSystem, p: Plan, ghost w: World)
    requires fs.Valid() && Shows(fs.S(), w) && PlanOk(p)
    modifies fs, fs.heap, fs.g.Keys
    ensures fs.Valid() && Shows(fs.S(), WithLog(WithFour(w, p), p)) && fresh(fs.g.Keys - old(fs.g.Keys))
  {
    FourDirectories(fs, p, w);
    LogDirectory(fs, p, WithFour(w, p));
  }

  method Directories(fs: FileSystem, p: Plan, ghost w: World)
    requires fs.Valid() && Shows(fs.S(), w) && PlanOk(p)
    modifies fs, fs.heap, fs.g.Keys
    ensures fs.Valid() && Shows(fs.S(), WithHomes(WithLog(WithFour(w, p), p), p)) && fresh(fs.g.Keys - old(fs.g.Keys))
  {
    RootDirectories(fs, p, w);
    HomeDirectories(fs, p, WithLog(WithFour(w, p), p));
  }

  method TextFiles(fs: FileSystem, p: Plan, ghost w: World)
    requires fs.Valid() && Shows(fs.S(), w) && PlanOk(p)
    modifies fs, fs.heap, fs.g.Keys
    ensures fs.Valid() && Shows(fs.S(), WithReadmes(WithMotd(w, p), p)) && fresh(fs.g.Keys - old(fs.g.Keys))
  {
    Motd(fs, p, w);
    Readmes(fs, p, WithMotd(w, p));
  }

  method Files(fs: FileSystem, p: Plan, ghost w: World)
    requires fs.Valid() && Shows(fs.S(), w) && PlanOk(p)
    modifies fs, fs.heap, fs.g.Keys
    ensures fs.Valid() && Shows(fs.S(), WithSentinel(WithReadmes(WithMotd(w, p), p), p))
    ensures fresh(fs.g.Keys - old(fs.g.Keys))
  {
    TextFiles(fs, p, w);
    Sentinel(fs, p, WithReadmes(WithMotd(w, p), p));
  }

  method LayOut(fs: FileSystem, p: Plan, ghost w: World)
    requires fs.Valid() && Shows(fs.S(), w) && PlanOk(p)
    modifies fs, fs.heap, fs.g.Keys
    ensures fs.Valid() && Shows(fs.S(), LaidOut(w, p)) && fresh(fs.g.Keys - old(fs.g.Keys))
  {
    Directories(fs, p, w);
    Files(fs, p, WithHomes(WithLog(WithFour(w, p), p), p));
  }

  /** fs_getcwd, copied into a buffer of its own. */
  method SavedText(fs: FileSystem) returns (text: Str)
    requires fs.Valid()
    ensures text == CwdText(fs.S())
  {
    var cwdBuf, saved := new Byte[PATH_SIZE], new Byte[PATH_SIZE];
    var printed := GetCwd(fs.root, fs.cwd, cwdBuf, fs.S());
    Shell.CopyText(printed, saved);
    text := saved[..|printed|];
  }

  /** The calls up to the look for the sentinel. */
  method Look(fs: FileSystem, p: Plan, ghost w: World) returns (sentinel: Option<Str>)
    requires fs.Valid() && Shows(fs.S(), w)
    modifies fs`cwd, fs.heap
    ensures fs.Valid() && Shows(fs.S(), PlayOne(PlayOne(w, Cd(ROOT)), Rd(p.sentinel)))
    ensures sentinel == HandedIn(PlayOne(w, Cd(ROOT)), p.sentinel)
  {
    BootChdir(fs, ROOT, w);
    ghost var s := fs.S();
    sentinel := fs.Read(p.sentinel);
    RdPlays(s, PlayOne(w, Cd(ROOT)), p.sentinel);
  }

  /** fs_bootstrap; the texts it writes are parameters. */
  method Bootstrap(fs: FileSystem, p: Plan, ghost w: World)
    requires fs.Valid() && Shows(fs.S(), w) && PlanOk(p)
    modifies fs, fs.heap, fs.g.Keys
    ensures fs.Valid() && Shows(fs.S(), Boot(w, p, CwdText(old(fs.S())))) && fresh(fs.g.Keys - old(fs.g.Keys))
  {
    var saved := SavedText(fs);
    var sentinel := Look(fs, p, w);
    ghost var v := PlayOne(PlayOne(w, Cd(ROOT)), Rd(p.sentinel));
    if sentinel == None {
      LayOut(fs, p, v);
      v := LaidOut(v, p);
    }
    BootChdir(fs, saved, v);
  }

  // ---------------------------------------------------------------- what a boot does

  /** Every tidy state is some world. */
  lemma WorldOf<N>(s: State<N>, c: seq<Str>) returns (w: World)
    requires Good(s, c)
    ensures Shows(s, w) && w.cwd == c
  {
    var f := ForestAt(s, []);
    var keys := {[]} + set q | q in Hits(f, []);
    EntryWalk(s, []);
    forall q ensures q in keys <==> EntryAt(s, q).Some? {
      FindIsExact(s, f, [], q);
      if q != [] {
        HasNothing(q[|q| - 1]);
      }
    }
    w := World(map q | q in keys :: EntryAt(s, q).value, c, s.used, s.key);
  }

  /** The world that fs_init makes. */
  lemma InitialWorld<N>(root: N, key: Str, used: nat)
    ensures Shows(Initial(root, key, used), World(map[[] := Dir], [], used, Crypto.KeyOf(key)))
  {
    var s := Initial(root, key, used);
    InitialGood(root, key, used);
    forall q: seq<Str> | q != [] ensures EntryAt(s, q) == None {
      assert Child(s.g, root, q[0]) == None;
    }
  }

  lemma PlayOneKeeps(w: World, call: Call, q: seq<Str>)
    requires EntryIn(w, q).Some?
    ensures EntryIn(PlayOne(w, call), q) == EntryIn(w, q) && PlayOne(w, call).key == w.key
  {
  }

  lemma {:induction false} PlayKeeps(w: World, script: seq<Call>, q: seq<Str>)
    requires EntryIn(w, q).Some?
    ensures EntryIn(Play(w, script), q) == EntryIn(w, q) && Play(w, script).key == w.key
    decreases |script|
  {
    if script != [] {
      PlayOneKeeps(w, script[0], q);
      PlayKeeps(PlayOne(w, script[0]), script[1..], q);
    }
  }

  lemma DirectoriesKeep(w: World, p: Plan, q: seq<Str>)
    requires EntryIn(w, q).Some?
    ensures EntryIn(WithHomes(WithLog(WithFour(w, p), p), p), q) == EntryIn(w, q)
  {
    PlayKeeps(w, [Mk(p.bin), Mk(p.home)], q);
    PlayKeeps(Play(w, [Mk(p.bin), Mk(p.home)]), [Mk(p.etc), Mk(p.vars)], q);
    var v := WithFour(w, p);
    PlayKeeps(v, [Cd(p.varPath), Mk(p.log), Cd(ROOT)], q);
    var u := PlayOne(WithLog(v, p), Cd(p.homePath));
    PlayKeeps(u, [Mk(p.rootUser), Mk(p.student)], q);
  }

  lemma FilesKeep(w: World, p: Plan, q: seq<Str>)
    requires EntryIn(w, q).Some?
    ensures EntryIn(WithSentinel(WithReadmes(WithMotd(w, p), p), p), q) == EntryIn(w, q)
  {
    PlayKeeps(w, [Cd(p.etcPath), Wr(p.motd, p.motdText), Cd(ROOT)], q);
    var v := WithMotd(w, p);
    PlayKeeps(v, [Cd(p.rootHome), Wr(p.readme, p.rootText), Cd(ROOT)], q);
    var u := Play(v, [Cd(p.rootHome), Wr(p.readme, p.rootText), Cd(ROOT)]);
    PlayKeeps(u, [Cd(p.studentHome), Wr(p.readme, p.studentText), Cd(ROOT)], q);
    PlayOneKeeps(PlayOne(WithReadmes(v, p), Cd(ROOT)), Wr(p.sentinel, ONE), q);
  }

  /** A boot loses and changes nothing that was there. */
  lemma BootKeeps(w: World, p: Plan, saved: Str, q: seq<Str>)
    requires EntryIn(w, q).Some?
    ensures EntryIn(Boot(w, p, saved), q) == EntryIn(w, q)
  {
    var v := PlayOne(PlayOne(w, Cd(ROOT)), Rd(p.sentinel));
    DirectoriesKeep(v, p, q);
    FilesKeep(WithHomes(WithLog(WithFour(v, p), p), p), p, q);
  }

  /** The saved text brings the working directory back, when its path takes less than 128 bytes. */
  lemma BootReturns<N>(s: State<N>, w: World, p: Plan)
    requires Shows(s, w) && |Printed(w.cwd)| < PATH_SIZE
    ensures Boot(w, p, CwdText(s)).cwd == w.cwd
  {
    CwdTextIsPath(s, w.cwd);
    WalkNames(s, w.cwd);
    TokensOfPrinted(w.cwd);
    EntryWalk(s, w.cwd);
    BootReachesCwd(w, p, CwdText(s));
  }

  lemma BootReachesCwd(w: World, p: Plan, saved: Str)
    requires Absolute(saved) && Tokens(saved) == w.cwd && EntryIn(w, w.cwd) == Some(Dir)
    ensures Boot(w, p, saved).cwd == w.cwd
  {
    var v := PlayOne(PlayOne(w, Cd(ROOT)), Rd(p.sentinel));
    DirectoriesKeep(v, p, w.cwd);
    FilesKeep(WithHomes(WithLog(WithFour(v, p), p), p), p, w.cwd);
  }

  /** A tree whose sentinel can be read is left exactly as it is. */
  lemma BootOnce(w: World, p: Plan, saved: Str)
    requires HandedIn(PlayOne(w, Cd(ROOT)), p.sentinel).Some?
    ensures Boot(w, p, saved).tree == w.tree
  {
  }

  // ---------------------------------------------------------------- the layout of a first boot

  /** The names are valid and tell the entries apart, and the paths are the printed ones. */
  predicate Named(p: Plan) {
    && ValidName(p.bin) && ValidName(p.home) && ValidName(p.etc) && ValidName(p.vars) && ValidName(p.log)
    && ValidName(p.rootUser) && ValidName(p.student) && ValidName(p.motd) && ValidName(p.readme)
    && ValidName(p.sentinel)
    && p.bin != p.home && p.bin != p.etc && p.bin != p.vars && p.home != p.etc && p.home != p.vars && p.etc != p.vars
    && p.sentinel !in [p.bin, p.home, p.etc, p.vars] && p.rootUser != p.student
    && p.varPath == Printed([p.vars]) && p.homePath == Printed([p.home]) && p.etcPath == Printed([p.etc])
    && p.rootHome == Printed([p.home, p.rootUser]) && p.studentHome == Printed([p.home, p.student])
  }

  lemma MkRuns(w: World, name: Str)
    requires ValidName(name) && EntryIn(w, w.cwd) == Some(Dir) && w.cwd + [name] !in w.tree && Fits(w.used, NODE_SIZE)
    ensures PlayOne(w, Mk(name)) == w.(tree := w.tree[w.cwd + [name] := Dir], used := w.used + NODE_SIZE)
  {
    TokensOfName(name);
    assert Init(w.cwd + [name]) == w.cwd;
  }

  lemma WrRuns(w: World, name: Str, data: Str)
    requires ValidName(name) && EntryIn(w, w.cwd) == Some(Dir) && w.cwd + [name] !in w.tree
    requires Fits(w.used, NODE_SIZE + |data| + 1)
    ensures PlayOne(w, Wr(name, data)) ==
            w.(tree := w.tree[w.cwd + [name] := File(Crypto.Cipher(w.key, data))],
               used := w.used + NODE_SIZE + |data| + 1)
  {
    TokensOfName(name);
    assert Init(w.cwd + [name]) == w.cwd;
    var p, e := w.cwd + [name], File(Crypto.Cipher(w.key, data));
    assert w.tree[p := File([])][p := e] == w.tree[p := e];
  }

  lemma CdRuns(w: World, d: seq<Str>)
    requires ValidNames(d) && EntryIn(w, d) == Some(Dir)
    ensures PlayOne(w, Cd(Printed(d))) == w.(cwd := d)
  {
    TokensOfPrinted(d);
    assert Printed(d) != [] && Printed(d)[0] == SLASH;
  }

  lemma BackToRoot(w: World)
    requires EntryIn(w, []) == Some(Dir)
    ensures PlayOne(w, Cd(ROOT)) == w.(cwd := [])
  {
    CdRuns(w, []);
  }

  lemma TwoRun(w: World, a: Str, b: Str)
    requires ValidName(a) && ValidName(b) && a != b && EntryIn(w, w.cwd) == Some(Dir)
    requires w.cwd + [a] !in w.tree && w.cwd + [b] !in w.tree && Fits(w.used, 2 * NODE_SIZE)
    ensures Play(w, [Mk(a), Mk(b)]) ==
            w.(tree := w.tree[w.cwd + [a] := Dir][w.cwd + [b] := Dir], used := w.used + 2 * NODE_SIZE)
  {
    MkRuns(w, a);
    assert (w.cwd + [a])[|w.cwd|] == a && (w.cwd + [b])[|w.cwd|] == b;
    assert w.cwd != w.cwd + [a];
    MkRuns(PlayOne(w, Mk(a)), b);
    PlayTwo(w, Mk(a), Mk(b));
  }

  /** At the root, with the entries qs still missing and `room` bytes left. */
  ghost predicate Start(w: World, qs: seq<seq<Str>>, room: nat) {
    && w.cwd == [] && EntryIn(w, []) == Some(Dir) && Fits(w.used, room) && forall q :: q in qs ==> q !in w.tree
  }

  lemma FourRun(w: World, p: Plan)
    requires Named(p) && Start(w, [[p.bin], [p.home], [p.etc], [p.vars]], 4 * NODE_SIZE)
    ensures WithFour(w, p) ==
            w.(tree := w.tree[[p.bin] := Dir][[p.home] := Dir][[p.etc] := Dir][[p.vars] := Dir],
               used := w.used + 4 * NODE_SIZE)
  {
    assert forall x: Str :: [] + [x] == [x];
    TwoRun(w, p.bin, p.home);
    var v := Play(w, [Mk(p.bin), Mk(p.home)]);
    assert [p.etc] !in v.tree && [p.vars] !in v.tree;
    TwoRun(v, p.etc, p.vars);
  }

  lemma DirectoryUnderRuns(w: World, d: seq<Str>, name: Str)
    requires ValidNames(d) && ValidName(name) && Start(w, [d + [name]], NODE_SIZE) && EntryIn(w, d) == Some(Dir)
    ensures Play(w, [Cd(Printed(d)), Mk(name), Cd(ROOT)]) ==
            w.(tree := w.tree[d + [name] := Dir], used := w.used + NODE_SIZE)
  {
    CdRuns(w, d);
    var v := PlayOne(w, Cd(Printed(d)));
    MkRuns(v, name);
    assert d + [name] != [];
    BackToRoot(PlayOne(v, Mk(name)));
    PlayThree(w, Cd(Printed(d)), Mk(name), Cd(ROOT));
  }

  lemma FileUnderRuns(w: World, d: seq<Str>, name: Str, data: Str)
    requires ValidNames(d) && ValidName(name) && Start(w, [d + [name]], NODE_SIZE + |data| + 1)
    requires EntryIn(w, d) == Some(Dir)
    ensures Play(w, [Cd(Printed(d)), Wr(name, data), Cd(ROOT)]) ==
            w.(tree := w.tree[d + [name] := File(Crypto.Cipher(w.key, data))], used := w.used + NODE_SIZE + |data| + 1)
  {
    CdRuns(w, d);
    var v := PlayOne(w, Cd(Printed(d)));
    WrRuns(v, name, data);
    assert d + [name] != [];
    BackToRoot(PlayOne(v, Wr(name, data)));
    PlayThree(w, Cd(Printed(d)), Wr(name, data), Cd(ROOT));
  }

  lemma HomesRun(w: World, p: Plan)
    requires Named(p) && Start(w, [[p.home, p.rootUser], [p.home, p.student]], 2 * NODE_SIZE)
    requires EntryIn(w, [p.home]) == Some(Dir)
    ensures WithHomes(w, p) ==
            w.(tree := w.tree[[p.home, p.rootUser] := Dir][[p.home, p.student] := Dir], used := w.used + 2 * NODE_SIZE)
  {
    CdRuns(w, [p.home]);
    var v := PlayOne(w, Cd(p.homePath));
    assert forall x: Str :: [p.home] + [x] == [p.home, x];
    TwoRun(v, p.rootUser, p.student);
    BackToRoot(Play(v, [Mk(p.rootUser), Mk(p.student)]));
  }

  /** The bytes of a file as fs_write stores them. */
  function Stored(w: World, text: Str): Entry {
    File(Crypto.Cipher(w.key, text))
  }

  /** The directories that a first boot adds. */
  function NewDirectories(p: Plan): map<seq<Str>, Entry> {
    map[[p.bin] := Dir, [p.home] := Dir, [p.etc] := Dir, [p.vars] := Dir, [p.vars, p.log] := Dir,
        [p.home, p.rootUser] := Dir, [p.home, p.student] := Dir]
  }

  /** The files. */
  function NewFiles(w: World, p: Plan): map<seq<Str>, Entry> {
    map[[p.etc, p.motd] := Stored(w, p.motdText), [p.home, p.rootUser, p.readme] := Stored(w, p.rootText),
        [p.home, p.student, p.readme] := Stored(w, p.studentText), [p.sentinel] := Stored(w, ONE)]
  }

  /** What the files take from the heap. */
  function FileCost(p: Plan): nat {
    4 * NODE_SIZE + |p.motdText| + 1 + |p.rootText| + 1 + |p.studentText| + 1 + |ONE| + 1
  }

  lemma LogRun(w: World, p: Plan)
    requires Named(p) && Start(w, [[p.vars, p.log]], NODE_SIZE) && EntryIn(w, [p.vars]) == Some(Dir)
    ensures WithLog(w, p) == w.(tree := w.tree[[p.vars, p.log] := Dir], used := w.used + NODE_SIZE)
  {
    assert [p.vars] + [p.log] == [p.vars, p.log];
    DirectoryUnderRuns(w, [p.vars], p.log);
  }

  lemma DirectoriesTree(tree: map<seq<Str>, Entry>, p: Plan)
    ensures tree[[p.bin] := Dir][[p.home] := Dir][[p.etc] := Dir][[p.vars] := Dir][[p.vars, p.log] := Dir]
              [[p.home, p.rootUser] := Dir][[p.home, p.student] := Dir] == tree + NewDirectories(p)
  {
  }

  lemma DirectoriesRun(w: World, p: Plan)
    requires Named(p) && w.cwd == [] && EntryIn(w, []) == Some(Dir) && w.tree.Keys !! NewDirectories(p).Keys
    requires Fits(w.used, 7 * NODE_SIZE)
    ensures WithHomes(WithLog(WithFour(w, p), p), p) ==
            w.(tree := w.tree + NewDirectories(p), used := w.used + 7 * NODE_SIZE)
  {
    assert forall q :: q in NewDirectories(p) ==> q !in w.tree;
    FourRun(w, p);
    var w1 := WithFour(w, p);
    LogRun(w1, p);
    var w2 := WithLog(w1, p);
    HomesRun(w2, p);
    DirectoriesTree(w.tree, p);
  }

  /** The directories that the files go to are there. */
  ghost predicate Furnished(w: World, p: Plan) {
    && w.cwd == [] && EntryIn(w, []) == Some(Dir) && EntryIn(w, [p.etc]) == Some(Dir)
    && EntryIn(w, [p.home, p.rootUser]) == Some(Dir) && EntryIn(w, [p.home, p.student]) == Some(Dir)
  }

  lemma MotdRun(w: World, p: Plan)
    requires Named(p) && Furnished(w, p) && [p.etc, p.motd] !in w.tree && Fits(w.used, NODE_SIZE + |p.motdText| + 1)
    ensures WithMotd(w, p) ==
            w.(tree := w.tree[[p.etc, p.motd] := Stored(w, p.motdText)], used := w.used + NODE_SIZE + |p.motdText| + 1)
  {
    assert [p.etc] + [p.motd] == [p.etc, p.motd];
    FileUnderRuns(w, [p.etc], p.motd, p.motdText);
  }

  lemma ReadmeRun(w: World, p: Plan, user: Str, text: Str)
    requires Named(p) && w.cwd == [] && EntryIn(w, []) == Some(Dir) && (user == p.rootUser || user == p.student)
    requires EntryIn(w, [p.home, user]) == Some(Dir) && [p.home, user, p.readme] !in w.tree
    requires Fits(w.used, NODE_SIZE + |text| + 1)
    ensures Play(w, [Cd(Printed([p.home, user])), Wr(p.readme, text), Cd(ROOT)]) ==
            w.(tree := w.tree[[p.home, user, p.readme] := Stored(w, text)], used := w.used + NODE_SIZE + |text| + 1)
  {
    assert [p.home, user] + [p.readme] == [p.home, user, p.readme];
    FileUnderRuns(w, [p.home, user], p.readme, text);
  }

  lemma ReadmesRun(w: World, p: Plan)
    requires Named(p) && Furnished(w, p) && Fits(w.used, 2 * NODE_SIZE + |p.rootText| + 1 + |p.studentText| + 1)
    requires [p.home, p.rootUser, p.readme] !in w.tree && [p.home, p.student, p.readme] !in w.tree
    ensures WithReadmes(w, p) ==
            w.(tree := w.tree[[p.home, p.rootUser, p.readme] := Stored(w, p.rootText)]
                             [[p.home, p.student, p.readme] := Stored(w, p.studentText)],
               used := w.used + 2 * NODE_SIZE + |p.rootText| + 1 + |p.studentText| + 1)
  {
    ReadmeRun(w, p, p.rootUser, p.rootText);
    var v := Play(w, [Cd(p.rootHome), Wr(p.readme, p.rootText), Cd(ROOT)]);
    assert [p.home, p.rootUser, p.readme][1] != [p.home, p.student, p.readme][1];
    assert |[p.home, p.student]| != |[p.home, p.rootUser, p.readme]|;
    ReadmeRun(v, p, p.student, p.studentText);
  }

  lemma SentinelRun(w: World, p: Plan)
    requires Named(p) && w.cwd == [] && EntryIn(w, []) == Some(Dir) && [p.sentinel] !in w.tree
    requires Fits(w.used, NODE_SIZE + |ONE| + 1)
    ensures WithSentinel(w, p) ==
            w.(tree := w.tree[[p.sentinel] := Stored(w, ONE)], used := w.used + NODE_SIZE + |ONE| + 1)
  {
    BackToRoot(w);
    assert [] + [p.sentinel] == [p.sentinel];
    WrRuns(w, p.sentinel, ONE);
  }

  lemma FilesTree(w: World, p: Plan)
    ensures w.tree[[p.etc, p.motd] := Stored(w, p.motdText)][[p.home, p.rootUser, p.readme] := Stored(w, p.rootText)]
              [[p.home, p.student, p.readme] := Stored(w, p.studentText)][[p.sentinel] := Stored(w, ONE)]
            == w.tree + NewFiles(w, p)
  {
  }

  lemma FilesRun(w: World, p: Plan)
    requires Named(p) && Furnished(w, p) && w.tree.Keys !! NewFiles(w, p).Keys && Fits(w.used, FileCost(p))
    ensures WithSentinel(WithReadmes(WithMotd(w, p), p), p) ==
            w.(tree := w.tree + NewFiles(w, p), used := w.used + FileCost(p))
  {
    assert forall q :: q in NewFiles(w, p) ==> q !in w.tree;
    MotdRun(w, p);
    var v := WithMotd(w, p);
    ReadmesRun(v, p);
    var u := WithReadmes(v, p);
    SentinelRun(u, p);
    FilesTree(w, p);
  }

  lemma DirectoriesFurnish(w: World, p: Plan)
    requires Named(p) && w.cwd == [] && EntryIn(w, []) == Some(Dir) && w.tree.Keys !! NewFiles(w, p).Keys
    ensures var v := w.(tree := w.tree + NewDirectories(p), used := w.used + 7 * NODE_SIZE);
            Furnished(v, p) && v.tree.Keys !! NewFiles(v, p).Keys && NewFiles(v, p) == NewFiles(w, p)
  {
    assert NewFiles(w, p).Keys ==
      {[p.etc, p.motd], [p.home, p.rootUser, p.readme], [p.home, p.student, p.readme], [p.sentinel]};
    forall q | q in NewDirectories(p) ensures q !in NewFiles(w, p) {
      assert |q| <= 2 && |[p.home, p.rootUser, p.readme]| == 3 && |[p.home, p.student, p.readme]| == 3;
    }
  }

  /** A first boot with room on the heap adds exactly these directories and files. */
  lemma LaidOutRun(w: World, p: Plan)
    requires Named(p) && w.cwd == [] && EntryIn(w, []) == Some(Dir)
    requires w.tree.Keys !! NewDirectories(p).Keys && w.tree.Keys !! NewFiles(w, p).Keys
    requires Fits(w.used, 7 * NODE_SIZE + FileCost(p))
    ensures LaidOut(w, p) ==
            w.(tree := w.tree + NewDirectories(p) + NewFiles(w, p), used := w.used + 7 * NODE_SIZE + FileCost(p))
  {
    DirectoriesRun(w, p);
    var v := WithHomes(WithLog(WithFour(w, p), p), p);
    DirectoriesFurnish(w, p);
    FilesRun(v, p);
  }

  /** The sentinel is not there, so the layout is made; afterwards every path below the root that was
      not named before is one of the plan's. */
  lemma FirstBoot(w: World, p: Plan, saved: Str)
    requires Named(p) && w.cwd == [] && EntryIn(w, []) == Some(Dir)
    requires w.tree.Keys !! NewDirectories(p).Keys && w.tree.Keys !! NewFiles(w, p).Keys
    requires Fits(w.used, 7 * NODE_SIZE + FileCost(p))
    ensures Boot(w, p, saved).tree == w.tree + NewDirectories(p) + NewFiles(w, p)
    ensures Boot(w, p, saved).used == w.used + 7 * NODE_SIZE + FileCost(p) && Boot(w, p, saved).key == w.key
  {
    BackToRoot(w);
    assert w.(cwd := []) == w;
    NoSentinel(w, p);
    LaidOutRun(w, p);
  }

  lemma NoSentinel(w: World, p: Plan)
    requires ValidName(p.sentinel) && w.cwd == [] && [p.sentinel] !in w.tree
    ensures HandedIn(w, p.sentinel) == None && PlayOne(w, Rd(p.sentinel)) == w
  {
    TokensOfName(p.sentinel);
    assert [] + [p.sentinel] == [p.sentinel];
  }

  /** A second boot finds the sentinel and leaves the tree as it is. */
  lemma SecondBoot(w: World, p: Plan, saved: Str, again: Str)
    requires Named(p) && w.cwd == [] && EntryIn(w, []) == Some(Dir)
    requires w.tree.Keys !! NewDirectories(p).Keys && w.tree.Keys !! NewFiles(w, p).Keys
    requires Fits(w.used, 7 * NODE_SIZE + FileCost(p) + |ONE| + 1)
    ensures var first := Boot(w, p, saved); Boot(first, p, again).tree == first.tree
  {
    FirstBoot(w, p, saved);
    var first := Boot(w, p, saved);
    assert EntryIn(first, [p.sentinel]) == Some(Stored(w, ONE));
    BootKeeps(w, p, saved, []);
    BackToRoot(first);
    SentinelFound(PlayOne(first, Cd(ROOT)), p, Stored(w, ONE).bytes);
    BootOnce(first, p, again);
  }

  lemma SentinelFound(w: World, p: Plan, bytes: Str)
    requires ValidName(p.sentinel) && w.cwd == [] && EntryIn(w, [p.sentinel]) == Some(File(bytes)) && bytes != []
    requires Fits(w.used, |bytes| + 1)
    ensures HandedIn(w, p.sentinel).Some?
  {
    TokensOfName(p.sentinel);
    assert [] + [p.sentinel] == [p.sentinel];
  }

  // ---------------------------------------------------------------- the names of Hypnos

  const BIN: Str := [0x62, 0x69, 0x6E] // "bin"
  const HOME: Str := [0x68, 0x6F, 0x6D, 0x65] // "home"
  const ETC: Str := [0x65, 0x74, 0x63] // "etc"
  const VAR: Str := [0x76, 0x61, 0x72] // "var"
  const LOG: Str := [0x6C, 0x6F, 0x67] // "log"
  const ROOT_USER: Str := [0x72, 0x6F, 0x6F, 0x74] // "root"
  const STUDENT: Str := [0x73, 0x74, 0x75, 0x64, 0x65, 0x6E, 0x74] // "student"
  const MOTD: Str := [0x6D, 0x6F, 0x74, 0x64] // "motd"
  const README: Str := [0x72, 0x65, 0x61, 0x64, 0x6D, 0x65, 0x2E, 0x74, 0x78, 0x74] // "readme.txt"
  // ".hypnos_root_initialized"
  const SENTINEL: Str := [0x2E, 0x68, 0x79, 0x70, 0x6E, 0x6F, 0x73, 0x5F, 0x72, 0x6F, 0x6F, 0x74,
                         0x5F, 0x69, 0x6E, 0x69, 0x74, 0x69, 0x61, 0x6C, 0x69, 0x7A, 0x65, 0x64]

  function HypnosPlan(motdText: Str, rootText: Str, studentText: Str): Plan {
    Plan(BIN, HOME, ETC, VAR, LOG, ROOT_USER, STUDENT, MOTD, README,
         [SLASH] + VAR, [SLASH] + HOME, [SLASH] + ETC, [SLASH] + HOME + [SLASH] + ROOT_USER,
         [SLASH] + HOME + [SLASH] + STUDENT, SENTINEL, motdText, rootText, studentText)
  }

  lemma NamesAreValid()
    ensures ValidName(BIN) && ValidName(HOME) && ValidName(ETC) && ValidName(VAR) && ValidName(LOG)
    ensures ValidName(ROOT_USER) && ValidName(STUDENT) && ValidName(MOTD) && ValidName(README) && ValidName(SENTINEL)
  {
  }

  lemma PrintedOne(a: Str)
    ensures Printed([a]) == [SLASH] + a
  {
    assert [a][1..] + [a] == [a];
    assert Joined([a]) == [SLASH] + a;
  }

  lemma PrintedTwo(a: Str, b: Str)
    ensures Printed([a, b]) == [SLASH] + a + [SLASH] + b
  {
    PrintedOne(b);
    assert [a, b][1..] == [b];
    assert [SLASH] + a + ([SLASH] + b) == [SLASH] + a + [SLASH] + b;
  }

  /** The names and paths of fs_bootstrap make a plan to which all of the above applies. */
  lemma HypnosIsNamed(motdText: Str, rootText: Str, studentText: Str)
    ensures Named(HypnosPlan(motdText, rootText, studentText))
  {
    NamesAreValid();
    PrintedOne(VAR);
    PrintedOne(HOME);
    PrintedOne(ETC);
    PrintedTwo(HOME, ROOT_USER);
    PrintedTwo(HOME, STUDENT);
    assert |SENTINEL| == 24 && BIN[0] == 0x62 && ETC[0] == 0x65 && VAR[0] == 0x76 && |HOME| == 4;
    assert |ROOT_USER| == 4 && |STUDENT| == 7;
  }
}
