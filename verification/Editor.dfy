/** The line-less text editor: one key at a time into a 4096-byte buffer, saved on ESC. */
module Editor {
  import opened Text
  import opened Forest
  import opened KernelHeap
  import opened FsState
  import opened FsPaths
  import opened FsNodes
  import FsRuns
  import opened FileSystem
  import Crypto

  const BUF_SIZE: nat := 4096
  const ESC: Byte := 27
  const BACKSPACE: Byte := 8
  const NEWLINE: Byte := 10

  predicate Typed(c: Byte) {
    c == NEWLINE || 0x20 <= c <= 0x7E
  }

  /** What one key other than ESC does to the text. */
  function Edit(text: Str, c: Byte): Str {
    if c == BACKSPACE then (if text == [] then [] else text[..|text| - 1])
    else if Typed(c) && |text| < BUF_SIZE - 1 then text + [c]
    else text
  }

  function Fold(text: Str, keys: Str): Str
    decreases |keys|
  {
    if keys == [] then text else Fold(Edit(text, keys[0]), keys[1..])
  }

  ghost predicate Clean(text: Str) {
    |text| < BUF_SIZE && forall c :: c in text ==> Typed(c)
  }

  lemma EditClean(text: Str, c: Byte)
    requires Clean(text)
    ensures Clean(Edit(text, c))
  {
  }

  lemma {:induction false} FoldClean(text: Str, keys: Str)
    requires Clean(text)
    ensures Clean(Fold(text, keys))
    decreases |keys|
  {
    if keys != [] {
      EditClean(text, keys[0]);
      FoldClean(Edit(text, keys[0]), keys[1..]);
    }
  }

  lemma {:induction false} FoldAppend(text: Str, a: Str, b: Str)
    ensures Fold(text, a + b) == Fold(Fold(text, a), b)
    decreases |a|
  {
    if a == [] {
      assert a + b == b;
    } else {
      assert (a + b)[1..] == a[1..] + b;
      FoldAppend(Edit(text, a[0]), a[1..], b);
    }
  }

  /** Backspace takes back the key before it exactly while the buffer has room; in a full buffer the
      key is dropped and the backspace takes an older byte. */
  lemma BackspaceUndoesIff(keys: Str, c: Byte)
    requires Typed(c)
    ensures Fold([], keys + [c, BACKSPACE]) == Fold([], keys) <==> |Fold([], keys)| < BUF_SIZE - 1
  {
    var t := Fold([], keys);
    FoldAppend([], keys, [c, BACKSPACE]);
    assert [c, BACKSPACE][1..] == [BACKSPACE] && [BACKSPACE][1..] == [];
    assert Fold(Edit(t, c), [BACKSPACE]) == Fold(Edit(Edit(t, c), BACKSPACE), []);
    assert Fold(t, [c, BACKSPACE]) == Edit(Edit(t, c), BACKSPACE);
    if |t| < BUF_SIZE - 1 {
      assert (t + [c])[..|t|] == t;
    }
  }

  /** A newline or a printable character. */
  ghost predicate IsText(k: Byte) {
    k == 0x0A || 0x20 <= k <= 0x7E
  }

  lemma {:induction false} FoldText(text: Str, keys: Str)
    requires |text| <= 4095 && forall k :: k in keys ==> IsText(k)
    ensures Fold(text, keys) == text + if |text + keys| <= 4095 then keys else keys[..4095 - |text|]
    decreases |keys|
  {
    if keys != [] {
      assert IsText(keys[0]);
      FoldText(Edit(text, keys[0]), keys[1..]);
      if |text| < 4095 {
        assert keys == [keys[0]] + keys[1..];
        assert |text + keys| > 4095 ==> keys[..4095 - |text|] == [keys[0]] + keys[1..][..4094 - |text|];
      }
    }
  }

  /** Text that is typed is the text kept: all of it while it is under 4096 bytes, the first 4095 bytes
      of a longer one. */
  lemma TypingKeepsText(keys: Str)
    requires forall k :: k in keys ==> IsText(k)
    ensures Fold([], keys) == if |keys| < 4096 then keys else keys[..4095]
  {
    FoldText([], keys);
    assert [] + keys == keys;
  }

  lemma {:induction false} FoldBounded(keys: Str)
    ensures |Fold([], keys)| <= 4095
  {
    FoldClean([], keys);
  }

  /** A key changes nothing exactly when it is no text and no backspace, or comes as text to a full
      buffer, or as a backspace to an empty one; it might then as well not have been pressed. */
  lemma KeyIgnoredIff(a: Str, key: Byte, b: Str)
    ensures var ignored := if IsText(key) then |Fold([], a)| == 4095 else key == 0x08 ==> Fold([], a) == [];
            && (Fold([], a + [key]) == Fold([], a) <==> ignored)
            && (ignored ==> Fold([], a + [key] + b) == Fold([], a + b))
  {
    LastKey(a, key);
    FoldBounded(a);
    FoldAppend([], a + [key], b);
    FoldAppend([], a, b);
  }

  lemma LastKey(a: Str, key: Byte)
    ensures Fold([], a + [key]) == Edit(Fold([], a), key)
  {
    FoldAppend([], a, [key]);
    assert [key][1..] == [];
  }

  /** Backspace takes the last byte away. */
  lemma BackspaceTakesLast(keys: Str)
    requires Fold([], keys) != []
    ensures var t := Fold([], keys); Fold([], keys + [0x08]) == t[..|t| - 1]
  {
    LastKey(keys, 0x08);
  }

  // ---------------------------------------------------------------- saving

  ghost function Save<N>(s: State<N>, name: Str, text: Str, n: N): (State<N>, bool)
    requires s.cwd in s.g
  {
    if text == [] then Create(s, name, false, n) else WriteCwd(s, name, text, n)
  }

  /** The node a save makes, if it makes one, is new memory. */
  ghost predicate SaveFresh<N>(s: State<N>, name: Str, text: Str, n: N) {
    (if text == [] then AddsAt(s, name) else AddsToCwd(s, name)) ==> n !in s.g
  }

  /** The file of that name in directory c holds the text enciphered and reads as the text, and every
      other path is as it was. */
  ghost predicate SavedAs<N>(s: State<N>, c: seq<Str>, name: Str, text: Str, t: State<N>) {
    && EntryAt(t, c + [name]) == Some(File(Crypto.Cipher(s.key, text)))
    && (Fits(t.used, |text| + 1) ==> Read(t, name).1 == Some(text))
    && forall q :: q != c + [name] ==> EntryAt(t, q) == EntryAt(s, q)
  }

  /** A session that ends with some text: the save fails only for a directory or a full heap. */
  lemma SessionSavesIff<N>(s: State<N>, c: seq<Str>, name: Str, keys: Str, n: N)
    requires Good(s, c) && ValidName(name) && Fold([], keys) != [] && SaveFresh(s, name, Fold([], keys), n)
    ensures var text := Fold([], keys); var e := EntryAt(s, c + [name]);
            Save(s, name, text, n).1 <==>
              && e != Some(Dir) && (e == None ==> Fits(s.used, NODE_SIZE))
              && Fits(if e == None then s.used + NODE_SIZE else s.used, |text| + 1)
  {
    assert Clip(name) == name;
    WriteCwdWhen(s, c, name, Fold([], keys), n);
  }

  /** When it succeeds fs_read of the name gives the text and every other path is as it was; when it
      fails every other path is as it was too. */
  lemma SessionSavesText<N>(s: State<N>, c: seq<Str>, name: Str, keys: Str, n: N)
    requires Good(s, c) && ValidName(name) && Fold([], keys) != [] && SaveFresh(s, name, Fold([], keys), n)
    ensures var text := Fold([], keys); var p := c + [name]; var (t, ok) := Save(s, name, text, n);
            && At(t, c) && (ok ==> SavedAs(s, c, name, text, t))
            && (!ok ==> forall q :: q != p ==> EntryAt(t, q) == EntryAt(s, q))
  {
    var text, p := Fold([], keys), c + [name];
    var (t, ok) := Save(s, name, text, n);
    WriteCwdEffect(s, c, name, text, n);
    if ok {
      SavedReadsBack(s, c, name, text, n);
    }
  }

  lemma SavedReadsBack<N>(s: State<N>, c: seq<Str>, name: Str, text: Str, n: N)
    requires Good(s, c) && ValidName(name) && (AddsToCwd(s, name) ==> n !in s.g) && text != []
    requires WriteCwd(s, name, text, n).1
    requires EntryAt(WriteCwd(s, name, text, n).0, c + [name]) == Some(File(Crypto.Cipher(s.key, text)))
    ensures var t := WriteCwd(s, name, text, n).0; Fits(t.used, |text| + 1) ==> Read(t, name).1 == Some(text)
  {
    FsRuns.StepGood(s, c, WriteCwdOp(name, text, n));
    TokensOfName(name);
    ReadEffect(WriteCwd(s, name, text, n).0, c, name);
    Crypto.CipherTwice(s.key, text);
  }

  /** A text saved under a proper name is found there from every working directory it was saved in. */
  ghost predicate Leaves<N>(s: State<N>, name: Str, text: Str, t: State<N>) {
    ValidName(name) && text != [] ==>
      forall c {:trigger Good(s, c)} :: Good(s, c) ==> SavedAs(s, c, name, text, t)
  }

  lemma SessionSaves<N>(s: State<N>, name: Str, keys: Str, n: N)
    requires s.cwd in s.g && SaveFresh(s, Clip(name), Fold([], keys), n)
    ensures var (t, ok) := Save(s, Clip(name), Fold([], keys), n);
            ok ==> Leaves(s, name, Fold([], keys), t)
  {
    if Save(s, Clip(name), Fold([], keys), n).1 && ValidName(name) && Fold([], keys) != [] {
      forall c | Good(s, c) ensures SavedAs(s, c, name, Fold([], keys), Save(s, name, Fold([], keys), n).0) {
        SessionSavesText(s, c, name, keys, n);
      }
    }
  }

  /** A session that ends with no text saves exactly a name that is not taken: an existing file is
      never emptied. */
  lemma EmptySessionSavesIff<N>(s: State<N>, c: seq<Str>, name: Str, n: N)
    requires Good(s, c) && ValidName(name) && SaveFresh(s, name, [], n)
    ensures var (t, ok) := Save(s, name, [], n); var p := c + [name];
            && (ok <==> EntryAt(s, p) == None && Fits(s.used, NODE_SIZE))
            && (forall q :: EntryAt(t, q) == if ok && q == p then Some(File([])) else EntryAt(s, q))
  {
    CreateEffect(s, c, name, false, n);
    TokensOfName(name);
    assert Init(c + [name]) == c;
    EntryWalk(s, c);
  }

  // ---------------------------------------------------------------- the editor

  class Editor {
    const buf: array<Byte>
    var len: nat
    var name: Str
    var active: bool

    ghost predicate Valid()
      reads this, buf
    {
      buf.Length == BUF_SIZE && len < BUF_SIZE && Clean(buf[..len]) && NUL !in name
    }

    ghost function Text(): Str
      requires Valid()
      reads this, buf
    {
      buf[..len]
    }

    constructor ()
      ensures Valid() && !active && fresh(buf)
    {
      buf := new Byte[BUF_SIZE];
      len, name, active := 0, [], false;
    }

    /** editor_start */
    method Start(filename: Str)
      requires Valid() && NUL !in filename
      modifies this, buf
      ensures Valid()
      ensures if filename == [] then active == old(active) && name == old(name) && Text() == old(Text())
              else active && name == Clip(filename) && Text() == []
    {
      if filename == [] {
        return;
      }
      name := [];
      while |name| < |filename| && |name| < NAME_MAX
        invariant |name| <= |filename| && |name| <= NAME_MAX && name == filename[..|name|]
      {
        name := name + [filename[|name|]];
      }
      len := 0;
      buf[0] := NUL;
      active := true;
    }

    method Append(c: Byte)
      requires Valid() && Typed(c)
      modifies this`len, buf
      ensures Valid() && Text() == Edit(old(Text()), c)
    {
      EditClean(Text(), c);
      if len < BUF_SIZE - 1 {
        buf[len] := c;
        len := len + 1;
      }
    }

    /** editor_save_file */
    method SaveFile(fs: FileSystem) returns (ok: bool, ghost n: Node)
      requires Valid() && fs.Valid() && buf != fs.crypto.keyBytes
      modifies buf, fs, fs.heap, fs.g.Keys
      ensures Valid() && Text() == old(Text()) && fs.Valid()
      ensures (fs.S(), ok) == Save(old(fs.S()), name, Text(), n) && SaveFresh(old(fs.S()), name, Text(), n)
      ensures fresh(fs.g.Keys - old(fs.g.Keys))
    {
      buf[len] := NUL;
      assert buf[..len] == old(buf[..len]);
      assert Valid() && fs.Valid();
      if len == 0 {
        ok, n := fs.Touch(name);
      } else {
        ok, n := fs.WriteCwd(name, buf[..len]);
      }
    }

    /** editor_handle_key */
    method HandleKey(c: Byte, fs: FileSystem) returns (saved: bool, ghost n: Node)
      requires Valid() && fs.Valid() && buf != fs.crypto.keyBytes
      modifies this`len, this`active, buf, fs, fs.heap, fs.g.Keys
      ensures Valid() && fs.Valid()
      ensures !old(active) || c != ESC ==> fs.S() == old(fs.S())
      ensures !old(active) ==> active == old(active) && Text() == old(Text())
      ensures old(active) && c != ESC ==> active && Text() == Edit(old(Text()), c)
      ensures old(active) && c == ESC ==>
                && !active && Text() == old(Text())
                && (fs.S(), saved) == Save(old(fs.S()), name, Text(), n) && SaveFresh(old(fs.S()), name, Text(), n)
      ensures fresh(fs.g.Keys - old(fs.g.Keys))
    {
      saved, n := false, fs.root;
      if !active {
        return;
      }
      if c == ESC {
        saved, n := SaveFile(fs);
        active := false;
        return;
      }
      EditClean(Text(), c);
      if c == BACKSPACE {
        if len > 0 {
          assert buf[..len][..len - 1] == buf[..len - 1];
          len := len - 1;
        }
        return;
      }
      if c == NEWLINE || 0x20 <= c <= 0x7E {
        Append(c);
      }
    }

    /** A whole session: `edit filename`, some keys, ESC. */
    method Session(filename: Str, keys: Str, fs: FileSystem) returns (saved: bool, ghost n: Node)
      requires Valid() && fs.Valid() && buf != fs.crypto.keyBytes
      requires filename != [] && NUL !in filename && ESC !in keys
      modifies this, buf, fs, fs.heap, fs.g.Keys
      ensures Valid() && fs.Valid() && !active && Text() == Fold([], keys)
      ensures (fs.S(), saved) == Save(old(fs.S()), Clip(filename), Fold([], keys), n)
      ensures SaveFresh(old(fs.S()), Clip(filename), Fold([], keys), n)
      ensures saved ==> Leaves(old(fs.S()), filename, Fold([], keys), fs.S())
      ensures saved && |keys| < 4096 && (forall k :: k in keys ==> IsText(k)) ==>
                Leaves(old(fs.S()), filename, keys, fs.S())
      ensures fresh(fs.g.Keys - old(fs.g.Keys))
    {
      Start(filename);
      var i := 0;
      assert keys[0..] == keys;
      while i < |keys|
        invariant 0 <= i <= |keys| && Valid() && fs.Valid() && active && name == Clip(filename)
        invariant fs.S() == old(fs.S())
        invariant Fold(Text(), keys[i..]) == Fold([], keys)
      {
        assert keys[i] in keys && keys[i..][1..] == keys[i + 1..];
        var _, _ := HandleKey(keys[i], fs);
        i := i + 1;
      }
      saved, n := HandleKey(ESC, fs);
      SessionSaves(old(fs.S()), filename, keys, n);
      if forall k :: k in keys ==> IsText(k) {
        TypingKeepsText(keys);
      }
    }
  }
}
