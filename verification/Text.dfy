/** C strings of the kernel and the path grammar of the file system.

    A C string is the sequence of its bytes before the terminating NUL; a fixed-size name
    buffer is the string it holds.  A NULL path and the empty path take the same branches
    everywhere in fs.c, so both are the empty sequence. */
module Text {
  type Byte = bv8
  type Str = seq<Byte>

  datatype Option<+T> = None | Some(value: T)

  const NUL: Byte := 0
  const SLASH: Byte := 0x2F
  const NAME_MAX: nat := 31   // MAX_NAME_LEN - 1
  const PATH_SIZE: nat := 128 // MAX_PATH_LEN

  /** What kstrncpy leaves in a 32-byte name buffer. */
  function Clip(s: Str): Str {
    if |s| <= NAME_MAX then s else s[..NAME_MAX]
  }

  /** A name of up to 31 bytes is kept whole, a longer one up to its 31st byte. */
  lemma ClipIs(s: Str)
    ensures Clip(s) <= s && |Clip(s)| == if |s| < 31 then |s| else 31
  {
  }

  predicate ValidName(s: Str) {
    1 <= |s| <= NAME_MAX && SLASH !in s && NUL !in s
  }

  predicate ValidNames(names: seq<Str>) {
    forall c :: c in names ==> ValidName(c)
  }

  // ---------------------------------------------------------------- tokenizer

  function SkipSlashes(s: Str): (r: Str)
    ensures |r| <= |s| && (r != [] ==> r[0] != SLASH)
  {
    if s != [] && s[0] == SLASH then SkipSlashes(s[1..]) else s
  }

  /** The bytes before the first slash. */
  function Word(s: Str): (r: Str)
    ensures |r| <= |s| && (s != [] && s[0] != SLASH ==> r != [])
  {
    if s == [] || s[0] == SLASH then [] else [s[0]] + Word(s[1..])
  }

  lemma {:induction false} SkipIsSuffix(s: Str)
    ensures SkipSlashes(s) == s[|s| - |SkipSlashes(s)|..]
  {
    if s != [] && s[0] == SLASH {
      SkipIsSuffix(s[1..]);
    }
  }

  lemma {:induction false} WordIsPrefix(s: Str)
    ensures Word(s) == s[..|Word(s)|] && SLASH !in Word(s)
    ensures Word(s) == s || s[|Word(s)|] == SLASH
  {
    if s != [] && s[0] != SLASH {
      WordIsPrefix(s[1..]);
    }
  }

  /** The component at the front of s. */
  function Piece(s: Str): (r: Str)
    requires s != [] && s[0] != SLASH
    ensures 0 < |r| <= |s|
  {
    Clip(Word(s))
  }

  lemma PieceIsPrefix(s: Str)
    requires s != [] && s[0] != SLASH
    ensures SLASH !in Piece(s) && 1 <= |Piece(s)| <= NAME_MAX && s == Piece(s) + s[|Piece(s)|..]
  {
    WordIsPrefix(s);
  }

  /** The components fs_next_component yields when it is iterated to the end. */
  function Tokens(s: Str): seq<Str>
    decreases |s|
  {
    var t := SkipSlashes(s);
    if t == [] then [] else
      [Piece(t)] + Tokens(t[|Piece(t)|..])
  }

  lemma SkipTwice(s: Str)
    ensures SkipSlashes(SkipSlashes(s)) == SkipSlashes(s)
    ensures Tokens(SkipSlashes(s)) == Tokens(s)
    ensures SkipSlashes(s) == [] <==> Tokens(s) == []
  {
  }

  /** The copying loop of fs_next_component. */
  method TakePiece(t: Str) returns (out: Str, rest: Str)
    requires t != [] && t[0] != SLASH
    ensures out == Piece(t) && rest == t[|out|..]
  {
    out, rest := [], t;
    while rest != [] && rest[0] != SLASH && |out| + 1 < NAME_MAX + 1
      invariant |out| <= NAME_MAX
      invariant out + rest == t && out + Word(rest) == Word(t)
      decreases |rest|
    {
      WordShift(out, rest);
      out, rest := out + [rest[0]], rest[1..];
    }
    assert t[|out|..] == rest;
  }

  /** fs_next_component: the advancing pointer is the string that remains. */
  method NextComponent(p: Str) returns (more: bool, out: Str, rest: Str)
    ensures more == (Tokens(p) != [])
    ensures more ==> Tokens(p) == [out] + Tokens(rest) && |rest| < |p| && out != []
    ensures rest == [] <==> Tokens(rest) == []
    ensures !more ==> rest == []
  {
    var s := SkipLeading(p);
    if s == [] {
      NoTokens(p);
      return false, [], [];
    }
    out, rest := TakePiece(s);
    TokensStep(p, out, rest);
    rest := SkipLeading(rest);
    more := true;
  }

  lemma NoTokens(p: Str)
    requires SkipSlashes(p) == []
    ensures Tokens(p) == [] && Tokens([]) == []
  {
  }

  lemma TokensStep(p: Str, out: Str, s: Str)
    requires SkipSlashes(p) != [] && out == Piece(SkipSlashes(p)) && s == SkipSlashes(p)[|out|..]
    ensures Tokens(p) == [out] + Tokens(SkipSlashes(s)) && |SkipSlashes(s)| < |p| && out != []
    ensures SkipSlashes(s) == [] <==> Tokens(SkipSlashes(s)) == []
  {
    SkipTwice(s);
  }

  lemma WordShift(out: Str, s: Str)
    requires s != [] && s[0] != SLASH
    ensures out + s == (out + [s[0]]) + s[1..]
    ensures out + Word(s) == (out + [s[0]]) + Word(s[1..])
  {
  }

  method SkipLeading(p: Str) returns (s: Str)
    ensures s == SkipSlashes(p)
  {
    s := p;
    while s != [] && s[0] == SLASH
      invariant SkipSlashes(s) == SkipSlashes(p)
      decreases |s|
    {
      s := s[1..];
    }
  }

  lemma {:induction false} TokensValid(s: Str)
    ensures forall c :: c in Tokens(s) ==> 1 <= |c| <= NAME_MAX && SLASH !in c
    ensures NUL !in s ==> ValidNames(Tokens(s))
    decreases |s|
  {
    var t := SkipSlashes(s);
    if t != [] {
      var head, rest := Piece(t), t[|Piece(t)|..];
      PieceIsPrefix(t);
      SkipIsSuffix(s);
      NulIn(s, t, head, rest);
      TokensValid(rest);
      forall c | c in Tokens(s)
        ensures 1 <= |c| <= NAME_MAX && SLASH !in c && (NUL !in s ==> NUL !in c)
      {
        assert c == head || c in Tokens(rest);
      }
    }
  }

  lemma NulIn(s: Str, t: Str, head: Str, rest: Str)
    requires |t| <= |s| && t == s[|s| - |t|..] && t == head + rest
    ensures NUL !in s ==> NUL !in head && NUL !in rest
  {
    assert forall x :: x in t ==> x in s;
    assert forall x :: x in head || x in rest ==> x in t;
  }

  function WithoutSlashes(s: Str): Str {
    if s == [] then [] else (if s[0] == SLASH then [] else [s[0]]) + WithoutSlashes(s[1..])
  }

  function Concat(parts: seq<Str>): Str {
    if parts == [] then [] else parts[0] + Concat(parts[1..])
  }

  lemma Regroup<T>(a: seq<T>, b: seq<T>, c: seq<T>)
    ensures a + (b + c) == a + b + c
  {
  }

  lemma ConcatTail(a: Str, b: Str)
    requires a != []
    ensures a + b != [] && (a + b)[0] == a[0] && (a + b)[1..] == a[1..] + b
  {
  }

  lemma {:induction false} WithoutSlashesSplit(a: Str, b: Str)
    ensures WithoutSlashes(a + b) == WithoutSlashes(a) + WithoutSlashes(b)
  {
    if a == [] {
      assert a + b == b;
    } else {
      ConcatTail(a, b);
      WithoutSlashesSplit(a[1..], b);
      Regroup(if a[0] == SLASH then [] else [a[0]], WithoutSlashes(a[1..]), WithoutSlashes(b));
    }
  }

  lemma {:induction false} WithoutSlashesClean(a: Str)
    requires SLASH !in a
    ensures WithoutSlashes(a) == a
  {
    if a != [] {
      WithoutSlashesClean(a[1..]);
      assert a == [a[0]] + a[1..];
    }
  }

  lemma {:induction false} SkipKeepsBytes(s: Str)
    ensures WithoutSlashes(SkipSlashes(s)) == WithoutSlashes(s)
  {
    if s != [] && s[0] == SLASH {
      SkipKeepsBytes(s[1..]);
    }
  }

  /** Nothing but the slashes is lost. */
  lemma {:induction false} TokensConcat(s: Str)
    ensures Concat(Tokens(s)) == WithoutSlashes(s)
    decreases |s|
  {
    var t := SkipSlashes(s);
    SkipKeepsBytes(s);
    if t != [] {
      var c := Piece(t);
      var rest := t[|c|..];
      PieceIsPrefix(t);
      WithoutSlashesSplit(c, rest);
      WithoutSlashesClean(c);
      TokensConcat(rest);
      assert ([c] + Tokens(rest))[1..] == Tokens(rest);
    }
  }

  // ------------------------------------------------ the standard split, as reference

  /** The non-empty segments between slashes. */
  function Segments(s: Str): seq<Str>
    decreases |s|
  {
    if s == [] then []
    else if s[0] == SLASH then Segments(s[1..])
    else [Word(s)] + Segments(s[|Word(s)|..])
  }

  /** A segment cut into pieces of at most 31 bytes. */
  function Chop(w: Str): seq<Str>
    decreases |w|
  {
    if |w| <= NAME_MAX then [w] else [w[..NAME_MAX]] + Chop(w[NAME_MAX..])
  }

  function ChopAll(segments: seq<Str>): seq<Str> {
    if segments == [] then [] else Chop(segments[0]) + ChopAll(segments[1..])
  }

  lemma {:induction false} WordDrop(s: Str, n: nat)
    requires n <= |Word(s)|
    ensures Word(s[n..]) == Word(s)[n..]
  {
    if n > 0 {
      WordDrop(s[1..], n - 1);
      assert s[n..] == s[1..][n - 1..];
    } else {
      assert s[0..] == s;
    }
  }

  lemma {:induction false} SegmentsSkip(s: Str)
    ensures Segments(SkipSlashes(s)) == Segments(s)
  {
    if s != [] && s[0] == SLASH {
      SegmentsSkip(s[1..]);
    }
  }

  lemma ChopAllCons(w: Str, rest: seq<Str>)
    ensures ChopAll([w] + rest) == Chop(w) + ChopAll(rest)
  {
    assert ([w] + rest)[1..] == rest;
  }

  lemma SegmentsOfTail(t: Str, n: nat)
    requires n < |Word(t)|
    ensures Segments(t[n..]) == [Word(t)[n..]] + Segments(t[|Word(t)|..])
  {
    var u := t[n..];
    WordDrop(t, n);
    assert u[0] == Word(u)[0];
    assert u[|Word(u)|..] == t[|Word(t)|..];
  }

  lemma ChopLongCons(w: Str, rest: seq<Str>)
    requires |w| > NAME_MAX
    ensures ChopAll([w] + rest) == [w[..NAME_MAX]] + ChopAll([w[NAME_MAX..]] + rest)
  {
    ChopAllCons(w, rest);
    ChopAllCons(w[NAME_MAX..], rest);
  }

  lemma ChopStep(t: Str)
    requires t != [] && t[0] != SLASH
    ensures var c := Clip(Word(t));
            ChopAll(Segments(t)) == [c] + ChopAll(Segments(t[|c|..]))
  {
    if |Word(t)| > NAME_MAX {
      ChopLongCons(Word(t), Segments(t[|Word(t)|..]));
      SegmentsOfTail(t, NAME_MAX);
    } else {
      ChopAllCons(Word(t), Segments(t[|Word(t)|..]));
    }
  }

  /** The tokenizer is the standard split with every long segment cut into pieces. */
  lemma {:induction false} TokensAreChoppedSegments(s: Str)
    ensures Tokens(s) == ChopAll(Segments(s))
    decreases |s|
  {
    var t := SkipSlashes(s);
    SegmentsSkip(s);
    if t != [] {
      ChopStep(t);
      TokensAreChoppedSegments(t[|Clip(Word(t))|..]);
    }
  }

  lemma {:induction false} ChopAllIdentity(segments: seq<Str>)
    ensures |ChopAll(segments)| >= |segments|
    ensures ChopAll(segments) == segments <==> forall w :: w in segments ==> |w| <= NAME_MAX
  {
    if segments != [] {
      ChopAllIdentity(segments[1..]);
      if |segments[0]| <= NAME_MAX {
        assert ChopAll(segments)[1..] == ChopAll(segments[1..]);
      }
    }
  }

  /** It is the standard split exactly when no segment is longer than 31 bytes. */
  lemma TokensAreSegmentsIff(s: Str)
    ensures Tokens(s) == Segments(s) <==> forall w :: w in Segments(s) ==> |w| <= NAME_MAX
  {
    TokensAreChoppedSegments(s);
    ChopAllIdentity(Segments(s));
  }

  // ---------------------------------------------------------------- printing paths

  /** The absolute spelling of a component list; the root itself is spelled "/". */
  function Joined(names: seq<Str>): Str {
    if names == [] then [] else [SLASH] + names[0] + Joined(names[1..])
  }

  function Printed(names: seq<Str>): Str {
    if names == [] then [SLASH] else Joined(names)
  }

  lemma {:induction false} JoinedAppend(a: seq<Str>, b: seq<Str>)
    ensures Joined(a + b) == Joined(a) + Joined(b)
  {
    if a == [] {
      assert a + b == b;
    } else {
      assert (a + b)[1..] == a[1..] + b;
      JoinedAppend(a[1..], b);
    }
  }

  lemma {:induction false} WordOfName(c: Str, s: Str)
    requires SLASH !in c && (s == [] || s[0] == SLASH)
    ensures Word(c + s) == c
  {
    if c == [] {
      assert c + s == s;
    } else {
      assert (c + s)[1..] == c[1..] + s;
      WordOfName(c[1..], s);
    }
  }

  lemma TokensOfSlashName(c: Str, s: Str)
    requires ValidName(c) && (s == [] || s[0] == SLASH)
    ensures Tokens([SLASH] + c + s) == [c] + Tokens(s)
  {
    var t := c + s;
    SlashInFront(c, s);
    WordOfName(c, s);
    SkipTwice([SLASH] + t);
    assert t[|c|..] == s;
    assert Tokens(t) == [c] + Tokens(s);
  }

  lemma SlashInFront(c: Str, s: Str)
    requires c != [] && SLASH !in c
    ensures [SLASH] + c + s == [SLASH] + (c + s)
    ensures SkipSlashes([SLASH] + (c + s)) == c + s && SkipSlashes(c + s) == c + s
  {
    assert (c + s)[0] == c[0] && c[0] in c;
    assert ([SLASH] + (c + s))[1..] == c + s;
  }

  lemma TokensOfName(name: Str)
    requires ValidName(name)
    ensures Tokens(name) == [name]
  {
    WordOfName(name, []);
    assert name + [] == name && name[0] in name;
    assert SkipSlashes(name) == name && name[|name|..] == [];
    SkipTwice([]);
  }

  lemma JoinedHead(names: seq<Str>)
    requires ValidNames(names) && names != []
    ensures ValidName(names[0]) && ValidNames(names[1..])
    ensures Joined(names) == [SLASH] + names[0] + Joined(names[1..])
    ensures Joined(names[1..]) == [] || Joined(names[1..])[0] == SLASH
  {
    assert names[0] in names;
  }

  lemma TokensCons(text: Str, names: seq<Str>, rest: Str)
    requires names != [] && ValidName(names[0]) && text == [SLASH] + names[0] + rest
    requires (rest == [] || rest[0] == SLASH) && Tokens(rest) == names[1..]
    ensures Tokens(text) == names
  {
    TokensOfSlashName(names[0], rest);
    assert [names[0]] + names[1..] == names;
  }

  /** Printing a list of names and tokenizing the result is the identity. */
  lemma {:induction false} TokensOfJoined(names: seq<Str>)
    requires ValidNames(names)
    ensures Tokens(Joined(names)) == names
  {
    if names == [] {
      NoTokens([]);
    } else {
      JoinedHead(names);
      TokensOfJoined(names[1..]);
      TokensCons(Joined(names), names, Joined(names[1..]));
    }
  }

  lemma TokensOfPrinted(names: seq<Str>)
    requires ValidNames(names)
    ensures Tokens(Printed(names)) == names
  {
    TokensOfJoined(names);
  }

  lemma PrintedInjective(a: seq<Str>, b: seq<Str>)
    requires ValidNames(a) && ValidNames(b) && Printed(a) == Printed(b)
    ensures a == b
  {
    TokensOfPrinted(a);
    TokensOfPrinted(b);
  }

  lemma {:induction false} JoinedIsCanonical(names: seq<Str>)
    requires ValidNames(names) && names != []
    ensures var t := Joined(names);
            && |t| > 1 && t[0] == 0x2F && t[|t| - 1] != 0x2F
            && forall i :: 0 <= i < |t| - 1 && t[i] == 0x2F ==> t[i + 1] != 0x2F
  {
    var name, rest := names[0], Joined(names[1..]);
    assert ValidName(name) && forall i :: 0 <= i < |name| ==> name[i] != 0x2F;
    if names[1..] != [] {
      JoinedIsCanonical(names[1..]);
    }
    forall i | 0 <= i < |Joined(names)| - 1 && Joined(names)[i] == 0x2F ensures Joined(names)[i + 1] != 0x2F {
      if i > |name| {
        assert Joined(names)[i] == rest[i - 1 - |name|];
      }
    }
  }

  /** A printed path is spelled in one way: a slash before every name, none behind the last, never two
      in a row; the root is the slash alone. */
  lemma PrintedIsCanonical(names: seq<Str>)
    requires ValidNames(names)
    ensures var t := Printed(names);
            && t != [] && t[0] == 0x2F && (t[|t| - 1] == 0x2F <==> names == [])
            && (names == [] ==> |t| == 1)
            && forall i :: 0 <= i < |t| - 1 && t[i] == 0x2F ==> t[i + 1] != 0x2F
  {
    if names != [] {
      JoinedIsCanonical(names);
    }
  }
}
