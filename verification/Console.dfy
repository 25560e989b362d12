/** console.h: the 80 by 25 text screen as a window onto an unbounded scrollback. */
module Console {
  import opened Text

  type Cell = bv16

  const WIDTH: nat := 80
  const HEIGHT: nat := 25
  const ROWS: nat := 24 // the content rows; the last row is kept for the status bar

  const NEWLINE: Byte := 10
  const RETURN: Byte := 13
  const BACKSPACE: Byte := 8
  const SPACE: Byte := 0x20

  function VgaEntry(ch: Byte, color: Byte): Cell {
    (ch as bv16) | ((color as bv16) << 8)
  }

  /** A cell shows its character in its colour: neither byte disturbs the other. */
  lemma VgaEntryParts(ch: Byte, color: Byte)
    ensures VgaEntry(ch, color) & 0xFF == ch as bv16 && VgaEntry(ch, color) >> 8 == color as bv16
  {
  }

  function Blank(color: Byte): Cell {
    VgaEntry(SPACE, color)
  }

  // ---------------------------------------------------------------- the scrollback

  type Line = l: seq<Cell> | |l| == WIDTH witness seq(WIDTH, _ => 0)

  function BlankLine(cell: Cell): Line {
    seq(WIDTH, _ => cell)
  }

  /** All lines ever finished, the line being written and the place in it; col == WIDTH means that
      the line is full and the next character wraps.  Lines not yet reached hold `unused`. */
  datatype Scrollback = Scrollback(lines: seq<Line>, line: Line, col: nat, unused: Cell)

  function Cleared(color: Byte): Scrollback {
    Scrollback([], BlankLine(Blank(color)), 0, Blank(color))
  }

  /** The next line is one of the cleared screen while there is one, then a new one. */
  function Advance(b: Scrollback, finished: Line, color: Byte): Scrollback {
    var next := if |b.lines| + 1 < ROWS then b.unused else Blank(color);
    b.(lines := b.lines + [finished], line := BlankLine(next), col := 0)
  }

  /** The line with everything from its place on erased. */
  function Erased(line: Line, col: nat, color: Byte): Line
    requires col <= WIDTH
  {
    line[..col] + seq(WIDTH - col, _ => Blank(color))
  }

  function Put(b: Scrollback, c: Byte, color: Byte): (r: Scrollback)
    requires b.col <= WIDTH
    ensures r.col <= WIDTH
  {
    if c == NEWLINE then Advance(b, Erased(b.line, b.col, color), color)
    else if c == RETURN then b.(col := 0)
    else if c == BACKSPACE then
      if b.col == 0 then b else b.(line := b.line[b.col - 1 := Blank(color)], col := b.col - 1)
    else
      var a := if b.col == WIDTH then Advance(b, b.line, color) else b;
      a.(line := a.line[a.col := VgaEntry(c, color)], col := a.col + 1)
  }

  function PutAll(b: Scrollback, s: Str, color: Byte): (r: Scrollback)
    requires b.col <= WIDTH
    ensures r.col <= WIDTH
    decreases |s|
  {
    if s == [] then b else PutAll(Put(b, s[0], color), s[1..], color)
  }

  /** What row y of the screen shows: the last rows of the scrollback, ending with the line being
      written, or all of it from the top while it is shorter than the screen. */
  function RowOf(b: Scrollback, y: nat): Line {
    var k := y + if |b.lines| < ROWS then 0 else |b.lines| - (ROWS - 1);
    if k < |b.lines| then b.lines[k] else if k == |b.lines| then b.line else BlankLine(b.unused)
  }

  /** Where the line being written is on the screen. */
  function RowNow(b: Scrollback): nat {
    if |b.lines| < ROWS then |b.lines| else ROWS - 1
  }

  /** Going on to the next line moves the rows up once the screen is full. */
  lemma AdvanceRows(b: Scrollback, color: Byte, y: nat)
    requires y < ROWS
    ensures var a := Advance(b, b.line, color);
            RowOf(a, y) == if RowNow(b) < ROWS - 1 then RowOf(b, y)
                           else if y < ROWS - 1 then RowOf(b, y + 1) else BlankLine(Blank(color))
  {
  }

  /** Writing in the line changes its row alone. */
  lemma WriteRows(b: Scrollback, line: Line, col: nat, y: nat)
    requires y < ROWS
    ensures RowOf(b.(line := line, col := col), y) == if y == RowNow(b) then line else RowOf(b, y)
  {
  }

  /** The screen shows the last 24 lines written, or all of them and then unused lines. */
  lemma WindowIsTail(b: Scrollback, y: nat)
    requires y < ROWS
    ensures var all := b.lines + [b.line];
            RowOf(b, y) == if |all| >= ROWS then all[|all| - ROWS + y]
                           else if y < |all| then all[y] else BlankLine(b.unused)
  {
  }

  // ---------------------------------------------------------------- what a text looks like

  predicate Plain(c: Byte) {
    c != NEWLINE && c != RETURN && c != BACKSPACE
  }

  lemma {:induction false} PutAllAppend(b: Scrollback, s: Str, u: Str, color: Byte)
    requires b.col <= WIDTH
    ensures PutAll(b, s + u, color) == PutAll(PutAll(b, s, color), u, color)
    decreases |s|
  {
    if s == [] {
      assert s + u == u;
    } else {
      assert (s + u)[1..] == s[1..] + u;
      PutAllAppend(Put(b, s[0], color), s[1..], u, color);
    }
  }

  /** Finished lines are never touched again. */
  lemma {:induction false} FinishedLinesStay(b: Scrollback, s: Str, color: Byte)
    requires b.col <= WIDTH
    ensures b.lines <= PutAll(b, s, color).lines
    decreases |s|
  {
    if s != [] {
      FinishedLinesStay(Put(b, s[0], color), s[1..], color);
    }
  }

  /** How many lines a plain text has finished: a line that is just full is not finished yet. */
  function LinesDone(n: nat): nat {
    if n == 0 then 0 else (n - 1) / WIDTH
  }

  lemma LinesDoneStep(n: nat)
    ensures LinesDone(n + 1) == if n > 0 && n == WIDTH * LinesDone(n) + WIDTH then LinesDone(n) + 1 else LinesDone(n)
    ensures WIDTH * LinesDone(n) <= n <= WIDTH * LinesDone(n) + WIDTH
    ensures n > 0 ==> WIDTH * LinesDone(n) < n
  {
  }

  /** The first n characters of s, 80 to a line, as cells. */
  ghost predicate ShowsText(b: Scrollback, s: Str, color: Byte) {
    && |b.lines| == LinesDone(|s|) && b.col == |s| - WIDTH * LinesDone(|s|) && b.unused == Blank(color)
    && (forall k, x {:trigger b.lines[k][x]} :: 0 <= k < |b.lines| && 0 <= x < WIDTH ==>
          WIDTH * k + x < |s| && b.lines[k][x] == VgaEntry(s[WIDTH * k + x], color))
    && (forall x {:trigger b.line[x]} :: 0 <= x < WIDTH ==>
          b.line[x] == if x < b.col then VgaEntry(s[WIDTH * |b.lines| + x], color) else Blank(color))
  }

  /** Characters go where they belong: none lost, none twice, 80 to a line, the rest blank, however
      long the text. */
  lemma {:induction false} PlainTextShows(s: Str, color: Byte)
    requires forall c :: c in s ==> Plain(c)
    ensures ShowsText(PutAll(Cleared(color), s, color), s, color)
    decreases |s|
  {
    if s != [] {
      var t, c := s[..|s| - 1], s[|s| - 1];
      PlainTextShows(t, color);
      assert s == t + [c];
      PutAllAppend(Cleared(color), t, [c], color);
      var b := PutAll(Cleared(color), t, color);
      assert PutAll(b, [c], color) == Put(b, c, color);
      OneMoreShows(b, t, c, color);
    }
  }

  lemma OneMoreShows(b: Scrollback, t: Str, c: Byte, color: Byte)
    requires ShowsText(b, t, color) && b.col <= WIDTH && Plain(c)
    ensures ShowsText(Put(b, c, color), t + [c], color)
  {
    LinesDoneStep(|t|);
    LinesDoneStep(|t| + 1);
  }

  /** Backspace takes a character back exactly when the character did not wrap and its place was
      blank. */
  lemma BackspaceUndoesIff(b: Scrollback, c: Byte, color: Byte)
    requires b.col <= WIDTH && Plain(c)
    ensures Put(Put(b, c, color), BACKSPACE, color) == b <==> b.col < WIDTH && b.line[b.col] == Blank(color)
  {
    var line := b.line;
    if b.col < WIDTH {
      var back := line[b.col := VgaEntry(c, color)][b.col := Blank(color)];
      assert back[b.col] == Blank(color);
      if line[b.col] == Blank(color) {
        assert back == line;
      }
    }
  }

  // ---------------------------------------------------------------- what lines of text look like

  /** The i-th stretch of 80 characters of a text, padded with blanks. */
  function Stretch(p: Str, i: nat, color: Byte): Line {
    seq(80, x requires 0 <= x < 80 =>
      if 80 * i + x < |p| then VgaEntry(p[80 * i + x], color) else VgaEntry(0x20, color))
  }

  /** How many lines a text takes; an empty one takes one, and 80 characters fit in one. */
  function LineCount(p: Str): (n: nat)
    ensures n >= 1 && 80 * (n - 1) <= |p| <= 80 * n && (n > 1 ==> 80 * (n - 1) < |p|)
  {
    if p == [] then 1 else (|p| - 1) / 80 + 1
  }

  function Wrapped(p: Str, color: Byte): seq<Line> {
    seq(LineCount(p), i requires 0 <= i < LineCount(p) => Stretch(p, i, color))
  }

  /** The pieces one after the other, each on lines of its own. */
  function Layout(pieces: seq<Str>, color: Byte): seq<Line> {
    if pieces == [] then [] else Wrapped(pieces[0], color) + Layout(pieces[1..], color)
  }

  /** The pieces with a newline between each two. */
  function Lined(pieces: seq<Str>): Str {
    if pieces == [] then []
    else if |pieces| == 1 then pieces[0]
    else pieces[0] + [0x0A] + Lined(pieces[1..])
  }

  ghost predicate PlainText(s: Str) {
    forall c :: c in s ==> c != 0x0A && c != 0x0D && c != 0x08
  }

  /** At the start of a blank line, below the lines given. */
  function AtNewLine(lines: seq<Line>, color: Byte): Scrollback {
    Cleared(color).(lines := lines)
  }

  lemma PutBelow(above: seq<Line>, b: Scrollback, c: Byte, color: Byte)
    requires b.col <= WIDTH && b.unused == Blank(color)
    ensures Put(b.(lines := above + b.lines), c, color) ==
              var r := Put(b, c, color); r.(lines := above + r.lines)
    ensures Put(b, c, color).unused == b.unused
  {
    assert forall f: Line :: above + (b.lines + [f]) == (above + b.lines) + [f];
  }

  /** What is above makes no difference to what is written. */
  lemma {:induction false} PutAllBelow(above: seq<Line>, b: Scrollback, s: Str, color: Byte)
    requires b.col <= WIDTH && b.unused == Blank(color)
    ensures PutAll(b.(lines := above + b.lines), s, color) ==
              var r := PutAll(b, s, color); r.(lines := above + r.lines)
    decreases |s|
  {
    if s != [] {
      PutBelow(above, b, s[0], color);
      PutAllBelow(above, Put(b, s[0], color), s[1..], color);
    }
  }

  /** b ends with the text p, on lines of its own below the lines given, and the cursor behind it. */
  ghost predicate Ends(b: Scrollback, above: seq<Line>, p: Str, color: Byte) {
    && b.lines + [b.line] == above + Wrapped(p, color)
    && b.col == |p| - 80 * (LineCount(p) - 1) && b.unused == Blank(color)
  }

  lemma ShowsWrapped(b: Scrollback, p: Str, color: Byte)
    requires ShowsText(b, p, color)
    ensures Ends(b, [], p, color)
  {
    LinesDoneStep(|p|);
    assert |b.lines| == LineCount(p) - 1;
    forall k | 0 <= k < LineCount(p) ensures (b.lines + [b.line])[k] == Stretch(p, k, color) {
      assert forall x :: 0 <= x < 80 ==> (b.lines + [b.line])[k][x] == Stretch(p, k, color)[x];
    }
    assert [] + Wrapped(p, color) == Wrapped(p, color);
  }

  lemma PieceShows(above: seq<Line>, p: Str, color: Byte)
    requires PlainText(p)
    ensures Ends(PutAll(AtNewLine(above, color), p, color), above, p, color)
  {
    PlainTextShows(p, color);
    var r := PutAll(Cleared(color), p, color);
    ShowsWrapped(r, p, color);
    assert above + [] == above;
    PutAllBelow(above, Cleared(color), p, color);
    assert (above + r.lines) + [r.line] == above + (r.lines + [r.line]);
    assert [] + Wrapped(p, color) == Wrapped(p, color);
  }

  /** A newline after it finishes its last line and starts a blank one. */
  lemma NewlineAfter(b: Scrollback, above: seq<Line>, p: Str, color: Byte)
    requires b.col <= WIDTH && Ends(b, above, p, color)
    ensures Put(b, 0x0A, color) == AtNewLine(above + Wrapped(p, color), color)
  {
    var n := LineCount(p);
    assert b.line == (b.lines + [b.line])[|b.lines|];
    assert b.line == Stretch(p, n - 1, color);
    assert Erased(b.line, b.col, color) == b.line;
  }

  /** b shows these lines, with the cursor behind `last`, which ends them. */
  ghost predicate Stands(b: Scrollback, all: seq<Line>, last: Str, color: Byte) {
    b.lines + [b.line] == all && b.col == |last| - 80 * (LineCount(last) - 1) && b.unused == Blank(color)
  }

  lemma {:induction false} PiecesShow(above: seq<Line>, pieces: seq<Str>, color: Byte)
    requires pieces != [] && forall p :: p in pieces ==> PlainText(p)
    ensures Stands(PutAll(AtNewLine(above, color), Lined(pieces), color),
                   above + Layout(pieces, color), pieces[|pieces| - 1], color)
    decreases |pieces|
  {
    var p, rest := pieces[0], pieces[1..];
    assert p in pieces && PlainText(p);
    if rest == [] {
      PieceShows(above, p, color);
      assert Layout(pieces, color) == Wrapped(p, color);
    } else {
      forall x | x in rest ensures PlainText(x) {
        assert x in pieces;
      }
      PiecesShow(above + Wrapped(p, color), rest, color);
      LinedStep(pieces);
      PieceThenRest(above, p, Lined(rest), color);
      LayoutStep(above, pieces, color);
    }
  }

  lemma LinedStep(pieces: seq<Str>)
    requires |pieces| > 1
    ensures Lined(pieces) == pieces[0] + [0x0A] + Lined(pieces[1..])
    ensures pieces[1..][|pieces[1..]| - 1] == pieces[|pieces| - 1]
  {
  }

  lemma LayoutStep(above: seq<Line>, pieces: seq<Str>, color: Byte)
    requires pieces != []
    ensures (above + Wrapped(pieces[0], color)) + Layout(pieces[1..], color) == above + Layout(pieces, color)
  {
  }

  lemma PieceThenRest(above: seq<Line>, p: Str, rest: Str, color: Byte)
    requires PlainText(p)
    ensures PutAll(AtNewLine(above, color), p + [0x0A] + rest, color) ==
              PutAll(AtNewLine(above + Wrapped(p, color), color), rest, color)
  {
    var b := AtNewLine(above, color);
    var r := PutAll(b, p, color);
    assert p + [0x0A] + rest == p + ([0x0A] + rest);
    PutAllAppend(b, p, [0x0A] + rest, color);
    assert ([0x0A] + rest)[1..] == rest;
    PieceShows(above, p, color);
    NewlineAfter(r, above, p, color);
  }

  /** Written on a cleared screen, plain texts with newlines between them stand one below the other,
      each from a new line on, 80 characters to a line and padded with blanks, none lost however long
      they are; the cursor is behind the last. */
  lemma LinesShow(pieces: seq<Str>, color: Byte)
    requires pieces != [] && forall p :: p in pieces ==> PlainText(p)
    ensures var r := PutAll(Cleared(color), Lined(pieces), color); var last := pieces[|pieces| - 1];
            && r.lines + [r.line] == Layout(pieces, color)
            && r.col == |last| - 80 * (LineCount(last) - 1)
  {
    PiecesShow([], pieces, color);
    assert [] + Layout(pieces, color) == Layout(pieces, color);
    assert AtNewLine([], color) == Cleared(color);
  }

  // ---------------------------------------------------------------- control characters anywhere

  /** A newline erases from the cursor to the end of the line, whatever was there, and goes to the
      start of the next line: one not used yet while the screen has one, else a blank one. */
  lemma NewlineErases(b: Scrollback, color: Byte)
    requires b.col <= 80
    ensures var r := Put(b, 0x0A, color);
            && |r.lines| == |b.lines| + 1 && b.lines <= r.lines && r.col == 0 && r.unused == b.unused
            && forall x :: 0 <= x < 80 ==>
                 && r.lines[|b.lines|][x] == (if x < b.col then b.line[x] else VgaEntry(0x20, color))
                 && r.line[x] == if |b.lines| < 23 then b.unused else VgaEntry(0x20, color)
  {
  }

  /** Plain text that fits in the line overwrites what is there and leaves the rest of the line. */
  lemma {:induction false} TextOverwrites(b: Scrollback, s: Str, color: Byte)
    requires b.col + |s| <= 80 && PlainText(s)
    ensures var r := PutAll(b, s, color);
            && r.lines == b.lines && r.unused == b.unused && r.col == b.col + |s|
            && forall x :: 0 <= x < 80 ==>
                 r.line[x] == if b.col <= x < b.col + |s| then VgaEntry(s[x - b.col], color) else b.line[x]
    decreases |s|
  {
    if s != [] {
      assert s[0] in s && forall c :: c in s[1..] ==> c in s;
      var a := Put(b, s[0], color);
      assert a == b.(line := b.line[b.col := VgaEntry(s[0], color)], col := b.col + 1);
      TextOverwrites(a, s[1..], color);
    }
  }

  /** In a full line the next plain character finishes it as it is and starts the next one. */
  lemma FullLineWraps(b: Scrollback, c: Byte, color: Byte)
    requires b.col == 80 && c != 0x0A && c != 0x0D && c != 0x08
    ensures var r := Put(b, c, color);
            && r.lines == b.lines + [b.line] && r.col == 1 && r.unused == b.unused
            && forall x :: 0 <= x < 80 ==>
                 r.line[x] == if x == 0 then VgaEntry(c, color)
                              else if |b.lines| < 23 then b.unused else VgaEntry(0x20, color)
  {
  }

  /** A carriage return goes back to the start of the line and erases nothing. */
  lemma ReturnOverwrites(b: Scrollback, s: Str, color: Byte)
    requires b.col <= 80 && |s| <= 80 && PlainText(s)
    ensures var r := PutAll(b, [0x0D] + s, color);
            && r.lines == b.lines && r.unused == b.unused && r.col == |s|
            && forall x :: 0 <= x < 80 ==> r.line[x] == if x < |s| then VgaEntry(s[x], color) else b.line[x]
  {
    assert ([0x0D] + s)[1..] == s;
    TextOverwrites(b.(col := 0), s, color);
  }

  /** n backspaces blank the n places before the cursor, but none beyond the start of the line, and
      never go back to the line above. */
  lemma {:induction false} BackspacesErase(b: Scrollback, n: nat, color: Byte)
    requires b.col <= 80
    ensures var r := PutAll(b, seq(n, _ => 0x08), color); var from := if n < b.col then b.col - n else 0;
            && r.lines == b.lines && r.unused == b.unused && r.col == from
            && forall x :: 0 <= x < 80 ==>
                 r.line[x] == if from <= x < b.col then VgaEntry(0x20, color) else b.line[x]
    decreases n
  {
    if n > 0 {
      assert seq(n, _ => 0x08)[1..] == seq<Byte>(n - 1, _ => 0x08);
      BackspacesErase(Put(b, 0x08, color), n - 1, color);
    }
  }

  // ---------------------------------------------------------------- the screen

  class Console {
    const vga: array<Cell>
    var row: nat
    var col: nat
    var color: Byte
    ghost var back: Scrollback

    ghost function At(y: nat, x: nat): Cell
      requires y < HEIGHT && x < WIDTH && vga.Length == WIDTH * HEIGHT
      reads vga
    {
      vga[y * WIDTH + x]
    }

    ghost predicate Valid()
      reads this, vga
    {
      && vga.Length == WIDTH * HEIGHT && row < ROWS && col <= WIDTH
      && col == back.col && row == RowNow(back)
      && forall y, x {:trigger At(y, x)} :: 0 <= y < ROWS && 0 <= x < WIDTH ==> At(y, x) == RowOf(back, y)[x]
    }

    method SetCell(y: nat, x: nat, cell: Cell)
      requires vga.Length == WIDTH * HEIGHT && y < HEIGHT && x < WIDTH
      modifies vga
      ensures forall v, u {:trigger At(v, u)} :: 0 <= v < HEIGHT && 0 <= u < WIDTH ==>
                At(v, u) == if v == y && u == x then cell else old(At(v, u))
    {
      vga[y * WIDTH + x] := cell;
    }

    /** console_put_at; the last row is written only by the status bar. */
    method PutAt(c: Byte, x: nat, y: nat)
      requires vga.Length == WIDTH * HEIGHT
      modifies vga
      ensures forall v, u {:trigger At(v, u)} :: 0 <= v < HEIGHT && 0 <= u < WIDTH ==>
                At(v, u) == if v == y && u == x then VgaEntry(c, color) else old(At(v, u))
    {
      if x >= WIDTH || y >= HEIGHT {
        return;
      }
      SetCell(y, x, VgaEntry(c, color));
    }

    /** Blanks row y from column `from` on. */
    method BlankRow(y: nat, from: nat)
      requires vga.Length == WIDTH * HEIGHT && y < HEIGHT && from <= WIDTH
      modifies vga
      ensures forall v, u {:trigger At(v, u)} :: 0 <= v < HEIGHT && 0 <= u < WIDTH ==>
                At(v, u) == if v == y && u >= from then Blank(color) else old(At(v, u))
    {
      var x := from;
      while x < WIDTH
        invariant from <= x <= WIDTH
        invariant forall v, u {:trigger At(v, u)} :: 0 <= v < HEIGHT && 0 <= u < WIDTH ==>
                    At(v, u) == if v == y && from <= u < x then Blank(color) else old(At(v, u))
      {
        SetCell(y, x, Blank(color));
        x := x + 1;
      }
    }

    method CopyRowUp(y: nat)
      requires vga.Length == WIDTH * HEIGHT && 1 <= y < HEIGHT
      modifies vga
      ensures forall v, u {:trigger At(v, u)} :: 0 <= v < HEIGHT && 0 <= u < WIDTH ==>
                At(v, u) == if v == y - 1 then old(At(y, u)) else old(At(v, u))
    {
      var x := 0;
      while x < WIDTH
        invariant 0 <= x <= WIDTH
        invariant forall v, u {:trigger At(v, u)} :: 0 <= v < HEIGHT && 0 <= u < WIDTH ==>
                    At(v, u) == if v == y - 1 && u < x then old(At(y, u)) else old(At(v, u))
      {
        var cell := vga[y * WIDTH + x];
        assert cell == At(y, x);
        SetCell(y - 1, x, cell);
        x := x + 1;
      }
    }

    /** console_scroll */
    method Scroll()
      requires vga.Length == WIDTH * HEIGHT && col <= WIDTH
      modifies this`row, this`col, vga
      ensures old(row) < ROWS ==> row == old(row) && col == old(col)
      ensures old(row) < ROWS ==> forall v, u {:trigger At(v, u)} :: 0 <= v < HEIGHT && 0 <= u < WIDTH ==>
                At(v, u) == old(At(v, u))
      ensures old(row) >= ROWS ==> row == ROWS - 1 && col == (if old(col) == WIDTH then 0 else old(col))
      ensures old(row) >= ROWS ==> forall v, u {:trigger At(v, u)} :: 0 <= v < HEIGHT && 0 <= u < WIDTH ==>
                At(v, u) == if v < ROWS - 1 then old(At(v + 1, u))
                            else if v == ROWS - 1 then Blank(color) else old(At(v, u))
    {
      if row < HEIGHT - 1 {
        return;
      }
      var y := 1;
      while y < HEIGHT - 1
        invariant 1 <= y <= HEIGHT - 1
        invariant forall v, u {:trigger At(v, u)} :: 0 <= v < HEIGHT && 0 <= u < WIDTH ==>
                    At(v, u) == if v < y - 1 then old(At(v + 1, u)) else old(At(v, u))
        modifies vga
      {
        CopyRowUp(y);
        y := y + 1;
      }
      BlankRow(HEIGHT - 2, 0);
      row := HEIGHT - 2;
      if col >= WIDTH {
        col := 0;
      }
    }

    /** console_clear */
    method Clear()
      requires vga.Length == WIDTH * HEIGHT
      modifies this`row, this`col, this`back, vga
      ensures Valid() && back == Cleared(color)
      ensures forall x {:trigger At(ROWS, x)} :: 0 <= x < WIDTH ==> At(ROWS, x) == Blank(color)
    {
      var y := 0;
      while y < HEIGHT
        invariant 0 <= y <= HEIGHT
        invariant forall v, u {:trigger At(v, u)} :: 0 <= v < y && 0 <= u < WIDTH ==> At(v, u) == Blank(color)
        modifies vga
      {
        BlankRow(y, 0);
        y := y + 1;
      }
      row, col, back := 0, 0, Cleared(color);
    }

    /** A newline: the rest of the line is blanked, then the cursor goes to the next line. */
    method NewLine()
      requires Valid()
      modifies this`row, this`col, this`back, vga
      ensures Valid() && back == Put(old(back), NEWLINE, color)
      ensures forall x {:trigger At(ROWS, x)} :: 0 <= x < WIDTH ==> At(ROWS, x) == old(At(ROWS, x))
    {
      ghost var b, line := back, Erased(back.line, back.col, color);
      BlankRow(row, col);
      forall y, x | 0 <= y < ROWS && 0 <= x < WIDTH ensures At(y, x) == RowOf(b.(line := line, col := b.col), y)[x] {
        WriteRows(b, line, b.col, y);
        WriteRows(b, b.line, b.col, y);
      }
      NextLine(b.(line := line, col := b.col));
    }

    /** The cursor goes to the start of the next line; the screen shows b, whose line is finished. */
    method NextLine(ghost b: Scrollback)
      requires vga.Length == WIDTH * HEIGHT && b.col <= WIDTH
      requires row == RowNow(b)
      requires forall y, x {:trigger At(y, x)} :: 0 <= y < ROWS && 0 <= x < WIDTH ==> At(y, x) == RowOf(b, y)[x]
      modifies this`row, this`col, this`back, vga
      ensures Valid() && back == Advance(b, b.line, color)
      ensures forall x {:trigger At(ROWS, x)} :: 0 <= x < WIDTH ==> At(ROWS, x) == old(At(ROWS, x))
    {
      col := 0;
      row := row + 1;
      Scroll();
      back := Advance(b, b.line, color);
      forall y, x | 0 <= y < ROWS && 0 <= x < WIDTH ensures At(y, x) == RowOf(back, y)[x] {
        AdvanceRows(b, color, y);
      }
    }

    /** console_putc */
    method Putc(c: Byte)
      requires Valid()
      modifies this`row, this`col, this`back, vga
      ensures Valid() && back == Put(old(back), c, color)
      ensures forall x {:trigger At(ROWS, x)} :: 0 <= x < WIDTH ==> At(ROWS, x) == old(At(ROWS, x))
    {
      if c == NEWLINE {
        NewLine();
        return;
      }
      if c == RETURN {
        col := 0;
        back := Put(back, c, color);
        return;
      }
      if c == BACKSPACE {
        Backspace();
        return;
      }
      if col >= WIDTH {
        NextLine(back);
      }
      assert row < HEIGHT - 1; // so the second test for scrolling never holds
      Print(c);
    }

    /** The character goes where the cursor is. */
    method Print(c: Byte)
      requires Valid() && col < WIDTH
      modifies this`col, this`back, vga
      ensures Valid() && back == old(back).(line := old(back.line)[old(col) := VgaEntry(c, color)], col := old(col) + 1)
      ensures forall x {:trigger At(ROWS, x)} :: 0 <= x < WIDTH ==> At(ROWS, x) == old(At(ROWS, x))
    {
      ghost var b, line := back, back.line[col := VgaEntry(c, color)];
      PutAt(c, col, row);
      col := col + 1;
      back := b.(line := line, col := col);
      forall y, x | 0 <= y < ROWS && 0 <= x < WIDTH ensures At(y, x) == RowOf(back, y)[x] {
        WriteRows(b, line, col, y);
        WriteRows(b, b.line, b.col, y);
      }
    }

    method Backspace()
      requires Valid()
      modifies this`col, this`back, vga
      ensures Valid() && back == Put(old(back), BACKSPACE, color)
      ensures forall x {:trigger At(ROWS, x)} :: 0 <= x < WIDTH ==> At(ROWS, x) == old(At(ROWS, x))
    {
      if col > 0 {
        ghost var b, line := back, back.line[col - 1 := Blank(color)];
        col := col - 1;
        PutAt(SPACE, col, row);
        back := b.(line := line, col := col);
        forall y, x | 0 <= y < ROWS && 0 <= x < WIDTH ensures At(y, x) == RowOf(back, y)[x] {
          WriteRows(b, line, col, y);
          WriteRows(b, b.line, b.col, y);
        }
      }
    }

    /** console_set_color */
    method SetColor(fg: Byte, bg: Byte)
      requires Valid()
      modifies this`color
      ensures Valid() && back == old(back) && color == fg | (bg << 4)
    {
      color := fg | (bg << 4);
    }

    /** console_write */
    method Write(s: Str)
      requires Valid()
      modifies this`row, this`col, this`back, vga
      ensures Valid() && back == PutAll(old(back), s, color)
      ensures forall x {:trigger At(ROWS, x)} :: 0 <= x < WIDTH ==> At(ROWS, x) == old(At(ROWS, x))
    {
      var i := 0;
      assert s[0..] == s;
      while i < |s|
        invariant 0 <= i <= |s| && Valid() && PutAll(back, s[i..], color) == PutAll(old(back), s, color)
        invariant forall x {:trigger At(ROWS, x)} :: 0 <= x < WIDTH ==> At(ROWS, x) == old(At(ROWS, x))
      {
        assert s[i..][1..] == s[i + 1..];
        Putc(s[i]);
        i := i + 1;
      }
    }
  }
}
