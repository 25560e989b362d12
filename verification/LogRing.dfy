/** log.c: the audit log, a ring of 128 lines of 80 bytes, against the history of all events. */
module LogRing {
  import opened Text

  const MAX_LINES: nat := 128
  const LINE_LEN: nat := 80

  /** What fits in a line, with its NUL. */
  function Cut(msg: Str): (r: Str)
    ensures |r| == (if |msg| < 79 then |msg| else 79) && r <= msg
  {
    if |msg| < LINE_LEN then msg else msg[..LINE_LEN - 1]
  }

  function Kept(n: nat): nat {
    if n < MAX_LINES then n else MAX_LINES
  }

  /** The last 128 events or all of them, oldest first, each cut to 79 bytes. */
  function Recent(history: seq<Str>): (r: seq<Str>)
    ensures |r| == Kept(|history|)
  {
    seq(Kept(|history|), i requires 0 <= i < Kept(|history|) => Cut(history[|history| - Kept(|history|) + i]))
  }

  lemma RecentUpTo(history: seq<Str>, i: nat)
    requires i < Kept(|history|)
    ensures Recent(history)[..i + 1] == Recent(history)[..i] + [Cut(history[|history| - Kept(|history|) + i])]
  {
  }

  /** One more event: it comes last, and the oldest goes once there are 128. */
  lemma RecentAppend(history: seq<Str>, msg: Str)
    ensures var r := Recent(history);
            Recent(history + [msg]) == (if |history| < 128 then r else r[1..]) + [Cut(msg)]
  {
  }

  /** Counting on from the oldest line, modulo 128. */
  lemma SlotOf(n: nat, count: nat, i: nat)
    requires count == Kept(n) && i < count
    ensures ((n % MAX_LINES + MAX_LINES - count) % MAX_LINES + i) % MAX_LINES == (n - count + i) % MAX_LINES
  {
  }

  /** The line about to be written is none of those that stay. */
  lemma SlotsApart(n: nat, i: nat)
    requires n + 1 - Kept(n + 1) <= i < n
    ensures i % MAX_LINES != n % MAX_LINES
  {
  }

  lemma SlotStep(n: nat)
    ensures (n % MAX_LINES + 1) % MAX_LINES == (n + 1) % MAX_LINES
  {
  }

  class LogRing {
    const buf: array2<Byte>
    var head: nat
    var count: nat
    /** Every message since log_init. */
    ghost var history: seq<Str>

    /** Line k holds the string s. */
    ghost predicate Holds(k: nat, s: Str)
      requires buf.Length0 == MAX_LINES && buf.Length1 == LINE_LEN && k < MAX_LINES
      reads buf
    {
      |s| < LINE_LEN && NUL !in s && buf[k, |s|] == NUL && forall j :: 0 <= j < |s| ==> buf[k, j] == s[j]
    }

    ghost predicate Valid()
      reads this, buf
    {
      && buf.Length0 == MAX_LINES && buf.Length1 == LINE_LEN
      && head == |history| % MAX_LINES && count == Kept(|history|)
      && forall i {:trigger history[i]} :: |history| - count <= i < |history| ==> Holds(i % MAX_LINES, Cut(history[i]))
    }

    constructor ()
      ensures Valid() && history == [] && fresh(buf)
    {
      buf := new Byte[MAX_LINES, LINE_LEN];
      head, count, history := 0, 0, [];
    }

    /** log_init */
    method Init()
      requires Valid()
      modifies this
      ensures Valid() && history == []
    {
      head, count, history := 0, 0, [];
    }

    /** l_strncpy into line k */
    method CopyLine(k: nat, msg: Str)
      requires buf.Length0 == MAX_LINES && buf.Length1 == LINE_LEN && k < MAX_LINES && NUL !in msg
      modifies buf
      ensures Holds(k, Cut(msg))
      ensures forall r, j :: 0 <= r < MAX_LINES && 0 <= j < LINE_LEN && r != k ==> buf[r, j] == old(buf[r, j])
    {
      var i := 0;
      while i < |msg| && i < LINE_LEN - 1
        invariant 0 <= i <= |msg| && i <= LINE_LEN - 1
        invariant forall j :: 0 <= j < i ==> buf[k, j] == msg[j]
        invariant forall r, j :: 0 <= r < MAX_LINES && 0 <= j < LINE_LEN && r != k ==> buf[r, j] == old(buf[r, j])
      {
        buf[k, i] := msg[i];
        i := i + 1;
      }
      buf[k, i] := NUL;
      assert Cut(msg) == msg[..i];
    }

    /** The line at the head takes the message; the others that stay are as they were. */
    method Replace(msg: Str)
      requires Valid() && NUL !in msg
      modifies buf
      ensures Holds(head, Cut(msg))
      ensures forall i {:trigger history[i]} ::
                |history| + 1 - Kept(|history| + 1) <= i < |history| ==> Holds(i % MAX_LINES, Cut(history[i]))
    {
      CopyLine(head, msg);
      forall i | |history| + 1 - Kept(|history| + 1) <= i < |history| ensures Holds(i % MAX_LINES, Cut(history[i])) {
        SlotsApart(|history|, i);
        assert old(Holds(i % MAX_LINES, Cut(history[i])));
      }
    }

    /** log_event; a NULL message is None. */
    method Event(text: Option<Str>)
      requires Valid() && (text.Some? ==> NUL !in text.value)
      modifies this, buf
      ensures Valid() && history == old(history) + if text.Some? then [text.value] else []
    {
      if text.None? {
        return;
      }
      SlotStep(|history|);
      Replace(text.value);
      history := history + [text.value];
      head := (head + 1) % MAX_LINES;
      if count < MAX_LINES {
        count := count + 1;
      }
    }

    /** console_write of line k: the bytes before its NUL. */
    method ReadLine(k: nat, ghost s: Str) returns (line: Str)
      requires buf.Length0 == MAX_LINES && buf.Length1 == LINE_LEN && k < MAX_LINES && Holds(k, s)
      ensures line == s
    {
      line := [];
      assert forall j :: 0 <= j < |s| ==> s[j] != NUL;
      while buf[k, |line|] != NUL
        invariant |line| <= |s| && line == s[..|line|]
        decreases |s| - |line|
      {
        assert |line| < |s|;
        line := line + [buf[k, |line|]];
      }
    }

    /** Line i of the dump, counted from the oldest. */
    method LineAt(start: nat, i: nat) returns (line: Str)
      requires Valid() && i < count && start == (head + MAX_LINES - count) % MAX_LINES
      ensures line == Cut(history[|history| - count + i])
    {
      ghost var n := |history| - count + i;
      SlotOf(|history|, count, i);
      assert Holds(n % MAX_LINES, Cut(history[n]));
      var idx := (start + i) % MAX_LINES;
      line := ReadLine(idx, Cut(history[n]));
    }

    /** log_dump, between its header and footer. */
    method Dump() returns (out: seq<Str>)
      requires Valid()
      ensures out == Recent(history)
    {
      var start := (head + MAX_LINES - count) % MAX_LINES;
      out := [];
      var i := 0;
      while i < count
        invariant 0 <= i <= count && out == Recent(history)[..i]
      {
        var line := LineAt(start, i);
        RecentUpTo(history, i);
        out := out + [line];
        i := i + 1;
      }
    }
  }
}
