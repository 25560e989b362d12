/** The part of an i386 that switch_task and start_task use: registers, byte-addressed little-endian
    memory, and the two routines, instruction by instruction. */
module Machine {
  import opened CTypes

  type Octet = b: nat | b < 0x100
  type Half = v: nat | v < 0x1_0000

  // ---------------------------------------------------------------- memory

  /** The words of memory by byte address; neighbouring addresses overlap. */
  type View = map<nat, Word>

  function At(w: View, a: nat): Word {
    if a in w then w[a] else 0
  }

  function Join(low: Octet, second: Octet, third: Octet, high: Octet): (r: Word)
    ensures r % 0x1_0000 == low as int + 0x100 * second as int
  {
    low as int + 0x100 * second as int + 0x1_0000 * third as int + 0x100_0000 * high as int
  }

  function WordAt(m: seq<Octet>, a: nat): Word
    requires a + 4 <= |m|
  {
    Join(m[a], m[a + 1], m[a + 2], m[a + 3])
  }

  /** The words that lie wholly in the first n bytes. */
  ghost function ViewOf(m: seq<Octet>, n: nat): View
    requires n <= |m|
  {
    if n < 4 then map[] else ViewOf(m, n - 1)[n - 4 := WordAt(m, n - 4)]
  }

  lemma {:induction false} ViewAt(m: seq<Octet>, n: nat, a: nat)
    requires n <= |m|
    ensures At(ViewOf(m, n), a) == if a + 4 <= n then WordAt(m, a) else 0
    ensures a in ViewOf(m, n) ==> a + 4 <= n
  {
    if n >= 4 {
      ViewAt(m, n - 1, a);
    }
  }

  lemma SplitWord(v: Word)
    ensures v == v % 0x100 + 0x100 * (v / 0x100 % 0x100) + 0x1_0000 * (v / 0x1_0000 % 0x100)
                 + 0x100_0000 * (v / 0x100_0000)
    ensures v / 0x100_0000 < 0x100
  {
    assert v / 0x1_0000 == v / 0x100 / 0x100;
    assert v / 0x100_0000 == v / 0x1_0000 / 0x100;
  }

  ghost predicate Apart(a: nat, n: nat, b: nat, m: nat) {
    a + n <= b || b + m <= a
  }

  /** No word outside [a, a + n) has changed. */
  ghost predicate OnlyChanged(v: View, w: View, a: nat, n: nat) {
    forall b {:trigger At(w, b)} :: Apart(b, 4, a, n) ==> At(w, b) == At(v, b)
  }

  class Ram {
    const bytes: array<Octet>
    ghost var words: View

    ghost predicate Valid()
      reads this, bytes
    {
      words == ViewOf(bytes[..], bytes.Length)
    }

    constructor (size: nat)
      ensures Valid() && fresh(bytes) && bytes.Length == size
    {
      bytes := new Octet[size](_ => 0);
      new;
      words := ViewOf(bytes[..], bytes.Length);
    }

    /** mov to a memory operand */
    method Store(a: nat, v: Word)
      requires Valid() && a + 4 <= bytes.Length
      modifies this, bytes
      ensures Valid() && At(words, a) == v && OnlyChanged(old(words), words, a, 4)
    {
      SplitWord(v);
      ghost var m := bytes[..];
      bytes[a], bytes[a + 1] := v % 0x100, v / 0x100 % 0x100;
      bytes[a + 2], bytes[a + 3] := v / 0x1_0000 % 0x100, v / 0x100_0000;
      words := ViewOf(bytes[..], bytes.Length);
      ViewAt(bytes[..], bytes.Length, a);
      forall b: nat | Apart(b, 4, a, 4) ensures At(words, b) == At(old(words), b) {
        ViewAt(m, bytes.Length, b);
        ViewAt(bytes[..], bytes.Length, b);
      }
    }

    /** mov from a memory operand */
    method Load(a: nat) returns (v: Word)
      requires Valid() && a + 4 <= bytes.Length
      ensures v == At(words, a)
    {
      ViewAt(bytes[..], bytes.Length, a);
      v := Join(bytes[a], bytes[a + 1], bytes[a + 2], bytes[a + 3]);
    }

    /** mov from a memory operand to a 16-bit register */
    method LoadHalf(a: nat) returns (v: Half)
      requires Valid() && a + 4 <= bytes.Length
      ensures v == Low(At(words, a))
    {
      ViewAt(bytes[..], bytes.Length, a);
      v := bytes[a] as int + 0x100 * bytes[a + 1] as int;
    }
  }

  // ---------------------------------------------------------------- lists of words in memory

  function Item(s: seq<Word>, i: nat): Word {
    if i < |s| then s[i] else 0
  }

  /** The words of s from lo to hi lie in a table that starts at a. */
  ghost predicate Listed(w: View, a: nat, s: seq<Word>, lo: nat, hi: nat) {
    forall i {:trigger Item(s, i)} :: lo <= i < hi ==> At(w, a + 4 * i) == Item(s, i)
  }

  lemma ListedStays(v: View, w: View, a: nat, n: nat, b: nat, s: seq<Word>, lo: nat, hi: nat)
    requires Listed(v, b, s, lo, hi) && OnlyChanged(v, w, a, n) && lo <= hi && Apart(a, n, b + 4 * lo, 4 * (hi - lo))
    ensures Listed(w, b, s, lo, hi)
  {
  }

  lemma ListedUp(v: View, w: View, a: nat, s: seq<Word>, lo: nat, hi: nat)
    requires Listed(v, a, s, lo, hi) && OnlyChanged(v, w, a + 4 * hi, 4) && At(w, a + 4 * hi) == Item(s, hi) && lo <= hi
    ensures Listed(w, a, s, lo, hi + 1)
  {
  }

  lemma ListedDown(v: View, w: View, a: nat, s: seq<Word>, lo: nat, hi: nat)
    requires Listed(v, a, s, lo + 1, hi) && OnlyChanged(v, w, a + 4 * lo, 4) && At(w, a + 4 * lo) == Item(s, lo)
    requires lo < hi
    ensures Listed(w, a, s, lo, hi)
  {
  }

  lemma ChangesAdd(u: View, v: View, w: View, a: nat, n: nat, b: nat, m: nat)
    requires OnlyChanged(u, v, a, n) && OnlyChanged(v, w, b, m) && a <= b && b + m <= a + n
    ensures OnlyChanged(u, w, a, n)
  {
  }

  // ---------------------------------------------------------------- registers and contexts

  const CONTEXT_SIZE: nat := 64 // sizeof(cpu_state_t)
  const FRAME_SIZE: nat := 36   // what pushfd and pushad push

  datatype Regs = Regs(
    eax: Word, ebx: Word, ecx: Word, edx: Word, esi: Word, edi: Word, ebp: Word, esp: Word, eip: Word, eflags: Word,
    cs: Half, ds: Half, es: Half, fs: Half, gs: Half, ss: Half)

  /** A cpu_state_t as it lies in memory: sixteen words, the segment selectors in the low halves. */
  type Context = c: seq<Word> | |c| == 16 witness seq(16, _ => 0)

  function Low(v: Word): Half {
    v % 0x1_0000
  }

  function High(v: Word): (r: Word)
    ensures r + Low(v) == v
  {
    v - Low(v)
  }

  /** mov sel, %dx leaves the high half of %edx. */
  lemma HighKept(v: Word, sel: Half)
    ensures High(v) + sel < WORDS && High(High(v) + sel) == High(v) && Low(High(v) + sel) == sel
  {
  }

  function WithLow(v: Word, sel: Half): Word {
    HighKept(v, sel);
    High(v) + sel
  }

  /** The context that switch_task stores for registers r and return address ret.  The high halves of
      the selector words are left over from the flags. */
  function ContextOf(r: Regs, ret: Word): Context
    requires r.esp + 4 < WORDS
  {
    [r.eax, r.ebx, r.ecx, r.edx, r.esi, r.edi, r.ebp, r.esp + 4, ret, r.eflags,
     WithLow(r.eflags, r.cs), WithLow(r.eflags, r.ds), WithLow(r.eflags, r.es),
     WithLow(r.eflags, r.fs), WithLow(r.eflags, r.gs), WithLow(r.eflags, r.ss)]
  }

  /** What a task may rely on across a switch: the callee-saved registers, the stack pointer and the
      point of return, the flags, and the segment registers. */
  datatype Kept = Kept(
    ebx: Word, esi: Word, edi: Word, ebp: Word, esp: Word, eip: Word, eflags: Word,
    ds: Half, es: Half, fs: Half, gs: Half, ss: Half)

  function KeptOf(r: Regs): Kept {
    Kept(r.ebx, r.esi, r.edi, r.ebp, r.esp, r.eip, r.eflags, r.ds, r.es, r.fs, r.gs, r.ss)
  }

  /** The values a context stands for. */
  function KeptIn(c: Context): Kept {
    Kept(c[1], c[4], c[5], c[6], c[7], c[8], c[9], Low(c[11]), Low(c[12]), Low(c[13]), Low(c[14]), Low(c[15]))
  }

  /** The words that pushfd and pushad leave at the new stack pointer, lowest first, then the return
      address and the two arguments of switch_task. */
  function Entered(r: Regs, ret: Word, from: Word, into: Word): (s: seq<Word>)
    requires r.esp >= FRAME_SIZE
    ensures |s| == 12
  {
    [r.edi, r.esi, r.ebp, r.esp - 4, r.ebx, r.edx, r.ecx, r.eax, r.eflags, ret, from, into]
  }

  /** At the entry of switch_task: the return address and the pointers to the old and the new context
      lie at the stack pointer, the new context holds c, and nothing overlaps what is written. */
  ghost predicate AtSwitch(r: Regs, w: View, size: nat, ret: Word, from: Word, into: Word, c: Context) {
    && FRAME_SIZE <= r.esp && r.esp + 12 <= size && from + CONTEXT_SIZE <= size && into + CONTEXT_SIZE <= size <= WORDS
    && At(w, r.esp) == ret && At(w, r.esp + 4) == from && At(w, r.esp + 8) == into && Listed(w, into, c, 0, 16)
    && Apart(r.esp - FRAME_SIZE, 48, from, CONTEXT_SIZE) && Apart(r.esp - FRAME_SIZE, 48, into, CONTEXT_SIZE)
    && Apart(from, CONTEXT_SIZE, into, CONTEXT_SIZE)
    && 4 <= c[7] <= size && Apart(c[7] - 4, 4, from, CONTEXT_SIZE) && Apart(c[7] - 4, 4, into, CONTEXT_SIZE)
  }

  /** What switch_task does: the registers are stored as the old context, those of the new one are
      loaded, and otherwise memory changes only below the two stack pointers. */
  ghost predicate Switched(r: Regs, w: View, ret: Word, from: Word, c: Context, r': Regs, w': View)
    requires FRAME_SIZE <= r.esp && r.esp + 4 < WORDS && 4 <= c[7]
  {
    && KeptOf(r') == KeptIn(c) && Listed(w', from, ContextOf(r, ret), 0, 16)
    && forall b {:trigger At(w', b)} ::
         Apart(b, 4, r.esp - FRAME_SIZE, FRAME_SIZE) && Apart(b, 4, from, CONTEXT_SIZE) && Apart(b, 4, c[7] - 4, 4)
         ==> At(w', b) == At(w, b)
  }

  /** s is what lies at the stack pointer once the frame is pushed. */
  ghost predicate Frame(r: Regs, s: seq<Word>, ret: Word, from: Word, into: Word) {
    && Item(s, 0) == r.edi && Item(s, 1) == r.esi && Item(s, 2) == r.ebp && Item(s, 3) == r.esp - 4
    && Item(s, 4) == r.ebx && Item(s, 5) == r.edx && Item(s, 6) == r.ecx && Item(s, 7) == r.eax
    && Item(s, 8) == r.eflags
    && Item(s, 9) == ret && Item(s, 10) == from && Item(s, 11) == into
  }

  lemma EnteredListed(v: View, w: View, r: Regs, s: seq<Word>, ret: Word, from: Word, into: Word)
    requires FRAME_SIZE <= r.esp && At(v, r.esp) == ret && At(v, r.esp + 4) == from && At(v, r.esp + 8) == into
    requires OnlyChanged(v, w, r.esp - FRAME_SIZE, FRAME_SIZE) && Frame(r, s, ret, from, into)
    requires Listed(w, r.esp - FRAME_SIZE, s, 0, 9)
    ensures Listed(w, r.esp - FRAME_SIZE, s, 0, 12)
  {
    forall i | 0 <= i < 12 ensures At(w, r.esp - FRAME_SIZE + 4 * i) == Item(s, i) {
      if i >= 9 {
        assert i == 9 || i == 10 || i == 11;
      }
    }
  }

  /** Which slot of the frame s, or which register, each word of the old context c comes from. */
  ghost predicate Sources(r: Regs, s: seq<Word>, c: seq<Word>) {
    && r.esp + 4 == Item(c, 7) && |s| == 12
    && Item(s, 7) == Item(c, 0) && Item(s, 4) == Item(c, 1) && Item(s, 6) == Item(c, 2) && Item(s, 5) == Item(c, 3)
    && Item(s, 1) == Item(c, 4) && Item(s, 0) == Item(c, 5) && Item(s, 2) == Item(c, 6)
    && Item(s, 9) == Item(c, 8) && Item(s, 8) == Item(c, 9)
    && Item(c, 10) == High(Item(c, 9)) + r.cs && Item(c, 11) == High(Item(c, 9)) + r.ds
    && Item(c, 12) == High(Item(c, 9)) + r.es && Item(c, 13) == High(Item(c, 9)) + r.fs
    && Item(c, 14) == High(Item(c, 9)) + r.gs && Item(c, 15) == High(Item(c, 9)) + r.ss
  }

  lemma EnteredSources(r: Regs, ret: Word, from: Word, into: Word)
    requires FRAME_SIZE <= r.esp && r.esp + 4 < WORDS
    ensures Sources(r, Entered(r, ret, from, into), ContextOf(r, ret))
    ensures Frame(r, Entered(r, ret, from, into), ret, from, into)
  {
  }

  /** No word outside the two blocks has changed. */
  ghost predicate OnlyChangedIn(v: View, w: View, a: nat, n: nat, b: nat, m: nat) {
    forall x {:trigger At(w, x)} :: Apart(x, 4, a, n) && Apart(x, 4, b, m) ==> At(w, x) == At(v, x)
  }

  lemma SavedFrame(u: View, v: View, w: View, f: nat, s: seq<Word>, from: nat, into: nat, c: Context)
    requires Listed(v, f, s, 0, 12) && Listed(v, into, c, 0, 16) && Item(s, 11) == into
    requires OnlyChanged(u, v, f, FRAME_SIZE) && OnlyChanged(v, w, from, CONTEXT_SIZE)
    requires Apart(f, 48, from, CONTEXT_SIZE) && Apart(into, CONTEXT_SIZE, from, CONTEXT_SIZE)
    ensures Listed(w, into, c, 0, 16) && At(w, f + 44) == into
    ensures OnlyChangedIn(u, w, f, FRAME_SIZE, from, CONTEXT_SIZE)
  {
    ListedStays(v, w, from, CONTEXT_SIZE, into, c, 0, 16);
    ListedStays(v, w, from, CONTEXT_SIZE, f, s, 0, 12);
    assert At(w, f + 4 * 11) == Item(s, 11);
  }

  class Cpu {
    const ram: Ram
    var eax: Word
    var ebx: Word
    var ecx: Word
    var edx: Word
    var esi: Word
    var edi: Word
    var ebp: Word
    var esp: Word
    var eip: Word
    var eflags: Word
    var cs: Half
    var ds: Half
    var es: Half
    var fs: Half
    var gs: Half
    var ss: Half

    constructor (ram: Ram)
      ensures this.ram == ram
    {
      this.ram := ram;
      eax, ebx, ecx, edx, esi, edi, ebp, esp, eip, eflags := 0, 0, 0, 0, 0, 0, 0, 0, 0, 0;
      cs, ds, es, fs, gs, ss := 0, 0, 0, 0, 0, 0;
    }

    function R(): Regs
      reads this
    {
      Regs(eax, ebx, ecx, edx, esi, edi, ebp, esp, eip, eflags, cs, ds, es, fs, gs, ss)
    }

    // ------------------------------------------------------------ pushfd; pushad

    /** The words of s from k on have been pushed, down from memory v. */
    ghost predicate Pushing(v: View, bottom: nat, s: seq<Word>, k: nat)
      reads this`esp, ram
    {
      && esp == bottom + 4 * k && k <= 9
      && OnlyChanged(v, ram.words, bottom, FRAME_SIZE) && Listed(ram.words, bottom, s, k, 9)
    }

    method Push(x: Word, ghost v: View, ghost bottom: nat, ghost s: seq<Word>, ghost k: nat)
      requires ram.Valid() && Pushing(v, bottom, s, k + 1) && x == Item(s, k) && esp <= ram.bytes.Length
      modifies this`esp, ram, ram.bytes
      ensures ram.Valid() && Pushing(v, bottom, s, k)
    {
      esp := esp - 4;
      ghost var w := ram.words;
      ram.Store(esp, x);
      ListedDown(w, ram.words, bottom, s, k, 9);
      ChangesAdd(v, w, ram.words, bottom, FRAME_SIZE, bottom + 4 * k, 4);
    }

    method PushThree(x: Word, y: Word, z: Word, ghost v: View, ghost bottom: nat, ghost s: seq<Word>, ghost k: nat)
      requires ram.Valid() && Pushing(v, bottom, s, k + 3) && esp <= ram.bytes.Length
      requires x == Item(s, k + 2) && y == Item(s, k + 1) && z == Item(s, k)
      modifies this`esp, ram, ram.bytes
      ensures ram.Valid() && Pushing(v, bottom, s, k)
    {
      Push(x, v, bottom, s, k + 2);
      Push(y, v, bottom, s, k + 1);
      Push(z, v, bottom, s, k);
    }

    /** pushfd; pushad */
    method PushFrame(ghost s: seq<Word>)
      requires ram.Valid() && FRAME_SIZE <= esp <= ram.bytes.Length
      requires && Item(s, 0) == edi && Item(s, 1) == esi && Item(s, 2) == ebp && Item(s, 3) == esp - 4
               && Item(s, 4) == ebx && Item(s, 5) == edx && Item(s, 6) == ecx && Item(s, 7) == eax
               && Item(s, 8) == eflags
      modifies this`esp, ram, ram.bytes
      ensures ram.Valid() && Pushing(old(ram.words), old(esp) - FRAME_SIZE, s, 0)
    {
      ghost var v, bottom := ram.words, esp - FRAME_SIZE;
      var top := esp - 4; // what pushad stores as the stack pointer
      PushThree(eflags, eax, ecx, v, bottom, s, 6);
      PushThree(edx, ebx, top, v, bottom, s, 3);
      PushThree(ebp, esi, edi, v, bottom, s, 0);
    }

    // ------------------------------------------------------------ storing the old context

    /** %eax points to the old context, whose first k words are stored; v is the memory before that,
        with s at the stack pointer. */
    ghost predicate Saving(v: View, s: seq<Word>, c: Context, k: nat)
      reads this`esp, this`eax, ram
    {
      && k <= 16 && |s| == 12 && Apart(esp, 48, eax, CONTEXT_SIZE)
      && esp + 48 <= ram.bytes.Length && eax + CONTEXT_SIZE <= ram.bytes.Length
      && Listed(v, esp, s, 0, 12) && OnlyChanged(v, ram.words, eax, CONTEXT_SIZE) && Listed(ram.words, eax, c, 0, k)
    }

    /** mov %edx, 4*k(%eax) */
    method SaveEdx(k: nat, ghost v: View, ghost s: seq<Word>, ghost c: Context)
      requires ram.Valid() && Saving(v, s, c, k) && k < 16 && edx == Item(c, k)
      modifies ram, ram.bytes
      ensures ram.Valid() && Saving(v, s, c, k + 1)
    {
      ghost var w := ram.words;
      ram.Store(eax + 4 * k, edx);
      ListedUp(w, ram.words, eax, c, 0, k);
      ChangesAdd(v, w, ram.words, eax, CONTEXT_SIZE, eax + 4 * k, 4);
    }

    /** mov 4*i(%esp), %edx; mov %edx, 4*k(%eax) */
    method SaveSlot(i: nat, k: nat, ghost v: View, ghost s: seq<Word>, ghost c: Context)
      requires ram.Valid() && Saving(v, s, c, k) && k < 16 && i < 12 && Item(s, i) == Item(c, k)
      modifies this`edx, ram, ram.bytes
      ensures ram.Valid() && Saving(v, s, c, k + 1) && edx == Item(c, k)
    {
      ListedStays(v, ram.words, eax, CONTEXT_SIZE, esp, s, 0, 12);
      edx := ram.Load(esp + 4 * i);
      SaveEdx(k, v, s, c);
    }

    /** mov sel, %dx; mov %edx, 4*k(%eax) */
    method SaveSelector(sel: Half, k: nat, ghost v: View, ghost s: seq<Word>, ghost c: Context, ghost high: nat)
      requires ram.Valid() && Saving(v, s, c, k) && k < 16
      requires High(edx) == high && Item(c, k) == high + sel
      modifies this`edx, ram, ram.bytes
      ensures ram.Valid() && Saving(v, s, c, k + 1) && High(edx) == high
    {
      HighKept(edx, sel);
      edx := High(edx) + sel;
      SaveEdx(k, v, s, c);
    }

    method SaveDataRegisters(ghost v: View, ghost s: seq<Word>, ghost c: Context)
      requires ram.Valid() && Saving(v, s, c, 0)
      requires Item(s, 7) == Item(c, 0) && Item(s, 4) == Item(c, 1) && Item(s, 6) == Item(c, 2)
      requires Item(s, 5) == Item(c, 3)
      modifies this`edx, ram, ram.bytes
      ensures ram.Valid() && Saving(v, s, c, 4)
    {
      SaveSlot(7, 0, v, s, c);
      SaveSlot(4, 1, v, s, c);
      SaveSlot(6, 2, v, s, c);
      SaveSlot(5, 3, v, s, c);
    }

    method SavePointers(ghost v: View, ghost s: seq<Word>, ghost c: Context)
      requires ram.Valid() && Saving(v, s, c, 4) && esp + 40 == Item(c, 7)
      requires Item(s, 1) == Item(c, 4) && Item(s, 0) == Item(c, 5) && Item(s, 2) == Item(c, 6)
      requires Item(s, 9) == Item(c, 8) && Item(s, 8) == Item(c, 9)
      modifies this`edx, ram, ram.bytes
      ensures ram.Valid() && Saving(v, s, c, 10) && edx == Item(c, 9)
    {
      SaveSlot(1, 4, v, s, c);
      SaveSlot(0, 5, v, s, c);
      SaveSlot(2, 6, v, s, c);
      edx := esp + 40; // the stack pointer after the return from switch_task
      SaveEdx(7, v, s, c);
      SaveSlot(9, 8, v, s, c);
      SaveSlot(8, 9, v, s, c);
    }

    method SaveSelectors(ghost v: View, ghost s: seq<Word>, ghost c: Context, ghost high: nat)
      requires ram.Valid() && Saving(v, s, c, 10) && High(edx) == high
      requires && Item(c, 10) == high + cs && Item(c, 11) == high + ds && Item(c, 12) == high + es
               && Item(c, 13) == high + fs && Item(c, 14) == high + gs && Item(c, 15) == high + ss
      modifies this`edx, ram, ram.bytes
      ensures ram.Valid() && Saving(v, s, c, 16)
    {
      SaveSelector(cs, 10, v, s, c, high);
      SaveSelector(ds, 11, v, s, c, high);
      SaveSelector(es, 12, v, s, c, high);
      SaveSelector(fs, 13, v, s, c, high);
      SaveSelector(gs, 14, v, s, c, high);
      SaveSelector(ss, 15, v, s, c, high);
    }

    // ------------------------------------------------------------ loading the new context

    /** mov 4*k(%ecx), reg */
    method Field(k: nat, ghost c: Context) returns (v: Word)
      requires ram.Valid() && ecx + CONTEXT_SIZE <= ram.bytes.Length && Listed(ram.words, ecx, c, 0, 16) && k < 16
      ensures v == c[k]
    {
      assert Item(c, k) == c[k];
      v := ram.Load(ecx + 4 * k);
    }

    /** mov 4*k(%ecx), %dx; mov %dx, sel */
    method Selector(k: nat, ghost c: Context) returns (sel: Half)
      requires ram.Valid() && ecx + CONTEXT_SIZE <= ram.bytes.Length && Listed(ram.words, ecx, c, 0, 16) && k < 16
      modifies this`edx
      ensures sel == Low(c[k])
    {
      assert Item(c, k) == c[k];
      var low := ram.LoadHalf(ecx + 4 * k);
      edx := WithLow(edx, low);
      HighKept(old(edx), low);
      sel := Low(edx);
    }

    method LoadGeneral(ghost c: Context)
      requires ram.Valid() && ecx + CONTEXT_SIZE <= ram.bytes.Length && Listed(ram.words, ecx, c, 0, 16)
      modifies this`eax, this`ebx, this`edx, this`esi, this`edi, this`ebp
      ensures eax == c[0] && ebx == c[1] && esi == c[4] && edi == c[5] && ebp == c[6]
    {
      eax := Field(0, c);
      ebx := Field(1, c);
      edx := Field(2, c);
      edx := Field(3, c);
      esi := Field(4, c);
      edi := Field(5, c);
      ebp := Field(6, c);
    }

    method LoadSelectors(ghost c: Context)
      requires ram.Valid() && ecx + CONTEXT_SIZE <= ram.bytes.Length && Listed(ram.words, ecx, c, 0, 16)
      modifies this`edx, this`ds, this`es, this`fs, this`gs, this`ss
      ensures ds == Low(c[11]) && es == Low(c[12]) && fs == Low(c[13]) && gs == Low(c[14]) && ss == Low(c[15])
    {
      ds := Selector(11, c);
      es := Selector(12, c);
      fs := Selector(13, c);
      gs := Selector(14, c);
      ss := Selector(15, c);
    }

    /** pushl 36(%ecx); popfd; jmp *32(%ecx), on the new stack */
    method Resume(ghost c: Context)
      requires ram.Valid() && ecx + CONTEXT_SIZE <= ram.bytes.Length && Listed(ram.words, ecx, c, 0, 16)
      requires 4 <= c[7] <= ram.bytes.Length && Apart(c[7] - 4, 4, ecx, CONTEXT_SIZE)
      modifies this`esp, this`eip, this`eflags, ram, ram.bytes
      ensures ram.Valid() && OnlyChanged(old(ram.words), ram.words, c[7] - 4, 4)
      ensures esp == c[7] && eip == c[8] && eflags == c[9]
    {
      esp := Field(7, c);
      var flags := Field(9, c);
      ghost var w := ram.words;
      esp := esp - 4;
      ram.Store(esp, flags);
      ListedStays(w, ram.words, esp, 4, ecx, c, 0, 16);
      eflags := ram.Load(esp);
      esp := esp + 4;
      eip := Field(8, c);
    }

    // ------------------------------------------------------------ the two routines

    /** The stores of switch_task. */
    method SaveContext(ghost r: Regs, ghost v: View, ghost s: seq<Word>, ghost c: Context)
      requires ram.Valid() && Saving(v, s, c, 0) && Sources(r, s, c) && esp + FRAME_SIZE == r.esp
      requires cs == r.cs && ds == r.ds && es == r.es && fs == r.fs && gs == r.gs && ss == r.ss
      modifies this`edx, ram, ram.bytes
      ensures ram.Valid() && Saving(v, s, c, 16)
    {
      SaveDataRegisters(v, s, c);
      SavePointers(v, s, c);
      SaveSelectors(v, s, c, High(Item(c, 9)));
    }

    /** switch_task up to the first store. */
    method Enter(ghost ret: Word, ghost from: Word, ghost into: Word, ghost c: Context, ghost s: seq<Word>)
      requires ram.Valid() && AtSwitch(R(), ram.words, ram.bytes.Length, ret, from, into, c)
      requires Frame(R(), s, ret, from, into)
      modifies this`esp, this`eax, ram, ram.bytes
      ensures ram.Valid() && esp == old(esp) - FRAME_SIZE && eax == from
      ensures OnlyChanged(old(ram.words), ram.words, esp, FRAME_SIZE)
      ensures Listed(ram.words, esp, s, 0, 12) && Listed(ram.words, into, c, 0, 16)
    {
      ghost var r, u := R(), ram.words;
      PushFrame(s);
      EnteredListed(u, ram.words, r, s, ret, from, into);
      ListedStays(u, ram.words, esp, FRAME_SIZE, into, c, 0, 16);
      eax := ram.Load(esp + 40);
    }

    /** Everything up to the loads: the old context is complete. */
    method Save(ghost ret: Word, ghost from: Word, ghost into: Word, ghost c: Context,
                ghost s: seq<Word>, ghost saved: Context)
      requires ram.Valid() && AtSwitch(R(), ram.words, ram.bytes.Length, ret, from, into, c)
      requires Frame(R(), s, ret, from, into) && Sources(R(), s, saved)
      modifies this`esp, this`eax, this`edx, ram, ram.bytes
      ensures ram.Valid() && esp == old(esp) - FRAME_SIZE && At(ram.words, esp + 44) == into
      ensures Listed(ram.words, from, saved, 0, 16) && Listed(ram.words, into, c, 0, 16)
      ensures OnlyChangedIn(old(ram.words), ram.words, esp, FRAME_SIZE, from, CONTEXT_SIZE)
    {
      ghost var r, u := R(), ram.words;
      Enter(ret, from, into, c, s);
      SaveBeside(r, u, s, saved, into, c);
    }

    /** The stores leave the frame and the new context alone. */
    method SaveBeside(ghost r: Regs, ghost u: View, ghost s: seq<Word>, ghost saved: Context,
                      ghost into: nat, ghost c: Context)
      requires ram.Valid() && Saving(ram.words, s, saved, 0) && Sources(r, s, saved) && esp + FRAME_SIZE == r.esp
      requires cs == r.cs && ds == r.ds && es == r.es && fs == r.fs && gs == r.gs && ss == r.ss
      requires OnlyChanged(u, ram.words, esp, FRAME_SIZE) && Item(s, 11) == into
      requires Listed(ram.words, into, c, 0, 16) && Apart(into, CONTEXT_SIZE, eax, CONTEXT_SIZE)
      modifies this`edx, ram, ram.bytes
      ensures ram.Valid() && At(ram.words, esp + 44) == into
      ensures Listed(ram.words, eax, saved, 0, 16) && Listed(ram.words, into, c, 0, 16)
      ensures OnlyChangedIn(u, ram.words, esp, FRAME_SIZE, eax, CONTEXT_SIZE)
    {
      ghost var v := ram.words;
      SaveContext(r, v, s, saved);
      SavedFrame(u, v, ram.words, esp, s, eax, into, c);
    }

    /** The loads of switch_task, and the jump. */
    method Load(ghost c: Context)
      requires ram.Valid() && ecx + CONTEXT_SIZE <= ram.bytes.Length && Listed(ram.words, ecx, c, 0, 16)
      requires 4 <= c[7] <= ram.bytes.Length && Apart(c[7] - 4, 4, ecx, CONTEXT_SIZE)
      modifies this, ram, ram.bytes
      ensures ram.Valid() && KeptOf(R()) == KeptIn(c) && OnlyChanged(old(ram.words), ram.words, c[7] - 4, 4)
    {
      LoadGeneral(c);
      LoadSelectors(c);
      Resume(c);
    }

    /** switch_task */
    method SwitchTask(ghost ret: Word, ghost from: Word, ghost into: Word, ghost c: Context)
      requires ram.Valid() && AtSwitch(R(), ram.words, ram.bytes.Length, ret, from, into, c)
      modifies this, ram, ram.bytes
      ensures ram.Valid() && Switched(old(R()), old(ram.words), ret, from, c, R(), ram.words)
    {
      ghost var saved := ContextOf(R(), ret);
      EnteredSources(R(), ret, from, into);
      Save(ret, from, into, c, Entered(R(), ret, from, into), saved);
      ecx := ram.Load(esp + 44);
      ghost var w := ram.words;
      Load(c);
      ListedStays(w, ram.words, c[7] - 4, 4, from, saved, 0, 16);
    }

    /** start_task */
    method StartTask()
      requires ram.Valid() && esp + 12 <= ram.bytes.Length
      modifies this`eax, this`ebx, this`esp, this`eip
      ensures esp == old(At(ram.words, esp + 4)) && eip == old(At(ram.words, esp + 8))
    {
      eax := ram.Load(esp + 4);
      ebx := ram.Load(esp + 8);
      esp := eax;
      eip := ebx;
    }
  }
}
