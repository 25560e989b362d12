/** physmem.c: the frame bitmap, one bit for each of the 524288 frames, as a set of taken frames.  The bit
    operations follow the equations of CTypes.LowestBit and CTypes.HigherBit. */
module PhysMem {
  import opened CTypes
  import opened Text

  const PAGE_SIZE: nat := 4096
  const MAX_MEM: nat := 0x8000_0000
  const MAX_FRAMES: nat := 524288
  const MAP_WORDS: nat := 16384

  // ---------------------------------------------------------------- bits

  /** w & (1u << j) is not zero. */
  predicate Bit(w: nat, j: nat) {
    if j == 0 then w % 2 == 1 else Bit(w / 2, j - 1)
  }

  /** w | (1u << j) */
  function WithBit(w: nat, j: nat): nat {
    if j == 0 then w / 2 * 2 + 1 else WithBit(w / 2, j - 1) * 2 + w % 2
  }

  /** w & ~(1u << j) */
  function WithoutBit(w: nat, j: nat): nat {
    if j == 0 then w / 2 * 2 else WithoutBit(w / 2, j - 1) * 2 + w % 2
  }

  function Pow2(j: nat): (r: nat)
    ensures r > 0
  {
    if j == 0 then 1 else 2 * Pow2(j - 1)
  }

  lemma WordSize()
    ensures Pow2(32) == 0x1_0000_0000
  {
    assert Pow2(8) == 0x100;
    assert Pow2(16) == 0x1_0000;
    assert Pow2(24) == 0x100_0000;
  }

  /** The two operations as sums: they add or take away the value of the bit. */
  lemma {:induction false} BitValues(w: nat, j: nat)
    ensures WithBit(w, j) == if Bit(w, j) then w else w + Pow2(j)
    ensures WithoutBit(w, j) == if Bit(w, j) then w - Pow2(j) else w
  {
    if j > 0 {
      BitValues(w / 2, j - 1);
    }
  }

  /** Setting bit j changes bit j alone. */
  lemma {:induction false} BitSet(w: nat, j: nat, k: nat)
    ensures Bit(WithBit(w, j), k) <==> k == j || Bit(w, k)
  {
    if j > 0 && k > 0 {
      BitSet(w / 2, j - 1, k - 1);
    }
  }

  /** Clearing bit j changes bit j alone. */
  lemma {:induction false} BitCleared(w: nat, j: nat, k: nat)
    ensures Bit(WithoutBit(w, j), k) <==> k != j && Bit(w, k)
  {
    if j > 0 && k > 0 {
      BitCleared(w / 2, j - 1, k - 1);
    }
  }

  lemma {:induction false} StaysWord(w: nat, j: nat, n: nat)
    requires w < Pow2(n) && j < n
    ensures WithBit(w, j) < Pow2(n) && WithoutBit(w, j) < Pow2(n)
  {
    if j > 0 {
      StaysWord(w / 2, j - 1, n - 1);
    }
  }

  lemma {:induction false} FullWord(n: nat, j: nat)
    requires j < n
    ensures Bit(Pow2(n) - 1, j) && !Bit(0, j)
  {
    if j > 0 {
      assert (Pow2(n) - 1) / 2 == Pow2(n - 1) - 1;
      FullWord(n - 1, j - 1);
    }
  }

  // ---------------------------------------------------------------- the set

  ghost predicate LeastFree(taken: set<nat>, f: nat) {
    f < MAX_FRAMES && f !in taken && forall g: nat :: g < f ==> g in taken
  }

  /** phys_alloc_frame on the set: the least free frame and its address, or 0 when none is free. */
  ghost predicate Allocs(taken: set<nat>, after: set<nat>, addr: nat) {
    || (exists f: nat :: LeastFree(taken, f) && after == taken + {f} && addr == f * PAGE_SIZE)
    || ((forall f: nat :: f < MAX_FRAMES ==> f in taken) && after == taken && addr == 0)
  }

  /** phys_free_frame on the set. */
  function Freed(taken: set<nat>, addr: nat): set<nat> {
    if addr == 0 then taken else taken - {addr / PAGE_SIZE}
  }

  /** Freeing what was just allocated restores the set. */
  lemma FreeUndoesAlloc(taken: set<nat>, after: set<nat>, addr: nat)
    requires Allocs(taken, after, addr) && addr != 0
    ensures Freed(after, addr) == taken
  {
    var f: nat :| LeastFree(taken, f) && after == taken + {f} && addr == f * PAGE_SIZE;
    assert addr / PAGE_SIZE == f;
  }

  // ---------------------------------------------------------------- callers that free what they hold

  /** A set of frames below n has n members exactly when it has all of them. */
  lemma {:induction false} CountIffAll(s: set<nat>, n: nat)
    requires forall f :: f in s ==> f < n
    ensures |s| <= n && (|s| == n <==> forall f: nat {:trigger f in s} :: f < n ==> f in s)
  {
    if n == 0 {
      assert s == {};
      return;
    }
    var t := s - {n - 1};
    CountIffAll(t, n - 1);
    if n - 1 in s {
      assert s == t + {n - 1};
    } else {
      assert s == t;
    }
  }

  /** Allocation fails exactly when all frames are taken. */
  lemma FailsIffFull(taken: set<nat>, after: set<nat>, addr: nat)
    requires (forall f :: f in taken ==> f < MAX_FRAMES) && 0 in taken && Allocs(taken, after, addr)
    ensures addr == 0 <==> |taken| == MAX_FRAMES
  {
    CountIffAll(taken, MAX_FRAMES);
  }

  /** The taken frames are the kernel's and those whose addresses callers hold. */
  ghost predicate Owned(taken: set<nat>, reserved: nat, held: set<nat>) {
    && 1 <= reserved <= MAX_FRAMES && |taken| == reserved + |held|
    && (forall f :: f in taken ==> f < MAX_FRAMES)
    && (forall f: nat {:trigger f in taken} :: f < MAX_FRAMES ==>
         (f in taken <==> f < reserved || f * PAGE_SIZE in held))
    && (forall a :: a in held ==> a % PAGE_SIZE == 0 && reserved * PAGE_SIZE <= a < MAX_MEM)
  }

  lemma InitOwned(taken: set<nat>, reserved: nat)
    requires 1 <= reserved <= MAX_FRAMES && forall f: nat {:trigger f in taken} :: f in taken <==> f < reserved
    ensures Owned(taken, reserved, {})
  {
    CountIffAll(taken, reserved);
  }

  /** A new address is page aligned, below 2 GB, no kernel frame's, and held by nobody. */
  lemma AllocOwned(taken: set<nat>, reserved: nat, held: set<nat>, after: set<nat>, addr: nat)
    requires Owned(taken, reserved, held) && Allocs(taken, after, addr)
    ensures if addr == 0 then after == taken && |taken| == MAX_FRAMES
            else addr !in held && addr % PAGE_SIZE == 0 && reserved * PAGE_SIZE <= addr < MAX_MEM
                 && Owned(after, reserved, held + {addr})
  {
    FailsIffFull(taken, after, addr);
    if addr != 0 {
      var f: nat :| LeastFree(taken, f) && after == taken + {f} && addr == f * PAGE_SIZE;
    }
  }

  lemma FreeOwned(taken: set<nat>, reserved: nat, held: set<nat>, addr: nat)
    requires Owned(taken, reserved, held) && (addr == 0 || addr in held)
    ensures Owned(Freed(taken, addr), reserved, held - {addr})
    ensures addr == 0 ==> Freed(taken, addr) == taken && held - {addr} == held
  {
    if addr == 0 {
      assert 0 !in held && held - {addr} == held;
      return;
    }
    var f := addr / PAGE_SIZE;
    assert addr == f * PAGE_SIZE && f in taken;
  }

  datatype Call = Got(addr: nat) | Gave(addr: nat)

  /** The calls turn one set of taken frames and held addresses into another; whoever frees, frees
      an address that is held, or 0. */
  ghost predicate Run(taken: set<nat>, held: set<nat>, calls: seq<Call>, taken': set<nat>, held': set<nat>)
    decreases |calls|
  {
    if calls == [] then taken' == taken && held' == held
    else match calls[0]
      case Got(addr) =>
        exists after :: Allocs(taken, after, addr)
                        && Run(after, if addr == 0 then held else held + {addr}, calls[1..], taken', held')
      case Gave(addr) =>
        (addr == 0 || addr in held) && Run(Freed(taken, addr), held - {addr}, calls[1..], taken', held')
  }

  /** Over any run the taken frames are exactly the kernel's and the held ones: nothing is lost,
      nothing is handed out twice. */
  lemma {:induction false} RunOwned(taken: set<nat>, reserved: nat, held: set<nat>, calls: seq<Call>,
                                    taken': set<nat>, held': set<nat>)
    requires Owned(taken, reserved, held) && Run(taken, held, calls, taken', held')
    ensures Owned(taken', reserved, held')
    decreases |calls|
  {
    if calls == [] {
      return;
    }
    match calls[0]
    case Got(addr) =>
      var then' := if addr == 0 then held else held + {addr};
      var after :| Allocs(taken, after, addr) && Run(after, then', calls[1..], taken', held');
      AllocOwned(taken, reserved, held, after, addr);
      RunOwned(after, reserved, then', calls[1..], taken', held');
    case Gave(addr) =>
      FreeOwned(taken, reserved, held, addr);
      RunOwned(Freed(taken, addr), reserved, held - {addr}, calls[1..], taken', held');
  }

  // ---------------------------------------------------------------- the bitmap

  class PhysMem {
    const bitmap: array<Word>

    ghost predicate Valid()
      reads this
    {
      bitmap.Length == MAP_WORDS
    }

    ghost predicate IsTaken(f: nat)
      requires Valid() && f < MAX_FRAMES
      reads this, bitmap
    {
      Bit(bitmap[f / 32], f % 32)
    }

    ghost function Taken(): set<nat>
      requires Valid()
      reads this, bitmap
    {
      set f: nat | f < MAX_FRAMES && IsTaken(f)
    }

    method SetFrame(frame: nat)
      requires Valid() && frame < MAX_FRAMES
      modifies bitmap
      ensures forall f: nat {:trigger IsTaken(f)} :: f < MAX_FRAMES ==> (IsTaken(f) <==> f == frame || old(IsTaken(f)))
    {
      ghost var w := bitmap[frame / 32];
      WordSize();
      StaysWord(w, frame % 32, 32);
      bitmap[frame / 32] := WithBit(bitmap[frame / 32], frame % 32);
      forall f: nat | f < MAX_FRAMES ensures IsTaken(f) <==> f == frame || old(IsTaken(f)) {
        BitSet(w, frame % 32, f % 32);
      }
    }

    method ClearFrame(frame: nat)
      requires Valid() && frame < MAX_FRAMES
      modifies bitmap
      ensures forall f: nat {:trigger IsTaken(f)} :: f < MAX_FRAMES ==> (IsTaken(f) <==> f != frame && old(IsTaken(f)))
    {
      ghost var w := bitmap[frame / 32];
      WordSize();
      StaysWord(w, frame % 32, 32);
      bitmap[frame / 32] := WithoutBit(bitmap[frame / 32], frame % 32);
      forall f: nat | f < MAX_FRAMES ensures IsTaken(f) <==> f != frame && old(IsTaken(f)) {
        BitCleared(w, frame % 32, f % 32);
      }
    }

    method TestFrame(frame: nat) returns (taken: bool)
      requires Valid() && frame < MAX_FRAMES
      ensures taken == IsTaken(frame)
    {
      taken := Bit(bitmap[frame / 32], frame % 32);
    }

    /** first_free_frame: whole words first, then the bits of a word that is not full. */
    method FirstFreeFrame() returns (r: Option<nat>)
      requires Valid()
      ensures match r
              case Some(f) => LeastFree(Taken(), f)
              case None => forall f: nat :: f < MAX_FRAMES ==> f in Taken()
    {
      var i := 0;
      while i < MAX_FRAMES / 32
        invariant 0 <= i <= MAP_WORDS && forall f: nat {:trigger IsTaken(f)} :: f < 32 * i ==> IsTaken(f)
      {
        if bitmap[i] != 0xFFFF_FFFF {
          var j := 0;
          while j < 32
            invariant 0 <= j <= 32 && forall f: nat {:trigger IsTaken(f)} :: f < 32 * i + j ==> IsTaken(f)
          {
            var frame := i * 32 + j;
            var taken := TestFrame(frame);
            if frame < MAX_FRAMES && !taken {
              return Some(frame);
            }
            j := j + 1;
          }
        }
        forall f: nat | f < 32 * (i + 1) ensures IsTaken(f) {
          if f >= 32 * i && bitmap[i] == 0xFFFF_FFFF {
            WordSize();
            FullWord(32, f % 32);
          }
        }
        i := i + 1;
      }
      r := None;
    }

    /** phys_init; kernelEnd is the address of the linker's symbol. */
    constructor (kernelEnd: nat)
      requires kernelEnd <= MAX_MEM
      ensures Valid() && fresh(bitmap)
      ensures forall f: nat {:trigger f in Taken()} :: f in Taken() <==> f < (kernelEnd + PAGE_SIZE - 1) / PAGE_SIZE
    {
      bitmap := new Word[MAP_WORDS];
      new;
      var i := 0;
      while i < MAX_FRAMES / 32
        invariant 0 <= i <= MAP_WORDS && forall k :: 0 <= k < i ==> bitmap[k] == 0
      {
        bitmap[i] := 0;
        i := i + 1;
      }
      forall f: nat | f < MAX_FRAMES ensures !IsTaken(f) {
        WordSize();
        FullWord(32, f % 32);
      }
      var firstFree := (kernelEnd + PAGE_SIZE - 1) / PAGE_SIZE * PAGE_SIZE; // rounded up to a page
      var n := firstFree / PAGE_SIZE;
      i := 0;
      while i < n
        invariant 0 <= i <= n <= MAX_FRAMES && Valid()
        invariant forall f: nat {:trigger IsTaken(f)} :: f < MAX_FRAMES ==> (IsTaken(f) <==> f < i)
      {
        SetFrame(i);
        i := i + 1;
      }
    }

    /** phys_alloc_frame */
    method AllocFrame() returns (addr: nat)
      requires Valid()
      modifies bitmap
      ensures Allocs(old(Taken()), Taken(), addr)
    {
      var frame := FirstFreeFrame();
      match frame
      case None => addr := 0;
      case Some(f) =>
        SetFrame(f);
        assert Taken() == old(Taken()) + {f};
        addr := f * PAGE_SIZE;
    }

    /** phys_free_frame */
    method FreeFrame(addr: nat)
      requires Valid()
      modifies bitmap
      ensures Taken() == Freed(old(Taken()), addr)
    {
      if addr == 0 {
        return;
      }
      var frame := addr / PAGE_SIZE;
      if frame < MAX_FRAMES {
        ClearFrame(frame);
      }
    }
  }
}
