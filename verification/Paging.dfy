/** paging.c: the page directory and its 512 page tables as a flat map from page numbers to entries.

    The walk is the one of "32-Bit Paging" in the Intel 64 and IA-32 Architectures Software
    Developer's Manual, volume 3A, for 4-KByte pages.  Shifts and masks of the source are written as
    divisions and remainders; CTypes.BitForms says that they are the same. */
module Paging {
  import opened CTypes
  import opened Text

  const PAGE: nat := 0x1000
  const TABLES: nat := 512
  const PAGES: nat := 524288

  function PdeIndex(addr: Word): nat {
    addr / 0x40_0000
  }

  function PteIndex(addr: Word): nat {
    addr / 0x1000 % 0x400
  }

  function Floor(addr: nat): nat {
    addr / PAGE * PAGE
  }

  predicate Present(e: Word) {
    e % 2 == 1
  }

  predicate Writable(e: Word) {
    e % 4 >= 2
  }

  predicate User(e: Word) {
    e % 8 >= 4
  }

  /** The same remainders, written from their quotients. */
  lemma Remainders(k: nat, l: nat)
    requires l < 8
    ensures (8 * k + l) % 8 == l && (8 * k + l) % 4 == l % 4 && (8 * k + l) % 2 == l % 2
  {
    RemainderOfFour(2 * k + l / 4, l % 4);
    RemainderOfTwo(4 * k + l / 2, l % 2);
  }

  lemma RemainderOfFour(k: nat, l: nat)
    requires l < 4
    ensures (4 * k + l) % 4 == l
  {
  }

  lemma RemainderOfTwo(k: nat, l: nat)
    requires l < 2
    ensures (2 * k + l) % 2 == l
  {
  }

  /** e | PAGE_USER */
  function WithUser(e: Word): Word {
    if e % 8 >= 4 then e else e / 8 * 8 + e % 8 + 4
  }

  lemma WithUserFlags(e: Word)
    ensures User(WithUser(e)) && Present(WithUser(e)) == Present(e) && Writable(WithUser(e)) == Writable(e)
  {
    Remainders(e / 8, e % 8);
    if e % 8 < 4 {
      Remainders(e / 8, e % 8 + 4);
    }
  }

  /** An entry is its frame and its flags. */
  lemma EntryFloor(f: nat, flags: nat)
    requires flags < PAGE
    ensures Floor(f * PAGE + flags) == f * PAGE
  {
  }

  lemma EntryFlags(f: nat, flags: nat)
    requires flags < PAGE && f * PAGE + flags < WORDS
    ensures var e := f * PAGE + flags;
            Present(e) == Present(flags) && Writable(e) == Writable(flags) && User(e) == User(flags)
  {
    Remainders(f * 512 + flags / 8, flags % 8);
    Remainders(flags / 8, flags % 8);
  }

  lemma LowFlags(flags: Word)
    ensures var low := flags % PAGE;
            Present(low) == Present(flags) && Writable(low) == Writable(flags) && User(low) == User(flags)
  {
    EntryFlags(flags / PAGE, flags % PAGE);
  }

  lemma WithUserFloor(e: Word)
    ensures Floor(WithUser(e)) == Floor(e)
  {
    var f, l := e / PAGE, e % PAGE;
    EntryFloor(f, l);
    if e % 8 < 4 {
      RoomForUser(f, l);
      EntryFloor(f, l + 4);
    }
  }

  lemma RoomForUser(f: nat, l: nat)
    requires l < PAGE && (f * PAGE + l) % 8 < 4
    ensures l + 4 < PAGE
  {
    Remainders(f * 512 + l / 8, l % 8);
  }

  // ---------------------------------------------------------------- the flat map

  type Flat = map<nat, Word>

  ghost predicate Whole(flat: Flat) {
    forall p: nat {:trigger p in flat} :: p in flat <==> p < PAGES
  }

  datatype Access = Access(phys: Word, writable: bool, user: bool)

  /** What a virtual address means: its page's frame and its own offset, or a fault. */
  function Lookup(flat: Flat, va: Word): Option<Access> {
    var p := va / PAGE;
    if p in flat && Present(flat[p])
    then Some(Access(Floor(flat[p]) + va % PAGE, Writable(flat[p]), User(flat[p]))) else None
  }

  function MapIn(flat: Flat, va: Word, pa: Word, flags: Word): Flat {
    if va / PAGE < PAGES then flat[va / PAGE := Floor(pa) + flags % PAGE] else flat
  }

  function UnmapIn(flat: Flat, va: Word): Flat {
    if va / PAGE < PAGES then flat[va / PAGE := 0] else flat
  }

  /** The pages that paging_set_user_for_range marks: those that meet the range, but none at all when
      the end is in the last page of the address space, where rounding it up wraps to 0. */
  predicate InRange(p: nat, start: Word, end: Word) {
    start <= end && end + 0xFFF < WORDS && start / PAGE <= p && p * PAGE < end
  }

  ghost function UserIn(flat: Flat, start: Word, end: Word): Flat {
    map p | p in flat :: if InRange(p, start, end) then WithUser(flat[p]) else flat[p]
  }

  function MarkIn(flat: Flat, p: nat): Flat {
    if p in flat then flat[p := WithUser(flat[p])] else flat
  }

  ghost function MarkedIn(flat: Flat, low: nat, high: nat): Flat {
    map p | p in flat :: if low <= p < high then WithUser(flat[p]) else flat[p]
  }

  lemma MarkedNone(flat: Flat, low: nat)
    ensures MarkedIn(flat, low, low) == flat
  {
  }

  lemma RoundedEnd(start: Word)
    ensures Floor(start) == start / PAGE * PAGE && Floor(start) / PAGE == start / PAGE && Floor(start) < WORDS
  {
  }

  lemma MarkedStep(flat: Flat, low: nat, k: nat)
    requires low <= k
    ensures MarkedIn(flat, low, k + 1) == MarkIn(MarkedIn(flat, low, k), k)
  {
  }

  /** The loop's pages, from the start's page up to k, are those of the range. */
  lemma MarkedIsUser(flat: Flat, start: Word, end: Word, k: nat)
    requires start <= end
    requires var e := Floor((end + 0xFFF) % WORDS);
             k * PAGE >= e && start / PAGE <= k && (k <= e / PAGE || k == start / PAGE)
    ensures MarkedIn(flat, start / PAGE, k) == UserIn(flat, start, end)
  {
    forall p: nat ensures start / PAGE <= p < k <==> InRange(p, start, end) {
      if end + 0xFFF >= WORDS {
        assert Floor((end + 0xFFF) % WORDS) == 0;
      }
    }
  }

  /** A mapping shows at every address of its page and nowhere else; without the present bit the page
      faults. */
  lemma MapLookup(flat: Flat, va: Word, pa: Word, flags: Word, x: Word)
    requires Whole(flat)
    ensures Lookup(MapIn(flat, va, pa, flags), x) ==
            if x / PAGE != va / PAGE || va / PAGE >= PAGES then Lookup(flat, x)
            else if Present(flags) then Some(Access(Floor(pa) + x % PAGE, Writable(flags), User(flags))) else None
  {
    EntryFloor(pa / PAGE, flags % PAGE);
    EntryFlags(pa / PAGE, flags % PAGE);
    LowFlags(flags);
  }

  lemma UnmapLookup(flat: Flat, va: Word, x: Word)
    requires Whole(flat)
    ensures Lookup(UnmapIn(flat, va), x) == if x / PAGE == va / PAGE then None else Lookup(flat, x)
  {
  }

  /** Marking pages changes who may use them, never where they lead. */
  lemma UserLookup(flat: Flat, start: Word, end: Word, x: Word)
    requires Whole(flat)
    ensures var was := Lookup(flat, x);
            Lookup(UserIn(flat, start, end), x) ==
            if was.Some? && InRange(x / PAGE, start, end) then Some(was.value.(user := true)) else was
  {
    var p := x / PAGE;
    if p in flat {
      WithUserFlags(flat[p]);
      WithUserFloor(flat[p]);
    }
  }

  /** Every page that meets a non-empty range is marked exactly when rounding up does not wrap. */
  lemma RangeMarkedIff(start: Word, end: Word)
    requires start < end
    ensures (forall p: nat {:trigger InRange(p, start, end)} ::
               (InRange(p, start, end) <==> p * PAGE < end && start < (p + 1) * PAGE)) <==> end + 0xFFF < WORDS
    ensures end + 0xFFF >= WORDS ==> forall p: nat {:trigger InRange(p, start, end)} :: !InRange(p, start, end)
  {
    if end + 0xFFF >= WORDS {
      assert !InRange(start / PAGE, start, end);
    }
  }

  /** The identity entry of a page, present and writable. */
  function Supervisor(p: nat): Word
    requires p < PAGES
  {
    p * PAGE + 3
  }

  /** What paging_init sets up: the first 2 GB lead to themselves, for everyone. */
  ghost predicate Identity(flat: Flat) {
    Whole(flat) && forall p: nat {:trigger flat[p]} :: p < PAGES ==> flat[p] == p * PAGE + 7
  }

  lemma IdentityForAll(flat: Flat)
    requires Whole(flat) && forall p: nat {:trigger flat[p]} :: p < PAGES ==> flat[p] == Supervisor(p)
    ensures Identity(UserIn(flat, 0, 0x8000_0000))
  {
    forall p: nat | p < PAGES ensures UserIn(flat, 0, 0x8000_0000)[p] == p * PAGE + 7 {
      SupervisorForAll(p);
    }
  }

  lemma SupervisorForAll(p: nat)
    requires p < PAGES
    ensures WithUser(Supervisor(p)) == p * PAGE + 7
  {
    Remainders(p * 512, 3);
  }

  lemma IdentityLookup(flat: Flat, va: Word)
    requires Identity(flat)
    ensures Lookup(flat, va) == if va < 0x8000_0000 then Some(Access(va, true, true)) else None
  {
    var p := va / PAGE;
    if p < PAGES {
      assert flat[p] == p * PAGE + 7;
      EntryFloor(p, 7);
      EntryFlags(p, 7);
    }
  }

  // ---------------------------------------------------------------- the tables

  class Paging {
    const directory: array<Word>
    const tables: array2<Word>
    /** The address of page_tables, which the linker aligns to a page. */
    const base: nat
    ghost var flat: Flat

    ghost predicate Sized()
      reads this
    {
      && directory.Length == 1024 && tables.Length0 == TABLES && tables.Length1 == 1024
      && base % PAGE == 0 && base + TABLES * PAGE <= WORDS
    }

    ghost predicate Agrees()
      requires Sized()
      reads this, tables
    {
      Whole(flat) && forall p: nat {:trigger flat[p]} :: p < PAGES ==> flat[p] == tables[p / 1024, p % 1024]
    }

    ghost predicate Valid()
      reads this, directory, tables
    {
      && Sized() && Agrees()
      && forall t {:trigger directory[t]} :: 0 <= t < 1024 ==>
           directory[t] == if t < TABLES then base + t * PAGE + 7 else 0
    }

    /** The processor's walk: directory, table, page. */
    function Translate(va: Word): Option<Access>
      requires Sized()
      reads this, directory, tables
    {
      var pde := directory[PdeIndex(va)];
      if !Present(pde) || Floor(pde) < base || (Floor(pde) - base) / PAGE >= TABLES then None
      else
        var pte := tables[(Floor(pde) - base) / PAGE, PteIndex(va)];
        if !Present(pte) then None
        else Some(Access(Floor(pte) + va % PAGE, Writable(pde) && Writable(pte), User(pde) && User(pte)))
    }

    lemma DirectoryEntry(t: nat)
      requires Sized() && t < TABLES
      ensures base + t * PAGE + 7 < WORDS
      ensures var e: Word := base + t * PAGE + 7;
              Present(e) && Writable(e) && User(e) && Floor(e) == base + t * PAGE && (Floor(e) - base) / PAGE == t
    {
      var f := base / PAGE + t;
      assert f * PAGE == base + t * PAGE;
      EntryFloor(f, 7);
      EntryFlags(f, 7);
    }

    /** The two-level walk finds what the flat map says. */
    lemma TranslateIsLookup(va: Word)
      requires Valid()
      ensures Translate(va) == Lookup(flat, va)
    {
      var t := PdeIndex(va);
      assert va / PAGE / 1024 == t && va / PAGE % 1024 == PteIndex(va);
      if t < TABLES {
        DirectoryEntry(t);
        assert directory[t] == base + t * PAGE + 7;
        assert flat[va / PAGE] == tables[t, PteIndex(va)];
      } else {
        assert directory[t] == 0;
      }
    }

    /** *pte = e, when there is an entry. */
    method SetEntry(va: Word, e: Word)
      requires Sized() && Agrees() && PdeIndex(va) < TABLES
      modifies tables, this`flat
      ensures Agrees() && flat == old(flat)[va / PAGE := e]
    {
      tables[PdeIndex(va), PteIndex(va)] := e;
      flat := flat[va / PAGE := e];
      assert va / PAGE / 1024 == PdeIndex(va) && va / PAGE % 1024 == PteIndex(va);
    }

    /** The body of the marking loop. */
    method MarkPage(addr: Word)
      requires Sized() && Agrees()
      modifies tables, this`flat
      ensures Agrees() && flat == MarkIn(old(flat), addr / PAGE)
    {
      if PdeIndex(addr) < TABLES {
        assert addr / PAGE / 1024 == PdeIndex(addr) && addr / PAGE % 1024 == PteIndex(addr);
        assert flat[addr / PAGE] == tables[PdeIndex(addr), PteIndex(addr)];
        SetEntry(addr, WithUser(tables[PdeIndex(addr), PteIndex(addr)]));
      }
    }

    /** The loop of paging_set_user_for_range, from page `low` up to page k, which is where it stops. */
    method MarkPages(s: Word, e: Word, ghost low: nat, ghost high: nat) returns (ghost k: nat)
      requires Sized() && Agrees() && s == low * PAGE && e == high * PAGE
      modifies tables, this`flat
      ensures Agrees() && flat == MarkedIn(old(flat), low, k) && k == if high <= low then low else high
    {
      var addr: Word := s;
      k := low;
      MarkedNone(flat, k);
      while addr < e
        invariant addr == k * PAGE && low <= k && (k <= high || k == low)
        invariant Agrees() && flat == MarkedIn(old(flat), low, k)
        decreases e - addr
      {
        MarkPage(addr);
        MarkedStep(old(flat), low, k);
        addr := addr + PAGE;
        k := k + 1;
      }
    }

    /** paging_set_user_for_range */
    method SetUserForRange(start: Word, end: Word)
      requires Sized() && Agrees()
      modifies tables, this`flat
      ensures Agrees() && flat == UserIn(old(flat), start, end)
    {
      if end < start {
        return;
      }
      var s, e := Floor(start), Floor((end + 0xFFF) % WORDS);
      RoundedEnd(start);
      RoundedEnd((end + 0xFFF) % WORDS);
      ghost var k := MarkPages(s, e, start / PAGE, e / PAGE);
      MarkedIsUser(old(flat), start, end, k);
    }

    /** The inner loop of paging_init: the entries of table t, for the addresses from `from` on. */
    method InitTable(t: nat, from: Word) returns (addr: Word)
      requires Sized() && t < TABLES && from == t * 1024 * PAGE
      modifies tables
      ensures addr == (t + 1) * 1024 * PAGE
      ensures forall p: nat {:trigger tables[p / 1024, p % 1024]} :: p < PAGES ==>
                tables[p / 1024, p % 1024] == if p / 1024 == t then Supervisor(p) else old(tables[p / 1024, p % 1024])
    {
      addr := from;
      var i := 0;
      while i < 1024
        invariant 0 <= i <= 1024 && addr == (t * 1024 + i) * PAGE
        invariant forall p: nat {:trigger tables[p / 1024, p % 1024]} :: p < PAGES ==>
                    tables[p / 1024, p % 1024] ==
                    if p / 1024 == t && p % 1024 < i then Supervisor(p) else old(tables[p / 1024, p % 1024])
      {
        tables[t, i] := Floor(addr) + 3;
        addr := addr + PAGE;
        i := i + 1;
      }
    }

    method ClearDirectory(from: nat)
      requires Sized() && from <= 1024
      modifies directory
      ensures forall t {:trigger directory[t]} :: 0 <= t < 1024 ==>
                directory[t] == if t < from then old(directory[t]) else 0
    {
      var t := from;
      while t < 1024
        invariant from <= t <= 1024
        invariant forall u {:trigger directory[u]} :: 0 <= u < 1024 ==>
                    directory[u] == if from <= u < t then 0 else old(directory[u])
      {
        directory[t] := 0;
        t := t + 1;
      }
    }

    /** The outer loop of paging_init. */
    method InitTables()
      requires Sized()
      modifies directory, tables
      ensures forall t {:trigger directory[t]} :: 0 <= t < 1024 ==>
                directory[t] == if t < TABLES then base + t * PAGE + 7 else old(directory[t])
      ensures forall p: nat {:trigger tables[p / 1024, p % 1024]} :: p < PAGES ==>
                tables[p / 1024, p % 1024] == Supervisor(p)
    {
      var addr: Word := 0;
      var t := 0;
      while t < TABLES
        invariant 0 <= t <= TABLES && addr == t * 1024 * PAGE
        invariant forall u {:trigger directory[u]} :: 0 <= u < 1024 ==>
                    directory[u] == if u < t then base + u * PAGE + 7 else old(directory[u])
        invariant forall p: nat {:trigger tables[p / 1024, p % 1024]} :: p < PAGES && p / 1024 < t ==>
                    tables[p / 1024, p % 1024] == Supervisor(p)
      {
        addr := InitTable(t, addr);
        directory[t] := base + t * PAGE + 7;
        t := t + 1;
      }
    }

    /** paging_init */
    method Init()
      requires Sized()
      modifies directory, tables, this`flat
      ensures Valid() && Identity(flat)
    {
      ClearDirectory(0);
      InitTables();
      ClearDirectory(TABLES);
      flat := map p: nat | p < PAGES :: Supervisor(p);
      IdentityForAll(flat);
      SetUserForRange(0, 0x8000_0000);
    }

    /** paging_map */
    method Map(va: Word, pa: Word, flags: Word)
      requires Valid()
      modifies tables, this`flat
      ensures Valid() && flat == MapIn(old(flat), va, pa, flags)
    {
      if PdeIndex(va) < TABLES {
        SetEntry(va, Floor(pa) + flags % PAGE);
      }
    }

    /** paging_unmap */
    method Unmap(va: Word)
      requires Valid()
      modifies tables, this`flat
      ensures Valid() && flat == UnmapIn(old(flat), va)
    {
      if PdeIndex(va) < TABLES {
        SetEntry(va, 0);
      }
    }
  }
}
