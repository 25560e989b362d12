/** task.c: the circular task list as linked objects, refining the step system of TaskRuns. */
module Scheduler {
  import opened CTypes
  import opened Text
  import opened KernelHeap
  import opened Machine
  import Runs = TaskRuns

  class Task {
    const id: nat
    const name: Str
    /** Address of the task_t; its context comes first. */
    const context: nat
    const stack: nat
    var next: Task?

    constructor (id: nat, name: Str, context: nat, stack: nat)
      ensures this.id == id && this.name == name && this.context == context && this.stack == stack && next == null
    {
      this.id, this.name, this.context, this.stack, next := id, name, context, stack, null;
    }
  }

  ghost function Info(t: Task): Runs.Task {
    Runs.Task(t.id, t.context, t.stack)
  }

  ghost function Infos(ring: seq<Task>): (r: seq<Runs.Task>)
    ensures |r| == |ring| && forall i {:trigger r[i]} :: 0 <= i < |ring| ==> r[i] == Info(ring[i])
  {
    seq(|ring|, i requires 0 <= i < |ring| => Info(ring[i]))
  }

  ghost function Succ(ring: seq<Task>, i: nat): Task
    requires i < |ring|
  {
    if i + 1 == |ring| then ring[0] else ring[i + 1]
  }

  ghost predicate Differ(t: Task, u: Task) {
    t != u
  }

  /** The next links go round the ring, which holds no task twice. */
  ghost predicate Circular(ring: seq<Task>)
    reads ring
  {
    && (forall i {:trigger ring[i]} :: 0 <= i < |ring| ==> ring[i].next == Succ(ring, i))
    && (forall i, j {:trigger Differ(ring[i], ring[j])} :: 0 <= i < j < |ring| ==> Differ(ring[i], ring[j]))
  }

  lemma NextDiffers(ring: seq<Task>, i: nat)
    requires Circular(ring) && i < |ring| && |ring| > 1
    ensures ring[i].next != ring[i]
  {
    if i + 1 == |ring| {
      assert Differ(ring[0], ring[i]);
    } else {
      assert Differ(ring[i], ring[i + 1]);
    }
  }

  /** task_append */
  method Append(head: Task?, t: Task, ghost ring: seq<Task>) returns (newHead: Task)
    requires Circular(ring) && t !in ring && head == (if ring == [] then null else ring[0])
    modifies ring, t
    ensures Circular(ring + [t]) && newHead == (ring + [t])[0]
  {
    if head == null {
      t.next := t;
      return t;
    }
    var p, i := head, 0;
    while p.next != head
      invariant 0 <= i < |ring| && p == ring[i]
      decreases |ring| - i
      modifies {}
    {
      p, i := p.next, i + 1;
    }
    assert i + 1 < |ring| ==> Differ(ring[0], ring[i + 1]);
    assert forall k :: 0 <= k < i ==> Differ(ring[k], ring[i]);
    p.next := t;
    t.next := head;
    newHead := head;
    ghost var r := ring + [t];
    forall k | 0 <= k < |r| ensures r[k].next == Succ(r, k) {
    }
  }

  // ---------------------------------------------------------------- a new task's context

  ghost predicate Filled(v: View, w: View, a: nat, c: Context) {
    OnlyChanged(v, w, a, CONTEXT_SIZE) && Listed(w, a, c, 0, 16)
  }

  lemma FilledOne(v: View, w: View, x: View, a: nat, c: Context, k: nat, y: Word)
    requires Filled(v, w, a, c) && k < 16 && OnlyChanged(w, x, a + 4 * k, 4) && At(x, a + 4 * k) == y
    ensures Filled(v, x, a, c[k := y])
  {
    ChangesAdd(v, w, x, a, CONTEXT_SIZE, a + 4 * k, 4);
    forall i | 0 <= i < 16 ensures At(x, a + 4 * i) == Item(c[k := y], i) {
      assert At(w, a + 4 * i) == Item(c, i);
    }
  }

  method SetField(ram: Ram, a: nat, k: nat, y: Word, ghost v: View, ghost c: Context) returns (ghost d: Context)
    requires ram.Valid() && a + CONTEXT_SIZE <= ram.bytes.Length && k < 16 && Filled(v, ram.words, a, c)
    modifies ram, ram.bytes
    ensures ram.Valid() && d == c[k := y] && Filled(v, ram.words, a, d)
  {
    ghost var w := ram.words;
    ram.Store(a + 4 * k, y);
    FilledOne(v, w, ram.words, a, c, k, y);
    d := c[k := y];
  }

  const ZEROS: Context := seq(16, _ => 0)

  method ClearContext(ram: Ram, a: nat)
    requires ram.Valid() && a + CONTEXT_SIZE <= ram.bytes.Length
    modifies ram, ram.bytes
    ensures ram.Valid() && Filled(old(ram.words), ram.words, a, ZEROS)
  {
    ghost var v := ram.words;
    var i := 0;
    while i < 16
      invariant 0 <= i <= 16 && ram.Valid()
      invariant OnlyChanged(v, ram.words, a, CONTEXT_SIZE) && Listed(ram.words, a, ZEROS, 0, i)
    {
      ghost var w := ram.words;
      ram.Store(a + 4 * i, 0);
      assert Item(ZEROS, i) == 0;
      ListedUp(w, ram.words, a, ZEROS, 0, i);
      ChangesAdd(v, w, ram.words, a, CONTEXT_SIZE, a + 4 * i, 4);
      i := i + 1;
    }
  }

  function Selectors(c: Context): Context {
    c[10 := 0x08][11 := 0x10][12 := 0x10][13 := 0x10][14 := 0x10][15 := 0x10]
  }

  method SetSelectors(ram: Ram, a: nat, ghost v: View, ghost c: Context)
    requires ram.Valid() && a + CONTEXT_SIZE <= ram.bytes.Length && Filled(v, ram.words, a, c)
    modifies ram, ram.bytes
    ensures ram.Valid() && Filled(v, ram.words, a, Selectors(c))
  {
    ghost var d := SetField(ram, a, 10, 0x08, v, c);
    d := SetField(ram, a, 11, 0x10, v, d);
    d := SetField(ram, a, 12, 0x10, v, d);
    d := SetField(ram, a, 13, 0x10, v, d);
    d := SetField(ram, a, 14, 0x10, v, d);
    d := SetField(ram, a, 15, 0x10, v, d);
  }

  lemma NewContextIs(entry: Word, top: Word)
    ensures Selectors(ZEROS[8 := entry][7 := top][6 := top][9 := 0x202]) == Runs.NewContext(entry, top)
  {
  }

  /** The assignments of task_create to t->regs. */
  method InitContext(ram: Ram, a: nat, entry: Word, top: Word)
    requires ram.Valid() && a + CONTEXT_SIZE <= ram.bytes.Length
    modifies ram, ram.bytes
    ensures ram.Valid() && Filled(old(ram.words), ram.words, a, Runs.NewContext(entry, top))
  {
    ghost var v := ram.words;
    ClearContext(ram, a);
    ghost var c := SetField(ram, a, 8, entry, v, ZEROS);
    c := SetField(ram, a, 7, top, v, c);
    c := SetField(ram, a, 6, top, v, c);
    c := SetField(ram, a, 9, 0x202, v, c);
    SetSelectors(ram, a, v, c);
    NewContextIs(entry, top);
  }

  // ---------------------------------------------------------------- the scheduler

  class Scheduler {
    const cpu: Cpu
    const heap: Heap
    var head: Task?
    var current: Task?
    var nextId: nat
    /** The list from its head on, and the place of the current task in it. */
    ghost var ring: seq<Task>
    ghost var cur: Option<nat>

    ghost function S(): Runs.Sys
      reads this, cpu, cpu.ram, heap
    {
      Runs.Sys(cpu.R(), cpu.ram.words, Infos(ring), cur, nextId, heap.offset)
    }

    ghost predicate Valid()
      reads this, cpu, cpu.ram, cpu.ram.bytes, heap, ring
    {
      && cpu.ram.Valid() && heap.Valid() && KHEAP_START + KHEAP_SIZE <= cpu.ram.bytes.Length <= WORDS
      && Runs.Inv(S()) && Circular(ring) && head == (if ring == [] then null else ring[0])
      && current == (match cur case None => null case Some(i) => ring[i])
    }

    /** task_init */
    constructor (cpu: Cpu, heap: Heap)
      requires cpu.ram.Valid() && heap.Valid() && KHEAP_START + KHEAP_SIZE <= cpu.ram.bytes.Length <= WORDS
      ensures Valid() && this.cpu == cpu && this.heap == heap && ring == [] && cur == None && nextId == 1
    {
      this.cpu, this.heap := cpu, heap;
      head, current, nextId, ring, cur := null, null, 1, [], None;
    }

    /** The end of task_create: the new task joins the ring. */
    method Join(context: nat, stack: nat, entry: Word, name: Str, ghost s: Runs.Sys) returns (t: Task)
      requires cpu.ram.Valid() && KHEAP_START + KHEAP_SIZE <= cpu.ram.bytes.Length <= WORDS
      requires Circular(ring) && head == (if ring == [] then null else ring[0])
      requires Runs.Inv(s) && s == Runs.Sys(cpu.R(), cpu.ram.words, Infos(ring), cur, nextId, s.used)
      requires Fits(s.used, Runs.TASK_SIZE) && Fits(s.used + Runs.TASK_SIZE, Runs.STACK_SIZE)
      requires context == KHEAP_START + s.used && stack == context + Runs.TASK_SIZE
      requires heap.offset == s.used + Runs.TASK_SIZE + Runs.STACK_SIZE
      modifies this`head, this`nextId, this`ring, cpu.ram, cpu.ram.bytes, ring
      ensures cpu.ram.Valid() && fresh(t) && ring == old(ring) + [t] && Circular(ring) && head == ring[0]
      ensures Runs.Creates(s, entry, S()) && Runs.Inv(S())
    {
      InitContext(cpu.ram, context, entry, stack + Runs.STACK_SIZE);
      ghost var after := s.(words := cpu.ram.words, ring := s.ring + [Runs.Task(s.nextId, context, stack)],
                            nextId := s.nextId + 1, used := heap.offset);
      JoinCreates(s, entry, after, Runs.Task(s.nextId, context, stack));
      t := Enlist(context, stack, name);
      assert S() == after;
    }

    /** The new list element. */
    method Enlist(context: nat, stack: nat, name: Str) returns (t: Task)
      requires Circular(ring) && head == (if ring == [] then null else ring[0])
      modifies this`head, this`nextId, this`ring, ring
      ensures fresh(t) && ring == old(ring) + [t] && Circular(ring) && head == ring[0] && nextId == old(nextId) + 1
      ensures Infos(ring) == old(Infos(ring)) + [Runs.Task(old(nextId), context, stack)]
      ensures Info(t) == Runs.Task(old(nextId), context, stack)
    {
      t := new Task(nextId, name, context, stack);
      nextId := nextId + 1;
      head := Append(head, t, ring);
      ring := ring + [t];
      assert Infos(ring) == old(Infos(ring)) + [Info(t)];
    }

    method TaskCreate(entry: Word, name: Str) returns (t: Task?)
      requires Valid()
      modifies this, heap, cpu.ram, cpu.ram.bytes, ring
      ensures Valid() && Runs.Creates(old(S()), entry, S())
      ensures if t == null then ring == old(ring) else fresh(t) && ring == old(ring) + [t]
    {
      ghost var s := S();
      var context := heap.Kmalloc(Runs.TASK_SIZE);
      if context == 0 {
        return null;
      }
      var stack := heap.Kmalloc(Runs.STACK_SIZE);
      if stack == 0 {
        Runs.CreateInv(s, entry, S());
        return null;
      }
      t := Join(context, stack, entry, name, s);
    }

    /** task_yield, called with the arguments of switch_task on the stack. */
    method TaskYield(ghost ret: Word)
      requires Valid() && (cur.Some? && |ring| > 1 ==> Runs.Calls(S(), ret))
      modifies this`current, this`cur, cpu, cpu.ram, cpu.ram.bytes
      ensures Valid() && Runs.Yields(old(S()), ret, S())
    {
      if cur.Some? && |ring| > 1 {
        NextDiffers(ring, cur.value);
      }
      if current == null || current.next == current {
        return;
      }
      ghost var s, i := S(), cur.value;
      ghost var k := Runs.NextOf(s.ring, i);
      var from, into := current, current.next;
      current := into;
      cur := Some(k);
      Switch(from, into, ret, s, i, k);
    }

    /** The call of switch_task in state s, from task i to task k. */
    method Switch(from: Task, into: Task, ghost ret: Word, ghost s: Runs.Sys, ghost i: nat, ghost k: nat)
      requires cpu.ram.Valid() && KHEAP_START + KHEAP_SIZE <= cpu.ram.bytes.Length <= WORDS
      requires Runs.Inv(s) && s.cur == Some(i) && |s.ring| > 1 && k == Runs.NextOf(s.ring, i) && Runs.Calls(s, ret)
      requires s.r == cpu.R() && s.words == cpu.ram.words
      requires Info(from) == s.ring[i] && k < |s.ring| && Info(into) == s.ring[k]
      modifies cpu, cpu.ram, cpu.ram.bytes
      ensures cpu.ram.Valid()
      ensures var t := s.(r := cpu.R(), words := cpu.ram.words, cur := Some(k)); Runs.Yields(s, ret, t) && Runs.Inv(t)
    {
      YieldIsSwitch(s, ret, i, k, cpu.ram.bytes.Length);
      cpu.SwitchTask(ret, from.context, into.context, Runs.ContextIn(s.words, into.context));
      Runs.YieldInv(s, ret, s.(r := cpu.R(), words := cpu.ram.words, cur := Some(k)));
    }

    /** scheduler_start, called with the arguments of start_task on the stack; no task, no start. */
    method Start() returns (ok: bool)
      requires Valid() && cur == None && cpu.esp + 12 <= cpu.ram.bytes.Length
      requires head != null ==>
                 && At(cpu.ram.words, cpu.esp + 4) == At(cpu.ram.words, head.context + 28)
                 && At(cpu.ram.words, cpu.esp + 8) == At(cpu.ram.words, head.context + 32)
      modifies this`current, this`cur, cpu
      ensures Valid() && ok == (ring != [])
      ensures if ok then Runs.Starts(old(S()), S()) else S() == old(S())
    {
      if head == null {
        return false;
      }
      ghost var s := S();
      current := head;
      cur := Some(0);
      cpu.StartTask();
      ok := true;
      Runs.NextInv(s, Runs.Start, S());
    }
  }

  lemma JoinCreates(s: Runs.Sys, entry: Word, t: Runs.Sys, task: Runs.Task)
    requires Runs.Inv(s) && Fits(s.used, Runs.TASK_SIZE) && Fits(s.used + Runs.TASK_SIZE, Runs.STACK_SIZE)
    requires task == Runs.Task(s.nextId, KHEAP_START + s.used, KHEAP_START + s.used + Runs.TASK_SIZE)
    requires t == s.(words := t.words, ring := s.ring + [task], nextId := s.nextId + 1,
                     used := s.used + Runs.TASK_SIZE + Runs.STACK_SIZE)
    requires Filled(s.words, t.words, task.context, Runs.NewContext(entry, Runs.Top(task)))
    ensures Runs.Creates(s, entry, t) && Runs.Inv(t)
  {
    Runs.CreateInv(s, entry, t);
  }

  lemma YieldIsSwitch(s: Runs.Sys, ret: Word, i: nat, k: nat, size: nat)
    requires Runs.Inv(s) && s.cur == Some(i) && |s.ring| > 1 && k == Runs.NextOf(s.ring, i) && Runs.Calls(s, ret)
    requires KHEAP_START + KHEAP_SIZE <= size <= WORDS
    ensures k < |s.ring| && k != i
    ensures var c := Runs.ContextIn(s.words, s.ring[k].context);
            && s.ring[i].context < WORDS && s.ring[k].context < WORDS && s.r.esp + 4 < WORDS && 4 <= c[7]
            && AtSwitch(s.r, s.words, size, ret, s.ring[i].context, s.ring[k].context, c)
  {
    Runs.NextIsOther(s.ring, i);
    Runs.SeparateBoth(s, i, k);
    assert Runs.Parked(s.words, s.ring[k]);
    var c := Runs.ContextIn(s.words, s.ring[k].context);
    forall j | 0 <= j < 16 ensures At(s.words, s.ring[k].context + 4 * j) == Item(c, j) {
      assert c[j] == At(s.words, s.ring[k].context + 4 * j);
    }
  }
}
