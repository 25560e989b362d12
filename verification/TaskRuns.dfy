/** The cooperative scheduler as a step system over machine states: any interleaving of work by the
    running task, task creation and task_yield. */
module TaskRuns {
  import opened CTypes
  import opened Text
  import opened KernelHeap
  import opened Machine

  const STACK_SIZE: nat := 4096
  const TASK_SIZE: nat := 84   // sizeof(task_t) on i386; the context comes first
  const NEXT_OFFSET: nat := 72 // where the next link lies in a task_t

  /** A task as the run sees it: its task_t and its stack, by address. */
  datatype Task = Task(id: nat, context: nat, stack: nat)

  datatype Sys = Sys(r: Regs, words: View, ring: seq<Task>, cur: Option<nat>, nextId: nat, used: nat)

  ghost function ContextIn(w: View, a: nat): Context {
    seq(16, k requires 0 <= k < 16 => At(w, a + 4 * k))
  }

  function Top(t: Task): nat {
    t.stack + STACK_SIZE
  }

  function NextOf(ring: seq<Task>, i: nat): nat
    requires i < |ring|
  {
    if i + 1 == |ring| then 0 else i + 1
  }

  // ---------------------------------------------------------------- invariant

  /** A task made before nextId, with its two blocks as kmalloc hands them out below `used`. */
  ghost predicate Placed(t: Task, used: nat, nextId: nat) {
    && t.id < nextId
    && KHEAP_START <= t.context && t.context + TASK_SIZE <= KHEAP_START + used
    && KHEAP_START <= t.stack && Top(t) <= KHEAP_START + used
    && Apart(t.context, TASK_SIZE, t.stack, STACK_SIZE)
  }

  ghost predicate Separate(t: Task, u: Task) {
    && Apart(t.context, TASK_SIZE, u.context, TASK_SIZE) && Apart(t.context, TASK_SIZE, u.stack, STACK_SIZE)
    && Apart(t.stack, STACK_SIZE, u.context, TASK_SIZE) && Apart(t.stack, STACK_SIZE, u.stack, STACK_SIZE)
  }

  ghost predicate Follows(t: Task, u: Task) {
    Separate(t, u) && t.id < u.id
  }

  /** The stored stack pointer of a task that is not running lies in its stack. */
  ghost predicate Parked(w: View, t: Task) {
    t.stack + 4 <= At(w, t.context + 28) <= Top(t)
  }

  ghost predicate Inv(s: Sys) {
    && s.used < KHEAP_SIZE && (s.cur.Some? ==> s.cur.value < |s.ring|)
    && (forall i {:trigger Placed(s.ring[i], s.used, s.nextId)} :: 0 <= i < |s.ring| ==>
         Placed(s.ring[i], s.used, s.nextId))
    && (forall i, j {:trigger Follows(s.ring[i], s.ring[j])} :: 0 <= i < j < |s.ring| ==>
         Follows(s.ring[i], s.ring[j]))
    && (forall i {:trigger Parked(s.words, s.ring[i])} :: 0 <= i < |s.ring| && s.cur != Some(i) ==>
         Parked(s.words, s.ring[i]))
  }

  // ---------------------------------------------------------------- steps

  /** What task_create stores: no registers, the entry point, the top of the stack, flags and kernel
      selectors. */
  function NewContext(entry: Word, top: Word): Context {
    [0, 0, 0, 0, 0, 0, top, top, entry, 0x202, 0x08, 0x10, 0x10, 0x10, 0x10, 0x10]
  }

  /** The word at b lies in the block. */
  ghost predicate Inside(b: nat, a: nat, n: nat) {
    a <= b && b + 4 <= a + n
  }

  /** The running task, or the boot code while there is none, may do anything but touch another task's
      task_t or stack; in particular it may allocate from the heap, as file system calls do. */
  ghost predicate Works(s: Sys, t: Sys) {
    && t == s.(r := t.r, words := t.words, used := t.used) && s.used <= t.used < KHEAP_SIZE
    && forall i, b {:trigger s.ring[i], At(t.words, b)} ::
         0 <= i < |s.ring| && Some(i) != s.cur
         && (Inside(b, s.ring[i].context, TASK_SIZE) || Inside(b, s.ring[i].stack, STACK_SIZE))
         ==> At(t.words, b) == At(s.words, b)
  }

  /** task_create: the new task_t is written, and the next link of the task that was last.  When only
      the stack does not fit, the space of the task_t is lost. */
  ghost predicate Creates(s: Sys, entry: Word, t: Sys) {
    var task := Task(s.nextId, KHEAP_START + s.used, KHEAP_START + s.used + TASK_SIZE);
    if !Fits(s.used, TASK_SIZE) then t == s
    else if !Fits(s.used + TASK_SIZE, STACK_SIZE) then t == s.(used := s.used + TASK_SIZE)
    else
      && t == s.(words := t.words, ring := s.ring + [task], nextId := s.nextId + 1,
                     used := s.used + TASK_SIZE + STACK_SIZE)
      && Listed(t.words, task.context, NewContext(entry, Top(task)), 0, 16)
      && if s.ring == [] then OnlyChanged(s.words, t.words, task.context, TASK_SIZE)
         else OnlyChangedIn(s.words, t.words, task.context, TASK_SIZE, s.ring[|s.ring| - 1].context + NEXT_OFFSET, 4)
  }

  /** The call of switch_task in task_yield: both context pointers are on the stack, which has room
      for the frame. */
  ghost predicate Calls(s: Sys, ret: Word)
    requires s.cur.Some? && s.cur.value < |s.ring|
  {
    var me, next := s.ring[s.cur.value], s.ring[NextOf(s.ring, s.cur.value)];
    && me.stack + FRAME_SIZE <= s.r.esp && s.r.esp + 12 <= Top(me)
    && At(s.words, s.r.esp) == ret && At(s.words, s.r.esp + 4) == me.context && At(s.words, s.r.esp + 8) == next.context
  }

  /** task_yield */
  ghost predicate Yields(s: Sys, ret: Word, t: Sys) {
    if s.cur.None? || s.cur.value >= |s.ring| || |s.ring| == 1 then t == s
    else
      var i := s.cur.value;
      var into := ContextIn(s.words, s.ring[NextOf(s.ring, i)].context);
      && Calls(s, ret) && t == s.(r := t.r, words := t.words, cur := Some(NextOf(s.ring, i)))
      && 4 <= into[7] && s.r.esp + 4 < WORDS && Switched(s.r, s.words, ret, s.ring[i].context, into, t.r, t.words)
  }

  /** scheduler_start */
  ghost predicate Starts(s: Sys, t: Sys) {
    && s.cur.None? && s.ring != []
    && t == s.(r := t.r, cur := Some(0))
    && t.r.esp == At(s.words, s.ring[0].context + 28) && t.r.eip == At(s.words, s.ring[0].context + 32)
  }

  datatype Step = Work | Create(entry: Word) | Yield(ret: Word) | Start

  ghost predicate Next(s: Sys, step: Step, t: Sys) {
    match step
    case Work => Works(s, t)
    case Create(entry) => Creates(s, entry, t)
    case Yield(ret) => Yields(s, ret, t)
    case Start => Starts(s, t)
  }

  // ---------------------------------------------------------------- the invariant is kept

  /** No word of task t's context or stack has changed. */
  ghost predicate Untouched(v: View, w: View, t: Task) {
    forall b {:trigger At(w, b)} ::
      Inside(b, t.context, CONTEXT_SIZE) || Inside(b, t.stack, STACK_SIZE) ==> At(w, b) == At(v, b)
  }

  lemma WorkLeaves(s: Sys, t: Sys, i: nat)
    requires Inv(s) && Works(s, t) && i < |s.ring| && s.cur != Some(i)
    ensures Untouched(s.words, t.words, s.ring[i])
  {
  }

  lemma UntouchedParked(v: View, w: View, t: Task)
    requires Parked(v, t) && Untouched(v, w, t)
    ensures Parked(w, t)
  {
  }

  lemma WorkInv(s: Sys, t: Sys)
    requires Inv(s) && Works(s, t)
    ensures Inv(t)
  {
    forall i | 0 <= i < |t.ring| ensures Placed(t.ring[i], t.used, t.nextId) {
      assert Placed(s.ring[i], s.used, s.nextId);
    }
    forall i, j | 0 <= i < j < |t.ring| ensures Follows(t.ring[i], t.ring[j]) {
      assert Follows(s.ring[i], s.ring[j]);
    }
    forall i | 0 <= i < |s.ring| && s.cur != Some(i) ensures Parked(t.words, t.ring[i]) {
      WorkLeaves(s, t, i);
      UntouchedParked(s.words, t.words, s.ring[i]);
    }
  }

  lemma CreateLeaves(s: Sys, entry: Word, t: Sys, i: nat)
    requires Inv(s) && Creates(s, entry, t) && i < |s.ring|
    ensures Untouched(s.words, t.words, s.ring[i]) && t.ring[i] == s.ring[i]
  {
    var last := |s.ring| - 1;
    assert Placed(s.ring[i], s.used, s.nextId) && Placed(s.ring[last], s.used, s.nextId);
    if i < last {
      SeparateBoth(s, i, last);
    }
  }

  lemma NewParked(s: Sys, entry: Word, t: Sys)
    requires Creates(s, entry, t) && t.ring != s.ring
    ensures |t.ring| == |s.ring| + 1 && Parked(t.words, t.ring[|s.ring|])
  {
    var task := t.ring[|s.ring|];
    assert Item(NewContext(entry, Top(task)), 7) == Top(task);
  }

  lemma CreateRing(s: Sys, entry: Word, t: Sys)
    requires Inv(s) && Creates(s, entry, t)
    ensures t.used < KHEAP_SIZE
    ensures forall i {:trigger Placed(t.ring[i], t.used, t.nextId)} :: 0 <= i < |t.ring| ==>
              Placed(t.ring[i], t.used, t.nextId)
    ensures forall i, j {:trigger Follows(t.ring[i], t.ring[j])} :: 0 <= i < j < |t.ring| ==>
              Follows(t.ring[i], t.ring[j])
  {
    forall i | 0 <= i < |t.ring| ensures Placed(t.ring[i], t.used, t.nextId) {
      if i < |s.ring| {
        assert t.ring[i] == s.ring[i] && Placed(s.ring[i], s.used, s.nextId);
      }
    }
    forall i, j | 0 <= i < j < |t.ring| ensures Follows(t.ring[i], t.ring[j]) {
      assert t.ring[i] == s.ring[i] && Placed(s.ring[i], s.used, s.nextId);
      if j < |s.ring| {
        assert t.ring[j] == s.ring[j] && Follows(s.ring[i], s.ring[j]);
      }
    }
  }

  lemma CreateInv(s: Sys, entry: Word, t: Sys)
    requires Inv(s) && Creates(s, entry, t)
    ensures Inv(t)
  {
    CreateRing(s, entry, t);
    forall i | 0 <= i < |t.ring| && t.cur != Some(i) ensures Parked(t.words, t.ring[i]) {
      if i < |s.ring| {
        CreateLeaves(s, entry, t, i);
        UntouchedParked(s.words, t.words, s.ring[i]);
      } else {
        NewParked(s, entry, t);
      }
    }
  }

  // ---------------------------------------------------------------- a switch

  lemma NextIsOther(ring: seq<Task>, i: nat)
    requires i < |ring| && |ring| > 1
    ensures NextOf(ring, i) != i && NextOf(ring, i) < |ring|
  {
  }

  /** The tasks a switch leaves and resumes. */
  ghost predicate Switches(s: Sys, ret: Word, t: Sys, i: nat, k: nat) {
    && Inv(s) && Yields(s, ret, t) && |s.ring| > 1 && s.cur == Some(i) && i < |s.ring| && k == NextOf(s.ring, i)
  }

  lemma SwitchFacts(s: Sys, ret: Word, t: Sys, i: nat, k: nat)
    requires Switches(s, ret, t, i, k)
    ensures i != k && k < |s.ring| && t.cur == Some(k) && t.ring == s.ring
    ensures s.ring[i].stack + FRAME_SIZE <= s.r.esp && s.r.esp + 12 <= Top(s.ring[i]) && At(s.words, s.r.esp) == ret
    ensures var c := ContextIn(s.words, s.ring[k].context);
            && s.ring[k].stack + 4 <= c[7] <= Top(s.ring[k]) && s.r.esp + 4 < WORDS
            && Switched(s.r, s.words, ret, s.ring[i].context, c, t.r, t.words)
  {
    NextIsOther(s.ring, i);
    assert Parked(s.words, s.ring[k]);
  }

  lemma SwitchLeaves(s: Sys, ret: Word, t: Sys, i: nat, k: nat, j: nat)
    requires Switches(s, ret, t, i, k) && j < |s.ring| && j != i && j != k && k < |s.ring|
    ensures Untouched(s.words, t.words, s.ring[j])
  {
    SwitchFacts(s, ret, t, i, k);
    SeparateBoth(s, i, j);
    SeparateBoth(s, k, j);
  }

  lemma SeparateBoth(s: Sys, i: nat, j: nat)
    requires Inv(s) && i < |s.ring| && j < |s.ring| && i != j
    ensures Separate(s.ring[i], s.ring[j])
    ensures Placed(s.ring[i], s.used, s.nextId) && Placed(s.ring[j], s.used, s.nextId)
  {
    if i < j {
      assert Follows(s.ring[i], s.ring[j]);
    } else {
      assert Follows(s.ring[j], s.ring[i]);
    }
  }

  /** The task that is left: its context is stored, its stack from the stack pointer up is untouched. */
  lemma SwitchSaves(s: Sys, ret: Word, t: Sys, i: nat, k: nat)
    requires Switches(s, ret, t, i, k) && s.r.esp + 4 < WORDS
    ensures ContextIn(t.words, s.ring[i].context) == ContextOf(s.r, ret)
    ensures forall b {:trigger At(t.words, b)} :: s.r.esp <= b && b + 4 <= Top(s.ring[i]) ==>
              At(t.words, b) == At(s.words, b)
  {
    SwitchFacts(s, ret, t, i, k);
    SeparateBoth(s, i, k);
    var c := ContextOf(s.r, ret);
    forall j | 0 <= j < 16 ensures At(t.words, s.ring[i].context + 4 * j) == c[j] {
      assert Item(c, j) == c[j];
    }
  }

  /** The task that is resumed: its registers are what its context says, its stack is untouched. */
  lemma SwitchResumes(s: Sys, ret: Word, t: Sys, i: nat, k: nat)
    requires Switches(s, ret, t, i, k) && k < |s.ring|
    ensures KeptOf(t.r) == KeptIn(ContextIn(s.words, s.ring[k].context))
    ensures forall b {:trigger At(t.words, b)} ::
              At(s.words, s.ring[k].context + 28) <= b && b + 4 <= Top(s.ring[k]) ==> At(t.words, b) == At(s.words, b)
  {
    SwitchFacts(s, ret, t, i, k);
    SeparateBoth(s, i, k);
  }

  lemma YieldInv(s: Sys, ret: Word, t: Sys)
    requires Inv(s) && Yields(s, ret, t)
    ensures Inv(t)
  {
    if t != s {
      var i := s.cur.value;
      var k := NextOf(s.ring, i);
      SwitchFacts(s, ret, t, i, k);
      SwitchSaves(s, ret, t, i, k);
      forall j | 0 <= j < |t.ring| && t.cur != Some(j) ensures Parked(t.words, t.ring[j]) {
        if j == i {
          assert ContextIn(t.words, s.ring[i].context)[7] == s.r.esp + 4;
        } else {
          SwitchLeaves(s, ret, t, i, k, j);
          UntouchedParked(s.words, t.words, s.ring[j]);
        }
      }
    }
  }

  lemma NextInv(s: Sys, step: Step, t: Sys)
    requires Inv(s) && Next(s, step, t)
    ensures Inv(t)
  {
    match step
    case Work => WorkInv(s, t);
    case Create(entry) => CreateInv(s, entry, t);
    case Yield(ret) => YieldInv(s, ret, t);
    case Start =>
  }

  // ---------------------------------------------------------------- whole runs: contexts

  /** xs are the states of a run that makes the steps one after the other. */
  ghost predicate Trace(xs: seq<Sys>, steps: seq<Step>) {
    && |xs| == |steps| + 1 && Inv(xs[0])
    && forall k {:trigger steps[k]} :: 0 <= k < |steps| ==> Next(xs[k], steps[k], xs[k + 1])
  }

  lemma {:induction false} TraceInv(xs: seq<Sys>, steps: seq<Step>, m: nat)
    requires Trace(xs, steps) && m < |xs|
    ensures Inv(xs[m])
  {
    if m > 0 {
      TraceInv(xs, steps, m - 1);
      assert Next(xs[m - 1], steps[m - 1], xs[m]);
      NextInv(xs[m - 1], steps[m - 1], xs[m]);
    }
  }

  /** Task j is there but not running. */
  ghost predicate Idle(s: Sys, j: nat) {
    s.cur != Some(j) && j < |s.ring|
  }

  /** Started, with task j there but not running. */
  ghost predicate Waiting(s: Sys, j: nat) {
    s.cur.Some? && Idle(s, j)
  }

  lemma NextLeaves(s: Sys, step: Step, t: Sys, j: nat)
    requires Inv(s) && Next(s, step, t) && Idle(s, j)
    ensures (s.cur.Some? ==> t.cur.Some?) && |t.ring| >= |s.ring| && t.ring[j] == s.ring[j]
    ensures t.cur != Some(j) ==> Untouched(s.words, t.words, s.ring[j])
  {
    match step
    case Work => WorkLeaves(s, t, j);
    case Create(entry) => CreateLeaves(s, entry, t, j);
    case Yield(ret) =>
      if t != s && t.cur != Some(j) {
        NextIsOther(s.ring, s.cur.value);
        SwitchLeaves(s, ret, t, s.cur.value, NextOf(s.ring, s.cur.value), j);
      }
    case Start =>
  }

  lemma {:induction false} AwayLeaves(xs: seq<Sys>, steps: seq<Step>, a: nat, z: nat, j: nat)
    requires Trace(xs, steps) && a <= z < |xs| && Idle(xs[a], j)
    requires forall k :: a <= k <= z ==> xs[k].cur != Some(j)
    ensures Idle(xs[z], j) && (xs[a].cur.Some? ==> xs[z].cur.Some?)
    ensures xs[z].ring[j] == xs[a].ring[j] && Untouched(xs[a].words, xs[z].words, xs[a].ring[j])
    decreases z
  {
    if z > a {
      AwayLeaves(xs, steps, a, z - 1, j);
      TraceInv(xs, steps, z - 1);
      assert Next(xs[z - 1], steps[z - 1], xs[z]);
      NextLeaves(xs[z - 1], steps[z - 1], xs[z], j);
    }
  }

  /** The task that yields in s, with return address ret, and runs again in t finds the registers as
      it left them, the call returned, and its stack as it was. */
  ghost predicate ReturnsTo(s: Sys, ret: Word, t: Sys, j: nat)
    requires j < |s.ring|
  {
    && s.r.esp + 4 < WORDS && At(s.words, s.r.esp) == ret
    && KeptOf(t.r) == KeptOf(s.r).(esp := s.r.esp + 4, eip := ret)
    && forall b {:trigger At(t.words, b)} :: s.r.esp + 4 <= b && b + 4 <= Top(s.ring[j]) ==>
         At(t.words, b) == At(s.words, b)
  }

  lemma KeptInSaved(r: Regs, ret: Word)
    requires r.esp + 4 < WORDS
    ensures KeptIn(ContextOf(r, ret)) == KeptOf(r).(esp := r.esp + 4, eip := ret)
  {
    SelectorKept(r.eflags, r.ds);
    SelectorKept(r.eflags, r.es);
    SelectorKept(r.eflags, r.fs);
    SelectorKept(r.eflags, r.gs);
    SelectorKept(r.eflags, r.ss);
  }

  lemma SelectorKept(v: Word, sel: Half)
    ensures Low(WithLow(v, sel)) == sel
  {
    HighKept(v, sel);
  }

  lemma UntouchedContext(v: View, w: View, t: Task)
    requires Untouched(v, w, t)
    ensures ContextIn(w, t.context) == ContextIn(v, t.context)
  {
  }

  /** Switched out towards s1, untouched until z: the context is as it was stored. */
  lemma ContextWaits(s: Sys, ret: Word, s1: Sys, i: nat, k: nat, w: View)
    requires Switches(s, ret, s1, i, k) && Untouched(s1.words, w, s.ring[i]) && s.r.esp + 4 < WORDS
    ensures ContextIn(w, s.ring[i].context) == ContextOf(s.r, ret)
    ensures At(w, s.ring[i].context + 28) == s.r.esp + 4
  {
    SwitchSaves(s, ret, s1, i, k);
    UntouchedContext(s1.words, w, s.ring[i]);
    assert ContextIn(w, s.ring[i].context)[7] == ContextOf(s.r, ret)[7];
  }

  /** Resuming task i, whose stored context is c. */
  lemma ResumesWith(z: Sys, ret: Word, z1: Sys, i': nat, i: nat, c: Context)
    requires Switches(z, ret, z1, i', i) && i < |z.ring| && ContextIn(z.words, z.ring[i].context) == c
    ensures KeptOf(z1.r) == KeptIn(c)
  {
    SwitchResumes(z, ret, z1, i', i);
  }

  /** The stack, likewise. */
  lemma SwitchBackStack(s: Sys, ret: Word, s1: Sys, i: nat, k: nat, z: Sys, ret': Word, z1: Sys, i': nat, b: nat)
    requires Switches(s, ret, s1, i, k) && Switches(z, ret', z1, i', i) && i < |z.ring| && z.ring[i] == s.ring[i]
    requires Untouched(s1.words, z.words, s.ring[i]) && s.r.esp + 4 < WORDS
    requires At(z.words, s.ring[i].context + 28) == s.r.esp + 4 <= b && b + 4 <= Top(s.ring[i])
    requires s.ring[i].stack <= s.r.esp
    ensures At(z1.words, b) == At(s.words, b)
  {
    SwitchSaves(s, ret, s1, i, k);
    SwitchResumes(z, ret', z1, i', i);
    assert At(s1.words, b) == At(s.words, b);
    assert At(z.words, b) == At(s1.words, b);
  }

  lemma SwitchBackRegs(s: Sys, ret: Word, s1: Sys, i: nat, k: nat, z: Sys, ret': Word, z1: Sys, i': nat, c: Context)
    requires Switches(s, ret, s1, i, k) && Switches(z, ret', z1, i', i) && i < |z.ring| && z.ring[i] == s.ring[i]
    requires Untouched(s1.words, z.words, s.ring[i]) && s.r.esp + 4 < WORDS && c == ContextOf(s.r, ret)
    ensures KeptOf(z1.r) == KeptIn(c) && At(z.words, s.ring[i].context + 28) == s.r.esp + 4
  {
    ContextWaits(s, ret, s1, i, k, z.words);
    ResumesWith(z, ret', z1, i', i, c);
  }

  lemma SwitchBack(s: Sys, ret: Word, s1: Sys, i: nat, k: nat, z: Sys, ret': Word, z1: Sys, i': nat)
    requires Switches(s, ret, s1, i, k) && Switches(z, ret', z1, i', i) && i < |z.ring| && z.ring[i] == s.ring[i]
    requires Untouched(s1.words, z.words, s.ring[i])
    ensures ReturnsTo(s, ret, z1, i)
  {
    SwitchFacts(s, ret, s1, i, k);
    SwitchBackRegs(s, ret, s1, i, k, z, ret', z1, i', ContextOf(s.r, ret));
    KeptInSaved(s.r, ret);
    forall b: nat | s.r.esp + 4 <= b && b + 4 <= Top(s.ring[i]) ensures At(z1.words, b) == At(s.words, b) {
      SwitchBackStack(s, ret, s1, i, k, z, ret', z1, i', b);
    }
  }

  /** Context preservation: whatever runs in between, a task that yields comes back to its registers,
      its point of return and its stack. */
  lemma TaskReturns(xs: seq<Sys>, steps: seq<Step>, a: nat, z: nat, j: nat, ret: Word)
    requires Trace(xs, steps) && a < z < |steps| && j < |xs[a].ring|
    requires xs[a].cur == Some(j) && steps[a] == Yield(ret) && xs[z + 1].cur == Some(j)
    requires forall k :: a < k <= z ==> xs[k].cur != Some(j)
    ensures ReturnsTo(xs[a], ret, xs[z + 1], j)
  {
    TraceInv(xs, steps, a);
    TraceInv(xs, steps, z);
    var s, s1, q, q1 := xs[a], xs[a + 1], xs[z], xs[z + 1];
    assert Next(s, steps[a], s1) && Next(q, steps[z], q1);
    assert s1.cur != Some(j);
    NextIsOther(s.ring, j);
    AwayLeaves(xs, steps, a + 1, z, j);
    var ret' := steps[z].ret;
    NextIsOther(q.ring, q.cur.value);
    SwitchBack(s, ret, s1, j, NextOf(s.ring, j), q, ret', q1, q.cur.value);
  }

  // ---------------------------------------------------------------- whole runs: the first turn

  /** The registers a task begins with when it is switched to for the first time. */
  ghost predicate Fresh(k: Kept, entry: Word, top: nat) {
    && k.eip == entry && k.esp == k.ebp == top && k.ebx == k.esi == k.edi == 0 && k.eflags == 0x202
    && k.ds == k.es == k.fs == k.gs == k.ss == 0x10
  }

  lemma FreshContext(entry: Word, top: Word, c: Context)
    requires c == NewContext(entry, top)
    ensures Fresh(KeptIn(c), entry, top) && c[7] == top && c[8] == entry
  {
  }

  /** A task that is created is last in the list, with the context that task_create stores. */
  lemma CreatedContext(s: Sys, entry: Word, t: Sys)
    requires Inv(s) && Creates(s, entry, t) && |t.ring| > |s.ring|
    ensures |t.ring| == |s.ring| + 1
    ensures Top(t.ring[|s.ring|]) < WORDS
    ensures ContextIn(t.words, t.ring[|s.ring|].context) == NewContext(entry, Top(t.ring[|s.ring|]))
  {
    var task := t.ring[|s.ring|];
    var c := NewContext(entry, Top(task));
    forall k | 0 <= k < 16 ensures At(t.words, task.context + 4 * k) == c[k] {
      assert Item(c, k) == c[k];
    }
  }

  /** How task j begins, whose stored context is c: switched to, or started by scheduler_start. */
  lemma BeginsWith(s: Sys, step: Step, t: Sys, j: nat, c: Context, entry: Word)
    requires Inv(s) && Next(s, step, t) && Idle(s, j) && t.cur == Some(j)
    requires ContextIn(s.words, s.ring[j].context) == c && c[7] == Top(s.ring[j]) && c[8] == entry
    ensures step.Yield? || step.Start?
    ensures step.Yield? ==> KeptOf(t.r) == KeptIn(c)
    ensures step.Start? ==> s.cur == None && j == 0 && t.r.esp == Top(s.ring[j]) && t.r.eip == entry
  {
    if step.Yield? {
      NextIsOther(s.ring, s.cur.value);
      SwitchResumes(s, step.ret, t, s.cur.value, j);
    } else if step.Start? {
      assert At(s.words, s.ring[0].context + 4 * 7) == c[7];
      assert At(s.words, s.ring[0].context + 4 * 8) == c[8];
    }
  }

  /** A new task begins at its entry point on an empty stack, whatever ran since it was created: by a
      switch with clean registers, interrupts on and the kernel's data selectors, or, when it is the
      first task, by scheduler_start, which sets the stack pointer alone. */
  lemma FirstTurn(xs: seq<Sys>, steps: seq<Step>, a: nat, z: nat, entry: Word, j: nat)
    requires Trace(xs, steps) && a < z < |steps| && steps[a] == Create(entry)
    requires j == |xs[a].ring| < |xs[a + 1].ring|
    requires xs[z + 1].cur == Some(j) && forall k :: a < k <= z ==> xs[k].cur != Some(j)
    ensures j < |xs[z + 1].ring| && (steps[z].Yield? || steps[z].Start?)
    ensures var top := xs[z + 1].ring[j].stack + 4096;
            && (steps[z].Yield? ==> Fresh(KeptOf(xs[z + 1].r), entry, top))
            && (steps[z].Start? ==> j == 0 && xs[z + 1].r.esp == top && xs[z + 1].r.eip == entry)
  {
    TraceInv(xs, steps, a);
    TraceInv(xs, steps, z);
    var s1, q, q1 := xs[a + 1], xs[z], xs[z + 1];
    assert Next(xs[a], steps[a], s1) && Next(q, steps[z], q1);
    CreatedContext(xs[a], entry, s1);
    AwayLeaves(xs, steps, a + 1, z, j);
    UntouchedContext(s1.words, q.words, s1.ring[j]);
    var c := NewContext(entry, Top(q.ring[j]));
    FreshContext(entry, Top(q.ring[j]), c);
    BeginsWith(q, steps[z], q1, j, c, entry);
    RingKept(q, steps[z], q1);
  }

  lemma RingKept(s: Sys, step: Step, t: Sys)
    requires Inv(s) && Next(s, step, t) && !step.Create?
    ensures t.ring == s.ring
  {
  }

  // ---------------------------------------------------------------- whole runs: turns

  /** How many yields away task j is from running. */
  function Wait(s: Sys, j: nat): nat
    requires s.cur.Some? && s.cur.value < |s.ring| && j < |s.ring|
  {
    if j >= s.cur.value then j - s.cur.value else j + |s.ring| - s.cur.value
  }

  function YieldCount(steps: seq<Step>): nat {
    if steps == [] then 0 else YieldCount(steps[..|steps| - 1]) + if steps[|steps| - 1].Yield? then 1 else 0
  }

  function CreateCount(steps: seq<Step>): nat {
    if steps == [] then 0 else CreateCount(steps[..|steps| - 1]) + if steps[|steps| - 1].Create? then 1 else 0
  }

  /** A yield brings every waiting task one turn nearer; creating a task puts off, by one turn,
      exactly the tasks before the running one in the list; nothing else moves anyone. */
  lemma NextWait(s: Sys, step: Step, t: Sys, j: nat)
    requires Inv(s) && Next(s, step, t) && Waiting(s, j)
    ensures t.cur.Some? && t.cur.value < |t.ring| && j < |t.ring|
    ensures Wait(t, j) == Wait(s, j) - (if step.Yield? then 1 else 0)
                                     + (if step.Create? && |t.ring| > |s.ring| && j < s.cur.value then 1 else 0)
  {
    NextInv(s, step, t);
  }

  lemma CountStep(steps: seq<Step>, m: nat)
    requires 0 < m <= |steps|
    ensures YieldCount(steps[..m]) == YieldCount(steps[..m - 1]) + (if steps[m - 1].Yield? then 1 else 0)
    ensures CreateCount(steps[..m]) == CreateCount(steps[..m - 1]) + (if steps[m - 1].Create? then 1 else 0)
  {
    assert steps[..m][..m - 1] == steps[..m - 1];
  }

  lemma {:induction false} TraceWait(xs: seq<Sys>, steps: seq<Step>, m: nat, j: nat)
    requires Trace(xs, steps) && m < |xs| && Waiting(xs[0], j)
    requires forall k :: 0 <= k < m ==> xs[k].cur != Some(j)
    ensures xs[m].cur.Some? && xs[m].cur.value < |xs[m].ring| && j < |xs[m].ring|
    ensures Wait(xs[m], j) + YieldCount(steps[..m]) <= Wait(xs[0], j) + CreateCount(steps[..m])
    decreases m
  {
    TraceInv(xs, steps, m);
    if m > 0 {
      TraceWait(xs, steps, m - 1, j);
      TraceInv(xs, steps, m - 1);
      assert Next(xs[m - 1], steps[m - 1], xs[m]);
      NextWait(xs[m - 1], steps[m - 1], xs[m], j);
      CountStep(steps, m);
    }
  }

  /** No starvation: after as many yields as task j was away plus one for every creation since, it
      has had its turn. */
  lemma TurnComes(xs: seq<Sys>, steps: seq<Step>, m: nat, j: nat)
    requires Trace(xs, steps) && m < |xs| && Waiting(xs[0], j)
    requires YieldCount(steps[..m]) >= Wait(xs[0], j) + CreateCount(steps[..m])
    ensures exists k :: 0 < k <= m && xs[k].cur == Some(j)
  {
    if forall k :: 0 < k <= m ==> xs[k].cur != Some(j) {
      TraceWait(xs, steps, m, j);
    }
  }

  /** The bound is met: a task that creates one before each yield keeps those before it waiting. */
  lemma CreatingHoldsUp(s: Sys, entry: Word, t: Sys, ret: Word, u: Sys, j: nat)
    requires Inv(s) && Creates(s, entry, t) && |t.ring| > |s.ring| && Yields(t, ret, u)
    requires Waiting(s, j) && j < s.cur.value
    ensures Waiting(u, j) && Wait(u, j) == Wait(s, j)
  {
    NextWait(s, Create(entry), t, j);
    CreateInv(s, entry, t);
    NextWait(t, Yield(ret), u, j);
    NextLeaves(t, Yield(ret), u, j);
  }

  /** The turn y yields on. */
  function Onward(ring: seq<Task>, i: nat, y: nat): (k: nat)
    requires i < |ring|
    ensures k < |ring|
  {
    if y == 0 then i else NextOf(ring, Onward(ring, i, y - 1))
  }

  lemma {:induction false} OnwardIs(ring: seq<Task>, i: nat, y: nat)
    requires i < |ring| && y <= |ring|
    ensures Onward(ring, i, y) == if i + y < |ring| then i + y else i + y - |ring|
  {
    if y > 0 {
      OnwardIs(ring, i, y - 1);
    }
  }

  lemma NextTurn(s: Sys, step: Step, t: Sys)
    requires Inv(s) && Next(s, step, t) && s.cur.Some? && !step.Create?
    ensures t.ring == s.ring && s.cur.value < |s.ring|
    ensures t.cur == Some(if step.Yield? then NextOf(s.ring, s.cur.value) else s.cur.value)
  {
  }

  lemma TraceTurn(xs: seq<Sys>, steps: seq<Step>, m: nat)
    requires Trace(xs, steps) && 0 < m < |xs| && xs[m - 1].cur.Some? && !steps[m - 1].Create?
    ensures var s := xs[m - 1];
            && xs[m].ring == s.ring && s.cur.value < |s.ring|
            && xs[m].cur == Some(if steps[m - 1].Yield? then NextOf(s.ring, s.cur.value) else s.cur.value)
  {
    TraceInv(xs, steps, m - 1);
    assert Next(xs[m - 1], steps[m - 1], xs[m]);
    NextTurn(xs[m - 1], steps[m - 1], xs[m]);
  }

  /** Between creations the turn goes round the list, one place for every yield. */
  lemma {:induction false} TurnsGoRound(xs: seq<Sys>, steps: seq<Step>, m: nat)
    requires Trace(xs, steps) && m < |xs| && xs[0].cur.Some? && CreateCount(steps[..m]) == 0
    ensures xs[m].ring == xs[0].ring && xs[0].cur.value < |xs[0].ring|
    ensures xs[m].cur == Some(Onward(xs[0].ring, xs[0].cur.value, YieldCount(steps[..m])))
    decreases m
  {
    if m > 0 {
      CountStep(steps, m);
      TurnsGoRound(xs, steps, m - 1);
      TraceTurn(xs, steps, m);
    }
  }

  /** Of n yields in a row each of the n tasks is reached by exactly one, and the last comes back. */
  lemma RoundReachesAll(s: Sys, j: nat)
    requires s.cur.Some? && s.cur.value < |s.ring| && j < |s.ring|
    ensures forall y {:trigger Onward(s.ring, s.cur.value, y)} ::
              0 <= y < |s.ring| ==> (Onward(s.ring, s.cur.value, y) == j <==> y == Wait(s, j))
    ensures Onward(s.ring, s.cur.value, |s.ring|) == s.cur.value
  {
    forall y: nat | y < |s.ring| ensures Onward(s.ring, s.cur.value, y) == j <==> y == Wait(s, j) {
      OnwardIs(s.ring, s.cur.value, y);
    }
    OnwardIs(s.ring, s.cur.value, |s.ring|);
  }
}
