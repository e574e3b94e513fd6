/** Round-robin scheduling as a machine over its events: ticks, new tasks, exits. */
module Scheduler {
  import opened Seqs
  import opened Bytes

  const MAX_TASKS: nat := 16
  const STACK_SIZE: nat := 8192
  const STACK_OFFSET: nat := 64
  const TASK_SIZE: nat := 8272

  datatype TaskState = READY | RUNNING | TERMINATED

  /** task_t; `next` is the pool index of the successor in the ring, `frame` the words stored at the initial rsp. */
  datatype Task = Task(id: nat, rsp: nat, state: TaskState, entry: nat, isUser: bool, userStack: nat,
                       userStackSize: nat, frame: seq<nat>, next: nat)

  /** The pool, and the ring of its tasks in order, the current one first. */
  datatype Machine = Machine(pool: nat, tasks: seq<Task>, order: seq<nat>, nextPid: nat, ticks: nat, rsp0: nat)

  datatype Event = Tick(rsp: nat) | Spawn(task: Task) | Exit

  /** &task_pool[i].stack[TASK_STACK_SIZE]. */
  function StackTop(pool: nat, i: nat): nat {
    pool + TASK_SIZE * i + STACK_OFFSET + STACK_SIZE
  }

  /** The n bytes from addr on lie in the stack of pool slot i. */
  predicate InStack(pool: nat, i: nat, addr: int, n: nat) {
    pool + TASK_SIZE * i + STACK_OFFSET <= addr && addr + n <= pool + TASK_SIZE * i + STACK_OFFSET + STACK_SIZE
  }

  /** Stacks lie in their own slots, and no byte is in two of them. */
  lemma StacksApart(pool: nat, i: nat, j: nat, addr: int, n: nat)
    requires InStack(pool, i, addr, n)
    ensures pool + TASK_SIZE * i <= addr && addr + n <= pool + TASK_SIZE * (i + 1)
    ensures i != j && n > 0 ==> forall b :: addr <= b < addr + n ==> !InStack(pool, j, b, 1)
  {
    if i < j {
      assert TASK_SIZE * (i + 1) <= TASK_SIZE * j;
    } else if j < i {
      assert TASK_SIZE * (j + 1) <= TASK_SIZE * i;
    }
  }

  /** The top ends the slot's own stack: all STACK_SIZE bytes below it are the slot's, and the byte at it is nobody's. */
  lemma TopEndsStack(pool: nat, i: nat, j: nat)
    ensures InStack(pool, i, StackTop(pool, i) - STACK_SIZE, STACK_SIZE) && !InStack(pool, j, StackTop(pool, i), 1)
  {
    if i < j {
      assert TASK_SIZE * (i + 1) <= TASK_SIZE * j;
    } else if j < i {
      assert TASK_SIZE * (j + 1) <= TASK_SIZE * i;
    }
  }

  /** The address ends the stack of slot i, and nobody's stack goes on there. */
  ghost predicate EndsStack(pool: nat, i: nat, addr: nat) {
    InStack(pool, i, addr - STACK_SIZE, STACK_SIZE) && forall j: nat :: !InStack(pool, j, addr, 1)
  }

  lemma TopEnds(pool: nat, i: nat)
    ensures EndsStack(pool, i, StackTop(pool, i))
  {
    hide InStack, StackTop;
    TopEndsStack(pool, i, i);
    forall j: nat ensures !InStack(pool, j, StackTop(pool, i), 1) {
      TopEndsStack(pool, i, j);
    }
  }

  /** The ring holds the first slots of the pool, each once; only its head may be running, and the head is not waiting. */
  ghost predicate Ok(m: Machine) {
    && |m.tasks| == MAX_TASKS && 1 <= |m.order| <= MAX_TASKS && NoDup(m.order)
    && (forall k :: 0 <= k < |m.order| ==> m.order[k] < |m.order|)
    && m.tasks[m.order[0]].state != READY
    && (forall k :: 1 <= k < |m.order| ==> m.tasks[m.order[k]].state != RUNNING)
  }

  // ---- One event ----

  /** Position j of the ring, the current task again behind all others. */
  function At(order: seq<nat>, j: nat): nat
    requires |order| > 0 && j <= |order|
  {
    if j < |order| then order[j] else order[0]
  }

  /** The first position from j on whose task is ready; behind the end if there is none. */
  function FirstReady(tasks: seq<Task>, order: seq<nat>, j: nat): (r: nat)
    requires |order| > 0 && j <= |order| + 1 && forall k :: 0 <= k < |order| ==> order[k] < |tasks|
    ensures j <= r <= |order| + 1
    ensures r <= |order| ==> tasks[At(order, r)].state == READY
    ensures forall i :: j <= i < r && i <= |order| ==> tasks[At(order, i)].state != READY
    decreases |order| + 1 - j
  {
    if j > |order| then j
    else if tasks[At(order, j)].state == READY then j
    else FirstReady(tasks, order, j + 1)
  }

  /** The current task steps down: its context is stored, and it waits unless it has terminated. */
  function Paused(t: Task, rsp: nat): Task {
    t.(rsp := rsp, state := if t.state == RUNNING then READY else t.state)
  }

  function Rotate(order: seq<nat>, j: nat): (r: seq<nat>)
    requires 0 < j <= |order|
    ensures |r| == |order|
  {
    order[j..] + order[..j]
  }

  /** task_schedule: the state after a tick, and the stack pointer it returns. */
  function TickTo(m: Machine, rsp: nat): (r: (Machine, nat))
    requires |m.order| > 0 && forall k :: 0 <= k < |m.order| ==> m.order[k] < |m.tasks|
  {
    var m1 := m.(ticks := (m.ticks + 1) % TWO_32);
    if |m.order| <= 1 then (m1, rsp)
    else
      var paused := m.tasks[m.order[0] := Paused(m.tasks[m.order[0]], rsp)];
      var j := FirstReady(paused, m.order, 1);
      if j > |m.order| then
        if paused[m.order[0]].state == TERMINATED then (m1.(tasks := paused), rsp)
        else
          (m1.(tasks := paused[m.order[0] := paused[m.order[0]].(state := RUNNING)], rsp0 := StackTop(m.pool, m.order[0])),
           paused[m.order[0]].rsp)
      else
        var next := At(m.order, j);
        (m1.(tasks := paused[next := paused[next].(state := RUNNING)], order := Rotate(m.order, j),
             rsp0 := StackTop(m.pool, next)),
         paused[next].rsp)
  }

  /** A task with its frame ready enters the ring behind all others; `task` says what the new slot holds. */
  function SpawnTo(m: Machine, task: Task): Machine
    requires |m.order| <= |m.tasks|
  {
    if task.entry == 0 || |m.order| >= MAX_TASKS || |m.order| >= |m.tasks| then m
    else
      m.(tasks := m.tasks[|m.order| := task.(id := m.nextPid, state := READY)],
         order := m.order + [|m.order|], nextPid := (m.nextPid + 1) % TWO_32)
  }

  function ExitTo(m: Machine): Machine
    requires |m.order| > 0 && m.order[0] < |m.tasks|
  {
    m.(tasks := m.tasks[m.order[0] := m.tasks[m.order[0]].(state := TERMINATED)])
  }

  function Step(m: Machine, e: Event): Machine
    requires |m.tasks| == MAX_TASKS && 1 <= |m.order| <= MAX_TASKS
    requires forall k :: 0 <= k < |m.order| ==> m.order[k] < |m.tasks|
  {
    match e
    case Tick(rsp) => TickTo(m, rsp).0
    case Spawn(task) => SpawnTo(m, task)
    case Exit => ExitTo(m)
  }

  /** A rotation holds the same tasks in the same cyclic order. */
  lemma RotateAt(order: seq<nat>, j: nat, k: nat)
    requires 0 < j <= |order| && k < |order|
    ensures Rotate(order, j)[k] == if j + k < |order| then order[j + k] else order[j + k - |order|]
  {
  }

  lemma RotateOk(m: Machine, j: nat)
    requires Ok(m) && 0 < j <= |m.order|
    ensures NoDup(Rotate(m.order, j)) && Rotate(m.order, j)[0] == At(m.order, j)
    ensures forall k :: 0 <= k < |m.order| ==> Rotate(m.order, j)[k] < |m.order|
  {
    var r := Rotate(m.order, j);
    forall a, b | 0 <= a < b < |r| ensures r[a] != r[b] {
      RotateAt(m.order, j, a);
      RotateAt(m.order, j, b);
    }
    RotateAt(m.order, j, 0);
  }

  /** Every event keeps the ring: one cycle through all tasks, nobody running but the current one. */
  lemma StepOk(m: Machine, e: Event)
    requires Ok(m)
    ensures Ok(Step(m, e))
  {
    match e
    case Tick(rsp) => TickOk(m, rsp);
    case Spawn(task) => SpawnOk(m, task);
    case Exit =>
      assert forall k :: 1 <= k < |m.order| ==> m.order[k] != m.order[0];
  }

  lemma SpawnOk(m: Machine, task: Task)
    requires Ok(m)
    ensures Ok(SpawnTo(m, task))
  {
    var m' := SpawnTo(m, task);
    if m' != m {
      var n := |m.order|;
      forall k | 0 <= k < |m'.order| ensures m'.order[k] < |m'.order| {
      }
      forall k | 0 <= k < n ensures m'.tasks[m'.order[k]] == m.tasks[m.order[k]] {
        assert m'.order[k] == m.order[k] < n;
      }
    }
  }

  lemma TickOk(m: Machine, rsp: nat)
    requires Ok(m)
    ensures Ok(TickTo(m, rsp).0)
  {
    hide FirstReady, Rotate;
    if |m.order| > 1 {
      var paused := m.tasks[m.order[0] := Paused(m.tasks[m.order[0]], rsp)];
      var j := FirstReady(paused, m.order, 1);
      if j <= |m.order| {
        RotateOk(m, j);
        var r, next := Rotate(m.order, j), At(m.order, j);
        forall k | 1 <= k < |r| ensures r[k] != next && paused[r[k]].state != RUNNING {
          RotateAt(m.order, j, k);
        }
      }
    }
  }

  // ---- Runs ----

  function After(m: Machine, events: seq<Event>): (r: Machine)
    requires Ok(m)
    ensures Ok(r)
    decreases |events|
  {
    if events == [] then m
    else
      var before := After(m, events[..|events| - 1]);
      StepOk(before, events[|events| - 1]);
      Step(before, events[|events| - 1])
  }

  lemma {:induction false} AfterCons(m: Machine, e: Event, rest: seq<Event>)
    requires Ok(m)
    ensures Ok(Step(m, e)) && After(m, [e] + rest) == After(Step(m, e), rest)
    decreases |rest|
  {
    hide Step, Ok;
    StepOk(m, e);
    var events := [e] + rest;
    if rest == [] {
      assert events[..|events| - 1] == [];
    } else {
      assert events[..|events| - 1] == [e] + rest[..|rest| - 1];
      AfterCons(m, e, rest[..|rest| - 1]);
    }
  }

  lemma {:induction false} AfterConcat(m: Machine, a: seq<Event>, b: seq<Event>)
    requires Ok(m)
    ensures After(m, a + b) == After(After(m, a), b)
    decreases |b|
  {
    hide Step, Ok;
    if b == [] {
      assert a + b == a;
    } else {
      assert (a + b)[..|a + b| - 1] == a + b[..|b| - 1];
      AfterConcat(m, a, b[..|b| - 1]);
    }
  }

  function Ticks(events: seq<Event>): nat {
    if events == [] then 0 else (if events[0].Tick? then 1 else 0) + Ticks(events[1..])
  }

  /** Task t is ready, d places behind the current one. */
  ghost predicate WaitsAt(m: Machine, t: nat, d: nat) {
    Ok(m) && 0 < d < |m.order| && m.order[d] == t && m.tasks[t].state == READY
  }

  ghost predicate Runs(m: Machine, t: nat) {
    Ok(m) && m.order[0] == t && m.tasks[t].state == RUNNING
  }

  /** A tick brings a waiting task nearer, or runs it. */
  lemma TickNearer(m: Machine, t: nat, d: nat, rsp: nat) returns (d': nat)
    requires WaitsAt(m, t, d)
    ensures d' < d
    ensures if d' == 0 then Runs(TickTo(m, rsp).0, t) && TickTo(m, rsp).1 == m.tasks[t].rsp
            else WaitsAt(TickTo(m, rsp).0, t, d') && TickTo(m, rsp).0.tasks[t].rsp == m.tasks[t].rsp
  {
    hide FirstReady, Rotate;
    TickOk(m, rsp);
    var paused := m.tasks[m.order[0] := Paused(m.tasks[m.order[0]], rsp)];
    var j := FirstReady(paused, m.order, 1);
    assert paused[At(m.order, d)].state == READY;
    RotateOk(m, j);
    RotateAt(m.order, j, d - j);
    d' := d - j;
  }

  /** New tasks go to the end of the ring, and only the current task can exit: nobody is pushed back. */
  lemma OthersDoNotMove(m: Machine, t: nat, d: nat, e: Event)
    requires WaitsAt(m, t, d) && !e.Tick?
    ensures WaitsAt(Step(m, e), t, d) && Step(m, e).tasks[t].rsp == m.tasks[t].rsp
  {
    StepOk(m, e);
    assert m.order[0] != t;
  }

  /** The last of the events is a tick that hands back the stack pointer rsp. */
  ghost predicate Returns(m: Machine, events: seq<Event>, rsp: nat) {
    && Ok(m) && events != [] && events[|events| - 1].Tick?
    && TickTo(After(m, events[..|events| - 1]), events[|events| - 1].rsp).1 == rsp
  }

  lemma ReturnsCons(m: Machine, e: Event, rest: seq<Event>, rsp: nat)
    requires Ok(m) && Ok(Step(m, e)) && Returns(Step(m, e), rest, rsp)
    ensures Returns(m, [e] + rest, rsp)
  {
    hide Ok, Step, TickTo, After;
    var events := [e] + rest;
    assert events[..|events| - 1] == [e] + rest[..|rest| - 1];
    AfterCons(m, e, rest[..|rest| - 1]);
  }

  lemma ReturnsOne(m: Machine, e: Event, rsp: nat)
    requires Ok(m) && e.Tick? && TickTo(m, e.rsp).1 == rsp
    ensures Returns(m, [e], rsp)
  {
    hide Ok, TickTo;
    assert [e][..0] == [];
  }

  /**
   * Bounded waiting: a ready task d places behind the current one runs after at most d more ticks, from
   * the stack pointer stored for it, whatever tasks are created or exit meanwhile. k is the number of
   * events until then.
   */
  lemma {:induction false} BoundedWaiting(m: Machine, events: seq<Event>, t: nat, d: nat) returns (k: nat)
    requires WaitsAt(m, t, d) && Ticks(events) >= d
    ensures k <= |events| && Ticks(events[..k]) <= d && Runs(After(m, events[..k]), t)
    ensures t < |m.tasks| && Returns(m, events[..k], m.tasks[t].rsp)
    decreases |events|
  {
    hide Ok, Step, TickTo, Runs, WaitsAt, Returns;
    WaitsOk(m, t, d);
    var e, rest := events[0], events[1..];
    var m' := Step(m, e);
    StepOk(m, e);
    if e.Tick? {
      var d' := TickNearer(m, t, d, e.rsp);
      StepTick(m, e);
      if d' == 0 {
        k := 1;
        assert events[..1] == [e] + [] == [e];
        assert [e][1..] == [];
        AfterCons(m, e, []);
        ReturnsOne(m, e, m.tasks[t].rsp);
        return;
      }
      k := BoundedWaiting(m', rest, t, d');
    } else {
      OthersDoNotMove(m, t, d, e);
      k := BoundedWaiting(m', rest, t, d);
    }
    assert events[..k + 1] == [e] + rest[..k];
    AfterCons(m, e, rest[..k]);
    ReturnsCons(m, e, rest[..k], m.tasks[t].rsp);
    k := k + 1;
  }

  lemma WaitsOk(m: Machine, t: nat, d: nat)
    requires WaitsAt(m, t, d)
    ensures Ok(m) && d > 0 && |m.tasks| == MAX_TASKS && 1 <= |m.order| <= MAX_TASKS
    ensures t < |m.tasks| && forall k :: 0 <= k < |m.order| ==> m.order[k] < |m.tasks|
  {
  }

  lemma StepTick(m: Machine, e: Event)
    requires Ok(m) && e.Tick?
    ensures Step(m, e) == TickTo(m, e.rsp).0
  {
  }

  /** One event never brings a terminated task back. */
  lemma StaysTerminated(m: Machine, e: Event, t: nat)
    requires Ok(m) && t < |m.order| && m.tasks[t].state == TERMINATED
    ensures var m' := Step(m, e);
            && t < |m'.order| && |m'.tasks| == MAX_TASKS && m'.tasks[t].state == TERMINATED
            && (m.order[0] != t ==> |m'.order| > 0 && m'.order[0] != t)
  {
    hide FirstReady, Rotate;
    if e.Tick? && |m.order| > 1 {
      var paused := m.tasks[m.order[0] := Paused(m.tasks[m.order[0]], e.rsp)];
      var j := FirstReady(paused, m.order, 1);
      if j <= |m.order| {
        RotateOk(m, j);
      }
    }
  }

  /** A terminated task is never dispatched again: it stays terminated, and once it is not current it never is again. */
  lemma {:induction false} TerminatedForever(m: Machine, events: seq<Event>, t: nat)
    requires Ok(m) && t < |m.order| && m.tasks[t].state == TERMINATED
    ensures var m' := After(m, events);
            && t < |m'.order| && |m'.tasks| == MAX_TASKS && m'.tasks[t].state == TERMINATED
            && (m.order[0] != t ==> m'.order[0] != t)
    decreases |events|
  {
    hide Step;
    if events != [] {
      var init := events[..|events| - 1];
      TerminatedForever(m, init, t);
      StaysTerminated(After(m, init), events[|events| - 1], t);
    }
  }

  /** Nothing but its own exit terminates a task: a switched-out task that was running is ready again. */
  lemma OnlyExitTerminates(m: Machine, e: Event, t: nat)
    requires Ok(m) && t < |m.order| && m.tasks[t].state != TERMINATED
    requires !(e.Exit? && t == m.order[0])
    ensures Ok(Step(m, e)) && t < |Step(m, e).tasks| && Step(m, e).tasks[t].state != TERMINATED
  {
    hide FirstReady, Rotate;
    StepOk(m, e);
  }

  /** task_exit_current: the current task is terminated, through whatever follows, and once it has given way it never runs again. */
  lemma ExitIsFinal(m: Machine, events: seq<Event>, k: nat)
    requires Ok(m) && k <= |events|
    ensures m.order[0] < |After(m, [Exit] + events).tasks|
    ensures After(m, [Exit] + events).tasks[m.order[0]].state == TERMINATED
    ensures After(m, [Exit] + events[..k]).order[0] != m.order[0] ==> After(m, [Exit] + events).order[0] != m.order[0]
  {
    hide After, TickTo, SpawnTo;
    var t, m1 := m.order[0], Step(m, Exit);
    AfterCons(m, Exit, events);
    AfterCons(m, Exit, events[..k]);
    ExitStep(m);
    TerminatedForever(m1, events, t);
    TerminatedForever(m1, events[..k], t);
    assert events == events[..k] + events[k..];
    AfterConcat(m1, events[..k], events[k..]);
    TerminatedForever(After(m1, events[..k]), events[k..], t);
  }

  lemma ExitStep(m: Machine)
    requires Ok(m)
    ensures Ok(Step(m, Exit)) && m.order[0] < |Step(m, Exit).order| && m.order[0] < |Step(m, Exit).tasks|
    ensures Step(m, Exit).tasks[m.order[0]].state == TERMINATED
  {
    StepOk(m, Exit);
  }

  /** If any task is ready, the first tick behind an exit makes the exited task give way. */
  lemma ExitGivesWay(m: Machine, u: nat, d: nat, rsp: nat)
    requires WaitsAt(m, u, d)
    ensures After(m, [Exit, Tick(rsp)]).order[0] != m.order[0]
  {
    hide FirstReady, Rotate;
    var m1 := Step(m, Exit);
    assert [Exit, Tick(rsp)] == [Exit] + [Tick(rsp)] && [Tick(rsp)] == [Tick(rsp)] + [];
    AfterCons(m, Exit, [Tick(rsp)]);
    AfterCons(m1, Tick(rsp), []);
    var paused := m1.tasks[m1.order[0] := Paused(m1.tasks[m1.order[0]], rsp)];
    var j := FirstReady(paused, m1.order, 1);
    assert paused[At(m1.order, d)].state == READY;
    RotateOk(m1, j);
  }

  /** An event changes stack pointers and states only, and the stack pointer of no task but the current one. */
  lemma OthersKept(m: Machine, e: Event, i: nat)
    requires Ok(m) && i < |m.tasks| && (e.Spawn? ==> i != |m.order|)
    ensures i < |Step(m, e).tasks| && Step(m, e).pool == m.pool
    ensures var t, t' := m.tasks[i], Step(m, e).tasks[i]; t' == t.(rsp := t'.rsp, state := t'.state)
    ensures i != m.order[0] || !e.Tick? ==> Step(m, e).tasks[i].rsp == m.tasks[i].rsp
  {
    hide FirstReady, Rotate;
  }

  /** A created task is in the next slot, as it was made, and waits behind all others. */
  lemma CreatedWaits(m: Machine, task: Task)
    requires Ok(m) && task.entry != 0 && |m.order| < MAX_TASKS
    ensures var m', slot := SpawnTo(m, task), |m.order|;
            && WaitsAt(m', slot, slot) && m'.order == m.order + [slot]
            && m'.tasks[slot] == task.(id := m.nextPid, state := READY)
            && forall i :: 0 <= i < |m.tasks| && i != slot ==> m'.tasks[i] == m.tasks[i]
  {
    SpawnOk(m, task);
  }

  // ---- Counters ----

  lemma {:induction false} TicksLast(events: seq<Event>, e: Event)
    ensures Ticks(events + [e]) == Ticks(events) + if e.Tick? then 1 else 0
  {
    if events == [] {
      assert [] + [e] == [e];
    } else {
      assert (events + [e])[1..] == events[1..] + [e];
      TicksLast(events[1..], e);
    }
  }

  lemma TicksStep(m: Machine, e: Event)
    requires Ok(m) && m.ticks < TWO_32
    ensures Step(m, e).ticks == (m.ticks + if e.Tick? then 1 else 0) % TWO_32
  {
    hide FirstReady, Rotate;
  }

  lemma CountOn(start: nat, n: nat, one: nat)
    ensures ((start + n) % TWO_32 + one) % TWO_32 == (start + (n + one)) % TWO_32
  {
  }

  /** scheduler_ticks counts the timer ticks, on 32 bits. */
  lemma {:induction false} TicksCounted(m: Machine, events: seq<Event>)
    requires Ok(m) && m.ticks < TWO_32
    ensures After(m, events).ticks == (m.ticks + Ticks(events)) % TWO_32
    decreases |events|
  {
    hide Ok, Step, Ticks;
    if events == [] {
      NoTicks();
    } else {
      var init, e := events[..|events| - 1], events[|events| - 1];
      assert events == init + [e];
      TicksCounted(m, init);
      TicksStep(After(m, init), e);
      TicksLast(init, e);
      CountOn(m.ticks, Ticks(init), if e.Tick? then 1 else 0);
    }
  }

  lemma NoTicks()
    ensures Ticks([]) == 0
  {
  }

  /** The task in slot i has the process number i. */
  ghost predicate PidsOk(m: Machine) {
    m.nextPid == |m.order| && |m.order| <= |m.tasks| && forall i :: 0 <= i < |m.order| ==> m.tasks[i].id == i
  }

  lemma PidsStep(m: Machine, e: Event)
    requires Ok(m) && PidsOk(m)
    ensures PidsOk(Step(m, e))
  {
    hide FirstReady, Rotate;
  }

  /** Process numbers are handed out in the order of creation, and no two tasks share one. */
  lemma {:induction false} PidsInOrder(m: Machine, events: seq<Event>)
    requires Ok(m) && PidsOk(m)
    ensures PidsOk(After(m, events))
    decreases |events|
  {
    hide Ok, Step, PidsOk;
    if events != [] {
      var before := After(m, events[..|events| - 1]);
      PidsInOrder(m, events[..|events| - 1]);
      PidsStep(before, events[|events| - 1]);
    }
  }

  // ---- Contexts ----

  /** The stack pointer last handed in while t was current, or the one t started with. */
  function LastContext(m: Machine, events: seq<Event>, t: nat): nat
    requires Ok(m) && t < MAX_TASKS
    decreases |events|
  {
    if events == [] then m.tasks[t].rsp
    else
      var init, e := events[..|events| - 1], events[|events| - 1];
      var before := After(m, init);
      match e
      case Tick(rsp) => if |before.order| > 1 && before.order[0] == t then rsp else LastContext(m, init, t)
      case Spawn(task) =>
        if task.entry != 0 && |before.order| < MAX_TASKS && t == |before.order| then task.rsp else LastContext(m, init, t)
      case Exit => LastContext(m, init, t)
  }

  lemma {:induction false} ContextKept(m: Machine, events: seq<Event>, t: nat)
    requires Ok(m) && t < MAX_TASKS
    ensures After(m, events).tasks[t].rsp == LastContext(m, events, t)
    decreases |events|
  {
    hide FirstReady, Rotate;
    if events != [] {
      ContextKept(m, events[..|events| - 1], t);
    }
  }

  /**
   * Context conservation: after any run, a tick that switches returns to the dispatched task the stack
   * pointer it last handed in, and rsp0 ends that task's own stack and nobody else's.
   */
  lemma SwitchReturnsContext(m: Machine, events: seq<Event>, rsp: nat)
    requires Ok(m)
    ensures var s := After(m, events);
            var (s', returned) := TickTo(s, rsp);
            && Ok(s') && s'.order[0] < MAX_TASKS
            && (s'.order[0] != s.order[0] ==>
                  returned == LastContext(m, events, s'.order[0]) && s'.tasks[s'.order[0]].state == RUNNING)
            && (s'.order[0] == s.order[0] ==> returned == rsp)
            && (|s.order| > 1 && s'.tasks[s'.order[0]].state == RUNNING ==>
                  EndsStack(s'.pool, s'.order[0], s'.rsp0))
  {
    hide FirstReady, Rotate, StackTop, EndsStack;
    var s := After(m, events);
    TickOk(s, rsp);
    var s' := TickTo(s, rsp).0;
    TopEnds(s'.pool, s'.order[0]);
    if |s.order| > 1 {
      var paused := s.tasks[s.order[0] := Paused(s.tasks[s.order[0]], rsp)];
      var j := FirstReady(paused, s.order, 1);
      if j <= |s.order| {
        RotateOk(s, j);
        ContextKept(m, events, At(s.order, j));
      }
    }
  }
}
