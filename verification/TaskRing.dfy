/** task_init, task_create, task_create_user, task_exit_current and task_schedule on the pool and its next links. */
module TaskRing {
  import opened Seqs
  import opened Bytes
  import opened Scheduler

  const FRAME_WORDS_KERNEL: nat := 20
  const FRAME_WORDS_USER: nat := 22
  const RFLAGS: nat := 0x202
  const USER_CODE: nat := 0x1B
  const USER_DATA: nat := 0x23
  const USER_STACK_SIZE: nat := 16384

  function SuccessorAt(order: seq<nat>, k: nat): nat
    requires k < |order|
  {
    if k + 1 < |order| then order[k + 1] else order[0]
  }

  /** The next links run through the ring in order and back to its head. */
  ghost predicate Linked(tasks: seq<Task>, order: seq<nat>) {
    forall k :: 0 <= k < |order| ==> order[k] < |tasks| && tasks[order[k]].next == SuccessorAt(order, k)
  }

  /** The tasks without their links. */
  function Plain(tasks: seq<Task>): (r: seq<Task>)
    ensures |r| == |tasks|
    ensures forall i :: 0 <= i < |tasks| ==> r[i] == tasks[i].(next := 0)
  {
    seq(|tasks|, i requires 0 <= i < |tasks| => tasks[i].(next := 0))
  }

  lemma PlainUpdate(tasks: seq<Task>, i: nat, t: Task)
    requires i < |tasks|
    ensures Plain(tasks[i := t]) == Plain(tasks)[i := t.(next := 0)]
    ensures t.(next := 0) == Plain(tasks)[i] ==> Plain(tasks[i := t]) == Plain(tasks)
  {
    assert Plain(tasks[i := t]) == Plain(tasks)[i := t.(next := 0)];
  }

  lemma RotateLinked(tasks: seq<Task>, order: seq<nat>, j: nat)
    requires Linked(tasks, order) && 0 < j <= |order|
    ensures Linked(tasks, Rotate(order, j))
  {
    hide Rotate;
    var r := Rotate(order, j);
    forall k | 0 <= k < |r| ensures r[k] < |tasks| && tasks[r[k]].next == SuccessorAt(r, k) {
      RotatedSuccessor(order, j, k);
    }
  }

  /** Rotating keeps every member's successor. */
  lemma RotatedSuccessor(order: seq<nat>, j: nat, k: nat)
    requires 0 < j <= |order| && k < |order|
    ensures var r, i := Rotate(order, j), if j + k < |order| then j + k else j + k - |order|;
            r[k] == order[i] && SuccessorAt(r, k) == SuccessorAt(order, i)
  {
    hide Rotate;
    RotateAt(order, j, k);
    RotateAt(order, j, if k + 1 < |order| then k + 1 else 0);
  }

  /** The new slot takes the place behind the tail. */
  lemma AppendLinked(tasks: seq<Task>, order: seq<nat>, slot: nat, t: Task)
    requires Linked(tasks, order) && NoDup(order) && |order| > 0 && slot < |tasks|
    requires (forall k :: 0 <= k < |order| ==> order[k] != slot) && t.next == order[0]
    ensures var tail := order[|order| - 1];
            && tail < |tasks|
            && var tasks1 := tasks[slot := t];
            Linked(tasks1[tail := tasks1[tail].(next := slot)], order + [slot])
  {
    var tail := order[|order| - 1];
    var tasks1 := tasks[slot := t];
    var tasks2 := tasks1[tail := tasks1[tail].(next := slot)];
    var o := order + [slot];
    forall k | 0 <= k < |o| ensures o[k] < |tasks2| && tasks2[o[k]].next == SuccessorAt(o, k) {
      if k < |order| - 1 {
        assert o[k] == order[k] && order[k] != tail;
      }
    }
  }

  lemma SameLinks(tasks: seq<Task>, order: seq<nat>, i: nat, t: Task)
    requires Linked(tasks, order) && i < |tasks| && t.next == tasks[i].next
    ensures Linked(tasks[i := t], order)
  {
  }

  /**
   * A creation that failed left its slot in the ring, behind all others. The next creation takes the
   * same slot: its search for the tail ends at the slot itself, which is then its own successor.
   */
  lemma FailedCreateBreaksRing(tasks: seq<Task>, order: seq<nat>, slot: nat, t: Task)
    requires Linked(tasks, order) && NoDup(order) && |order| > 1 && order[|order| - 1] == slot && t.next == order[0]
    ensures slot < |tasks| && slot != order[0]
    ensures var tasks1 := tasks[slot := t];
            && (forall k :: 0 <= k < |order| ==> order[k] < |tasks| && (tasks1[order[k]].next == order[0] <==> order[k] == slot))
            && var tasks2 := tasks1[slot := tasks1[slot].(next := slot)];
            tasks2[slot].next == slot && !exists o: seq<nat> :: |o| > 1 && slot in o && NoDup(o) && Linked(tasks2, o)
  {
    var tasks1 := tasks[slot := t];
    forall k | 0 <= k < |order| ensures order[k] < |tasks| && (tasks1[order[k]].next == order[0] <==> order[k] == slot) {
    }
    var tasks2 := tasks1[slot := tasks1[slot].(next := slot)];
    forall o: seq<nat> ensures !(|o| > 1 && slot in o && NoDup(o) && Linked(tasks2, o)) {
      if |o| > 1 && slot in o && NoDup(o) && Linked(tasks2, o) {
        SuccessorDiffers(tasks2, o, slot);
        assert false;
      }
    }
  }

  /**
   * Until then the forgotten slot takes part: with at least one other task counted, timer ticks run it after
   * at most as many of them as there are counted tasks, from the stale stack pointer of its slot.
   */
  lemma FailedCreateIsDispatched(m: Machine, slot: nat, events: seq<Event>) returns (k: nat)
    requires |m.order| == slot + 1 && WaitsAt(m, slot, slot)
    requires |events| == slot && forall i :: 0 <= i < |events| ==> events[i].Tick?
    ensures k <= slot && Runs(After(m, events[..k]), slot)
    ensures slot < |m.tasks| && Returns(m, events[..k], m.tasks[slot].rsp)
  {
    hide WaitsAt, Runs, After, Returns;
    AllTicks(events);
    k := BoundedWaiting(m, events, slot, slot);
  }

  lemma {:induction false} AllTicks(events: seq<Event>)
    requires forall i :: 0 <= i < |events| ==> events[i].Tick?
    ensures Ticks(events) == |events|
  {
    if events != [] {
      AllTicks(events[1..]);
    }
  }

  lemma SuccessorDiffers(tasks: seq<Task>, o: seq<nat>, slot: nat)
    requires |o| > 1 && slot in o && NoDup(o) && Linked(tasks, o)
    ensures slot < |tasks| && tasks[slot].next != slot
  {
    var k :| 0 <= k < |o| && o[k] == slot;
    assert SuccessorAt(o, k) != o[k];
  }

  class TaskScheduler {
    const pool: nat
    const tasks: array<Task>
    var taskCount: nat
    var nextPid: nat
    var ticks: nat
    var current: nat
    var selected: nat
    var rsp0: nat
    ghost var order: seq<nat>

    ghost function Value(): Machine
      reads this, tasks
    {
      Machine(pool, Plain(tasks[..]), order, nextPid, ticks, rsp0)
    }

    /**
     * The ring of next links from the current task on is `order`. task_count is the number of its members,
     * or one less, after a creation that failed.
     */
    ghost predicate Ring()
      reads this, tasks
    {
      && tasks.Length == MAX_TASKS && Ok(Value()) && nextPid < TWO_32
      && 1 <= taskCount <= |order| <= taskCount + 1 && order[0] == current == selected && Linked(tasks[..], order)
    }

    ghost predicate Valid()
      reads this, tasks
    {
      Ring() && |order| == taskCount
    }

    /** task_init: the boot context becomes task 0. */
    constructor (pool: nat)
      ensures Valid() && fresh(tasks) && this.pool == pool && taskCount == 1 && current == 0 && nextPid == 1 && ticks == 0
      ensures tasks[0].state == RUNNING && Value().order == [0] && PidsOk(Value())
    {
      this.pool := pool;
      tasks := new Task[MAX_TASKS](_ => Task(0, 0, READY, 0, false, 0, 0, [], 0));
      taskCount, nextPid, ticks, current, selected, rsp0 := 1, 1, 0, 0, 0, 0;
      order := [0];
      new;
      tasks[0] := Task(0, 0, RUNNING, 0, false, 0, 0, [], 0);
    }

    method SetTask(i: nat, t: Task)
      requires i < tasks.Length
      modifies tasks
      ensures tasks[..] == old(tasks[..])[i := t]
    {
      tasks[i] := t;
    }

    /** task_alloc_slot: the next pool slot, linked in behind the tail; a null entry point or a full pool is refused. */
    method AllocSlot(entry: nat) returns (ok: bool, slot: nat)
      requires Valid()
      modifies this`taskCount, this`nextPid, this`order, tasks
      ensures Valid() && ok == (entry != 0 && old(taskCount) < MAX_TASKS)
      ensures !ok ==> Value() == old(Value())
      ensures ok ==> slot == old(taskCount) && order == old(order) + [slot] && nextPid == (old(nextPid) + 1) % TWO_32
      ensures ok ==> Value() == SpawnTo(old(Value()), Plain(old(tasks[..]))[slot]
                       .(entry := entry, isUser := false, userStack := 0, userStackSize := 0, next := 0))
    {
      hide Ok, Linked, Plain, NoDup, SpawnTo;
      OkParts(Value());
      slot := 0;
      if entry == 0 || taskCount >= MAX_TASKS {
        return false, 0;
      }
      slot := taskCount;
      ghost var before := tasks[..];
      var t := tasks[slot].(id := nextPid, state := READY, entry := entry, isUser := false, userStack := 0, userStackSize := 0,
                            next := current);
      nextPid := (nextPid + 1) % TWO_32;
      ghost var spec := Plain(before)[slot].(entry := entry, isUser := false, userStack := 0, userStackSize := 0, next := 0);
      SpawnOk(old(Value()), spec);
      SpawnIs(old(Value()), spec);
      LinkIn(slot, t);
      order := order + [slot];
      taskCount := taskCount + 1;
      return true, slot;
    }

    /** The new slot is filled, and the tail of the ring made to point to it. */
    method LinkIn(slot: nat, t: Task)
      requires tasks.Length == MAX_TASKS && slot < MAX_TASKS && t.next == current
      requires |order| > 0 && NoDup(order) && Linked(tasks[..], order) && current == order[0]
      requires forall k :: 0 <= k < |order| ==> order[k] != slot
      modifies tasks
      ensures Linked(tasks[..], order + [slot])
      ensures Plain(tasks[..]) == Plain(old(tasks[..]))[slot := t.(next := 0)]
    {
      hide Linked, Plain, NoDup;
      ghost var before := tasks[..];
      SetTask(slot, t);
      ghost var tasks1 := tasks[..];
      var tail := FindTail(slot, before, t);
      AppendLinked(before, order, slot, t);
      PlainUpdate(before, slot, t);
      PlainUpdate(tasks1, tail, tasks1[tail].(next := slot));
      SetTask(tail, tasks[tail].(next := slot));
    }

    /** The walk to the task whose successor is the current one. */
    method FindTail(slot: nat, ghost before: seq<Task>, ghost t: Task) returns (tail: nat)
      requires tasks.Length == MAX_TASKS && |before| == MAX_TASKS && slot < MAX_TASKS && tasks[..] == before[slot := t]
      requires |order| > 0 && NoDup(order) && Linked(before, order) && current == order[0]
      requires forall k :: 0 <= k < |order| ==> order[k] != slot
      ensures tail == order[|order| - 1] && tail < MAX_TASKS
    {
      tail := current;
      ghost var k := 0;
      assert tasks[..][tail] == before[tail];
      while tasks[tail].next != current
        invariant k < |order| && tail == order[k] && tail < MAX_TASKS
        decreases |order| - k
      {
        assert tasks[..][tail] == before[tail];
        tail := tasks[tail].next;
        k := k + 1;
      }
      assert tasks[..][tail] == before[tail];
      TailOnly(order, k);
    }

    /** The initial stack frame: zeros, then the return address, code segment and flags. */
    method BuildFrame(words: nat, entry: nat, cs: nat) returns (frame: seq<nat>)
      requires words >= FRAME_WORDS_KERNEL
      ensures |frame| == words && frame[17] == entry && frame[18] == cs && frame[19] == RFLAGS
      ensures forall i :: 0 <= i < words && i != 17 && i != 18 && i != 19 ==> frame[i] == 0
    {
      frame := [];
      var i := 0;
      while i < words
        invariant i <= words && |frame| == i && forall j :: 0 <= j < i ==> frame[j] == 0
      {
        frame := frame + [0];
        i := i + 1;
      }
      frame := frame[17 := entry][18 := cs][19 := RFLAGS];
    }

    /** The same with the user's stack pointer and stack segment above. */
    method BuildUserFrame(entry: nat, userSp: nat) returns (frame: seq<nat>)
      ensures |frame| == FRAME_WORDS_USER && frame[17] == entry && frame[18] == USER_CODE && frame[19] == RFLAGS
      ensures frame[20] == userSp && frame[21] == USER_DATA
      ensures forall i :: 0 <= i < 17 ==> frame[i] == 0
    {
      frame := BuildFrame(FRAME_WORDS_USER, entry, USER_CODE);
      frame := frame[20 := userSp][21 := USER_DATA];
    }

    /** A change to one task that leaves its link, its state and its place alone. */
    method Prepare(slot: nat, t: Task)
      requires Valid() && slot < MAX_TASKS && t.next == tasks[slot].next && t.state == tasks[slot].state
      modifies tasks
      ensures Valid() && Value() == old(Value()).(tasks := old(Value()).tasks[slot := t.(next := 0)])
      ensures tasks[slot] == t
    {
      ghost var before := tasks[..];
      SameLinks(before, order, slot, t);
      tasks[slot] := t;
      assert tasks[..] == before[slot := t];
      assert Plain(tasks[..]) == Plain(before)[slot := t.(next := 0)];
    }

    /** task_create. */
    method Create(entry: nat, kernelCs: nat) returns (ok: bool, slot: nat, ghost task: Task)
      requires Valid()
      modifies this`taskCount, this`nextPid, this`order, tasks
      ensures Valid() && ok == (entry != 0 && old(taskCount) < MAX_TASKS)
      ensures Value() == SpawnTo(old(Value()), task) && (!ok ==> Value() == old(Value()))
      ensures ok ==> WaitsAt(Value(), slot, slot) && Value().tasks[slot] == task.(id := old(nextPid), state := READY)
      ensures ok ==> slot == old(taskCount) && task.entry == entry && !task.isUser
                     && task.rsp == StackTop(pool, slot) / 16 * 16 - 8 * FRAME_WORDS_KERNEL
                     && InStack(pool, slot, task.rsp, 8 * FRAME_WORDS_KERNEL) && task.rsp % 16 == 0
                     && |task.frame| == FRAME_WORDS_KERNEL && task.frame[17] == entry && task.frame[18] == kernelCs
                     && task.frame[19] == RFLAGS && forall i :: 0 <= i < 17 ==> task.frame[i] == 0
    {
      hide Ok, Linked;
      task := Task(0, 0, READY, entry, false, 0, 0, [], 0);
      var made;
      made, slot := AllocSlot(entry);
      if !made {
        return false, 0, task;
      }
      var frame := BuildFrame(FRAME_WORDS_KERNEL, entry, kernelCs);
      var sp: nat := StackTop(pool, slot) / 16 * 16 - 8 * FRAME_WORDS_KERNEL;
      FrameInStack(pool, slot, FRAME_WORDS_KERNEL);
      CreatedWaits(old(Value()), tasks[slot].(rsp := sp, frame := frame, next := 0));
      task := tasks[slot].(rsp := sp, frame := frame, next := 0);
      Prepare(slot, tasks[slot].(rsp := sp, frame := frame));
      return true, slot, task;
    }

    /** The failure path of task_create_user: the counters go back, the ring stays as it is. */
    method Forget(slot: nat, ghost m: Machine)
      requires Valid() && Ok(m) && slot + 1 == taskCount && slot == |m.order| && order == m.order + [slot]
      requires tasks[slot].state == READY && m.nextPid < TWO_32 && nextPid == (m.nextPid + 1) % TWO_32
      requires forall i :: 0 <= i < MAX_TASKS && i != slot && i < |m.tasks| ==> Value().tasks[i] == m.tasks[i]
      modifies this`taskCount, this`nextPid
      ensures Ring() && !Valid() && taskCount == slot && nextPid == m.nextPid
      ensures WaitsAt(Value(), slot, slot) && NoDup(order)
    {
      hide Ok, Linked;
      OkParts(m);
      OkParts(Value());
      taskCount := taskCount - 1;
      nextPid := (nextPid + TWO_32 - 1) % TWO_32;
      FailedOk(m, Value(), slot);
    }

    /**
     * task_create_user; `userStack` is what kmalloc returned, 0 for failure. After a failure the slot
     * stays in the ring, ready and last in line, while task_count forgets it and its stack pointer is
     * whatever the slot held before.
     */
    method CreateUser(entry: nat, userStack: nat) returns (ok: bool, slot: nat, ghost task: Task)
      requires Valid()
      modifies this`taskCount, this`nextPid, this`order, tasks
      ensures ok == (entry != 0 && old(taskCount) < MAX_TASKS && userStack != 0)
      ensures Valid() <==> ok || entry == 0 || old(taskCount) >= MAX_TASKS
      ensures Valid() ==> Value() == SpawnTo(old(Value()), task) && (!ok ==> Value() == old(Value()))
      ensures !Valid() ==> Ring() && taskCount == old(taskCount) && nextPid == old(nextPid)
                           && order == old(order) + [taskCount] && NoDup(order) && taskCount < MAX_TASKS
                           && tasks[taskCount].rsp == old(tasks[..])[taskCount].rsp
                           && tasks[taskCount].state == READY && WaitsAt(Value(), taskCount, taskCount)
      ensures ok ==> WaitsAt(Value(), slot, slot) && Value().tasks[slot] == task.(id := old(nextPid), state := READY)
      ensures ok ==> slot == old(taskCount) && task.entry == entry && task.isUser && task.userStack == userStack
                     && InStack(pool, slot, task.rsp, 8 * FRAME_WORDS_USER) && task.rsp % 16 == 0
                     && task.rsp == StackTop(pool, slot) / 16 * 16 - 8 * FRAME_WORDS_USER
                     && |task.frame| == FRAME_WORDS_USER && task.frame[17] == entry && task.frame[18] == USER_CODE
                     && task.frame[19] == RFLAGS && task.frame[20] == (userStack + USER_STACK_SIZE) / 16 * 16
                     && task.frame[21] == USER_DATA && forall i :: 0 <= i < 17 ==> task.frame[i] == 0
    {
      hide Ok, Linked, WaitsAt;
      task := Task(0, 0, READY, entry, false, 0, 0, [], 0);
      var made;
      OkParts(Value());
      made, slot := AllocSlot(entry);
      if !made {
        return false, 0, task;
      }
      OkParts(Value());
      Prepare(slot, tasks[slot].(isUser := true, userStack := userStack));
      if userStack == 0 {
        Forget(slot, old(Value()));
        return false, 0, task;
      }
      var userSp := (userStack + USER_STACK_SIZE) / 16 * 16;
      var frame := BuildUserFrame(entry, userSp);
      var sp: nat := StackTop(pool, slot) / 16 * 16 - 8 * FRAME_WORDS_USER;
      task := tasks[slot].(isUser := true, userStack := userStack, userStackSize := USER_STACK_SIZE, rsp := sp, frame := frame,
                           next := 0);
      FrameInStack(pool, slot, FRAME_WORDS_USER);
      CreatedWaits(old(Value()), task);
      Prepare(slot, tasks[slot].(isUser := true, userStack := userStack, userStackSize := USER_STACK_SIZE, rsp := sp,
                                 frame := frame));
      return true, slot, task;
    }

    /** task_exit_current. */
    method ExitCurrent()
      requires Valid()
      modifies tasks
      ensures Valid() && |old(Value()).order| > 0 && old(Value()).order[0] < |old(Value()).tasks|
      ensures current < tasks.Length && tasks[..] == old(tasks[..])[current := old(tasks[current]).(state := TERMINATED)]
      ensures Value() == ExitTo(old(Value()))
    {
      ghost var before := tasks[..];
      SameLinks(before, order, current, before[current].(state := TERMINATED));
      StepOk(Value(), Exit);
      tasks[current] := tasks[current].(state := TERMINATED);
      assert tasks[..] == before[current := before[current].(state := TERMINATED)];
      assert Value() == ExitTo(old(Value()));
    }

    /** The current task's context is stored, and it steps down if it was running. */
    method Pause(rsp: nat)
      requires current < tasks.Length
      modifies tasks
      ensures tasks[..] == old(tasks[..])[current := Paused(old(tasks[current]), rsp)]
    {
      ghost var before := tasks[..];
      tasks[current] := tasks[current].(rsp := rsp);
      if tasks[current].state == RUNNING {
        tasks[current] := tasks[current].(state := READY);
      }
      assert tasks[..] == before[current := Paused(before[current], rsp)];
    }

    /** The loop of task_schedule: the first ready task behind the current one, the current one last. */
    method FindReady() returns (next: nat)
      requires tasks.Length == MAX_TASKS && 0 < taskCount <= |order| <= taskCount + 1
      requires order[0] == current && Linked(tasks[..], order) && forall k :: 0 <= k < |order| ==> order[k] < MAX_TASKS
      ensures var j := FirstReady(Plain(tasks[..]), order, 1);
              next == if j <= |order| then At(order, j) else current
    {
      hide FirstReady, Linked;
      ghost var plain := Plain(tasks[..]);
      NextAt(tasks[..], order, 0);
      var candidate := tasks[current].next;
      next := current;
      ghost var j := 1;
      var i := 0;
      while i < taskCount
        invariant i <= taskCount && j == i + 1 && candidate < MAX_TASKS && next == current
        invariant j <= |order| ==> candidate == At(order, j)
        invariant FirstReady(plain, order, 1) == FirstReady(plain, order, j)
      {
        FirstReadyStep(plain, order, j);
        if tasks[candidate].state == READY {
          next := candidate;
          FirstReadyHere(plain, order, j, true);
          return;
        }
        NextAt(tasks[..], order, if j < |order| then j else 0);
        candidate := tasks[candidate].next;
        i := i + 1;
        j := j + 1;
      }
      if j <= |order| {
        LastTurn(plain, order, j);
      } else {
        FirstReadyHere(plain, order, j, false);
      }
    }

    /** The end of task_schedule: `next`, at position j of the ring or the current task itself, is made to run. */
    method SwitchTo(next: nat, ghost j: nat) returns (rsp: nat)
      requires tasks.Length == MAX_TASKS && 0 < |order| <= MAX_TASKS && 0 < j && Linked(tasks[..], order) && next < MAX_TASKS
      requires j <= |order| ==> next == At(order, j)
      modifies this`current, this`selected, this`rsp0, this`order, tasks
      ensures tasks[..] == old(tasks[..])[next := old(tasks[next]).(state := RUNNING)] && rsp == old(tasks[next].rsp)
      ensures order == if j <= |old(order)| then Rotate(old(order), j) else old(order)
      ensures Linked(tasks[..], order) && current == selected == next && rsp0 == StackTop(pool, next)
    {
      hide *;
      ghost var before := tasks[..];
      ghost var order' := if j <= |order| then Rotate(order, j) else order;
      if j <= |order| {
        RotateLinked(before, order, j);
      }
      SameLinks(before, order', next, before[next].(state := RUNNING));
      SetTask(next, tasks[next].(state := RUNNING));
      current := next;
      selected := next;
      order := order';
      rsp0 := StackTop(pool, next);
      rsp := tasks[current].rsp;
    }

    /**
     * task_schedule. Also with a slot that task_count has forgotten it is a tick of the machine: the slot
     * gets its turn like any other, unless task_count leaves only the current task.
     */
    method Schedule(currentRsp: nat) returns (rsp: nat)
      requires Ring()
      modifies this`ticks, this`current, this`selected, this`rsp0, this`order, tasks
      ensures Ring() && (old(Valid()) ==> Valid())
      ensures old(|order|) > 0 && forall k :: 0 <= k < old(|order|) ==> old(order)[k] < |old(Value()).tasks|
      ensures (Value(), rsp) == if old(taskCount) == 1 then (old(Value()).(ticks := (old(ticks) + 1) % TWO_32), currentRsp)
                                else TickTo(old(Value()), currentRsp)
      ensures old(Valid()) ==> (Value(), rsp) == TickTo(old(Value()), currentRsp)
    {
      hide Ok, Linked, FirstReady, Rotate, Plain, NoDup, StackTop;
      ghost var m := Value();
      OkParts(m);
      TickOk(m, currentRsp);
      TicksOk(m, (ticks + 1) % TWO_32);
      ticks := (ticks + 1) % TWO_32;
      if taskCount <= 1 {
        return currentRsp;
      }
      ghost var before := tasks[..];
      PauseLinks(before, order, current, currentRsp);
      PlainUpdate(before, current, Paused(before[current], currentRsp));
      Pause(currentRsp);
      ghost var paused := tasks[..];
      var next := FindReady();
      ghost var j := FirstReady(Plain(paused), order, 1);
      if tasks[next].state == TERMINATED {
        return currentRsp;
      }
      if j <= |order| {
        RotateOk(m, j);
      }
      PlainUpdate(paused, next, paused[next].(state := RUNNING));
      rsp := SwitchTo(next, j);
    }
  }

  /** The first words below a stack's top are the slot's own, from an address that is a multiple of 16 on. */
  lemma FrameInStack(pool: nat, slot: nat, words: nat)
    requires words % 2 == 0 && 8 * words + 16 <= STACK_SIZE
    ensures var sp := StackTop(pool, slot) / 16 * 16 - 8 * words;
            sp >= 0 && sp % 16 == 0 && InStack(pool, slot, sp, 8 * words)
  {
  }

  /** What the frame's flags and selectors ask for: interrupts enabled and the reserved bit set; ring 3 for user code and data. */
  lemma FrameFlags()
    ensures forall k: nat :: BitOf(RFLAGS, k) <==> k == 1 || k == 9
    ensures USER_CODE % 4 == 3 && USER_DATA % 4 == 3
  {
    forall k: nat ensures BitOf(RFLAGS, k) <==> k == 1 || k == 9 {
      OneAndNine(k);
    }
  }

  lemma OneAndNine(k: nat)
    ensures BitOf(2 + 0x200, k) <==> k == 1 || k == 9
  {
    BitValue(2 + 0x200, k);
    assert Pow2(5) == 32;
    assert Pow2(10) == 1024;
    if k >= 10 {
      Pow2Mono(10, k);
    }
  }

  /** Only the last member's successor is the head. */
  lemma TailOnly(order: seq<nat>, k: nat)
    requires NoDup(order) && k < |order| && SuccessorAt(order, k) == order[0]
    ensures k == |order| - 1
  {
  }

  /** After a failed creation: the machine is in order, and the forgotten slot waits at the end of the ring. */
  lemma FailedOk(m: Machine, m': Machine, slot: nat)
    requires Ok(m) && |m'.tasks| == MAX_TASKS && slot == |m.order| < MAX_TASKS
    requires m'.order == m.order + [slot] && m'.tasks[slot].state == READY
    requires forall i :: 0 <= i < |m'.tasks| && i != slot ==> m'.tasks[i] == m.tasks[i]
    ensures Ok(m') && WaitsAt(m', slot, slot)
  {
    forall k | 0 <= k < slot ensures m'.order[k] == m.order[k] && m'.tasks[m.order[k]] == m.tasks[m.order[k]] {
    }
  }

  lemma SpawnIs(m: Machine, task: Task)
    requires |m.order| < MAX_TASKS && |m.order| < |m.tasks| && task.entry != 0
    ensures SpawnTo(m, task) == Machine(m.pool, m.tasks[|m.order| := task.(id := m.nextPid, state := READY)],
                                        m.order + [|m.order|], (m.nextPid + 1) % TWO_32, m.ticks, m.rsp0)
  {
  }

  lemma OkParts(m: Machine)
    requires Ok(m)
    ensures |m.tasks| == MAX_TASKS && 1 <= |m.order| <= MAX_TASKS && NoDup(m.order)
    ensures forall k :: 0 <= k < |m.order| ==> m.order[k] < |m.order|
  {
  }

  lemma TicksOk(m: Machine, n: nat)
    requires Ok(m)
    ensures Ok(m.(ticks := n))
  {
  }

  lemma PauseLinks(tasks: seq<Task>, order: seq<nat>, i: nat, rsp: nat)
    requires Linked(tasks, order) && i < |tasks|
    ensures Linked(tasks[i := Paused(tasks[i], rsp)], order)
  {
    SameLinks(tasks, order, i, Paused(tasks[i], rsp));
  }

  lemma NextAt(tasks: seq<Task>, order: seq<nat>, j: nat)
    requires Linked(tasks, order) && j < |order|
    ensures order[j] < |tasks| && tasks[order[j]].next == At(order, j + 1) && At(order, j + 1) < |tasks|
  {
    assert order[0] < |tasks|;
    if j + 1 < |order| {
      assert order[j + 1] < |tasks|;
    }
  }

  lemma FirstReadyStep(tasks: seq<Task>, order: seq<nat>, j: nat)
    requires |order| > 0 && j <= |order| && forall k :: 0 <= k < |order| ==> order[k] < |tasks|
    ensures FirstReady(tasks, order, j) == if tasks[At(order, j)].state == READY then j else FirstReady(tasks, order, j + 1)
  {
  }

  /** Behind the last member only the current task itself is left. */
  lemma LastTurn(tasks: seq<Task>, order: seq<nat>, j: nat)
    requires |order| > 0 && j == |order| && forall k :: 0 <= k < |order| ==> order[k] < |tasks|
    ensures var r := FirstReady(tasks, order, j); r >= |order| && (r <= |order| ==> At(order, r) == order[0])
  {
  }

  lemma FirstReadyHere(tasks: seq<Task>, order: seq<nat>, j: nat, found: bool)
    requires |order| > 0 && j <= |order| + 1 && forall k :: 0 <= k < |order| ==> order[k] < |tasks|
    requires if found then j <= |order| && tasks[At(order, j)].state == READY else j == |order| + 1
    ensures FirstReady(tasks, order, j) == j
  {
  }
}
