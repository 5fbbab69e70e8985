/** The scheduler object. Every operation is one step of the state machine, and so keeps its invariant. */
module Scheduler {
  import opened Numbers
  import opened Options
  import opened Tasks
  import opened SchedulerSafety

  class Scheduler {
    var tasks: Slots
    var current: Option<Slot>
    var nextId: u64
    var idle: Option<Slot>
    ghost var picks: nat

    ghost function State(): Sched
      reads this
    {
      Sched(tasks, current, nextId, idle, picks)
    }

    ghost predicate Valid()
      reads this
    {
      Inv(State())
    }

    constructor ()
      ensures State() == Initial() && Valid()
    {
      tasks := [None, None, None, None, None, None, None, None, None, None, None, None, None, None, None, None];
      current := None;
      nextId := 1;
      idle := None;
      picks := 0;
      new;
      InitialInv();
    }

    // ---------- Searching the table ----------

    method FindTask(id: u64) returns (r: Option<Slot>)
      ensures r == FindId(tasks, id, 0)
    {
      for i := 0 to MAX_TASKS
        invariant FindId(tasks, id, 0) == FindId(tasks, id, i)
      {
        if tasks[i].Some? && tasks[i].value.id == id {
          return Some(i);
        }
      }
      r := None;
    }

    method CheckTaskCapacity() returns (r: Result<Slot>)
      ensures r == if FreeSlot(tasks, 0).Some? then Ok(FreeSlot(tasks, 0).value) else Err(Full)
    {
      for i := 0 to MAX_TASKS
        invariant FreeSlot(tasks, 0) == FreeSlot(tasks, i)
      {
        if tasks[i].None? {
          return Ok(i);
        }
      }
      r := Err(Full);
    }

    method CountFreeSlots() returns (n: nat)
      ensures n == FreeSlots(tasks, 0)
    {
      n := 0;
      for i := 0 to MAX_TASKS
        invariant FreeSlots(tasks, 0) == n + FreeSlots(tasks, i)
      {
        if tasks[i].None? {
          n := n + 1;
        }
      }
    }

    method HasLiveNonIdleTasks() returns (r: bool)
      ensures r <==> HasLive(tasks)
    {
      for i := 0 to MAX_TASKS
        invariant forall j: Slot :: j < i ==> !IsLive(tasks[j])
      {
        if IsLive(tasks[i]) {
          return true;
        }
      }
      r := false;
    }

    /** The finished child to take: the first match that has ended, else whether there is any match. */
    method FindTerminatedChild(parent: u64, child: Option<u64>) returns (r: Result<u64>)
      ensures r == TerminatedChild(tasks, parent, child)
    {
      hide AnyMatch;
      var any := false;
      for i := 0 to MAX_TASKS
        invariant FindDone(tasks, parent, child, 0) == FindDone(tasks, parent, child, i)
        invariant any <==> exists j: Slot :: j < i && Matches(tasks[j], parent, child)
      {
        if Matches(tasks[i], parent, child) {
          any := true;
          if tasks[i].value.state == Terminated {
            return Ok(tasks[i].value.id);
          }
        }
      }
      AnyMatchIs(tasks, parent, child, any);
      r := Err(if any then ChildRunning else if child.Some? then UnknownTask else NoChild);
    }

    // ---------- Selection ----------

    /** One pass around the table: over ordinary tasks, or over the idle task. */
    method ScanPass(start: Slot, idlePass: bool) returns (r: Option<Slot>)
      ensures r == if Scan(tasks, start, 0, idlePass).Some? then Some(Around(start, Scan(tasks, start, 0, idlePass).value)) else None
    {
      hide Around, Runnable;
      for offset := 0 to MAX_TASKS
        invariant Scan(tasks, start, 0, idlePass) == Scan(tasks, start, offset, idlePass)
      {
        var index := Around(start, offset);
        if Runnable(tasks[index], idlePass) {
          return Some(index);
        }
      }
      r := None;
    }

    method SelectNext(start: Slot) returns (r: Result<u64>)
      modifies this
      ensures State() == Tasks.SelectNext(old(State()), start)
      ensures r == Selected(State())
    {
      hide Around, Scan;
      current := None;
      picks := picks + 1;
      var index := ScanPass(start, false);
      if index.None? {
        index := ScanPass(start, true);
      }
      PickIs(tasks, start, index);
      if index.None? {
        return Err(NoRunnableTasks);
      }
      tasks := tasks[index.value := Some(tasks[index.value].value.(state := Running))];
      current := index;
      r := Ok(tasks[index.value].value.id);
    }

    method Start() returns (r: Result<u64>)
      requires Valid()
      modifies this
      ensures State() == Tasks.Start(old(State())) && Valid()
      ensures r == if old(current).Some? then Err(AlreadyStarted) else Selected(State())
    {
      StartKeeps(State());
      if current.Some? {
        return Err(AlreadyStarted);
      }
      r := SelectNext(0);
    }

    // ---------- Leaving the processor ----------

    method TransitionCurrent(next: TaskState) returns (r: Result<u64>)
      modifies this
      ensures State() == Transition(old(State()), next)
      ensures r == TransitionResult(old(State()), next)
    {
      hide Tasks.SelectNext;
      if current.None? {
        return Err(NotStarted);
      }
      var i := current.value;
      if tasks[i].None? {
        return Err(UnknownTask);
      }
      var task := tasks[i].value;
      if task.state != Running {
        return Err(InvalidState);
      }
      if task.isIdle && next != Ready {
        return Err(InvalidState);
      }
      task := task.(state := next);
      if !next.Sleeping? {
        task := task.(wakeAt := None);
      }
      tasks := tasks[i := Some(task)];
      current := None;
      r := SelectNext((i + 1) % MAX_TASKS);
    }

    method YieldCurrent() returns (r: Result<u64>)
      requires Valid()
      modifies this
      ensures State() == Apply(old(State()), Yield) && Valid()
      ensures r == TransitionResult(old(State()), Ready)
    {
      hide Inv, Transition, TransitionResult;
      StepKeeps(State(), Yield);
      r := TransitionCurrent(Ready);
    }

    method BlockCurrent() returns (r: Result<u64>)
      requires Valid()
      modifies this
      ensures State() == Apply(old(State()), Block) && Valid()
      ensures r == TransitionResult(old(State()), Blocked(Event))
    {
      hide Inv, Transition, TransitionResult;
      StepKeeps(State(), Block);
      r := TransitionCurrent(Blocked(Event));
    }

    method SleepCurrentUntil(deadline: u64) returns (r: Result<u64>)
      requires Valid()
      modifies this
      ensures State() == Apply(old(State()), Sleep(deadline)) && Valid()
      ensures r == if Leaver(old(State()), Sleeping).Err? then Err(Leaver(old(State()), Sleeping).error) else Selected(State())
    {
      hide Tasks.SelectNext, Inv, Selected;
      StepKeeps(State(), Sleep(deadline));
      if current.None? {
        return Err(NotStarted);
      }
      var i := current.value;
      if tasks[i].None? {
        return Err(UnknownTask);
      }
      var task := tasks[i].value;
      if task.state != Running || task.isIdle {
        return Err(InvalidState);
      }
      task := task.(state := Sleeping);
      task := task.(wakeAt := Some(deadline));
      tasks := tasks[i := Some(task)];
      current := None;
      r := SelectNext((i + 1) % MAX_TASKS);
    }

    // ---------- Waking ----------

    method WakeExpiredSleepers(now: u64)
      modifies this`tasks
      ensures tasks == WakeExpired(old(tasks), now)
    {
      for i := 0 to MAX_TASKS
        invariant forall j: Slot :: tasks[j] == if j < i then Awake(old(tasks)[j], now) else old(tasks)[j]
      {
        if tasks[i].Some? && Expired(tasks[i].value, now) {
          tasks := tasks[i := Some(tasks[i].value.(state := Ready, wakeAt := None))];
        }
      }
    }

    method WakeAllBlocked()
      requires Valid()
      modifies this
      ensures State() == Apply(old(State()), WakeEvery) && Valid()
    {
      StepKeeps(State(), WakeEvery);
      for i := 0 to MAX_TASKS
        invariant State() == old(State()).(tasks := tasks)
        invariant forall j: Slot :: tasks[j] == if j < i then Unblocked(old(tasks)[j]) else old(tasks)[j]
      {
        if tasks[i].Some? && tasks[i].value.state.Blocked? {
          tasks := tasks[i := Some(tasks[i].value.(state := Ready))];
        }
      }
      assert tasks == WakeAll(old(tasks));
    }

    method WakeTask(id: u64) returns (r: Result<()>)
      requires Valid()
      modifies this
      ensures State() == Apply(old(State()), WakeOne(id)) && Valid()
      ensures r.Ok? <==> WakeResult(old(tasks), id).Ok?
      ensures r.Err? ==> r.error == WakeResult(old(tasks), id).error
    {
      hide Inv;
      StepKeeps(State(), WakeOne(id));
      var i := FindTask(id);
      if i.None? {
        return Err(UnknownTask);
      }
      if !tasks[i.value].value.state.Blocked? {
        return Err(InvalidState);
      }
      tasks := tasks[i.value := Some(tasks[i.value].value.(state := Ready))];
      r := Ok(());
    }

    method WakeParentOf(i: Slot)
      modifies this`tasks
      ensures tasks == WakeParent(old(tasks), i)
    {
      if tasks[i].Some? && tasks[i].value.parent.Some? {
        var p := FindTask(tasks[i].value.parent.value);
        if p.Some? && tasks[p.value].value.state.Blocked? {
          tasks := tasks[p.value := Some(tasks[p.value].value.(state := Ready))];
        }
      }
    }

    // ---------- Ending and reaping ----------

    method TerminateTask(id: u64, code: u64) returns (r: Result<()>)
      requires Valid()
      modifies this
      ensures State() == Apply(old(State()), Kill(id, code)) && Valid()
      ensures r.Ok? <==> TerminateResult(old(State()), id).Ok?
      ensures r.Err? ==> r.error == TerminateResult(old(State()), id).error
    {
      hide Inv, WakeParent;
      StepKeeps(State(), Kill(id, code));
      var i := FindTask(id);
      if i.None? {
        return Err(UnknownTask);
      }
      if current == i {
        return Err(InvalidState);
      }
      var task := tasks[i.value].value;
      if task.isIdle || task.state == Terminated {
        return Err(InvalidState);
      }
      task := task.(exitCode := Some(code));
      task := task.(state := Terminated);
      tasks := tasks[i.value := Some(task)];
      WakeParentOf(i.value);
      r := Ok(());
    }

    method ReapTerminated(id: u64, cleanupFails: bool) returns (r: Result<()>)
      requires Valid()
      modifies this
      ensures State() == Reap(old(State()), id, cleanupFails) && Valid()
      ensures r.Ok? <==> ReapResult(old(State()), id, cleanupFails).Ok?
      ensures r.Err? ==> r.error == ReapResult(old(State()), id, cleanupFails).error
    {
      hide Inv;
      ReapKeeps(State(), id, cleanupFails);
      var i := FindTask(id);
      if i.None? {
        return Err(UnknownTask);
      }
      if current == i || tasks[i.value].value.state != Terminated {
        return Err(InvalidState);
      }
      if tasks[i.value].value.isUser && cleanupFails {
        return Err(AddressSpaceCleanup);
      }
      tasks := tasks[i.value := None];
      r := Ok(());
    }

    method EndSiblingsOf(i: Slot, parent: u64, code: Option<u64>)
      modifies this`tasks
      ensures tasks == EndSiblings(old(tasks), i, parent, code)
    {
      for k := 0 to MAX_TASKS
        invariant forall j: Slot :: tasks[j] ==
                    if j < k && Sibling(old(tasks)[j], j, i, parent) then Some(Ended(old(tasks)[j].value, code)) else old(tasks)[j]
      {
        if k != i && tasks[k].Some? && tasks[k].value.parent == Some(parent) {
          var task := tasks[k].value;
          if task.state != Terminated {
            task := task.(exitCode := code);
            task := task.(state := Terminated);
            tasks := tasks[k := Some(task)];
          }
        }
      }
    }

    /** The current task ends, with its siblings if the whole group is to end. */
    method ExitCurrent(code: Option<u64>, group: bool) returns (r: Result<u64>)
      requires Valid() && CanExit(State())
      modifies this
      ensures State() == Apply(old(State()), Leave(code, group)) && Valid()
      ensures r == Selected(State())
    {
      hide Inv, Transition, Selected, BeforeExit;
      StepKeeps(State(), Leave(code, group));
      ExitFromHere(State(), code, group);
      PrepareExit(code, group);
      r := TransitionCurrent(Terminated);
    }

    /** Exit codes are set, siblings ended and the parent woken, before the processor is given up. */
    method PrepareExit(code: Option<u64>, group: bool)
      requires CanExit(State())
      modifies this`tasks
      ensures tasks == BeforeExit(old(State()), code, group)
    {
      hide WakeParent, EndSiblings;
      var i := current.value;
      var parent := tasks[i].value.parent;
      SiblingsSpare(tasks, i, code);
      if group && parent.Some? {
        EndSiblingsOf(i, parent.value, code);
      }
      tasks := tasks[i := Some(tasks[i].value.(exitCode := code))];
      WakeParentOf(i);
    }

    // ---------- Waiting ----------

    /** One round of the loop in `wait_for_child`. */
    method WaitForChild(child: Option<u64>, cleanupFails: bool) returns (r: WaitOutcome)
      requires Valid()
      modifies this
      ensures State() == Apply(old(State()), WaitRound(child, cleanupFails)) && Valid()
      ensures r == WaitOutcomeOf(old(State()), child, cleanupFails)
    {
      hide Inv, Transition, TransitionResult, TerminatedChild;
      StepKeeps(State(), WaitRound(child, cleanupFails));
      if current.None? {
        return GaveUp(NotStarted);
      }
      if tasks[current.value].None? {
        return GaveUp(UnknownTask);
      }
      var parent := tasks[current.value].value.id;
      if child.Some? {
        var c := FindTask(child.value);
        if c.None? {
          return GaveUp(UnknownTask);
        }
        if tasks[c.value].value.parent != Some(parent) {
          return GaveUp(NotChild);
        }
      }
      var done := FindTerminatedChild(parent, child);
      if done.Ok? {
        var slot := FindTask(done.value);
        if slot.None? {
          return GaveUp(UnknownTask);
        }
        var code := tasks[slot.value].value.exitCode;
        var reaped := ReapTerminated(done.value, cleanupFails);
        return if reaped.Err? then GaveUp(reaped.error) else Took(done.value, code);
      }
      if done.error != ChildRunning {
        return GaveUp(done.error);
      }
      var left := TransitionCurrent(Blocked(Child(child)));
      r := if left.Err? then GaveUp(left.error) else Asleep;
    }

    // ---------- Creating tasks ----------

    method InsertTask(parent: Option<u64>, isUser: bool) returns (r: Result<u64>)
      modifies this
      ensures State() == Insert(old(State()), parent, false, isUser)
      ensures r == if InsertResult(old(State())).Ok? then Ok(old(nextId)) else Err(InsertResult(old(State())).error)
    {
      var slot := CheckTaskCapacity();
      if slot.Err? {
        return Err(slot.error);
      }
      var id := nextId;
      if nextId + 1 == U64_LIMIT {
        return Err(TaskIdExhausted);
      }
      nextId := nextId + 1;
      tasks := tasks[slot.value := Some(Newborn(id, parent, false, isUser))];
      r := Ok(id);
    }

    /** A free slot and a free number, checked before the stack is allocated. */
    method CheckNewTask() returns (r: Result<()>)
      ensures r.Ok? <==> InsertResult(State()).Ok?
      ensures r.Err? ==> r.error == InsertResult(State()).error
    {
      var slot := CheckTaskCapacity();
      if slot.Err? {
        return Err(slot.error);
      }
      r := if nextId + 1 == U64_LIMIT then Err(TaskIdExhausted) else Ok(());
    }

    /** `setupFails` stands for a failing stack or descriptor set-up, before anything is inserted. */
    method SpawnTask(isUser: bool, setupFails: bool) returns (r: Result<u64>)
      requires Valid()
      modifies this
      ensures State() == Apply(old(State()), Create(isUser, setupFails)) && Valid()
      ensures r.Ok? ==> r.value == old(nextId) && nextId == old(nextId) + 1
      ensures r.Err? ==> State() == old(State())
    {
      hide Inv, FreeSlots;
      StepKeeps(State(), Create(isUser, setupFails));
      var room := CountFreeSlots();
      if idle.None? && room <= 1 {
        return Err(Full);
      }
      var _ :- CheckNewTask();
      if setupFails {
        return Err(InvalidContext);
      }
      var parent: Option<u64> := None;
      if current.Some? && tasks[current.value].Some? {
        parent := Some(tasks[current.value].value.id);
      }
      r := InsertTask(parent, isUser);
    }

    /** The first locked section of `run_tasks`: the idle task exists, and scheduling starts. */
    method EnterTasks(setupFails: bool) returns (r: Result<u64>)
      requires Valid()
      modifies this
      ensures State() == Apply(old(State()), Enter(setupFails)) && Valid()
      ensures r.Ok? <==> old(current).None? && (old(idle).Some? || (InsertResult(old(State())).Ok? && !setupFails))
      ensures r.Ok? ==> current.Some? && tasks[current.value].Some? && r.value == tasks[current.value].value.id
      ensures r.Err? ==> r.error == if old(idle).None? && InsertResult(old(State())).Err? then InsertResult(old(State())).error
                                    else if old(idle).None? && setupFails then InvalidContext
                                    else AlreadyStarted
    {
      hide Inv, Tasks.Start, Selected;
      StepKeeps(State(), Enter(setupFails));
      if idle.None? {
        var _ :- CheckNewTask();
        if setupFails {
          return Err(InvalidContext);
        }
        InsertKeeps(State(), None, true, false);
        ghost var slot := InsertResult(State());
        var inserted := InsertTask(None, false);
        var id := inserted.value;
        assert FindId(tasks, id, 0) == Some(slot.value) by { NewbornFound(old(State()), slot.value); }
        var index := FindTask(id);
        tasks := tasks[index.value := Some(tasks[index.value].value.(isIdle := true))];
        idle := index;
        assert State() == Insert(old(State()), None, true, false).(idle := Some(slot.value));
      }
      if current.None? {
        StartFinds(State());
      }
      r := Start();
    }

    /** The last locked section of `run_tasks`: the idle task goes with the run. */
    method LeaveTasks()
      requires Valid()
      modifies this
      ensures State() == Apply(old(State()), Return) && Valid()
    {
      hide Inv;
      StepKeeps(State(), Return);
      if idle.Some? && current.None? && tasks[idle.value].Some? && tasks[idle.value].value.isIdle && tasks[idle.value].value.state == Ready {
        var index := idle.value;
        idle := None;
        tasks := tasks[index := None];
      }
    }

    method IdleLoopRound(now: u64)
      requires Valid() && InIdleLoop(State())
      modifies this
      ensures State() == Apply(old(State()), Idle(now)) && Valid()
    {
      hide Inv, HasLive;
      StepKeeps(State(), Idle(now));
      WakeExpiredSleepers(now);
      var live := HasLiveNonIdleTasks();
      if !live {
        var i := current.value;
        tasks := tasks[i := Some(tasks[i].value.(state := Ready))];
        current := None;
      }
    }

    method PreemptFromTimer(now: u64)
      requires Valid()
      modifies this
      ensures State() == Apply(old(State()), Tick(now)) && Valid()
    {
      hide Inv, Transition, TransitionResult;
      StepKeeps(State(), Tick(now));
      if current.None? {
        return;
      }
      WakeExpiredSleepers(now);
      var _ := TransitionCurrent(Ready);
    }
  }

  lemma PickIs(tasks: Slots, start: Slot, index: Option<Slot>)
    requires var ordinary, idle := Scan(tasks, start, 0, false), Scan(tasks, start, 0, true);
             index == if ordinary.Some? then Some(Around(start, ordinary.value)) else if idle.Some? then Some(Around(start, idle.value)) else None
    ensures index == Pick(tasks, start) && (index.Some? ==> tasks[index.value].Some?)
  {
    hide Around;
  }

  lemma AnyMatchIs(tasks: Slots, parent: u64, child: Option<u64>, any: bool)
    requires any <==> exists j: Slot :: j < MAX_TASKS && Matches(tasks[j], parent, child)
    ensures any <==> AnyMatch(tasks, parent, child)
  {
  }

  lemma SiblingsSpare(tasks: Slots, i: Slot, code: Option<u64>)
    ensures forall parent: u64 :: EndSiblings(tasks, i, parent, code)[i] == tasks[i]
  {
  }

  /** With the idle task installed, starting finds a task to run. */
  lemma StartFinds(s: Sched)
    requires Inv(s) && s.idle.Some? && s.current.None?
    ensures var t := Tasks.Start(s); Selected(t).Ok? && t.current.Some? && t.tasks[t.current.value].Some?
    ensures var t := Tasks.Start(s); Selected(t).value == t.tasks[t.current.value].value.id
  {
    assert FitsState(s.tasks[s.idle.value], s.idle.value, s.current);
    hide NoLostWait, Pick;
    PickFinds(s.tasks, 0, s.idle.value);
    PickRunnable(s.tasks, 0);
  }

  /** Once the task may exit, the final transition cannot be refused. */
  lemma ExitFromHere(s: Sched, code: Option<u64>, group: bool)
    requires Inv(s) && CanExit(s)
    ensures TransitionResult(s.(tasks := BeforeExit(s, code, group)), Terminated) == Selected(Exit(s, code, group))
  {
    hide Inv, Transition, Selected, EndSiblings;
    SiblingsSpare(s.tasks, s.current.value, code);
  }

  lemma NewbornFound(s: Sched, i: Slot)
    requires Inv(s) && InsertResult(s) == Ok(i)
    ensures FindId(s.tasks[i := Some(Newborn(s.nextId, None, false, false))], s.nextId, 0) == Some(i)
  {
    hide NoLostWait, Scheduled;
    var after: Slots := s.tasks[i := Some(Newborn(s.nextId, None, false, false))];
    assert HasId(after[i], s.nextId);
  }
}
