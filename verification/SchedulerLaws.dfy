/** What a task is told and when it is woken, over whole runs: exit statuses arrive, and sleepers wake on time. */
module SchedulerLaws {
  import opened Numbers
  import opened Options
  import opened Tasks
  import opened SchedulerSafety
  import opened SchedulerRuns

  // ---------- Exit statuses ----------

  /** The step ends the task in slot `i` with this status: its own exit, a sibling's exit as a group, or a kill. */
  predicate EndsWith(s: Sched, step: Step, i: Slot, status: Option<u64>) {
    && s.tasks[i].Some? && s.tasks[i].value.state != Terminated && !s.tasks[i].value.isIdle
    && match step
       case Leave(code, group) =>
         && s.current.Some? && s.tasks[s.current.value].Some? && !s.tasks[s.current.value].value.isIdle && status == code
         && (s.current == Some(i) ||
             (group && s.tasks[i].value.parent.Some? && s.tasks[i].value.parent == s.tasks[s.current.value].value.parent))
       case Kill(id, code) => s.tasks[i].value.id == id && s.current != Some(i) && status == Some(code)
       case _ => false
  }

  /** The ending is recorded: the task keeps its id and parent, is ended, and carries that status. */
  lemma EndingRecorded(s: Sched, step: Step, i: Slot, status: Option<u64>)
    requires Inv(s) && EndsWith(s, step, i, status)
    ensures var t := Apply(s, step).tasks[i];
            && t.Some? && t.value.state == Terminated && t.value.exitCode == status
            && t.value.id == s.tasks[i].value.id && t.value.parent == s.tasks[i].value.parent
  {
    hide NoLostWait;
    match step {
      case Leave(code, group) =>
        assert FitsState(s.tasks[s.current.value], s.current.value, s.current);
        ExitRecorded(s, code, group, i);
      case Kill(id, code) => KillRecorded(s, id, code, i);
    }
  }

  lemma ExitRecorded(s: Sched, code: Option<u64>, group: bool, i: Slot)
    requires Inv(s) && CanExit(s) && EndsWith(s, Leave(code, group), i, code)
    ensures var t := Exit(s, code, group).tasks[i];
            && t.Some? && t.value.state == Terminated && t.value.exitCode == code
            && t.value.id == s.tasks[i].value.id && t.value.parent == s.tasks[i].value.parent
  {
    hide NoLostWait, Transition, BeforeExit;
    var c := s.current.value;
    BeforeExitRecords(s, code, group, i);
    BeforeExitRecords(s, code, group, c);
    EndedLeft(s.(tasks := BeforeExit(s, code, group)), i);
  }

  lemma BeforeExitRecords(s: Sched, code: Option<u64>, group: bool, i: Slot)
    requires CanExit(s) && EndsWith(s, Leave(code, group), i, code)
    ensures var t := BeforeExit(s, code, group)[i];
            && t.Some? && t.value.exitCode == code && t.value.id == s.tasks[i].value.id && t.value.parent == s.tasks[i].value.parent
            && t.value.state == (if s.current == Some(i) then Running else Terminated) && t.value.isIdle == s.tasks[i].value.isIdle
  {
    hide WakeParent;
    var c := s.current.value;
    var parent := s.tasks[c].value.parent;
    var others := if group && parent.Some? then EndSiblings(s.tasks, c, parent.value, code) else s.tasks;
    var mid: Slots := others[c := Some(others[c].value.(exitCode := code))];
    UnblockedStays(mid, c, i);
  }

  lemma EndedLeft(s: Sched, i: Slot)
    requires s.current.Some? && s.tasks[s.current.value].Some? && s.tasks[s.current.value].value.state == Running && !s.tasks[s.current.value].value.isIdle
    requires s.tasks[i].Some? && (s.current == Some(i) || s.tasks[i].value.state == Terminated)
    ensures var t := Transition(s, Terminated).tasks[i];
            t.Some? && t.value.state == Terminated && t.value == s.tasks[i].value.(state := Terminated, wakeAt := t.value.wakeAt)
  {
    hide Pick;
    var c := s.current.value;
    PickRunnable(s.tasks[c := Some(Left(s.tasks[c].value, Terminated))], Around(c, 1));
  }

  lemma KillRecorded(s: Sched, id: u64, code: u64, i: Slot)
    requires Inv(s) && EndsWith(s, Kill(id, code), i, Some(code))
    ensures var t := Terminate(s, id, code).tasks[i];
            && t.Some? && t.value.state == Terminated && t.value.exitCode == Some(code)
            && t.value.id == s.tasks[i].value.id && t.value.parent == s.tasks[i].value.parent
  {
    hide NoLostWait;
    assert HasId(s.tasks[i], id);
    var found := FindId(s.tasks, id, 0);
    assert found == Some(i);
    var mid: Slots := s.tasks[i := Some(Ended(s.tasks[i].value, Some(code)))];
    WakeParentWakes(mid, i);
    assert WokenAt(mid, WakeParent(mid, i), i);
  }

  /** A wait that takes a child takes an ended child of the waiter, the one asked for, reports what it left, and removes it. */
  lemma WaitReports(s: Sched, child: Option<u64>, cleanupFails: bool)
    requires Inv(s) && WaitOutcomeOf(s, child, cleanupFails).Took?
    ensures var taken := WaitOutcomeOf(s, child, cleanupFails);
            && s.current.Some? && s.tasks[s.current.value].Some?
            && (child.Some? ==> taken.child == child.value)
            && exists i: Slot ::
                 && HasId(s.tasks[i], taken.child) && s.tasks[i].value.state == Terminated
                 && s.tasks[i].value.parent == Some(s.tasks[s.current.value].value.id)
                 && taken.code == s.tasks[i].value.exitCode
                 && Wait(s, child, cleanupFails) == s.(tasks := s.tasks[i := None])
  {
    hide NoLostWait, Scheduled, AnyMatch;
    var waiter := Waiter(s, child).value;
    var j := FindDone(s.tasks, waiter, child, 0).value;
    assert DoneChild(s.tasks[j], waiter, child);
    var i := FindId(s.tasks, s.tasks[j].value.id, 0).value;
    assert i == j;
    assert HasId(s.tasks[i], WaitOutcomeOf(s, child, cleanupFails).child);
  }

  /** And a wait for an ended child by its id takes it, unless its address space cannot be torn down. */
  lemma WaitTakes(s: Sched, i: Slot, cleanupFails: bool)
    requires Inv(s) && s.current.Some? && s.tasks[i].Some? && s.tasks[i].value.state == Terminated
    requires s.tasks[i].value.parent == Some(s.tasks[s.current.value].value.id)
    ensures var child := s.tasks[i].value;
            WaitOutcomeOf(s, Some(child.id), cleanupFails) ==
            if child.isUser && cleanupFails then GaveUp(AddressSpaceCleanup) else Took(child.id, child.exitCode)
  {
    hide NoLostWait, AnyMatch;
    var child := s.tasks[i].value;
    assert HasId(s.tasks[i], child.id);
    assert FindId(s.tasks, child.id, 0) == Some(i);
    var waiter := s.tasks[s.current.value].value.id;
    assert DoneChild(s.tasks[i], waiter, Some(child.id));
    var j := FindDone(s.tasks, waiter, Some(child.id), 0);
    assert j == Some(i);
    assert FitsState(s.tasks[i], i, s.current);
  }

  /** Whatever happens in between, a wait that takes a task reports the status it ended with. */
  lemma StatusArrives(s: Sched, step: Step, i: Slot, status: Option<u64>, steps: seq<Step>, child: Option<u64>, cleanupFails: bool)
    requires Inv(s) && EndsWith(s, step, i, status)
    ensures var taken := WaitOutcomeOf(Run(Apply(s, step), steps), child, cleanupFails);
            taken.Took? && taken.child == s.tasks[i].value.id ==> taken.code == status
  {
    hide Inv, Apply, Final, WaitOutcomeOf, Wait, Run, EndsWith;
    EndingRecorded(s, step, i, status);
    StepKeeps(s, step);
    var t := Apply(s, step);
    EndingsAreFinal(t, steps, i);
    RunKeeps(t, steps);
    var later := Run(t, steps);
    if WaitOutcomeOf(later, child, cleanupFails).Took? {
      WaitReports(later, child, cleanupFails);
      FinalSays(later, t.tasks[i].value);
    }
  }

  lemma FinalSays(s: Sched, t: Task)
    requires Final(s, t)
    ensures forall i: Slot :: HasId(s.tasks[i], t.id) ==> s.tasks[i] == Some(t)
  {
  }

  /** And as long as it has not been taken, its parent gets that status by waiting for it. */
  lemma StatusAwaits(s: Sched, step: Step, i: Slot, status: Option<u64>, steps: seq<Step>, j: Slot)
    requires Inv(s) && EndsWith(s, step, i, status)
    requires var later := Run(Apply(s, step), steps);
             && HasId(later.tasks[j], s.tasks[i].value.id)
             && later.current.Some? && later.tasks[later.current.value].Some?
             && s.tasks[i].value.parent == Some(later.tasks[later.current.value].value.id)
    ensures WaitOutcomeOf(Run(Apply(s, step), steps), Some(s.tasks[i].value.id), false) == Took(s.tasks[i].value.id, status)
  {
    hide Inv, Apply, Final, WaitOutcomeOf, Run, EndsWith;
    EndingRecorded(s, step, i, status);
    StepKeeps(s, step);
    var t := Apply(s, step);
    EndingsAreFinal(t, steps, i);
    RunKeeps(t, steps);
    FinalSays(Run(t, steps), t.tasks[i].value);
    WaitTakes(Run(t, steps), j, false);
  }

  // ---------- Nobody is taken twice ----------

  predicate Absent(s: Sched, id: u64) {
    id < s.nextId && forall i: Slot :: !HasId(s.tasks[i], id)
  }

  lemma AbsentStep(s: Sched, step: Step, id: u64)
    requires Inv(s) && Absent(s, id)
    ensures Absent(Apply(s, step), id)
  {
    NextIdGrows(s, step);
    hide Inv, Apply;
    forall i: Slot ensures !HasId(Apply(s, step).tasks[i], id) {
      StepMoves(s, step, i);
      assert !HasId(s.tasks[i], id);
    }
  }

  lemma {:induction false} AbsentRun(s: Sched, steps: seq<Step>, id: u64)
    requires Inv(s) && Absent(s, id)
    ensures Absent(Run(s, steps), id)
  {
    if steps != [] {
      hide Inv, Apply, Absent;
      var front := steps[..|steps| - 1];
      AbsentRun(s, front, id);
      RunKeeps(s, front);
      AbsentStep(Run(s, front), steps[|steps| - 1], id);
    }
  }

  /** A child that a wait has taken is gone: no later wait, whoever's it is, takes it again. */
  lemma TakenOnce(s: Sched, child: Option<u64>, cleanupFails: bool, steps: seq<Step>, child': Option<u64>, cleanupFails': bool)
    requires Inv(s) && WaitOutcomeOf(s, child, cleanupFails).Took?
    ensures var taken := WaitOutcomeOf(s, child, cleanupFails).child;
            var again := WaitOutcomeOf(Run(Apply(s, WaitRound(child, cleanupFails)), steps), child', cleanupFails');
            !(again.Took? && again.child == taken)
  {
    hide Inv, Apply, WaitOutcomeOf, Run, Wait;
    var step := WaitRound(child, cleanupFails);
    var taken := WaitOutcomeOf(s, child, cleanupFails).child;
    TakenIsAbsent(s, child, cleanupFails);
    WaitIsStep(s, child, cleanupFails);
    StepKeeps(s, step);
    AbsentRun(Apply(s, step), steps, taken);
    RunKeeps(Apply(s, step), steps);
    var later := Run(Apply(s, step), steps);
    if WaitOutcomeOf(later, child', cleanupFails').Took? {
      WaitReports(later, child', cleanupFails');
    }
  }

  lemma WaitIsStep(s: Sched, child: Option<u64>, cleanupFails: bool)
    ensures Apply(s, WaitRound(child, cleanupFails)) == Wait(s, child, cleanupFails)
  {
    hide Wait;
  }

  lemma TakenIsAbsent(s: Sched, child: Option<u64>, cleanupFails: bool)
    requires Inv(s) && WaitOutcomeOf(s, child, cleanupFails).Took?
    ensures Absent(Wait(s, child, cleanupFails), WaitOutcomeOf(s, child, cleanupFails).child)
  {
    hide WaitOutcomeOf, Wait, Inv, Absent;
    WaitReports(s, child, cleanupFails);
    var taken := WaitOutcomeOf(s, child, cleanupFails).child;
    var i: Slot :| HasId(s.tasks[i], taken) && Wait(s, child, cleanupFails) == s.(tasks := s.tasks[i := None]);
    RemovedIsAbsent(s, i, taken);
  }

  lemma RemovedIsAbsent(s: Sched, i: Slot, id: u64)
    requires Inv(s) && HasId(s.tasks[i], id)
    ensures Absent(s.(tasks := s.tasks[i := None]), id)
  {
    hide NoLostWait, Scheduled;
  }

  // ---------- Births ----------

  /** There is a slot to put a task in, besides the one kept for the idle task while that is not installed. */
  predicate Roomy(s: Sched) {
    exists i: Slot :: s.tasks[i].None? && (s.idle.Some? || exists j: Slot :: j != i && s.tasks[j].None?)
  }

  lemma {:induction false} FreeSlotsCount(tasks: Slots, from: nat)
    requires from <= MAX_TASKS
    ensures FreeSlots(tasks, from) >= 1 <==> exists i: Slot :: from <= i && tasks[i].None?
    ensures FreeSlots(tasks, from) >= 2 <==> exists i: Slot, j: Slot :: from <= i < j && tasks[i].None? && tasks[j].None?
    decreases MAX_TASKS - from
  {
    if from < MAX_TASKS {
      FreeSlotsCount(tasks, from + 1);
    }
  }

  /** The task in slot `i` is new: the next id, a child of whoever runs, ready, and with nothing else set. */
  predicate BornAt(s: Sched, s': Sched, i: Slot, isUser: bool) {
    && s.tasks[i].None? && s'.tasks[i].Some? && s'.tasks == s.tasks[i := s'.tasks[i]]
    && s'.nextId == s.nextId + 1 && s' == s.(tasks := s'.tasks, nextId := s'.nextId)
    && var t := s'.tasks[i].value;
       && t.id == s.nextId && t.state == Ready && t.exitCode.None? && t.wakeAt.None? && !t.isIdle && t.isUser == isUser
       && (t.parent.Some? <==> s.current.Some?)
       && (s.current.Some? ==> s.tasks[s.current.value].Some? && t.parent == Some(s.tasks[s.current.value].value.id))
  }

  lemma RoomyIs(s: Sched)
    ensures Roomy(s) <==> (exists i: Slot :: s.tasks[i].None?) && RoomToSpawn(s)
  {
    FreeSlotsCount(s.tasks, 0);
    hide FreeSlots;
  }

  lemma InsertResults(s: Sched)
    ensures InsertResult(s).Ok? <==> (exists i: Slot :: s.tasks[i].None?) && s.nextId + 1 < U64_LIMIT
    ensures InsertResult(s).Err? ==> forall parent, isIdle, isUser :: Insert(s, parent, isIdle, isUser) == s
  {
    var free := FreeSlot(s.tasks, 0);
    if free.Some? {
      assert s.tasks[free.value].None?;
    }
  }

  lemma InsertBears(s: Sched, isUser: bool)
    requires Scheduled(s.tasks, s.current) && InsertResult(s).Ok?
    ensures BornAt(s, Insert(s, CurrentId(s), false, isUser), InsertResult(s).value, isUser)
  {
  }

  /** A task is created exactly when nothing stands against it, and then as a ready child of whoever runs. */
  lemma CreateBears(s: Sched, isUser: bool, setupFails: bool)
    requires Inv(s)
    ensures var s' := Apply(s, Create(isUser, setupFails));
            if !setupFails && Roomy(s) && s.nextId + 1 < U64_LIMIT then exists i: Slot :: BornAt(s, s', i, isUser)
            else s' == s
  {
    RoomyIs(s);
    InsertResults(s);
    hide NoLostWait, Identified, Scheduled, Roomy, RoomToSpawn, BornAt, InsertResult;
    if InsertResult(s).Ok? {
      var i: Slot := InsertResult(s).value;
      InsertBears(s, isUser);
      assert RoomToSpawn(s) && !setupFails ==> BornAt(s, Apply(s, Create(isUser, setupFails)), i, isUser);
    }
  }

  // ---------- Sleeping ----------

  /** What the tick counter reads `late` ticks after the deadline. */
  function TicksAfter(deadline: u64, late: u64): u64 {
    (deadline + late) % U64_LIMIT
  }

  /** `now` is at or after the deadline, by less than half of the counter's range. */
  predicate Reached(now: u64, deadline: u64) {
    exists late: u64 :: late < U64_LIMIT / 2 && TicksAfter(deadline, late) == now
  }

  predicate Sleeps(s: Sched, i: Slot, id: u64, deadline: u64) {
    HasId(s.tasks[i], id) && s.tasks[i].value.state == Sleeping && s.tasks[i].value.wakeAt == Some(deadline)
  }

  /** The clock reading that this step acts on: a timer interrupt while a task runs, or a round of the idle loop. */
  predicate Reads(s: Sched, step: Step, now: u64) {
    (step == Tick(now) && s.current.Some?) || (step == Idle(now) && InIdleLoop(s))
  }

  /** The step ends the task, by a kill or by the exit of its group. */
  ghost predicate EndsAt(s: Sched, step: Step, i: Slot) {
    exists status :: EndsWith(s, step, i, status)
  }

  lemma ReachedIsExpired(now: u64, deadline: u64)
    ensures Reached(now, deadline) <==> (now - deadline) % U64_LIMIT < U64_LIMIT / 2
  {
    var gap := (now - deadline) % U64_LIMIT;
    assert TicksAfter(deadline, gap) == now;
    if gap < U64_LIMIT / 2 {
      assert Reached(now, deadline);
    }
  }

  /** A running task that goes to sleep sleeps until the deadline it named. */
  lemma FallsAsleep(s: Sched, deadline: u64)
    requires Inv(s) && s.current.Some? && !s.tasks[s.current.value].value.isIdle
    ensures var i := s.current.value;
            Sleeps(Apply(s, Sleep(deadline)), i, s.tasks[i].value.id, deadline)
  {
    hide NoLostWait, Pick;
    var i := s.current.value;
    assert FitsState(s.tasks[i], i, s.current);
    var mid := s.(tasks := s.tasks[i := Some(s.tasks[i].value.(state := Sleeping, wakeAt := Some(deadline)))], current := None);
    PickRunnable(mid.tasks, Around(i, 1));
  }

  /** A sleeper is woken by the step that reads a clock at or past its deadline, and disturbed by nothing else but its end. */
  lemma SleeperStep(s: Sched, step: Step, i: Slot, id: u64, deadline: u64)
    requires Inv(s) && Sleeps(s, i, id, deadline)
    ensures var s' := Apply(s, step);
            if exists now :: Reads(s, step, now) && Reached(now, deadline)
            then HasId(s'.tasks[i], id) && (s'.tasks[i].value.state == Ready || s'.tasks[i].value.state == Running)
            else Sleeps(s', i, id, deadline) || EndsAt(s, step, i)
  {
    assert FitsState(s.tasks[i], i, s.current);
    hide NoLostWait, Identified, Scheduled, AnyMatch, FreeSlots, HasLive, IsLive, Pick, Reached;
    match step {
      case Tick(now) => SleeperTick(s, now, i, id, deadline);
      case Idle(now) => SleeperIdle(s, now, i, id, deadline);
      case Leave(code, group) => if CanExit(s) { SleeperExit(s, code, group, i, id, deadline); }
      case Kill(victim, code) => SleeperKill(s, victim, code, i, id, deadline);
      case _ => DormantElse(s, step, i);
    }
  }

  /** Asleep or blocked. */
  predicate Dormant(slot: Option<Task>) {
    slot.Some? && (slot.value.state == Sleeping || slot.value.state.Blocked?)
  }

  /** Neither a selection nor somebody else's departure touches such a task. */
  lemma DormantUnselected(s: Sched, start: Slot, i: Slot)
    requires Dormant(s.tasks[i])
    ensures SelectNext(s, start).tasks[i] == s.tasks[i]
  {
    hide Pick;
    PickRunnable(s.tasks, start);
  }

  lemma DormantLeft(s: Sched, next: TaskState, i: Slot)
    requires Dormant(s.tasks[i])
    ensures Transition(s, next).tasks[i] == s.tasks[i]
  {
    hide SelectNext;
    var c := Leaver(s, next);
    if c.Ok? {
      DormantUnselected(s.(tasks := s.tasks[c.value := Some(Left(s.tasks[c.value].value, next))], current := None), Around(c.value, 1), i);
    }
  }

  lemma SleeperTick(s: Sched, now: u64, i: Slot, id: u64, deadline: u64)
    requires Sleeps(s, i, id, deadline) && s.current != Some(i)
    ensures var s' := Preempt(s, now);
            if s.current.Some? && Reached(now, deadline)
            then HasId(s'.tasks[i], id) && (s'.tasks[i].value.state == Ready || s'.tasks[i].value.state == Running)
            else Sleeps(s', i, id, deadline)
  {
    hide Transition;
    ReachedIsExpired(now, deadline);
    var woken := s.(tasks := WakeExpired(s.tasks, now));
    if s.current.Some? {
      if Reached(now, deadline) {
        ReadyLeft(woken, Ready, i);
      } else {
        DormantLeft(woken, Ready, i);
      }
    }
  }

  lemma ReadyLeft(s: Sched, next: TaskState, i: Slot)
    requires s.current != Some(i) && s.tasks[i].Some? && s.tasks[i].value.state == Ready
    ensures var t := Transition(s, next).tasks[i];
            t.Some? && t.value.id == s.tasks[i].value.id && (t.value.state == Ready || t.value.state == Running)
  {
    hide Pick;
  }

  lemma SleeperIdle(s: Sched, now: u64, i: Slot, id: u64, deadline: u64)
    requires Sleeps(s, i, id, deadline) && s.current != Some(i)
    ensures var s' := Apply(s, Idle(now));
            if InIdleLoop(s) && Reached(now, deadline)
            then HasId(s'.tasks[i], id) && s'.tasks[i].value.state == Ready
            else Sleeps(s', i, id, deadline)
  {
    hide HasLive;
    ReachedIsExpired(now, deadline);
  }

  lemma UnblockedStays(tasks: Slots, c: Slot, i: Slot)
    requires tasks[i].Some? && !tasks[i].value.state.Blocked?
    ensures WakeParent(tasks, c)[i] == tasks[i]
  {
  }

  lemma SleeperExit(s: Sched, code: Option<u64>, group: bool, i: Slot, id: u64, deadline: u64)
    requires CanExit(s) && Sleeps(s, i, id, deadline) && s.current != Some(i) && !s.tasks[i].value.isIdle
    ensures Sleeps(Exit(s, code, group), i, id, deadline) || EndsWith(s, Leave(code, group), i, code)
  {
    if !EndsWith(s, Leave(code, group), i, code) {
      var c := s.current.value;
      var parent := s.tasks[c].value.parent;
      var others := if group && parent.Some? then EndSiblings(s.tasks, c, parent.value, code) else s.tasks;
      assert others[i] == s.tasks[i];
      UnblockedStays(others[c := Some(others[c].value.(exitCode := code))], c, i);
      hide Transition;
      DormantLeft(s.(tasks := BeforeExit(s, code, group)), Terminated, i);
    }
  }

  lemma SleeperKill(s: Sched, victim: u64, code: u64, i: Slot, id: u64, deadline: u64)
    requires Sleeps(s, i, id, deadline) && s.current != Some(i) && !s.tasks[i].value.isIdle
    ensures Sleeps(Terminate(s, victim, code), i, id, deadline) || EndsWith(s, Kill(victim, code), i, Some(code))
  {
    var v := TerminateResult(s, victim);
    if v.Ok? && v.value != i {
      UnblockedStays(s.tasks[v.value := Some(Ended(s.tasks[v.value].value, Some(code)))], v.value, i);
    }
  }

  /** Steps that read no clock, end nobody and wake nobody leave such a task alone. */
  lemma DormantElse(s: Sched, step: Step, i: Slot)
    requires Dormant(s.tasks[i]) && s.current != Some(i) && !s.tasks[i].value.isIdle
    requires !step.Tick? && !step.Idle? && !step.Leave? && !step.Kill?
    requires s.tasks[i].value.state.Blocked? ==> !step.WakeOne? && !step.WakeEvery?
    ensures Apply(s, step).tasks[i] == s.tasks[i]
  {
    hide Transition, SelectNext, AnyMatch, FreeSlots, Waiter, TerminatedChild, SleepUntil, RunTasks;
    match step {
      case Yield => DormantLeft(s, Ready, i);
      case Block => DormantLeft(s, Blocked(Event), i);
      case Sleep(later) => DormantPassed(s, later, i);
      case WaitRound(child, cleanupFails) => DormantLeft(s, Blocked(Child(child)), i);
      case Enter(setupFails) => DormantEntered(s, setupFails, i);
      case _ =>
    }
  }

  lemma DormantPassed(s: Sched, later: u64, i: Slot)
    requires Dormant(s.tasks[i]) && s.current != Some(i)
    ensures SleepUntil(s, later).tasks[i] == s.tasks[i]
  {
    hide SelectNext;
    var c := Leaver(s, Sleeping);
    if c.Ok? {
      var task := s.tasks[c.value].value.(state := Sleeping, wakeAt := Some(later));
      DormantUnselected(s.(tasks := s.tasks[c.value := Some(task)], current := None), Around(c.value, 1), i);
    }
  }

  lemma DormantEntered(s: Sched, setupFails: bool, i: Slot)
    requires Dormant(s.tasks[i])
    ensures RunTasks(s, setupFails).tasks[i] == s.tasks[i]
  {
    hide SelectNext;
    DormantUnselected(s, 0, i);
    if s.idle.None? && InsertResult(s).Ok? {
      DormantUnselected(Insert(s, None, true, false).(idle := Some(InsertResult(s).value)), 0, i);
    }
  }

  /** Over a whole run: asleep until that deadline as long as no clock has read it, unless ended before. */
  lemma {:induction false} SleepsUntilReached(s: Sched, steps: seq<Step>, i: Slot, id: u64, deadline: u64)
    requires Inv(s) && Sleeps(s, i, id, deadline)
    requires forall k, now :: 0 <= k < |steps| && Reads(Run(s, steps[..k]), steps[k], now) ==> !Reached(now, deadline)
    requires forall k :: 0 <= k < |steps| ==> !EndsAt(Run(s, steps[..k]), steps[k], i)
    ensures Sleeps(Run(s, steps), i, id, deadline)
  {
    if steps != [] {
      hide Inv, Apply, Sleeps, EndsAt, Reads, Reached;
      var n := |steps| - 1;
      var front := steps[..n];
      forall k | 0 <= k < n
        ensures !EndsAt(Run(s, front[..k]), front[k], i)
        ensures forall now :: Reads(Run(s, front[..k]), front[k], now) ==> !Reached(now, deadline)
      {
        assert front[..k] == steps[..k];
      }
      SleepsUntilReached(s, front, i, id, deadline);
      RunKeeps(s, front);
      SleeperStep(Run(s, front), steps[n], i, id, deadline);
    }
  }

  // ---------- Blocking ----------

  predicate Waits(s: Sched, i: Slot, id: u64, on: Reason) {
    HasId(s.tasks[i], id) && s.tasks[i].value.state == Blocked(on)
  }

  /** The step wakes the task: by name, with all the others, or by the end of one of its children. */
  ghost predicate Wakes(s: Sched, step: Step, id: u64) {
    || step == WakeOne(id) || step == WakeEvery
    || exists j: Slot :: EndsAt(s, step, j) && s.tasks[j].value.parent == Some(id)
  }

  /** A blocked task is made ready by a step that wakes it, and disturbed by nothing else but its end. */
  lemma BlockedStep(s: Sched, step: Step, i: Slot, id: u64, on: Reason)
    requires Inv(s) && Waits(s, i, id, on)
    ensures var s' := Apply(s, step);
            if Wakes(s, step, id) then HasId(s'.tasks[i], id) && (s'.tasks[i].value.state == Ready || s'.tasks[i].value.state == Running)
            else Waits(s', i, id, on) || EndsAt(s, step, i)
  {
    assert FitsState(s.tasks[i], i, s.current);
    hide Inv, EndsWith, Transition, SelectNext, WakeParent, HasLive, Terminate;
    match step {
      case Tick(now) => BlockedTick(s, now, i);
      case Idle(now) =>
      case Leave(code, group) => BlockedExit(s, code, group, i, id, on);
      case Kill(victim, code) => BlockedKill(s, victim, code, i, id, on);
      case WakeOne(other) => BlockedWake(s, other, i, id);
      case WakeEvery =>
      case _ => DormantElse(s, step, i);
    }
  }

  lemma BlockedTick(s: Sched, now: u64, i: Slot)
    requires s.tasks[i].Some? && s.tasks[i].value.state.Blocked?
    ensures Preempt(s, now).tasks[i] == s.tasks[i]
  {
    hide Transition;
    var woken := s.(tasks := WakeExpired(s.tasks, now));
    DormantLeft(woken, Ready, i);
  }

  /** The parent of an ended task is found, whoever else ends, and becomes ready. */
  lemma ParentWoken(tasks: Slots, c: Slot, i: Slot, id: u64)
    requires tasks[c].Some? && HasId(tasks[i], id) && tasks[i].value.state.Blocked?
    requires forall a: Slot, b: Slot :: a != b && tasks[a].Some? && tasks[b].Some? ==> tasks[a].value.id != tasks[b].value.id
    ensures WakeParent(tasks, c)[i] == if tasks[c].value.parent == Some(id) then Some(tasks[i].value.(state := Ready)) else tasks[i]
  {
    var parent := tasks[c].value.parent;
    if parent.Some? {
      var p := FindId(tasks, parent.value, 0);
      assert p.Some? ==> HasId(tasks[p.value], parent.value);
    }
  }

  lemma BlockedKill(s: Sched, victim: u64, code: u64, i: Slot, id: u64, on: Reason)
    requires Inv(s) && Waits(s, i, id, on) && s.current != Some(i) && !s.tasks[i].value.isIdle
    ensures var s' := Terminate(s, victim, code);
            if Wakes(s, Kill(victim, code), id) then HasId(s'.tasks[i], id) && s'.tasks[i].value.state == Ready
            else Waits(s', i, id, on) || EndsAt(s, Kill(victim, code), i)
  {
    hide NoLostWait, Scheduled;
    var step := Kill(victim, code);
    var v := TerminateResult(s, victim);
    if v.Ok? {
      assert EndsWith(s, step, v.value, Some(code));
      assert EndsAt(s, step, v.value);
      forall j: Slot | EndsAt(s, step, j) ensures j == v.value { }
      if v.value != i {
        ParentWoken(s.tasks[v.value := Some(Ended(s.tasks[v.value].value, Some(code)))], v.value, i, id);
      }
    } else {
      forall j: Slot ensures !EndsAt(s, step, j) {
        assert HasId(s.tasks[j], victim) ==> FindId(s.tasks, victim, 0) == Some(j);
      }
    }
  }

  lemma BlockedWake(s: Sched, other: u64, i: Slot, id: u64)
    requires Inv(s) && HasId(s.tasks[i], id) && s.tasks[i].value.state.Blocked?
    ensures Wake(s, other).tasks[i] == if other == id then Some(s.tasks[i].value.(state := Ready)) else s.tasks[i]
  {
    hide NoLostWait, Scheduled;
    var found := FindId(s.tasks, other, 0);
    assert other == id ==> found == Some(i);
  }

  lemma BlockedExit(s: Sched, code: Option<u64>, group: bool, i: Slot, id: u64, on: Reason)
    requires Inv(s) && Waits(s, i, id, on) && s.current != Some(i) && !s.tasks[i].value.isIdle
    ensures var s', step := Apply(s, Leave(code, group)), Leave(code, group);
            if Wakes(s, step, id) then HasId(s'.tasks[i], id) && (s'.tasks[i].value.state == Ready || s'.tasks[i].value.state == Running)
            else Waits(s', i, id, on) || EndsAt(s, step, i)
  {
    hide NoLostWait, Transition, WakeParent;
    var step := Leave(code, group);
    if CanExit(s) {
      var c := s.current.value;
      var parent := s.tasks[c].value.parent;
      assert EndsWith(s, step, c, code);
      assert EndsAt(s, step, c);
      forall j: Slot | EndsAt(s, step, j) ensures s.tasks[j].value.parent == parent { }
      assert Wakes(s, step, id) <==> parent == Some(id);
      var others := if group && parent.Some? then EndSiblings(s.tasks, c, parent.value, code) else s.tasks;
      if EndsWith(s, step, i, code) {
        assert EndsAt(s, step, i) && parent != Some(id);
      } else {
        assert others[i] == s.tasks[i];
        var mid: Slots := others[c := Some(others[c].value.(exitCode := code))];
        ParentWoken(mid, c, i, id);
        var before := s.(tasks := BeforeExit(s, code, group));
        if parent == Some(id) {
          ReadyLeft(before, Terminated, i);
        } else {
          DormantLeft(before, Terminated, i);
        }
      }
    } else {
      assert s.current.Some? ==> FitsState(s.tasks[s.current.value], s.current.value, s.current);
    }
  }

  // ---------- Starting and stopping ----------

  /** Entering runs somebody, unless the idle task cannot be made. */
  lemma EnterRuns(s: Sched, setupFails: bool)
    requires Inv(s)
    ensures var s' := Apply(s, Enter(setupFails));
            if s.idle.None? && (setupFails || !(exists i: Slot :: s.tasks[i].None?) || s.nextId + 1 == U64_LIMIT) then s' == s
            else s'.current.Some? && s'.idle.Some?
  {
    hide Inv, Start, InsertResult, Insert;
    InsertResults(s);
    IdleReady(s);
    if s.idle.Some? {
      StartRuns(s);
    } else if InsertResult(s).Ok? && !setupFails {
      InsertsIdle(s);
      StartRuns(Insert(s, None, true, false).(idle := Some(InsertResult(s).value)));
    }
  }

  lemma IdleReady(s: Sched)
    requires Inv(s)
    ensures s.idle.Some? ==>
              var slot := s.tasks[s.idle.value];
              slot.Some? && slot.value.isIdle && (s.current.None? ==> slot.value.state == Ready)
  {
    hide NoLostWait;
    if s.idle.Some? {
      assert FitsState(s.tasks[s.idle.value], s.idle.value, s.current);
    }
  }

  lemma InsertsIdle(s: Sched)
    requires InsertResult(s).Ok?
    ensures var inserted := Insert(s, None, true, false);
            inserted.tasks[InsertResult(s).value] == Some(Newborn(s.nextId, None, true, false)) && inserted.current == s.current
  {
  }

  lemma StartRuns(s: Sched)
    requires s.idle.Some? && s.tasks[s.idle.value].Some? && s.tasks[s.idle.value].value.isIdle
    requires s.current.None? ==> s.tasks[s.idle.value].value.state == Ready
    ensures Start(s).current.Some? && Start(s).idle == s.idle
  {
    hide Pick;
    if s.current.None? {
      PickFinds(s.tasks, 0, s.idle.value);
    }
  }

  /** The idle loop goes back to the boot context exactly when no other task is left that has not ended. */
  lemma IdleStops(s: Sched, now: u64)
    requires Inv(s) && InIdleLoop(s)
    ensures Apply(s, Idle(now)).current.None? <==> forall i: Slot :: s.tasks[i].Some? && !s.tasks[i].value.isIdle ==> s.tasks[i].value.state == Terminated
  {
    hide NoLostWait, Identified;
    var tasks := WakeExpired(s.tasks, now);
    assert forall i: Slot :: tasks[i] == Awake(s.tasks[i], now);
    assert forall i: Slot :: IsLive(tasks[i]) == IsLive(s.tasks[i]);
  }

  /** Back there the idle task is dropped, so that the next entry makes another one. */
  lemma ReturnDropsIdle(s: Sched)
    requires Inv(s) && s.current.None?
    ensures var s' := Apply(s, Return);
            s'.idle.None? && forall i: Slot :: if s.tasks[i].Some? && s.tasks[i].value.isIdle then s'.tasks[i].None? else s'.tasks[i] == s.tasks[i]
  {
    hide NoLostWait;
    assert s.idle.Some? ==> FitsState(s.tasks[s.idle.value], s.idle.value, s.current);
  }
}
