/** Whole runs of the scheduler: endings are final, someone always runs, and nobody ready is passed over for long. */
module SchedulerRuns {
  import opened Options
  import opened Tasks
  import opened SchedulerSafety

  // ---------- How one slot can change in one step ----------

  /** Unchanged, or another state of a task that had not ended. */
  predicate Evolves(a: Option<Task>, b: Option<Task>) {
    a == b || (a.Some? && b.Some? && a.value.state != Terminated && SameTask(a, b))
  }

  predicate AllEvolve(a: Slots, b: Slots) {
    forall i: Slot :: Evolves(a[i], b[i])
  }

  lemma EvolveTwice(a: Slots, b: Slots, c: Slots)
    requires AllEvolve(a, b) && AllEvolve(b, c)
    ensures AllEvolve(a, c)
  {
    forall i: Slot ensures Evolves(a[i], c[i]) {
      assert Evolves(a[i], b[i]) && Evolves(b[i], c[i]);
    }
  }

  lemma SelectEvolves(s: Sched, start: Slot)
    ensures AllEvolve(s.tasks, SelectNext(s, start).tasks)
  {
    hide Pick;
    PickRunnable(s.tasks, start);
  }

  lemma TransitionEvolves(s: Sched, next: TaskState)
    ensures AllEvolve(s.tasks, Transition(s, next).tasks)
  {
    var i := Leaver(s, next);
    if i.Ok? {
      var mid := s.(tasks := s.tasks[i.value := Some(Left(s.tasks[i.value].value, next))], current := None);
      SelectEvolves(mid, Around(i.value, 1));
      EvolveTwice(s.tasks, mid.tasks, Transition(s, next).tasks);
    }
  }

  lemma SleepEvolves(s: Sched, deadline: u64)
    ensures AllEvolve(s.tasks, SleepUntil(s, deadline).tasks)
  {
    var i := Leaver(s, Sleeping);
    if i.Ok? {
      var mid := s.(tasks := s.tasks[i.value := Some(s.tasks[i.value].value.(state := Sleeping, wakeAt := Some(deadline)))], current := None);
      SelectEvolves(mid, Around(i.value, 1));
      EvolveTwice(s.tasks, mid.tasks, SleepUntil(s, deadline).tasks);
    }
  }

  lemma WokenEvolve(a: Slots, b: Slots)
    requires OnlyWoken(a, b)
    ensures AllEvolve(a, b)
  {
    forall i: Slot ensures Evolves(a[i], b[i]) {
      assert WokenAt(a, b, i);
    }
  }

  lemma ExitEvolves(s: Sched, code: Option<u64>, group: bool)
    requires CanExit(s)
    ensures AllEvolve(s.tasks, Exit(s, code, group).tasks)
  {
    var i := s.current.value;
    var parent := s.tasks[i].value.parent;
    var others := if group && parent.Some? then EndSiblings(s.tasks, i, parent.value, code) else s.tasks;
    var mid: Slots := others[i := Some(others[i].value.(exitCode := code))];
    assert AllEvolve(s.tasks, mid);
    hide AllEvolve, EndSiblings, Transition;
    WakeParentWakes(mid, i);
    WokenEvolve(mid, WakeParent(mid, i));
    EvolveTwice(s.tasks, mid, WakeParent(mid, i));
    TransitionEvolves(s.(tasks := BeforeExit(s, code, group)), Terminated);
    EvolveTwice(s.tasks, BeforeExit(s, code, group), Exit(s, code, group).tasks);
  }

  lemma TerminateEvolves(s: Sched, id: u64, code: u64)
    ensures AllEvolve(s.tasks, Terminate(s, id, code).tasks)
  {
    var i := TerminateResult(s, id);
    if i.Ok? {
      var mid := s.tasks[i.value := Some(Ended(s.tasks[i.value].value, Some(code)))];
      WakeParentWakes(mid, i.value);
      WokenEvolve(mid, WakeParent(mid, i.value));
      EvolveTwice(s.tasks, mid, WakeParent(mid, i.value));
    }
  }

  /** Over one step: evolution, a new task under a new number, or a removal of one that had ended. */
  predicate Moves(s: Sched, s': Sched, i: Slot) {
    || Evolves(s.tasks[i], s'.tasks[i])
    || (s.tasks[i].None? && s'.tasks[i].Some? && s'.tasks[i].value.id == s.nextId && s.nextId < s'.nextId)
    || (s.tasks[i].Some? && s'.tasks[i].None? && (s.tasks[i].value.state == Terminated || s.tasks[i].value.isIdle))
  }

  lemma ReapMoves(s: Sched, id: u64, cleanupFails: bool, i: Slot)
    ensures Moves(s, Reap(s, id, cleanupFails), i)
  {
  }

  lemma WaitMoves(s: Sched, child: Option<u64>, cleanupFails: bool, i: Slot)
    ensures Moves(s, Wait(s, child, cleanupFails), i)
  {
    hide Moves, Transition, Reap, AnyMatch;
    assert Moves(s, s, i) by { SameMoves(s, s, i); }
    var waiter := Waiter(s, child);
    if waiter.Ok? {
      var done := TerminatedChild(s.tasks, waiter.value, child);
      if done.Ok? {
        ReapMoves(s, done.value, cleanupFails, i);
      } else if done.error == ChildRunning {
        TransitionEvolves(s, Blocked(Child(child)));
        SameMoves(s, Transition(s, Blocked(Child(child))), i);
      }
    }
  }

  lemma SameMoves(s: Sched, s': Sched, i: Slot)
    requires AllEvolve(s.tasks, s'.tasks)
    ensures Moves(s, s', i)
  {
    assert Evolves(s.tasks[i], s'.tasks[i]);
  }

  lemma StartMoves(s: Sched, mid: Sched, i: Slot)
    requires Moves(s, mid, i)
    requires mid.tasks[i].Some? && s.tasks[i].None? ==> mid.tasks[i].value.state != Terminated
    ensures Moves(s, Start(mid), i)
  {
    hide SelectNext;
    if mid.current.None? {
      SelectEvolves(mid, 0);
      SelectedRest(mid, 0);
      assert Evolves(mid.tasks[i], SelectNext(mid, 0).tasks[i]);
    }
  }

  lemma SelectedRest(s: Sched, start: Slot)
    ensures SelectNext(s, start).nextId == s.nextId && SelectNext(s, start).idle == s.idle && SelectNext(s, start).picks == s.picks + 1
    ensures SelectNext(s, start).current == Pick(s.tasks, start)
  {
  }

  lemma EnterMoves(s: Sched, setupFails: bool, i: Slot)
    ensures Moves(s, RunTasks(s, setupFails), i)
  {
    if s.idle.Some? {
      StartMoves(s, s, i);
    } else if InsertResult(s).Ok? && !setupFails {
      var mid := Insert(s, None, true, false).(idle := Some(InsertResult(s).value));
      hide Start;
      StartMoves(s, mid, i);
    }
  }

  lemma IdleMoves(s: Sched, now: u64, i: Slot)
    requires Inv(s) && InIdleLoop(s)
    ensures Moves(s, IdleRound(s, now), i)
  {
    AwakeWakes(s.tasks, now);
    WokenEvolve(s.tasks, WakeExpired(s.tasks, now));
    assert Evolves(s.tasks[i], WakeExpired(s.tasks, now)[i]);
    assert FitsState(s.tasks[i], i, s.current);
    hide HasLive;
  }

  lemma StepMoves(s: Sched, step: Step, i: Slot)
    requires Inv(s)
    ensures Moves(s, Apply(s, step), i)
  {
    hide Inv, Moves, AllEvolve, Transition, SleepUntil, Exit, Wait, Terminate, Reap, RunTasks, IdleRound, WakeExpired, WakeAll, OnlyWoken;
    match step {
      case Yield => TransitionEvolves(s, Ready); SameMoves(s, Apply(s, step), i);
      case Tick(now) => TickEvolves(s, now); SameMoves(s, Apply(s, step), i);
      case Block => TransitionEvolves(s, Blocked(Event)); SameMoves(s, Apply(s, step), i);
      case Sleep(deadline) => SleepEvolves(s, deadline); SameMoves(s, Apply(s, step), i);
      case WakeOne(id) => WakeEvolves(s, id); SameMoves(s, Apply(s, step), i);
      case WakeEvery =>
        AwakeWakes(s.tasks, 0);
        WokenEvolve(s.tasks, WakeAll(s.tasks));
        SameMoves(s, Apply(s, step), i);
      case Kill(id, code) => TerminateEvolves(s, id, code); SameMoves(s, Apply(s, step), i);
      case Leave(status, group) =>
        if CanExit(s) { ExitEvolves(s, status, group); } else { NothingEvolves(s); }
        SameMoves(s, Apply(s, step), i);
      case WaitRound(child, cleanupFails) => WaitMoves(s, child, cleanupFails, i);
      case Collect(id, cleanupFails) => ReapMoves(s, id, cleanupFails, i);
      case Create(isUser, setupFails) => CreateMoves(s, isUser, setupFails, i);
      case Enter(setupFails) => EnterMoves(s, setupFails, i);
      case Return => ReturnMoves(s, i);
      case Idle(now) => if InIdleLoop(s) { IdleMoves(s, now, i); } else { NothingEvolves(s); SameMoves(s, s, i); }
    }
  }

  lemma NothingEvolves(s: Sched)
    ensures AllEvolve(s.tasks, s.tasks)
  {
  }

  lemma TickEvolves(s: Sched, now: u64)
    ensures AllEvolve(s.tasks, Preempt(s, now).tasks)
  {
    hide AllEvolve, Transition, WakeExpired;
    NothingEvolves(s);
    AwakeWakes(s.tasks, now);
    WokenEvolve(s.tasks, WakeExpired(s.tasks, now));
    TransitionEvolves(s.(tasks := WakeExpired(s.tasks, now)), Ready);
    EvolveTwice(s.tasks, WakeExpired(s.tasks, now), Transition(s.(tasks := WakeExpired(s.tasks, now)), Ready).tasks);
  }

  lemma WakeEvolves(s: Sched, id: u64)
    ensures AllEvolve(s.tasks, Wake(s, id).tasks)
  {
  }

  lemma CreateMoves(s: Sched, isUser: bool, setupFails: bool, i: Slot)
    ensures Moves(s, Spawn(s, isUser, setupFails), i)
  {
    hide FreeSlots;
  }

  lemma ReturnMoves(s: Sched, i: Slot)
    ensures Moves(s, FinishRun(s), i)
  {
  }

  // ---------- Endings are final ----------

  /** The record of an ended task: wherever its id still occurs, this is the record. */
  predicate Final(s: Sched, t: Task) {
    t.state == Terminated && t.id < s.nextId && forall i: Slot :: HasId(s.tasks[i], t.id) ==> s.tasks[i] == Some(t)
  }

  lemma FinalStep(s: Sched, step: Step, t: Task)
    requires Inv(s) && Final(s, t)
    ensures Final(Apply(s, step), t)
  {
    var s' := Apply(s, step);
    NextIdGrows(s, step);
    hide Inv, Apply;
    forall i: Slot | HasId(s'.tasks[i], t.id) ensures s'.tasks[i] == Some(t) {
      StepMoves(s, step, i);
      assert HasId(s.tasks[i], t.id) ==> s.tasks[i] == Some(t);
    }
  }

  lemma NextIdGrows(s: Sched, step: Step)
    ensures s.nextId <= Apply(s, step).nextId
  {
    hide Pick, AnyMatch, FreeSlots, HasLive;
  }

  /** A task that has ended keeps its state and exit code until it is reaped, and its id is never given again. */
  lemma {:induction false} EndingsAreFinal(s: Sched, steps: seq<Step>, i: Slot)
    requires Inv(s) && s.tasks[i].Some? && s.tasks[i].value.state == Terminated
    ensures Final(Run(s, steps), s.tasks[i].value)
  {
    if steps == [] {
      assert forall j: Slot :: HasId(s.tasks[j], s.tasks[i].value.id) ==> j == i;
    } else {
      hide Inv, Apply, Final;
      var front := steps[..|steps| - 1];
      EndingsAreFinal(s, front, i);
      RunKeeps(s, front);
      FinalStep(Run(s, front), steps[|steps| - 1], s.tasks[i].value);
    }
  }

  // ---------- Someone always runs ----------

  /** While a task is current, the idle task is installed. */
  predicate Manned(s: Sched) {
    s.current.Some? ==> s.idle.Some?
  }

  lemma MannedStep(s: Sched, step: Step)
    requires Manned(s)
    ensures Manned(Apply(s, step))
  {
    hide Pick, AnyMatch, FreeSlots, HasLive, WakeParent, EndSiblings, FindDone, FreeSlot, FindId;
  }

  lemma {:induction false} MannedRun(steps: seq<Step>)
    ensures Manned(Run(Initial(), steps))
  {
    hide Apply;
    if steps != [] {
      MannedRun(steps[..|steps| - 1]);
      MannedStep(Run(Initial(), steps[..|steps| - 1]), steps[|steps| - 1]);
    }
  }

  /** An ordinary task that stops leaves someone running. */
  lemma SomeoneRuns(s: Sched, next: TaskState)
    requires Inv(s) && Manned(s) && Leaver(s, next).Ok? && !s.tasks[s.current.value].value.isIdle
    ensures Transition(s, next).current.Some?
  {
    var i := s.current.value;
    var tasks: Slots := s.tasks[i := Some(Left(s.tasks[i].value, next))];
    assert FitsState(s.tasks[s.idle.value], s.idle.value, s.current);
    hide NoLostWait, Pick;
    PickFinds(tasks, Around(i, 1), s.idle.value);
  }

  lemma SleeperLeavesSomeone(s: Sched, deadline: u64)
    requires Inv(s) && Manned(s) && Leaver(s, Sleeping).Ok?
    ensures SleepUntil(s, deadline).current.Some?
  {
    var i := s.current.value;
    var tasks: Slots := s.tasks[i := Some(s.tasks[i].value.(state := Sleeping, wakeAt := Some(deadline)))];
    assert FitsState(s.tasks[s.idle.value], s.idle.value, s.current);
    hide NoLostWait, Pick;
    PickFinds(tasks, Around(i, 1), s.idle.value);
  }

  lemma ExitLeavesSomeone(s: Sched, code: Option<u64>, group: bool)
    requires Inv(s) && Manned(s) && CanExit(s)
    ensures Exit(s, code, group).current.Some?
  {
    ExitReady(s, code, group);
    hide Inv, Transition;
    SomeoneRuns(s.(tasks := BeforeExit(s, code, group)), Terminated);
  }

  /** Setting the exit codes and waking the parent keeps the invariant and the current task. */
  lemma ExitReady(s: Sched, code: Option<u64>, group: bool)
    requires Inv(s) && CanExit(s)
    ensures var t := s.(tasks := BeforeExit(s, code, group)); Inv(t) && CanExit(t) && !t.tasks[t.current.value].value.isIdle
  {
    var i := s.current.value;
    var parent := s.tasks[i].value.parent;
    var others := if group && parent.Some? then EndSiblings(s.tasks, i, parent.value, code) else s.tasks;
    var mid: Slots := others[i := Some(others[i].value.(exitCode := code))];
    assert forall k: Slot :: EndedAt(s, mid, k, parent) by {
      forall k: Slot ensures EndedAt(s, mid, k, parent) { }
    }
    assert SameTasks(s.tasks, mid) by {
      forall k: Slot ensures SameTask(s.tasks[k], mid[k]) { assert EndedAt(s, mid, k, parent); }
    }
    IdentifiedKept(s.tasks, mid, s.nextId, s.idle);
    hide Inv, Identified, Scheduled, NoLostWait, EndedAt, SameTasks, EndSiblings;
    WakeParentWakes(mid, i);
    ParentAwake(mid, i, s.nextId, s.idle);
    EndedKeeps(s, mid, WakeParent(mid, i), parent);
    assert WokenAt(mid, WakeParent(mid, i), i);
  }

  /** A wait either ends at once or blocks with someone else running. */
  lemma WaitLeavesSomeone(s: Sched, child: Option<u64>, cleanupFails: bool)
    requires Inv(s) && Manned(s) && s.current.Some? && s.tasks[s.current.value].Some? && !s.tasks[s.current.value].value.isIdle
    ensures Wait(s, child, cleanupFails).current.Some?
    ensures WaitOutcomeOf(s, child, cleanupFails) != GaveUp(NoRunnableTasks)
  {
    hide Inv, Leaver, TransitionResult, Transition, Waiter, TerminatedChild, ReapResult, Reap;
    MayBlock(s, child);
    SomeoneRuns(s, Blocked(Child(child)));
    SelectedRuns(s, Blocked(Child(child)));
    OtherErrors(s, child, cleanupFails);
    ReapLeavesCurrent(s, cleanupFails);
  }

  lemma MayBlock(s: Sched, child: Option<u64>)
    requires Inv(s) && s.current.Some? && s.tasks[s.current.value].Some? && !s.tasks[s.current.value].value.isIdle
    ensures Leaver(s, Blocked(Child(child))).Ok?
  {
    hide Identified, NoLostWait;
    assert FitsState(s.tasks[s.current.value], s.current.value, s.current);
  }

  lemma ReapLeavesCurrent(s: Sched, cleanupFails: bool)
    ensures forall id: u64 :: Reap(s, id, cleanupFails).current == s.current
  {
    hide ReapResult;
  }

  lemma OtherErrors(s: Sched, child: Option<u64>, cleanupFails: bool)
    ensures Waiter(s, child) != Err(NoRunnableTasks)
    ensures forall id: u64 :: ReapResult(s, id, cleanupFails) != Err(NoRunnableTasks)
    ensures forall id: u64 :: TerminatedChild(s.tasks, id, child) != Err(NoRunnableTasks)
  {
    hide AnyMatch;
  }

  lemma SelectedRuns(s: Sched, next: TaskState)
    requires Inv(s) && Leaver(s, next).Ok? && Transition(s, next).current.Some?
    ensures TransitionResult(s, next).Ok?
  {
    hide Inv, Pick;
    var i := s.current.value;
    PickRunnable(s.tasks[i := Some(Left(s.tasks[i].value, next))], Around(i, 1));
  }

  /** Yielding leaves someone running: at least the task itself is ready. */
  lemma YieldLeavesSomeone(s: Sched)
    requires Leaver(s, Ready).Ok?
    ensures Transition(s, Ready).current.Some?
  {
    hide Pick;
    var i := s.current.value;
    PickFinds(s.tasks[i := Some(Left(s.tasks[i].value, Ready))], Around(i, 1), i);
  }

  lemma BlockLeavesSomeone(s: Sched, next: TaskState)
    requires Inv(s) && Manned(s) && s.current.Some? && next != Ready
    ensures Transition(s, next).current.Some?
  {
    hide Inv, SelectNext;
    if Leaver(s, next).Ok? {
      SomeoneRuns(s, next);
    }
  }

  lemma TickLeavesSomeone(s: Sched, now: u64)
    requires s.current.Some?
    ensures Preempt(s, now).current.Some?
  {
    hide SelectNext, WakeExpired;
    var t := s.(tasks := WakeExpired(s.tasks, now));
    if Leaver(t, Ready).Ok? {
      YieldLeavesSomeone(t);
    }
  }

  lemma WaitAlwaysLeavesSomeone(s: Sched, child: Option<u64>, cleanupFails: bool)
    requires Inv(s) && Manned(s) && s.current.Some?
    ensures Wait(s, child, cleanupFails).current.Some?
  {
    hide Inv, Transition, Waiter, TerminatedChild, Reap;
    BlockLeavesSomeone(s, Blocked(Child(child)));
    ReapLeavesCurrent(s, cleanupFails);
  }

  /** Once a task runs, the processor goes back to the boot context only from the idle loop, and only with no task left. */
  lemma StopsOnlyWhenDone(s: Sched, step: Step)
    requires Inv(s) && Manned(s) && s.current.Some?
    ensures Apply(s, step).current.None? <==> step.Idle? && InIdleLoop(s) && !HasLive(WakeExpired(s.tasks, step.now))
  {
    hide Inv, Transition, SleepUntil, Exit, Wait, WakeExpired, WakeAll, HasLive, FreeSlots, WakeParent, CanExit, Preempt;
    match step {
      case Yield => if Leaver(s, Ready).Ok? { YieldLeavesSomeone(s); } else { Refused(s, Ready); }
      case Tick(now) => TickLeavesSomeone(s, now);
      case Block => BlockLeavesSomeone(s, Blocked(Event));
      case Sleep(deadline) => SleepStays(s, deadline);
      case Leave(status, group) => if CanExit(s) { ExitLeavesSomeone(s, status, group); }
      case WaitRound(child, cleanupFails) => WaitAlwaysLeavesSomeone(s, child, cleanupFails);
      case _ =>
    }
  }

  lemma Refused(s: Sched, next: TaskState)
    requires Leaver(s, next).Err?
    ensures Transition(s, next) == s
  {
  }

  lemma SleepStays(s: Sched, deadline: u64)
    requires Inv(s) && Manned(s) && s.current.Some?
    ensures SleepUntil(s, deadline).current.Some?
  {
    hide Inv, SelectNext;
    if Leaver(s, Sleeping).Ok? {
      SleeperLeavesSomeone(s, deadline);
    }
  }

  /** The same in every state that any run reaches. */
  lemma RunsStopOnlyWhenDone(steps: seq<Step>, step: Step)
    ensures var s := Run(Initial(), steps);
            s.current.Some? ==>
              (Apply(s, step).current.None? <==> step.Idle? && InIdleLoop(s) && !HasLive(WakeExpired(s.tasks, step.now)))
  {
    hide Inv, Apply, WakeExpired, HasLive, InIdleLoop, Run, Initial;
    InitialInv();
    RunKeeps(Initial(), steps);
    MannedRun(steps);
    if Run(Initial(), steps).current.Some? {
      StopsOnlyWhenDone(Run(Initial(), steps), step);
    }
  }

  // ---------- Bounded bypass ----------

  /** How many slots lie between where the next selection starts and slot `v`. */
  function Gap(start: Slot, v: Slot): (g: nat)
    ensures g < MAX_TASKS && Around(start, g) == v
  {
    (v - start + MAX_TASKS) % MAX_TASKS
  }

  function Cursor(s: Sched): Slot {
    if s.current.Some? then Around(s.current.value, 1) else 0
  }

  /** Task `id` stands ready in slot `v`. */
  predicate Stands(s: Sched, v: Slot, id: u64) {
    HasId(s.tasks[v], id) && Runnable(s.tasks[v], false)
  }

  lemma Closer(start: Slot, offset: nat, v: Slot)
    requires offset < Gap(start, v)
    ensures Gap(Around(Around(start, offset), 1), v) == Gap(start, v) - offset - 1
  {
    hide Gap, Around;
    AroundIs(start, offset);
    AroundIs(Around(start, offset), 1);
    GapIs(start, v);
    GapIs(Around(Around(start, offset), 1), v);
  }

  lemma AroundIs(start: Slot, offset: nat)
    requires offset < MAX_TASKS
    ensures Around(start, offset) == if start + offset < MAX_TASKS then start + offset else start + offset - MAX_TASKS
  {
  }

  lemma GapIs(start: Slot, v: Slot)
    ensures Gap(start, v) == if start <= v then v - start else v - start + MAX_TASKS
  {
  }

  /** A selection that passes over a standing task brings the cursor closer to it. */
  lemma SelectCloser(s: Sched, start: Slot, v: Slot, id: u64)
    requires Stands(s, v, id)
    ensures var t := SelectNext(s, start);
            Stands(t, v, id) ==> t.current.Some? && Gap(Cursor(t), v) + 1 <= Gap(start, v)
  {
    hide Gap, Around;
    var chosen := Scan(s.tasks, start, 0, false);
    var g := Gap(start, v);
    assert Runnable(s.tasks[Around(start, g)], false);
    if chosen.value < g {
      Closer(start, chosen.value, v);
    }
  }

  predicate Approaches(s: Sched, s': Sched, v: Slot) {
    s.picks <= s'.picks && s'.picks - s.picks + Gap(Cursor(s'), v) <= Gap(Cursor(s), v)
  }

  lemma TransitionCloser(s: Sched, next: TaskState, v: Slot, id: u64)
    requires Inv(s) && Stands(s, v, id) && Stands(Transition(s, next), v, id)
    ensures Approaches(s, Transition(s, next), v)
  {
    var i := Leaver(s, next);
    if i.Ok? {
      assert FitsState(s.tasks[v], v, s.current);
      hide Inv, SelectNext, Gap;
      var mid := s.(tasks := s.tasks[i.value := Some(Left(s.tasks[i.value].value, next))], current := None);
      SelectedRest(mid, Around(i.value, 1));
      SelectCloser(mid, Around(i.value, 1), v, id);
    }
  }

  lemma SleepCloser(s: Sched, deadline: u64, v: Slot, id: u64)
    requires Inv(s) && Stands(s, v, id) && Stands(SleepUntil(s, deadline), v, id)
    ensures Approaches(s, SleepUntil(s, deadline), v)
  {
    var i := Leaver(s, Sleeping);
    if i.Ok? {
      assert FitsState(s.tasks[v], v, s.current);
      hide Inv, SelectNext, Gap;
      var mid := s.(tasks := s.tasks[i.value := Some(s.tasks[i.value].value.(state := Sleeping, wakeAt := Some(deadline)))], current := None);
      SelectedRest(mid, Around(i.value, 1));
      SelectCloser(mid, Around(i.value, 1), v, id);
    }
  }

  /** A task standing after a step of a transition stood before it. */
  lemma StoodBefore(s: Sched, next: TaskState, v: Slot, id: u64)
    requires Stands(Transition(s, next), v, id) && next != Ready
    ensures Stands(s, v, id)
  {
    hide Pick;
    var i := Leaver(s, next);
    if i.Ok? {
      PickRunnable(s.tasks[i.value := Some(Left(s.tasks[i.value].value, next))], Around(i.value, 1));
    }
  }

  lemma ExitCloser(s: Sched, code: Option<u64>, group: bool, v: Slot, id: u64)
    requires Inv(s) && CanExit(s) && Stands(s, v, id) && Stands(Exit(s, code, group), v, id)
    ensures Approaches(s, Exit(s, code, group), v)
  {
    hide Inv, Transition, BeforeExit, Gap;
    ExitReady(s, code, group);
    var t := s.(tasks := BeforeExit(s, code, group));
    StoodBefore(t, Terminated, v, id);
    TransitionCloser(t, Terminated, v, id);
  }

  lemma TickCloser(s: Sched, now: u64, v: Slot, id: u64)
    requires Inv(s) && Stands(s, v, id) && Stands(Preempt(s, now), v, id)
    ensures Approaches(s, Preempt(s, now), v)
  {
    if s.current.Some? {
      AwakeWakes(s.tasks, now);
      WokenKeeps(s, WakeExpired(s.tasks, now));
      assert Stands(s.(tasks := WakeExpired(s.tasks, now)), v, id);
      hide Inv, Transition, Gap, WakeExpired;
      TransitionCloser(s.(tasks := WakeExpired(s.tasks, now)), Ready, v, id);
    }
  }

  lemma StartCloser(s: Sched, v: Slot, id: u64)
    requires Stands(s, v, id) && Stands(Start(s), v, id)
    ensures Approaches(s, Start(s), v)
  {
    hide SelectNext, Gap;
    if s.current.None? {
      SelectedRest(s, 0);
      SelectCloser(s, 0, v, id);
    }
  }

  lemma EnterCloser(s: Sched, setupFails: bool, v: Slot, id: u64)
    requires Stands(s, v, id) && Stands(RunTasks(s, setupFails), v, id)
    ensures Approaches(s, RunTasks(s, setupFails), v)
  {
    hide Start, Gap;
    if s.idle.Some? {
      StartCloser(s, v, id);
    } else if InsertResult(s).Ok? && !setupFails {
      StartCloser(Insert(s, None, true, false).(idle := Some(InsertResult(s).value)), v, id);
    }
  }

  lemma WaitCloser(s: Sched, child: Option<u64>, cleanupFails: bool, v: Slot, id: u64)
    requires Inv(s) && Stands(s, v, id) && Stands(Wait(s, child, cleanupFails), v, id)
    ensures Approaches(s, Wait(s, child, cleanupFails), v)
  {
    hide Inv, Transition, Gap, AnyMatch;
    var waiter := Waiter(s, child);
    if waiter.Ok? && TerminatedChild(s.tasks, waiter.value, child) == Err(ChildRunning) {
      TransitionCloser(s, Blocked(Child(child)), v, id);
    }
  }

  lemma IdleCloser(s: Sched, now: u64, v: Slot, id: u64)
    requires InIdleLoop(s) && Stands(s, v, id)
    ensures Approaches(s, IdleRound(s, now), v)
  {
    hide Gap;
    assert IsLive(WakeExpired(s.tasks, now)[v]);
  }

  lemma StepCloser(s: Sched, step: Step, v: Slot, id: u64)
    requires Inv(s) && Stands(s, v, id) && Stands(Apply(s, step), v, id)
    ensures Approaches(s, Apply(s, step), v)
  {
    hide Inv, Stands, Transition, SleepUntil, Exit, Wait, RunTasks, IdleRound, Preempt, Gap, FreeSlots, WakeExpired, WakeAll, CanExit, InIdleLoop;
    match step {
      case Yield => TransitionCloser(s, Ready, v, id);
      case Tick(now) => TickCloser(s, now, v, id);
      case Block => TransitionCloser(s, Blocked(Event), v, id);
      case Sleep(deadline) => SleepCloser(s, deadline, v, id);
      case Leave(status, group) => if CanExit(s) { ExitCloser(s, status, group, v, id); }
      case WaitRound(child, cleanupFails) => WaitCloser(s, child, cleanupFails, v, id);
      case Enter(setupFails) => EnterCloser(s, setupFails, v, id);
      case Idle(now) => if InIdleLoop(s) { IdleCloser(s, now, v, id); }
      case _ =>
    }
  }

  /** While a task stands ready, every selection is paid for by the distance to it. */
  lemma {:induction false} BypassesAreBounded(s: Sched, steps: seq<Step>, v: Slot, id: u64)
    requires Inv(s)
    requires forall k :: 0 <= k <= |steps| ==> Stands(Run(s, steps[..k]), v, id)
    ensures Approaches(s, Run(s, steps), v)
    ensures Run(s, steps).picks - s.picks < MAX_TASKS
  {
    assert steps[..|steps|] == steps;
    if steps == [] {
      assert Run(s, steps[..0]) == s;
    } else {
      hide Inv, Apply, Stands, Gap;
      var front := steps[..|steps| - 1];
      assert forall k :: 0 <= k <= |front| ==> front[..k] == steps[..k];
      BypassesAreBounded(s, front, v, id);
      RunKeeps(s, front);
      assert front[..|front|] == front;
      StepCloser(Run(s, front), steps[|steps| - 1], v, id);
    }
  }

  /** A task stops standing ready by being selected or by being ended. */
  predicate Answered(s: Sched, v: Slot, id: u64) {
    HasId(s.tasks[v], id) && (s.tasks[v].value.state == Running || s.tasks[v].value.state == Terminated)
  }

  /** Only the task that runs can go to sleep or block. */
  predicate OwnAccord(s: Sched, s': Sched, v: Slot) {
    s'.tasks[v].Some? && (s'.tasks[v].value.state.Blocked? || s'.tasks[v].value.state == Sleeping) && s'.tasks[v] != s.tasks[v] ==>
      s.current == Some(v)
  }

  lemma StepOwnAccord(s: Sched, step: Step, v: Slot)
    ensures OwnAccord(s, Apply(s, step), v)
  {
    hide Pick, AnyMatch, HasLive, FreeSlots, IsLive;
    match step {
      case Leave(status, group) => if CanExit(s) { ExitOwnAccord(s, status, group, v); }
      case _ =>
    }
  }

  lemma ExitOwnAccord(s: Sched, code: Option<u64>, group: bool, v: Slot)
    requires CanExit(s)
    ensures OwnAccord(s, Exit(s, code, group), v)
  {
    hide Pick;
  }

  lemma StepAnswers(s: Sched, step: Step, v: Slot, id: u64)
    requires Inv(s) && Stands(s, v, id)
    ensures Stands(Apply(s, step), v, id) || Answered(Apply(s, step), v, id)
  {
    assert FitsState(s.tasks[v], v, s.current);
    hide Inv, Apply;
    StepMoves(s, step, v);
    StepOwnAccord(s, step, v);
  }

  /** Whatever the mix of steps, within sixteen selections a ready task has been selected, or has been ended. */
  lemma {:induction false} SelectedInTime(s: Sched, steps: seq<Step>, v: Slot, id: u64)
    requires Inv(s) && Stands(s, v, id)
    requires Run(s, steps).picks >= s.picks + MAX_TASKS
    ensures exists k :: 0 <= k <= |steps| && Answered(Run(s, steps[..k]), v, id)
  {
    hide Inv, Apply, Stands, Answered, Run;
    if forall k :: 0 <= k <= |steps| ==> Stands(Run(s, steps[..k]), v, id) {
      BypassesAreBounded(s, steps, v, id);
    } else {
      var k := FirstLapse(s, steps, v, id);
      assert Answered(Run(s, steps[..k]), v, id);
    }
  }

  lemma {:induction false} FirstLapse(s: Sched, steps: seq<Step>, v: Slot, id: u64) returns (k: nat)
    requires Inv(s) && Stands(s, v, id)
    requires exists j :: 0 <= j <= |steps| && !Stands(Run(s, steps[..j]), v, id)
    ensures k <= |steps| && Answered(Run(s, steps[..k]), v, id)
  {
    hide Inv, Apply, Stands, Answered;
    assert Run(s, steps[..0]) == s;
    k := 0;
    while Stands(Run(s, steps[..k]), v, id)
      invariant k <= |steps|
      invariant forall j :: 0 <= j < k ==> Stands(Run(s, steps[..j]), v, id)
      invariant Stands(Run(s, steps[..k]), v, id) || Answered(Run(s, steps[..k]), v, id)
      decreases |steps| - k
    {
      var front := steps[..k];
      RunKeeps(s, front);
      assert k < |steps|;
      assert steps[..k + 1][..|steps[..k + 1]| - 1] == front;
      StepAnswers(Run(s, front), steps[k], v, id);
      k := k + 1;
    }
  }

  /** Every state of every run from the empty table: nobody waits for a child that is done or missing. */
  lemma NoLostChildWait(steps: seq<Step>, i: Slot)
    ensures var tasks := Run(Initial(), steps).tasks;
            tasks[i].Some? && tasks[i].value.state.Blocked? && tasks[i].value.state.on.Child? ==>
              var id, child := tasks[i].value.id, tasks[i].value.state.on.child;
              && (exists j: Slot :: Matches(tasks[j], id, child))
              && (forall j: Slot :: Matches(tasks[j], id, child) ==> tasks[j].value.state != Terminated)
  {
    hide Identified, Scheduled, Run;
    InitialInv();
    RunKeeps(Initial(), steps);
    var tasks := Run(Initial(), steps).tasks;
    assert WaitsWell(tasks, i);
    assert forall id: u64, child: Option<u64>, j: Slot :: Matches(tasks[j], id, child) && !DoneChild(tasks[j], id, child) ==> tasks[j].value.state != Terminated;
  }
}
