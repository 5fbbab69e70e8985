/** What every step of the scheduler keeps, and what follows for whole runs. */
module SchedulerSafety {
  import opened Numbers
  import opened Options
  import opened Tasks

  // ---------- The invariant ----------

  /** Ids are distinct and below the next one, parents are older, and one slot at most is the idle task's. */
  predicate Identified(tasks: Slots, nextId: u64, idle: Option<Slot>) {
    && (forall i: Slot :: tasks[i].Some? ==> 1 <= tasks[i].value.id < nextId)
    && (forall i: Slot, j: Slot :: i != j && tasks[i].Some? && tasks[j].Some? ==> tasks[i].value.id != tasks[j].value.id)
    && (forall i: Slot :: tasks[i].Some? && tasks[i].value.parent.Some? ==> tasks[i].value.parent.value < tasks[i].value.id)
    && (forall i: Slot :: tasks[i].Some? && tasks[i].value.isIdle ==> idle == Some(i) && tasks[i].value.parent == None)
    && (idle.Some? ==> tasks[idle.value].Some? && tasks[idle.value].value.isIdle)
  }

  /** A task runs just when it is the current one, a sleeper has a deadline, and the idle task is ready or running. */
  predicate FitsState(slot: Option<Task>, i: Slot, current: Option<Slot>) {
    slot.Some? ==>
      && (slot.value.state == Running <==> current == Some(i))
      && (slot.value.state == Sleeping ==> slot.value.wakeAt.Some?)
      && (slot.value.isIdle ==> slot.value.state == Ready || slot.value.state == Running)
  }

  predicate Scheduled(tasks: Slots, current: Option<Slot>) {
    (forall i: Slot :: FitsState(tasks[i], i, current)) && (current.Some? ==> tasks[current.value].Some?)
  }

  /** A task asleep in `wait_for_child` has a child to wait for, and none that is already done. */
  predicate WaitsWell(tasks: Slots, i: Slot) {
    tasks[i].Some? && tasks[i].value.state.Blocked? && tasks[i].value.state.on.Child? ==>
      var id, child := tasks[i].value.id, tasks[i].value.state.on.child;
      AnyMatch(tasks, id, child) && forall j: Slot :: !DoneChild(tasks[j], id, child)
  }

  predicate NoLostWait(tasks: Slots) {
    forall i: Slot :: WaitsWell(tasks, i)
  }

  predicate Inv(s: Sched) {
    1 <= s.nextId && Identified(s.tasks, s.nextId, s.idle) && Scheduled(s.tasks, s.current) && NoLostWait(s.tasks)
  }

  // ---------- Changes of state that keep who is who ----------

  predicate SameTask(a: Option<Task>, b: Option<Task>) {
    && (a.Some? <==> b.Some?)
    && (a.Some? ==> b.value == a.value.(state := b.value.state, exitCode := b.value.exitCode, wakeAt := b.value.wakeAt))
  }

  predicate SameTasks(a: Slots, b: Slots) {
    forall i: Slot :: SameTask(a[i], b[i])
  }

  lemma IdentifiedKept(a: Slots, b: Slots, nextId: u64, idle: Option<Slot>)
    requires SameTasks(a, b) && Identified(a, nextId, idle)
    ensures Identified(b, nextId, idle)
  {
    assert forall i: Slot :: SameTask(a[i], b[i]);
  }

  /** No task falls into a wait, and no task ends unless nobody in a wait is its parent. */
  predicate Gentle(a: Slots, b: Slots) {
    forall i: Slot :: GentleAt(a, b, i)
  }

  predicate GentleAt(a: Slots, b: Slots, i: Slot) {
    && SameTask(a[i], b[i])
    && (b[i].Some? && b[i].value.state.Blocked? && b[i].value.state.on.Child? ==> b[i] == a[i])
    && (b[i].Some? && b[i].value.state == Terminated && a[i].value.state != Terminated ==> Orphan(b, b[i].value.parent))
  }

  /** Nobody who is waiting has this id. */
  predicate Orphan(tasks: Slots, parent: Option<u64>) {
    parent.Some? ==> forall k: Slot :: HasId(tasks[k], parent.value) ==> !(tasks[k].value.state.Blocked? && tasks[k].value.state.on.Child?)
  }

  lemma WaitsKept(a: Slots, b: Slots)
    requires NoLostWait(a) && Gentle(a, b)
    ensures NoLostWait(b)
  {
    forall i: Slot ensures WaitsWell(b, i) {
      assert GentleAt(a, b, i) && WaitsWell(a, i);
      if b[i].Some? && b[i].value.state.Blocked? && b[i].value.state.on.Child? {
        var id, child := b[i].value.id, b[i].value.state.on.child;
        var m: Slot :| Matches(a[m], id, child);
        assert GentleAt(a, b, m) && Matches(b[m], id, child);
        forall j: Slot ensures !DoneChild(b[j], id, child) {
          assert GentleAt(a, b, j) && !DoneChild(a[j], id, child);
          assert HasId(b[i], id);
        }
      }
    }
  }

  // ---------- Selection ----------

  lemma PickRunnable(tasks: Slots, start: Slot)
    ensures Pick(tasks, start).Some? ==> tasks[Pick(tasks, start).value].Some? && tasks[Pick(tasks, start).value].value.state == Ready
  {
  }

  /** Going around reaches every slot. */
  lemma Reaches(start: Slot, i: Slot)
    ensures Around(start, (i - start + MAX_TASKS) % MAX_TASKS) == i
  {
  }

  /** Nothing is picked only when nothing is ready. */
  lemma PickFinds(tasks: Slots, start: Slot, i: Slot)
    requires tasks[i].Some? && tasks[i].value.state == Ready
    ensures Pick(tasks, start).Some?
  {
    Reaches(start, i);
    var o := (i - start + MAX_TASKS) % MAX_TASKS;
    assert Runnable(tasks[Around(start, o)], tasks[i].value.isIdle);
  }

  /** The state between giving up the processor and the next selection. */
  predicate Vacant(s: Sched) {
    1 <= s.nextId && Identified(s.tasks, s.nextId, s.idle) && Scheduled(s.tasks, None) && NoLostWait(s.tasks)
  }

  lemma SelectKeeps(s: Sched, start: Slot)
    requires Vacant(s)
    ensures Inv(SelectNext(s, start))
    ensures SameTasks(s.tasks, SelectNext(s, start).tasks)
  {
    hide Identified, NoLostWait, Pick;
    PickRunnable(s.tasks, start);
    var t := SelectNext(s, start);
    assert Gentle(s.tasks, t.tasks);
    WaitsKept(s.tasks, t.tasks);
    assert SameTasks(s.tasks, t.tasks);
    IdentifiedKept(s.tasks, t.tasks, s.nextId, s.idle);
  }

  // ---------- Giving up the processor ----------

  /** One task leaves the processor; if it goes to wait, it has reason to. */
  lemma LeaveKeeps(s: Sched, i: Slot, task: Task)
    requires Inv(s) && s.current == Some(i) && s.tasks[i].Some? && SameTask(s.tasks[i], Some(task))
    requires task.state != Running && (task.isIdle ==> task.state == Ready) && (task.state == Sleeping ==> task.wakeAt.Some?)
    requires task.state == Terminated ==> Orphan(s.tasks[i := Some(task)], task.parent)
    requires WaitsWell(s.tasks[i := Some(task)], i)
    ensures Vacant(s.(tasks := s.tasks[i := Some(task)], current := None))
  {
    var tasks := s.tasks[i := Some(task)];
    IdentifiedKept(s.tasks, tasks, s.nextId, s.idle);
    hide Identified, SameTask;
    if task.state.Blocked? && task.state.on.Child? {
      forall k: Slot ensures WaitsWell(tasks, k) {
        if k != i {
          WaiterUnmoved(s.tasks, tasks, i, k);
        }
      }
    } else {
      hide Scheduled;
      assert SameTask(s.tasks[i], Some(task));
      LeaverGentle(s.tasks, i, task);
      WaitsKept(s.tasks, tasks);
    }
  }

  lemma LeaverGentle(a: Slots, i: Slot, task: Task)
    requires a[i].Some? && SameTask(a[i], Some(task)) && !(task.state.Blocked? && task.state.on.Child?)
    requires task.state == Terminated ==> Orphan(a[i := Some(task)], task.parent)
    ensures Gentle(a, a[i := Some(task)])
  {
  }

  lemma WaiterUnmoved(a: Slots, b: Slots, i: Slot, k: Slot)
    requires WaitsWell(a, k) && k != i && b == a[i := b[i]] && SameTask(a[i], b[i])
    requires b[i].Some? && b[i].value.state.Blocked?
    ensures WaitsWell(b, k)
  {
    if b[k].Some? && b[k].value.state.Blocked? && b[k].value.state.on.Child? {
      var id, child := b[k].value.id, b[k].value.state.on.child;
      var m: Slot :| Matches(a[m], id, child);
      assert Matches(b[m], id, child);
      forall j: Slot ensures !DoneChild(b[j], id, child) {
        assert !DoneChild(a[j], id, child);
      }
    }
  }

  lemma TransitionKeeps(s: Sched, next: TaskState)
    requires Inv(s) && next != Running && next != Sleeping
    requires Leaver(s, next).Ok? && next == Terminated ==> Orphan(s.tasks, s.tasks[s.current.value].value.parent)
    requires Leaver(s, next).Ok? && next.Blocked? && next.on.Child? ==>
               var id := s.tasks[s.current.value].value.id;
               AnyMatch(s.tasks, id, next.on.child) && forall j: Slot :: !DoneChild(s.tasks[j], id, next.on.child)
    ensures Inv(Transition(s, next))
  {
    var i := Leaver(s, next);
    if i.Ok? {
      var task := Left(s.tasks[i.value].value, next);
      var tasks := s.tasks[i.value := Some(task)];
      assert WaitsWell(tasks, i.value) by {
        if next.Blocked? && next.on.Child? {
          var m: Slot :| Matches(s.tasks[m], task.id, next.on.child);
          assert Matches(tasks[m], task.id, next.on.child);
          forall j: Slot ensures !DoneChild(tasks[j], task.id, next.on.child) {
            assert !DoneChild(s.tasks[j], task.id, next.on.child);
          }
        }
      }
      assert next == Terminated ==> Orphan(tasks, task.parent);
      hide Identified, Scheduled, NoLostWait, Orphan, WaitsWell;
      LeaveKeeps(s, i.value, task);
      SelectKeeps(s.(tasks := tasks, current := None), Around(i.value, 1));
    }
  }

  lemma SleepKeeps(s: Sched, deadline: u64)
    requires Inv(s)
    ensures Inv(SleepUntil(s, deadline))
  {
    var i := Leaver(s, Sleeping);
    if i.Ok? {
      var task := s.tasks[i.value].value.(state := Sleeping, wakeAt := Some(deadline));
      hide Identified, Scheduled, NoLostWait;
      LeaveKeeps(s, i.value, task);
      SelectKeeps(s.(tasks := s.tasks[i.value := Some(task)], current := None), Around(i.value, 1));
    }
  }

  // ---------- Waking ----------

  predicate OnlyWoken(a: Slots, b: Slots) {
    forall i: Slot :: WokenAt(a, b, i)
  }

  predicate WokenAt(a: Slots, b: Slots, i: Slot) {
    b[i] == a[i] || (a[i].Some? && b[i].Some? && SameTask(a[i], b[i]) && b[i].value.state == Ready
                     && (a[i].value.state.Blocked? || a[i].value.state == Sleeping))
  }

  lemma WokenKeeps(s: Sched, tasks: Slots)
    requires Inv(s) && OnlyWoken(s.tasks, tasks)
    ensures Inv(s.(tasks := tasks))
  {
    assert SameTasks(s.tasks, tasks) by {
      forall i: Slot ensures SameTask(s.tasks[i], tasks[i]) { assert WokenAt(s.tasks, tasks, i); }
    }
    IdentifiedKept(s.tasks, tasks, s.nextId, s.idle);
    assert Gentle(s.tasks, tasks) by {
      forall i: Slot ensures GentleAt(s.tasks, tasks, i) { assert WokenAt(s.tasks, tasks, i); }
    }
    WaitsKept(s.tasks, tasks);
    hide Identified, NoLostWait, Gentle, SameTasks;
    forall i: Slot ensures FitsState(tasks[i], i, s.current) {
      assert FitsState(s.tasks[i], i, s.current) && WokenAt(s.tasks, tasks, i);
    }
    assert s.current.Some? ==> WokenAt(s.tasks, tasks, s.current.value);
  }

  lemma WakeParentWakes(tasks: Slots, i: Slot)
    ensures OnlyWoken(tasks, WakeParent(tasks, i))
  {
  }

  /** After `wake_parent` of a task, no waiter is its parent; ids being distinct, there was only one to wake. */
  lemma ParentAwake(tasks: Slots, i: Slot, nextId: u64, idle: Option<Slot>)
    requires Identified(tasks, nextId, idle) && tasks[i].Some?
    ensures Orphan(WakeParent(tasks, i), tasks[i].value.parent)
  {
    var after := WakeParent(tasks, i);
    var parent := tasks[i].value.parent;
    if parent.Some? {
      forall k: Slot | HasId(after[k], parent.value) ensures !(after[k].value.state.Blocked? && after[k].value.state.on.Child?) {
        assert HasId(tasks[k], parent.value);
      }
    }
  }

  // ---------- Ending ----------

  /** Ending a task and waking its parent, in one. */
  lemma TerminateKeeps(s: Sched, id: u64, code: u64)
    requires Inv(s)
    ensures Inv(Terminate(s, id, code))
  {
    var i := TerminateResult(s, id);
    if i.Ok? {
      var ended := Ended(s.tasks[i.value].value, Some(code));
      var mid := s.tasks[i.value := Some(ended)];
      var after := WakeParent(mid, i.value);
      assert SameTasks(s.tasks, mid);
      IdentifiedKept(s.tasks, mid, s.nextId, s.idle);
      WakeParentWakes(mid, i.value);
      ParentAwake(mid, i.value, s.nextId, s.idle);
      EndedKeeps(s, mid, after, ended.parent);
    }
  }

  /** Some tasks other than the current one, all with the same parent, end; then wakes leave that parent awake. */
  lemma EndedKeeps(s: Sched, mid: Slots, after: Slots, parent: Option<u64>)
    requires Inv(s) && OnlyWoken(mid, after) && Orphan(after, parent)
    requires forall i: Slot :: EndedAt(s, mid, i, parent)
    ensures Inv(s.(tasks := after))
  {
    assert SameTasks(s.tasks, after) by {
      forall i: Slot ensures SameTask(s.tasks[i], after[i]) { assert EndedAt(s, mid, i, parent) && WokenAt(mid, after, i); }
    }
    IdentifiedKept(s.tasks, after, s.nextId, s.idle);
    assert Gentle(s.tasks, after) by {
      forall i: Slot ensures GentleAt(s.tasks, after, i) { assert EndedAt(s, mid, i, parent) && WokenAt(mid, after, i); }
    }
    WaitsKept(s.tasks, after);
    hide Identified, NoLostWait, Gentle, Orphan;
    forall i: Slot ensures FitsState(after[i], i, s.current) {
      assert FitsState(s.tasks[i], i, s.current) && EndedAt(s, mid, i, parent) && WokenAt(mid, after, i);
    }
    assert s.current.Some? ==> SameTask(s.tasks[s.current.value], after[s.current.value]);
  }

  predicate EndedAt(s: Sched, mid: Slots, i: Slot, parent: Option<u64>) {
    || mid[i] == s.tasks[i]
    || (s.tasks[i].Some? && mid[i].Some? && SameTask(s.tasks[i], mid[i]) && s.current != Some(i) && !s.tasks[i].value.isIdle
        && mid[i].value.state == Terminated && mid[i].value.parent == parent)
    || (s.current == Some(i) && s.tasks[i].Some? && mid[i].Some? && mid[i] == Some(s.tasks[i].value.(exitCode := mid[i].value.exitCode)))
  }

  lemma ExitKeeps(s: Sched, code: Option<u64>, group: bool)
    requires Inv(s) && CanExit(s)
    ensures Inv(Exit(s, code, group))
  {
    var i := s.current.value;
    var parent := s.tasks[i].value.parent;
    var others := if group && parent.Some? then EndSiblings(s.tasks, i, parent.value, code) else s.tasks;
    var mid: Slots := others[i := Some(others[i].value.(exitCode := code))];
    var after := WakeParent(mid, i);
    assert forall k: Slot :: EndedAt(s, mid, k, parent) by {
      forall k: Slot ensures EndedAt(s, mid, k, parent) { }
    }
    assert SameTasks(s.tasks, mid) by {
      forall k: Slot ensures SameTask(s.tasks[k], mid[k]) { assert EndedAt(s, mid, k, parent); }
    }
    IdentifiedKept(s.tasks, mid, s.nextId, s.idle);
    hide Inv, Identified, Scheduled, NoLostWait, EndedAt, SameTasks, EndSiblings;
    WakeParentWakes(mid, i);
    ParentAwake(mid, i, s.nextId, s.idle);
    EndedKeeps(s, mid, after, parent);
    ExitParent(mid, i);
    TransitionKeeps(s.(tasks := after), Terminated);
  }

  lemma ExitParent(tasks: Slots, i: Slot)
    requires tasks[i].Some?
    ensures WakeParent(tasks, i)[i].Some? && WakeParent(tasks, i)[i].value.parent == tasks[i].value.parent
  {
  }

  // ---------- Creating and removing ----------

  /** A slot that no waiter depends on is emptied. */
  lemma RemoveKeeps(tasks: Slots, i: Slot)
    requires NoLostWait(tasks) && tasks[i].Some?
    requires tasks[i].value.state == Terminated || tasks[i].value.parent.None?
    ensures NoLostWait(tasks[i := None])
  {
    var after := tasks[i := None];
    forall k: Slot ensures WaitsWell(after, k) {
      assert WaitsWell(tasks, k);
      if after[k].Some? && after[k].value.state.Blocked? && after[k].value.state.on.Child? {
        var id, child := after[k].value.id, after[k].value.state.on.child;
        var m: Slot :| Matches(tasks[m], id, child);
        assert !DoneChild(tasks[i], id, child) && !DoneChild(tasks[m], id, child);
        assert Matches(after[m], id, child);
        forall j: Slot ensures !DoneChild(after[j], id, child) {
          assert !DoneChild(tasks[j], id, child);
        }
      }
    }
  }

  lemma ReapKeeps(s: Sched, id: u64, cleanupFails: bool)
    requires Inv(s)
    ensures Inv(Reap(s, id, cleanupFails))
  {
    var i := ReapResult(s, id, cleanupFails);
    if i.Ok? {
      hide NoLostWait, Inv, Identified, Scheduled;
      assert Inv(s);
      EmptiedKeeps(s, i.value);
    }
  }

  lemma EmptiedKeeps(s: Sched, i: Slot)
    requires Inv(s) && s.tasks[i].Some? && s.tasks[i].value.state == Terminated
    ensures Inv(s.(tasks := s.tasks[i := None]))
  {
    RemoveKeeps(s.tasks, i);
    hide NoLostWait;
    var tasks := s.tasks[i := None];
    assert FitsState(s.tasks[i], i, s.current);
    forall k: Slot ensures FitsState(tasks[k], k, s.current) {
      assert FitsState(s.tasks[k], k, s.current);
    }
    assert Identified(tasks, s.nextId, s.idle);
  }

  lemma WaitKeeps(s: Sched, child: Option<u64>, cleanupFails: bool)
    requires Inv(s)
    ensures Inv(Wait(s, child, cleanupFails))
  {
    hide Inv, AnyMatch;
    var waiter := Waiter(s, child);
    if waiter.Ok? {
      var done := TerminatedChild(s.tasks, waiter.value, child);
      if done.Ok? {
        ReapKeeps(s, done.value, cleanupFails);
      } else if done.error == ChildRunning {
        TransitionKeeps(s, Blocked(Child(child)));
      }
    }
  }

  lemma InsertKeeps(s: Sched, parent: Option<u64>, isIdle: bool, isUser: bool)
    requires Inv(s) && (isIdle ==> s.idle == None && parent == None) && (parent.Some? ==> parent.value < s.nextId)
    ensures InsertResult(s).Ok? ==> Inv(Insert(s, parent, isIdle, isUser).(idle := if isIdle then Some(InsertResult(s).value) else s.idle))
  {
    var slot := InsertResult(s);
    if slot.Ok? {
      var i, task := slot.value, Newborn(s.nextId, parent, isIdle, isUser);
      AddedKeeps(s.tasks, i, task);
      AddedIdentified(s.tasks, i, task, s.nextId, s.idle);
      hide NoLostWait, Identified;
      var tasks: Slots := s.tasks[i := Some(task)];
      forall k: Slot ensures FitsState(tasks[k], k, s.current) {
        assert FitsState(s.tasks[k], k, s.current);
      }
    }
  }

  lemma AddedIdentified(tasks: Slots, i: Slot, task: Task, nextId: u64, idle: Option<Slot>)
    requires Identified(tasks, nextId, idle) && tasks[i].None? && task.id == nextId && 1 <= nextId && nextId + 1 < U64_LIMIT
    requires (task.parent.Some? ==> task.parent.value < nextId) && (task.isIdle ==> idle == None && task.parent == None)
    ensures Identified(tasks[i := Some(task)], nextId + 1, if task.isIdle then Some(i) else idle)
  {
  }

  lemma AddedKeeps(tasks: Slots, i: Slot, task: Task)
    requires NoLostWait(tasks) && tasks[i].None? && task.state == Ready
    ensures NoLostWait(tasks[i := Some(task)])
  {
    var after := tasks[i := Some(task)];
    forall k: Slot ensures WaitsWell(after, k) {
      assert WaitsWell(tasks, k);
      if after[k].Some? && after[k].value.state.Blocked? && after[k].value.state.on.Child? {
        var id, child := after[k].value.id, after[k].value.state.on.child;
        var m: Slot :| Matches(tasks[m], id, child);
        assert Matches(after[m], id, child);
        forall j: Slot ensures !DoneChild(after[j], id, child) {
          assert !DoneChild(tasks[j], id, child);
        }
      }
    }
  }

  lemma StartKeeps(s: Sched)
    requires Inv(s)
    ensures Inv(Start(s))
  {
    hide Identified, Scheduled, NoLostWait;
    if s.current.None? {
      SelectKeeps(s, 0);
    }
  }

  lemma RunTasksKeeps(s: Sched, setupFails: bool)
    requires Inv(s)
    ensures Inv(RunTasks(s, setupFails))
  {
    hide Inv;
    if s.idle.Some? {
      StartKeeps(s);
    } else if InsertResult(s).Ok? && !setupFails {
      InsertKeeps(s, None, true, false);
      StartKeeps(Insert(s, None, true, false).(idle := Some(InsertResult(s).value)));
    }
  }

  lemma SpawnKeeps(s: Sched, isUser: bool, setupFails: bool)
    requires Inv(s)
    ensures Inv(Spawn(s, isUser, setupFails))
  {
    assert CurrentId(s).Some? ==> CurrentId(s).value < s.nextId;
    hide Inv;
    InsertKeeps(s, CurrentId(s), false, isUser);
  }

  lemma FinishKeeps(s: Sched)
    requires Inv(s)
    ensures Inv(FinishRun(s))
  {
    if FinishRun(s) != s {
      RemoveKeeps(s.tasks, s.idle.value);
      hide NoLostWait;
    }
  }

  lemma AwakeWakes(tasks: Slots, now: u64)
    ensures OnlyWoken(tasks, WakeExpired(tasks, now)) && OnlyWoken(tasks, WakeAll(tasks))
  {
  }

  lemma IdleKeeps(s: Sched, now: u64)
    requires Inv(s) && InIdleLoop(s)
    ensures Inv(IdleRound(s, now))
  {
    var tasks := WakeExpired(s.tasks, now);
    AwakeWakes(s.tasks, now);
    WokenKeeps(s, tasks);
    if !HasLive(tasks) {
      var i := s.current.value;
      assert WokenAt(s.tasks, tasks, i);
      hide Identified, Scheduled, NoLostWait, HasLive, WakeExpired, OnlyWoken;
      LeaveKeeps(s.(tasks := tasks), i, tasks[i].value.(state := Ready));
    }
  }

  // ---------- Every step, every run ----------

  lemma StepKeeps(s: Sched, step: Step)
    requires Inv(s)
    ensures Inv(Apply(s, step))
  {
    hide Inv;
    match step {
      case Yield => TransitionKeeps(s, Ready);
      case Tick(now) =>
        AwakeWakes(s.tasks, now);
        WokenKeeps(s, WakeExpired(s.tasks, now));
        TransitionKeeps(s.(tasks := WakeExpired(s.tasks, now)), Ready);
      case Block => TransitionKeeps(s, Blocked(Event));
      case Sleep(deadline) => SleepKeeps(s, deadline);
      case WakeOne(id) => WokenKeeps(s, Wake(s, id).tasks);
      case WakeEvery =>
        AwakeWakes(s.tasks, 0);
        WokenKeeps(s, WakeAll(s.tasks));
      case Kill(id, code) => TerminateKeeps(s, id, code);
      case Leave(status, group) => if CanExit(s) { ExitKeeps(s, status, group); }
      case WaitRound(child, cleanupFails) => WaitKeeps(s, child, cleanupFails);
      case Collect(id, cleanupFails) => ReapKeeps(s, id, cleanupFails);
      case Create(isUser, setupFails) => SpawnKeeps(s, isUser, setupFails);
      case Enter(setupFails) => RunTasksKeeps(s, setupFails);
      case Return => FinishKeeps(s);
      case Idle(now) => if InIdleLoop(s) { IdleKeeps(s, now); }
    }
  }

  lemma InitialInv()
    ensures Inv(Initial())
  {
  }

  /** The invariant holds in every reachable state. */
  lemma {:induction false} RunKeeps(s: Sched, steps: seq<Step>)
    requires Inv(s)
    ensures Inv(Run(s, steps))
  {
    hide Inv, Apply;
    if steps != [] {
      RunKeeps(s, steps[..|steps| - 1]);
      StepKeeps(Run(s, steps[..|steps| - 1]), steps[|steps| - 1]);
    }
  }
}
