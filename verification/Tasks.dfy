/** The task table and its atomic steps: each locked section of the scheduler is one function on the whole state. */
module Tasks {
  import opened Numbers
  import opened Options

  const MAX_TASKS := 16

  type u64 = x: int | 0 <= x < U64_LIMIT

  /** Why a task is blocked. The scheduler does not record it: it only tells blocked from not blocked. */
  datatype Reason = Event | Child(child: Option<u64>)

  datatype TaskState = Ready | Running | Blocked(on: Reason) | Sleeping | Terminated

  datatype Task = Task(
    id: u64,
    parent: Option<u64>,
    state: TaskState,
    exitCode: Option<u64>,
    wakeAt: Option<u64>,
    isIdle: bool,
    isUser: bool)

  type Slots = s: seq<Option<Task>> | |s| == MAX_TASKS
    witness [None, None, None, None, None, None, None, None, None, None, None, None, None, None, None, None]

  type Slot = i: int | 0 <= i < MAX_TASKS

  /** `picks` counts the calls of `select_next`; no step depends on it. */
  datatype Sched = Sched(tasks: Slots, current: Option<Slot>, nextId: u64, idle: Option<Slot>, picks: nat)

  datatype SchedulerError =
    | Full
    | AlreadyStarted
    | NotStarted
    | NoRunnableTasks
    | UnknownTask
    | InvalidState
    | InvalidContext
    | AddressSpaceCleanup
    | TaskIdExhausted
    | NoChild
    | ChildRunning
    | NotChild

  datatype Result<+T> = Ok(value: T) | Err(error: SchedulerError) {
    predicate IsFailure() { Err? }
    function PropagateFailure<U>(): Result<U> requires Err? { Err(error) }
    function Extract(): T requires Ok? { value }
  }

  // ---------- Looking for a slot ----------

  predicate HasId(slot: Option<Task>, id: u64) {
    slot.Some? && slot.value.id == id
  }

  /** The first slot from `from` on that holds task `id`. */
  function FindId(tasks: Slots, id: u64, from: nat): (r: Option<Slot>)
    requires from <= MAX_TASKS
    ensures r.Some? ==> from <= r.value && HasId(tasks[r.value], id)
    ensures r.None? ==> forall i: Slot :: from <= i ==> !HasId(tasks[i], id)
    decreases MAX_TASKS - from
  {
    if from == MAX_TASKS then None
    else if HasId(tasks[from], id) then Some(from)
    else FindId(tasks, id, from + 1)
  }

  function FreeSlot(tasks: Slots, from: nat): (r: Option<Slot>)
    requires from <= MAX_TASKS
    ensures r.Some? ==> from <= r.value && tasks[r.value].None?
    ensures r.None? ==> forall i: Slot :: from <= i ==> tasks[i].Some?
    decreases MAX_TASKS - from
  {
    if from == MAX_TASKS then None
    else if tasks[from].None? then Some(from)
    else FreeSlot(tasks, from + 1)
  }

  function FreeSlots(tasks: Slots, from: nat): nat
    requires from <= MAX_TASKS
    decreases MAX_TASKS - from
  {
    if from == MAX_TASKS then 0
    else (if tasks[from].None? then 1 else 0) + FreeSlots(tasks, from + 1)
  }

  // ---------- Selection ----------

  predicate Runnable(slot: Option<Task>, idle: bool) {
    slot.Some? && slot.value.state == Ready && slot.value.isIdle == idle
  }

  function Around(start: Slot, offset: nat): Slot {
    (start + offset) % MAX_TASKS
  }

  /** The first runnable slot, going around from `start` and skipping `offset` slots. */
  function Scan(tasks: Slots, start: Slot, offset: nat, idle: bool): (r: Option<nat>)
    requires offset <= MAX_TASKS
    ensures r.Some? ==> offset <= r.value < MAX_TASKS && Runnable(tasks[Around(start, r.value)], idle)
    ensures forall o: nat :: offset <= o < (if r.Some? then r.value else MAX_TASKS) ==> !Runnable(tasks[Around(start, o)], idle)
    decreases MAX_TASKS - offset
  {
    if offset == MAX_TASKS then None
    else if Runnable(tasks[Around(start, offset)], idle) then Some(offset)
    else Scan(tasks, start, offset + 1, idle)
  }

  /** Ordinary tasks first; the idle task only when there are none. */
  function Pick(tasks: Slots, start: Slot): Option<Slot> {
    var ordinary := Scan(tasks, start, 0, false);
    var chosen := if ordinary.Some? then ordinary else Scan(tasks, start, 0, true);
    if chosen.Some? then Some(Around(start, chosen.value)) else None
  }

  function WithState(tasks: Slots, i: Slot, state: TaskState): Slots
    requires tasks[i].Some?
  {
    tasks[i := Some(tasks[i].value.(state := state))]
  }

  function SelectNext(s: Sched, start: Slot): Sched {
    var pick := Pick(s.tasks, start);
    if pick.None? then s.(current := None, picks := s.picks + 1)
    else s.(tasks := WithState(s.tasks, pick.value, Running), current := pick, picks := s.picks + 1)
  }

  /** What a selection reports: the task now running. */
  function Selected(s: Sched): Result<u64> {
    if s.current.Some? && s.tasks[s.current.value].Some? then Ok(s.tasks[s.current.value].value.id) else Err(NoRunnableTasks)
  }

  function Start(s: Sched): Sched {
    if s.current.Some? then s else SelectNext(s, 0)
  }

  // ---------- Leaving the processor ----------

  /** The task that may give up the processor for `next`, or why there is none. */
  function Leaver(s: Sched, next: TaskState): Result<Slot> {
    if s.current.None? then Err(NotStarted)
    else
      var slot := s.tasks[s.current.value];
      if slot.None? then Err(UnknownTask)
      else if slot.value.state != Running || (slot.value.isIdle && next != Ready) then Err(InvalidState)
      else Ok(s.current.value)
  }

  function Left(task: Task, next: TaskState): Task {
    task.(state := next, wakeAt := if next.Sleeping? then task.wakeAt else None)
  }

  function Transition(s: Sched, next: TaskState): Sched {
    var i := Leaver(s, next);
    if i.Err? then s
    else SelectNext(s.(tasks := s.tasks[i.value := Some(Left(s.tasks[i.value].value, next))], current := None), Around(i.value, 1))
  }

  function TransitionResult(s: Sched, next: TaskState): Result<u64> {
    var i := Leaver(s, next);
    if i.Err? then Err(i.error) else Selected(Transition(s, next))
  }

  function SleepUntil(s: Sched, deadline: u64): Sched {
    var i := Leaver(s, Sleeping);
    if i.Err? then s
    else
      var task := s.tasks[i.value].value.(state := Sleeping, wakeAt := Some(deadline));
      SelectNext(s.(tasks := s.tasks[i.value := Some(task)], current := None), Around(i.value, 1))
  }

  // ---------- Waking ----------

  /** The tick counter wraps; a deadline has passed when it is less than half the range behind. */
  predicate Expired(task: Task, now: u64) {
    task.state == Sleeping && task.wakeAt.Some? && (now - task.wakeAt.value) % U64_LIMIT < U64_LIMIT / 2
  }

  function Awake(slot: Option<Task>, now: u64): Option<Task> {
    if slot.Some? && Expired(slot.value, now) then Some(slot.value.(state := Ready, wakeAt := None)) else slot
  }

  function WakeExpired(tasks: Slots, now: u64): Slots {
    seq(MAX_TASKS, (i: nat) requires i < MAX_TASKS => Awake(tasks[i], now))
  }

  function Unblocked(slot: Option<Task>): Option<Task> {
    if slot.Some? && slot.value.state.Blocked? then Some(slot.value.(state := Ready)) else slot
  }

  function WakeAll(tasks: Slots): Slots {
    seq(MAX_TASKS, (i: nat) requires i < MAX_TASKS => Unblocked(tasks[i]))
  }

  function WakeResult(tasks: Slots, id: u64): Result<Slot> {
    var i := FindId(tasks, id, 0);
    if i.None? then Err(UnknownTask)
    else if !tasks[i.value].value.state.Blocked? then Err(InvalidState)
    else Ok(i.value)
  }

  function Wake(s: Sched, id: u64): Sched {
    var i := WakeResult(s.tasks, id);
    if i.Err? then s else s.(tasks := s.tasks[i.value := Unblocked(s.tasks[i.value])])
  }

  /** The parent of the task in slot `i` becomes ready if it is blocked. */
  function WakeParent(tasks: Slots, i: Slot): Slots {
    if tasks[i].None? || tasks[i].value.parent.None? then tasks
    else
      var p := FindId(tasks, tasks[i].value.parent.value, 0);
      if p.None? then tasks else tasks[p.value := Unblocked(tasks[p.value])]
  }

  // ---------- Ending and reaping ----------

  function Ended(task: Task, code: Option<u64>): Task {
    task.(state := Terminated, exitCode := code)
  }

  function TerminateResult(s: Sched, id: u64): Result<Slot> {
    var i := FindId(s.tasks, id, 0);
    if i.None? then Err(UnknownTask)
    else if s.current == i then Err(InvalidState)
    else
      var task := s.tasks[i.value].value;
      if task.isIdle || task.state == Terminated then Err(InvalidState) else Ok(i.value)
  }

  function Terminate(s: Sched, id: u64, code: u64): Sched {
    var i := TerminateResult(s, id);
    if i.Err? then s
    else s.(tasks := WakeParent(s.tasks[i.value := Some(Ended(s.tasks[i.value].value, Some(code)))], i.value))
  }

  /** A sibling that a group exit ends. */
  predicate Sibling(slot: Option<Task>, i: nat, current: nat, parent: u64) {
    i != current && slot.Some? && slot.value.parent == Some(parent) && slot.value.state != Terminated
  }

  function EndSiblings(tasks: Slots, current: Slot, parent: u64, code: Option<u64>): Slots {
    seq(MAX_TASKS, (i: nat) requires i < MAX_TASKS =>
      if Sibling(tasks[i], i, current, parent) then Some(Ended(tasks[i].value, code)) else tasks[i])
  }

  /** The current task may exit; without one, or from the idle task, the kernel panics instead. */
  predicate CanExit(s: Sched) {
    Leaver(s, Terminated).Ok?
  }

  function BeforeExit(s: Sched, code: Option<u64>, group: bool): Slots
    requires CanExit(s)
  {
    var i := s.current.value;
    var parent := s.tasks[i].value.parent;
    var others := if group && parent.Some? then EndSiblings(s.tasks, i, parent.value, code) else s.tasks;
    WakeParent(others[i := Some(others[i].value.(exitCode := code))], i)
  }

  function Exit(s: Sched, code: Option<u64>, group: bool): Sched
    requires CanExit(s)
  {
    Transition(s.(tasks := BeforeExit(s, code, group)), Terminated)
  }

  function ReapResult(s: Sched, id: u64, cleanupFails: bool): Result<Slot> {
    var i := FindId(s.tasks, id, 0);
    if i.None? then Err(UnknownTask)
    else if s.current == i || s.tasks[i.value].value.state != Terminated then Err(InvalidState)
    else if s.tasks[i.value].value.isUser && cleanupFails then Err(AddressSpaceCleanup)
    else Ok(i.value)
  }

  function Reap(s: Sched, id: u64, cleanupFails: bool): Sched {
    var i := ReapResult(s, id, cleanupFails);
    if i.Err? then s else s.(tasks := s.tasks[i.value := None])
  }

  // ---------- Waiting for a child ----------

  /** A child of `parent` that a wait for `child` is about. */
  predicate Matches(slot: Option<Task>, parent: u64, child: Option<u64>) {
    slot.Some? && slot.value.parent == Some(parent) && (child.Some? ==> slot.value.id == child.value)
  }

  predicate DoneChild(slot: Option<Task>, parent: u64, child: Option<u64>) {
    Matches(slot, parent, child) && slot.value.state == Terminated
  }

  function FindDone(tasks: Slots, parent: u64, child: Option<u64>, from: nat): (r: Option<Slot>)
    requires from <= MAX_TASKS
    ensures r.Some? ==> DoneChild(tasks[r.value], parent, child)
    ensures r.None? ==> forall i: Slot :: from <= i ==> !DoneChild(tasks[i], parent, child)
    decreases MAX_TASKS - from
  {
    if from == MAX_TASKS then None
    else if DoneChild(tasks[from], parent, child) then Some(from)
    else FindDone(tasks, parent, child, from + 1)
  }

  predicate AnyMatch(tasks: Slots, parent: u64, child: Option<u64>) {
    exists i: Slot :: Matches(tasks[i], parent, child)
  }

  function TerminatedChild(tasks: Slots, parent: u64, child: Option<u64>): Result<u64> {
    var done := FindDone(tasks, parent, child, 0);
    if done.Some? then Ok(tasks[done.value].value.id)
    else if AnyMatch(tasks, parent, child) then Err(ChildRunning)
    else Err(if child.Some? then UnknownTask else NoChild)
  }

  /** The current task, if waiting for this child is allowed at all. */
  function Waiter(s: Sched, child: Option<u64>): Result<u64> {
    if s.current.None? then Err(NotStarted)
    else if s.tasks[s.current.value].None? then Err(UnknownTask)
    else
      var id := s.tasks[s.current.value].value.id;
      if child.None? then Ok(id)
      else
        var c := FindId(s.tasks, child.value, 0);
        if c.None? then Err(UnknownTask)
        else if s.tasks[c.value].value.parent != Some(id) then Err(NotChild)
        else Ok(id)
  }

  /** What one round of the waiting loop does: take a finished child, give up, or block. */
  datatype WaitOutcome = Took(child: u64, code: Option<u64>) | GaveUp(error: SchedulerError) | Asleep

  function WaitOutcomeOf(s: Sched, child: Option<u64>, cleanupFails: bool): WaitOutcome {
    var waiter := Waiter(s, child);
    if waiter.Err? then GaveUp(waiter.error)
    else
      var done := TerminatedChild(s.tasks, waiter.value, child);
      if done.Ok? then
        var reaped := ReapResult(s, done.value, cleanupFails);
        if reaped.Err? then GaveUp(reaped.error) else Took(done.value, s.tasks[reaped.value].value.exitCode)
      else if done.error != ChildRunning then GaveUp(done.error)
      else
        var left := TransitionResult(s, Blocked(Child(child)));
        if left.Err? then GaveUp(left.error) else Asleep
  }

  function Wait(s: Sched, child: Option<u64>, cleanupFails: bool): Sched {
    var waiter := Waiter(s, child);
    if waiter.Err? then s
    else
      var done := TerminatedChild(s.tasks, waiter.value, child);
      if done.Ok? then Reap(s, done.value, cleanupFails)
      else if done.error != ChildRunning then s
      else Transition(s, Blocked(Child(child)))
  }

  // ---------- Creating tasks, and the idle task ----------

  function Newborn(id: u64, parent: Option<u64>, isIdle: bool, isUser: bool): Task {
    Task(id, parent, Ready, None, None, isIdle, isUser)
  }

  function InsertResult(s: Sched): Result<Slot> {
    var slot := FreeSlot(s.tasks, 0);
    if slot.None? then Err(Full)
    else if s.nextId + 1 == U64_LIMIT then Err(TaskIdExhausted)
    else Ok(slot.value)
  }

  function Insert(s: Sched, parent: Option<u64>, isIdle: bool, isUser: bool): Sched {
    var slot := InsertResult(s);
    if slot.Err? then s
    else s.(tasks := s.tasks[slot.value := Some(Newborn(s.nextId, parent, isIdle, isUser))], nextId := s.nextId + 1)
  }

  function CurrentId(s: Sched): Option<u64> {
    if s.current.Some? && s.tasks[s.current.value].Some? then Some(s.tasks[s.current.value].value.id) else None
  }

  /** One slot is kept for the idle task until it is installed. */
  predicate RoomToSpawn(s: Sched) {
    s.idle.Some? || FreeSlots(s.tasks, 0) > 1
  }

  function Spawn(s: Sched, isUser: bool, setupFails: bool): Sched {
    if !RoomToSpawn(s) || setupFails then s else Insert(s, CurrentId(s), false, isUser)
  }

  /** The idle task is created once; then scheduling starts. */
  function RunTasks(s: Sched, setupFails: bool): Sched {
    if s.idle.Some? then Start(s)
    else
      var slot := InsertResult(s);
      if slot.Err? || setupFails then s
      else Start(Insert(s, None, true, false).(idle := Some(slot.value)))
  }

  /** Back in the boot context, the idle task is dropped. */
  function FinishRun(s: Sched): Sched {
    if s.idle.Some? && s.current.None? && Runnable(s.tasks[s.idle.value], true)
    then s.(idle := None, tasks := s.tasks[s.idle.value := None]) else s
  }

  predicate HasLive(tasks: Slots) {
    exists i: Slot :: IsLive(tasks[i])
  }

  predicate IsLive(slot: Option<Task>) {
    slot.Some? && !slot.value.isIdle && slot.value.state != Terminated
  }

  /** The idle task is the one that runs its loop. */
  predicate InIdleLoop(s: Sched) {
    s.current.Some? && s.tasks[s.current.value].Some? && s.tasks[s.current.value].value.isIdle
  }

  /** One round of the idle loop: back to the boot context when no task is left. */
  function IdleRound(s: Sched, now: u64): Sched
    requires InIdleLoop(s)
  {
    var tasks := WakeExpired(s.tasks, now);
    if HasLive(tasks) then s.(tasks := tasks)
    else s.(tasks := WithState(tasks, s.current.value, Ready), current := None)
  }

  function Preempt(s: Sched, now: u64): Sched {
    if s.current.None? then s else Transition(s.(tasks := WakeExpired(s.tasks, now)), Ready)
  }

  // ---------- The state machine ----------

  datatype Step =
    | Yield
    | Tick(now: u64)
    | Block
    | Sleep(deadline: u64)
    | WakeOne(id: u64)
    | WakeEvery
    | Kill(id: u64, code: u64)
    | Leave(status: Option<u64>, group: bool)
    | WaitRound(child: Option<u64>, cleanupFails: bool)
    | Collect(id: u64, cleanupFails: bool)
    | Create(isUser: bool, setupFails: bool)
    | Enter(setupFails: bool)
    | Return
    | Idle(now: u64)

  function Initial(): Sched {
    Sched([None, None, None, None, None, None, None, None, None, None, None, None, None, None, None, None], None, 1, None, 0)
  }

  function Apply(s: Sched, step: Step): Sched {
    match step
    case Yield => Transition(s, Ready)
    case Tick(now) => Preempt(s, now)
    case Block => Transition(s, Blocked(Event))
    case Sleep(deadline) => SleepUntil(s, deadline)
    case WakeOne(id) => Wake(s, id)
    case WakeEvery => s.(tasks := WakeAll(s.tasks))
    case Kill(id, code) => Terminate(s, id, code)
    case Leave(status, group) => if CanExit(s) then Exit(s, status, group) else s
    case WaitRound(child, cleanupFails) => Wait(s, child, cleanupFails)
    case Collect(id, cleanupFails) => Reap(s, id, cleanupFails)
    case Create(isUser, setupFails) => Spawn(s, isUser, setupFails)
    case Enter(setupFails) => RunTasks(s, setupFails)
    case Return => FinishRun(s)
    case Idle(now) => if InIdleLoop(s) then IdleRound(s, now) else s
  }

  /** The state after a whole run. */
  function Run(s: Sched, steps: seq<Step>): Sched {
    if steps == [] then s else Apply(Run(s, steps[..|steps| - 1]), steps[|steps| - 1])
  }
}
