/**
  The executor (src/task/executor.rs), the keyboard task (src/task/keyboard.rs) and the keyboard
  interrupt handler as one transition system. Every step is one access to a shared object, so an
  interrupt may fall between any two steps of a task. `ArrayQueue` and `AtomicWaker` are atomic
  objects: a bounded queue and a cell that `take` empties.
*/
module KernelModel {
  import opened Options

  const QUEUE_CAPACITY := 100

  type TaskId = nat

  /** Where `run_ready_tasks` is. */
  datatype Executor = Idle | Popped(id: TaskId) | Polling(id: TaskId)

  /** Where the keyboard task is: suspended, or at a step of `poll_next`. */
  datatype Keyboard = Suspended | FirstPop | Register | SecondPop | Take(scancode: nat)

  /** Where `add_scancode` is: outside, before its wake, or about to push the id it took. */
  datatype Handler = Quiet | Pushed | Took(id: TaskId)

  datatype Log = Polled(id: TaskId) | Completed(id: TaskId)

  datatype Kernel = Kernel(
    tasks: set<TaskId>,
    queue: seq<TaskId>,
    cache: set<TaskId>,
    nextId: nat,
    executor: Executor,
    keyboardId: TaskId,
    keyboard: Keyboard,
    initialised: bool,
    scancodes: seq<nat>,
    waker: Option<TaskId>,
    handler: Handler,
    panicked: bool,
    // history
    accepted: seq<nat>,     // scancodes that were queued
    delivered: seq<nat>,    // scancodes the keyboard task has received
    due: set<TaskId>,       // tasks spawned or woken since their last poll began
    pushed: seq<TaskId>,    // ids that went onto the task queue
    pops: seq<(TaskId, bool)>,  // ids that came off the task queue, and whether the task was live then
    log: seq<Log>)          // polls and completions, in order

  datatype Step =
    | Spawn
    | Pop | Skip | Begin
    | End(ready: bool)                // the polled task, other than the keyboard task, returns
    | KeyFirstPop | KeyRegister | KeySecondPop | KeyTake
    | Interrupt(scancode: nat)        // the push of `add_scancode`
    | HandlerTake | HandlerNotify
    | Wake(id: TaskId)                // any other waker

  predicate Enabled(k: Kernel, s: Step) {
    !k.panicked &&
    match s
    case Spawn => k.executor == Idle
    case Pop => k.executor == Idle && k.queue != []
    case Skip => k.executor.Popped? && k.executor.id !in k.tasks
    case Begin => k.executor.Popped? && k.executor.id in k.tasks
    case End(_) => k.executor.Polling? && k.executor.id != k.keyboardId
    case KeyFirstPop => k.executor == Polling(k.keyboardId) && k.keyboard == FirstPop
    case KeyRegister => k.executor == Polling(k.keyboardId) && k.keyboard == Register
    case KeySecondPop => k.executor == Polling(k.keyboardId) && k.keyboard == SecondPop
    case KeyTake => k.executor == Polling(k.keyboardId) && k.keyboard.Take?
    case Interrupt(_) => k.handler == Quiet
    case HandlerTake => k.handler == Pushed
    case HandlerNotify => k.handler.Took?
    case Wake(id) => id < k.nextId
  }

  /** `push(..).expect(..)` on the task queue. */
  function PushTask(k: Kernel, id: TaskId): Kernel {
    if |k.queue| >= QUEUE_CAPACITY then k.(panicked := true)
    else k.(queue := k.queue + [id], due := k.due + {id}, pushed := k.pushed + [id])
  }

  function Next(k: Kernel, s: Step): Kernel
    requires Enabled(k, s)
  {
    match s
    case Spawn => PushTask(k.(tasks := k.tasks + {k.nextId}, nextId := k.nextId + 1), k.nextId)
    case Pop =>
      var id := k.queue[0];
      k.(queue := k.queue[1..], executor := Popped(id), pops := k.pops + [(id, id in k.tasks)])
    case Skip => k.(executor := Idle)
    case Begin =>
      var id := k.executor.id;
      var b := k.(cache := k.cache + {id}, executor := Polling(id), due := k.due - {id}, log := k.log + [Polled(id)]);
      if id == k.keyboardId then b.(keyboard := FirstPop, initialised := true) else b
    case End(ready) =>
      var id := k.executor.id;
      var done := k.(tasks := k.tasks - {id}, cache := k.cache - {id}, log := k.log + [Completed(id)]);
      (if ready then done else k).(executor := Idle)
    case KeyFirstPop =>
      if k.scancodes == [] then k.(keyboard := Register)
      else k.(scancodes := k.scancodes[1..], delivered := k.delivered + [k.scancodes[0]])
    case KeyRegister => k.(waker := Some(k.keyboardId), keyboard := SecondPop)
    case KeySecondPop =>
      if k.scancodes == [] then k.(keyboard := Suspended, executor := Idle)
      else k.(scancodes := k.scancodes[1..], keyboard := Take(k.scancodes[0]))
    case KeyTake => k.(waker := None, delivered := k.delivered + [k.keyboard.scancode], keyboard := FirstPop)
    case Interrupt(c) =>
      if !k.initialised || |k.scancodes| >= QUEUE_CAPACITY then k
      else k.(scancodes := k.scancodes + [c], accepted := k.accepted + [c], handler := Pushed)
    case HandlerTake =>
      if k.waker.None? then k.(handler := Quiet) else k.(waker := None, handler := Took(k.waker.value))
    case HandlerNotify => PushTask(k.(handler := Quiet), k.handler.id)
    case Wake(id) => PushTask(k, id)
  }

  /** `Executor::new()`; the keyboard task will be the one that gets id `keyboardId`. */
  function Fresh(keyboardId: TaskId): Kernel {
    Kernel({}, [], {}, 0, Idle, keyboardId, Suspended, false, [], None, Quiet, false, [], [], {}, [], [], [])
  }

  predicate Legal(k: Kernel, steps: seq<Step>)
    decreases |steps|
  {
    steps == [] || (Enabled(k, steps[0]) && Legal(Next(k, steps[0]), steps[1..]))
  }

  function Run(k: Kernel, steps: seq<Step>): Kernel
    requires Legal(k, steps)
    decreases |steps|
  {
    if steps == [] then k else Run(Next(k, steps[0]), steps[1..])
  }

  /** The steps `trace` lead from `j` to `k`. */
  ghost predicate Leads(j: Kernel, trace: seq<Step>, k: Kernel) {
    Legal(j, trace) && Run(j, trace) == k
  }

  lemma LeadsNowhere(k: Kernel)
    ensures Leads(k, [], k)
  {
  }

  lemma {:induction false} LeadsOn(i: Kernel, s: seq<Step>, j: Kernel, t: seq<Step>, k: Kernel)
    requires Leads(i, s, j) && Leads(j, t, k)
    ensures Leads(i, s + t, k)
    decreases |s|
  {
    hide Next, Enabled;
    if s == [] {
      assert s + t == t;
    } else {
      assert (s + t)[0] == s[0] && (s + t)[1..] == s[1..] + t;
      LeadsOn(Next(i, s[0]), s[1..], j, t, k);
    }
  }

  lemma LeadsByStep(i: Kernel, s: seq<Step>, j: Kernel, step: Step)
    requires Leads(i, s, j) && Enabled(j, step)
    ensures Leads(i, s + [step], Next(j, step))
  {
    hide Next, Enabled;
    assert [step][1..] == [];
    assert Legal(Next(j, step), []) && Run(Next(j, step), []) == Next(j, step);
    assert Leads(j, [step], Next(j, step));
    LeadsOn(i, s, j, [step], Next(j, step));
  }

  // ---------------------------------------------------------------- invariants of the executor

  /** No task is polled after it completed. */
  predicate NoPollAfterCompletion(log: seq<Log>) {
    forall i, j | 0 <= i < j < |log| :: log[i].Completed? ==> log[j] != Polled(log[i].id)
  }

  /** A task is live from its spawn to its completion. */
  ghost predicate LiveIsUnfinished(k: Kernel) {
    && (forall id: TaskId :: id in k.tasks <==> id < k.nextId && Completed(id) !in k.log)
    && (forall e | e in k.log :: e.id < k.nextId)
  }

  /** Every live task that is due is queued, or has just been popped to be polled. */
  predicate DueIsQueued(k: Kernel) {
    forall id | id in k.due && id in k.tasks :: id in k.queue || k.executor == Popped(id)
  }

  predicate ExecutorOk(k: Kernel) {
    && |k.queue| <= QUEUE_CAPACITY
    && (forall id | id in k.queue :: id < k.nextId)
    && (k.executor != Idle ==> k.executor.id < k.nextId)
    && k.cache <= k.tasks
    && (k.executor.Polling? ==> k.executor.id in k.tasks)
    && (k.panicked || DueIsQueued(k))
  }

  function Ids(pops: seq<(TaskId, bool)>): seq<TaskId> {
    seq(|pops|, i requires 0 <= i < |pops| => pops[i].0)
  }

  /** Ids come off the task queue in the order in which they went on it. */
  predicate FirstInFirstOut(k: Kernel) {
    k.pushed == Ids(k.pops) + k.queue
  }

  /** A waker is cached for exactly the live tasks that have been polled. */
  ghost predicate CacheIsPolled(k: Kernel) {
    forall id: TaskId :: id in k.cache <==> id in k.tasks && Polled(id) in k.log
  }

  function LivePops(pops: seq<(TaskId, bool)>): seq<TaskId> {
    if pops == [] then [] else
      var last := pops[|pops| - 1];
      LivePops(pops[..|pops| - 1]) + if last.1 then [last.0] else []
  }

  function Polls(log: seq<Log>): seq<TaskId> {
    if log == [] then [] else
      var last := log[|log| - 1];
      Polls(log[..|log| - 1]) + if last.Polled? then [last.id] else []
  }

  /** The polls are the pops of live tasks, in order; the last pop may still be waiting for its poll. */
  predicate PollsFollowPops(k: Kernel) {
    LivePops(k.pops) == Polls(k.log) + if k.executor.Popped? && k.executor.id in k.tasks then [k.executor.id] else []
  }

  // ---------------------------------------------------------------- invariants of the keyboard

  /** The keyboard task is on its way to being polled. */
  predicate Coming(k: Kernel) {
    k.keyboardId in k.queue || k.executor == Popped(k.keyboardId) || k.handler == Took(k.keyboardId)
  }

  /** No lost wake-up: a scancode queued while the task is suspended will bring it back. */
  predicate NoLostWakeup(k: Kernel) {
    k.keyboard == Suspended && k.scancodes != [] ==> Coming(k) || (k.handler == Pushed && k.waker == Some(k.keyboardId))
  }

  predicate KeyboardOk(k: Kernel) {
    && (k.keyboard == Suspended <==> k.executor != Polling(k.keyboardId))
    && (k.waker.Some? ==> k.waker.value == k.keyboardId)
    && (k.handler.Took? ==> k.handler.id == k.keyboardId)
    && (k.waker.Some? || k.handler != Quiet ==> k.initialised)
    && (!k.initialised ==> k.scancodes == [] && k.keyboard == Suspended)
    && (k.initialised ==> k.keyboardId < k.nextId)
    && (k.keyboardId < k.nextId ==> k.keyboardId in k.tasks)
    && |k.scancodes| <= QUEUE_CAPACITY
  }

  /** Whenever it could be suspended with nothing queued, its waker is registered or it is coming anyway. */
  predicate Armed(k: Kernel) {
    k.keyboardId < k.nextId && (k.keyboard == Suspended || k.keyboard == SecondPop) ==>
      k.waker == Some(k.keyboardId) || Coming(k)
  }

  /** Each accepted scancode is delivered once, in order: what is not delivered yet is in hand or queued. */
  predicate Delivery(k: Kernel) {
    k.delivered + (if k.keyboard.Take? then [k.keyboard.scancode] else []) + k.scancodes == k.accepted
  }

  ghost predicate KernelOk(k: Kernel) {
    && ExecutorOk(k) && LiveIsUnfinished(k) && NoPollAfterCompletion(k.log) && PollsFollowPops(k)
    && FirstInFirstOut(k) && CacheIsPolled(k)
    && KeyboardOk(k) && Delivery(k) && (k.panicked || (Armed(k) && NoLostWakeup(k)))
  }

  // ---------------------------------------------------------------- every step keeps them

  lemma ExecutorStep(k: Kernel, s: Step)
    requires Enabled(k, s) && ExecutorOk(k) && KeyboardOk(k)
    ensures ExecutorOk(Next(k, s))
  {
    DueStep(k, s);
    hide DueIsQueued;
    match s
    case Pop => assert k.queue[0] in k.queue && forall id | id in k.queue[1..] :: id in k.queue;
    case HandlerNotify => assert k.handler.id < k.nextId;
    case End(_) => assert k.executor.id in k.tasks;
    case _ =>
  }

  lemma DueStep(k: Kernel, s: Step)
    requires Enabled(k, s) && DueIsQueued(k)
    ensures Next(k, s).panicked || DueIsQueued(Next(k, s))
  {
    if s == Pop { assert k.queue == [k.queue[0]] + k.queue[1..]; }
    var n := Next(k, s);
    if !n.panicked {
      forall id | id in n.due && id in n.tasks ensures id in n.queue || n.executor == Popped(id) {
        if id in k.due && id in k.tasks { assert id in k.queue || k.executor == Popped(id); }
      }
    }
  }

  /** The id that a step puts on the task queue, if it does. */
  function Queued(k: Kernel, s: Step): Option<TaskId> {
    if |k.queue| >= 100 then None
    else match s
         case Spawn => Some(k.nextId)
         case Wake(id) => Some(id)
         case HandlerNotify => if k.handler.Took? then Some(k.handler.id) else None
         case _ => None
  }

  /** A task is due from the step that queues it until its next poll begins. */
  predicate DueAfter(k: Kernel, steps: seq<Step>, id: TaskId, due: bool)
    requires Legal(k, steps)
    decreases |steps|
  {
    if steps == [] then due else
      var s := steps[0];
      var now := if s == Begin && k.executor == Popped(id) then false
                 else if Queued(k, s) == Some(id) then true else due;
      DueAfter(Next(k, s), steps[1..], id, now)
  }

  lemma DueStepExact(k: Kernel, s: Step, id: TaskId)
    requires Enabled(k, s)
    ensures id in Next(k, s).due <==>
              (if s == Begin && k.executor == Popped(id) then false else Queued(k, s) == Some(id) || id in k.due)
    ensures Queued(k, s).Some? ==> id == Queued(k, s).value ==> id in Next(k, s).queue
  {
  }

  lemma {:induction false} DueExact(k: Kernel, steps: seq<Step>, id: TaskId)
    requires Legal(k, steps)
    ensures id in Run(k, steps).due <==> DueAfter(k, steps, id, id in k.due)
    decreases |steps|
  {
    hide Next, Enabled, Queued;
    if steps != [] {
      DueStepExact(k, steps[0], id);
      DueExact(Next(k, steps[0]), steps[1..], id);
    }
  }

  lemma LiveStep(k: Kernel, s: Step)
    requires Enabled(k, s) && ExecutorOk(k) && LiveIsUnfinished(k)
    ensures LiveIsUnfinished(Next(k, s))
  {
    var n := Next(k, s);
    forall id: TaskId ensures id in n.tasks <==> id < n.nextId && Completed(id) !in n.log {
      assert id in k.tasks <==> id < k.nextId && Completed(id) !in k.log;
      assert Completed(id) in k.log ==> Completed(id).id < k.nextId;
    }
  }

  lemma LogStep(k: Kernel, s: Step)
    requires Enabled(k, s) && LiveIsUnfinished(k) && NoPollAfterCompletion(k.log)
    ensures NoPollAfterCompletion(Next(k, s).log)
  {
    match s
    case Begin =>
      forall i | 0 <= i < |k.log| && k.log[i].Completed? ensures k.log[i].id != k.executor.id {
        assert Completed(k.log[i].id) in k.log;
      }
    case End(_) =>
    case _ => assert Next(k, s).log == k.log;
  }

  lemma PollsAppend(log: seq<Log>, e: Log)
    ensures Polls(log + [e]) == Polls(log) + if e.Polled? then [e.id] else []
  {
    assert (log + [e])[..|log|] == log;
  }

  lemma LivePopsAppend(pops: seq<(TaskId, bool)>, p: (TaskId, bool))
    ensures LivePops(pops + [p]) == LivePops(pops) + if p.1 then [p.0] else []
  {
    assert (pops + [p])[..|pops|] == pops;
  }

  lemma PollsStep(k: Kernel, s: Step)
    requires Enabled(k, s) && PollsFollowPops(k)
    ensures PollsFollowPops(Next(k, s))
  {
    hide Polls, LivePops;
    match s
    case Pop => LivePopsAppend(k.pops, (k.queue[0], k.queue[0] in k.tasks));
    case Begin => PollsAppend(k.log, Polled(k.executor.id));
    case End(_) => PollsAppend(k.log, Completed(k.executor.id));
    case _ =>
  }

  lemma FifoStep(k: Kernel, s: Step)
    requires Enabled(k, s) && FirstInFirstOut(k)
    ensures FirstInFirstOut(Next(k, s))
  {
    var n := Next(k, s);
    if s == Pop {
      assert k.queue == [k.queue[0]] + k.queue[1..];
      assert Ids(n.pops) == Ids(k.pops) + [k.queue[0]];
    }
  }

  lemma CacheStep(k: Kernel, s: Step)
    requires Enabled(k, s) && LiveIsUnfinished(k) && CacheIsPolled(k)
    ensures CacheIsPolled(Next(k, s))
  {
    var n := Next(k, s);
    forall id: TaskId ensures id in n.cache <==> id in n.tasks && Polled(id) in n.log {
      assert id in k.cache <==> id in k.tasks && Polled(id) in k.log;
      assert Polled(id) in k.log ==> Polled(id).id < k.nextId;
    }
  }

  lemma KeyboardStep(k: Kernel, s: Step)
    requires Enabled(k, s) && ExecutorOk(k) && KeyboardOk(k)
    ensures KeyboardOk(Next(k, s))
  {
    hide DueIsQueued;
    match s
    case Spawn =>
    case Pop => assert k.queue[0] in k.queue;
    case Skip =>
    case Begin =>
    case End(_) =>
    case KeyFirstPop =>
    case KeyRegister =>
    case KeySecondPop =>
    case KeyTake =>
    case Interrupt(_) =>
    case HandlerTake =>
    case HandlerNotify =>
    case Wake(_) =>
  }

  lemma WakeupStep(k: Kernel, s: Step)
    requires Enabled(k, s) && ExecutorOk(k) && KeyboardOk(k) && Armed(k) && NoLostWakeup(k)
    ensures Next(k, s).panicked || (Armed(Next(k, s)) && NoLostWakeup(Next(k, s)))
  {
    if s == Pop { assert k.queue == [k.queue[0]] + k.queue[1..]; }
  }

  lemma DeliveryStep(k: Kernel, s: Step)
    requires Enabled(k, s) && Delivery(k) && KeyboardOk(k)
    ensures Delivery(Next(k, s))
  {
    match s
    case KeyFirstPop =>
      if k.scancodes != [] { assert k.scancodes == [k.scancodes[0]] + k.scancodes[1..]; }
    case KeySecondPop =>
      if k.scancodes != [] { assert k.scancodes == [k.scancodes[0]] + k.scancodes[1..]; }
    case KeyTake =>
    case Interrupt(c) =>
      var hand := if k.keyboard.Take? then [k.keyboard.scancode] else [];
      assert k.delivered + hand + (k.scancodes + [c]) == (k.delivered + hand + k.scancodes) + [c];
    case _ =>
  }

  lemma {:induction false} RunOk(k: Kernel, steps: seq<Step>)
    requires KernelOk(k) && Legal(k, steps)
    ensures KernelOk(Run(k, steps))
    decreases |steps|
  {
    hide Next, Enabled, ExecutorOk, LiveIsUnfinished, NoPollAfterCompletion, PollsFollowPops, FirstInFirstOut;
    hide CacheIsPolled, KeyboardOk;
    hide Delivery, Armed, NoLostWakeup;
    if steps != [] {
      StepOk(k, steps[0]);
      RunOk(Next(k, steps[0]), steps[1..]);
    }
  }

  lemma StepOk(k: Kernel, s: Step)
    requires KernelOk(k) && Enabled(k, s)
    ensures KernelOk(Next(k, s))
  {
    hide Next, ExecutorOk, LiveIsUnfinished, NoPollAfterCompletion, PollsFollowPops, FirstInFirstOut;
    hide CacheIsPolled, KeyboardOk, Delivery;
    hide Armed, NoLostWakeup;
    ExecutorStep(k, s);
    LiveStep(k, s);
    LogStep(k, s);
    PollsStep(k, s);
    FifoStep(k, s);
    CacheStep(k, s);
    KeyboardStep(k, s);
    WakeupStep(k, s);
    DeliveryStep(k, s);
  }

  lemma FreshOk(keyboardId: TaskId)
    ensures KernelOk(Fresh(keyboardId))
  {
  }

  // ---------------------------------------------------------------- the theorems over every interleaving

  /**
    In every interleaving that has not panicked: no wake-up of the keyboard task is lost, scancodes are
    delivered once and in order, and every live task that is due will be polled.
  */
  lemma KernelSafety(keyboardId: TaskId, steps: seq<Step>)
    requires Legal(Fresh(keyboardId), steps)
    ensures var k := Run(Fresh(keyboardId), steps);
            && Delivery(k) && NoPollAfterCompletion(k.log) && PollsFollowPops(k)
            && FirstInFirstOut(k) && CacheIsPolled(k)
            && (!k.panicked ==> NoLostWakeup(k) && DueIsQueued(k))
  {
    hide Run, Legal, Fresh, LiveIsUnfinished, KeyboardOk, Delivery, NoPollAfterCompletion, PollsFollowPops;
    hide FirstInFirstOut, CacheIsPolled;
    hide NoLostWakeup, DueIsQueued;
    FreshOk(keyboardId);
    RunOk(Fresh(keyboardId), steps);
  }

  // ---------------------------------------------------------------- when a task leaves

  /** During the steps a poll of task `id` returns `Ready`. */
  predicate TurnsReady(k: Kernel, steps: seq<Step>, id: TaskId)
    requires Legal(k, steps)
    decreases |steps|
  {
    steps != [] &&
    ((steps[0] == End(true) && k.executor == Polling(id)) || TurnsReady(Next(k, steps[0]), steps[1..], id))
  }

  /** What the end of a poll does to the tasks and to the cache. */
  lemma EndOfPoll(k: Kernel, ready: bool)
    requires KernelOk(k) && Enabled(k, End(ready))
    ensures var id, n := k.executor.id, Next(k, End(ready));
            && n.tasks == (if ready then k.tasks - {id} else k.tasks)
            && n.cache == (if ready then k.cache - {id} else k.cache)
            && (id in n.tasks <==> !ready) && (id in n.cache ==> !ready) && n.queue == k.queue && n.executor == Idle
  {
    hide LiveIsUnfinished, NoPollAfterCompletion, PollsFollowPops, FirstInFirstOut, CacheIsPolled, KeyboardOk;
    hide Delivery, Armed, NoLostWakeup, DueIsQueued;
  }

  lemma MembershipStep(k: Kernel, s: Step, id: TaskId)
    requires KernelOk(k) && Enabled(k, s)
    ensures var n := Next(k, s);
            && n.nextId == k.nextId + (if s.Spawn? then 1 else 0)
            && (id in n.tasks <==>
                  (id in k.tasks || (s.Spawn? && id == k.nextId)) && !(s == End(true) && k.executor == Polling(id)))
            && (id in k.tasks ==> id < k.nextId)
            && (s == End(true) && k.executor == Polling(id) ==> id in k.tasks)
  {
    hide NoPollAfterCompletion, PollsFollowPops, FirstInFirstOut, CacheIsPolled, KeyboardOk;
    hide Delivery, Armed, NoLostWakeup, DueIsQueued;
    assert id in k.tasks <==> id < k.nextId && Completed(id) !in k.log;
  }

  /** Over every run a task is there exactly from its spawn until a poll of it returns `Ready`. */
  lemma {:induction false} LeavesWhenReady(k: Kernel, steps: seq<Step>, id: TaskId)
    requires KernelOk(k) && Legal(k, steps)
    ensures var n := Run(k, steps);
            && n.nextId >= k.nextId
            && (id in n.tasks <==> (id in k.tasks || k.nextId <= id < n.nextId) && !TurnsReady(k, steps, id))
    decreases |steps|
  {
    hide KernelOk, Next, Enabled;
    if steps != [] {
      var n := Next(k, steps[0]);
      MembershipStep(k, steps[0], id);
      StepOk(k, steps[0]);
      LeavesWhenReady(n, steps[1..], id);
    } else {
      LiveBelowNext(k, id);
    }
  }

  lemma LiveBelowNext(k: Kernel, id: TaskId)
    requires KernelOk(k)
    ensures id in k.tasks ==> id < k.nextId
  {
    assert id in k.tasks <==> id < k.nextId && Completed(id) !in k.log;
  }

  // ---------------------------------------------------------------- what is typed and what arrives

  /** The scancodes that the keyboard sends during the steps. */
  function Arrivals(steps: seq<Step>): seq<nat> {
    if steps == [] then [] else
      (if steps[0].Interrupt? then [steps[0].scancode] else []) + Arrivals(steps[1..])
  }

  /** Whenever a scancode arrives the queue exists and fewer than 100 are waiting. */
  predicate AlwaysRoom(k: Kernel, steps: seq<Step>)
    requires Legal(k, steps)
    decreases |steps|
  {
    steps == [] ||
    (&& (steps[0].Interrupt? ==> k.initialised && |k.scancodes| < 100)
     && AlwaysRoom(Next(k, steps[0]), steps[1..]))
  }

  /** What the keyboard task has received, has in hand, and what is still waiting for it. */
  function Received(k: Kernel): seq<nat> {
    k.delivered + (if k.keyboard.Take? then [k.keyboard.scancode] else []) + k.scancodes
  }

  lemma StepAccepts(k: Kernel, s: Step)
    requires Enabled(k, s)
    ensures var room := k.initialised && |k.scancodes| < QUEUE_CAPACITY;
            Next(k, s).accepted == k.accepted + if s.Interrupt? && room then [s.scancode] else []
  {
  }

  lemma {:induction false} AcceptedIffRoom(k: Kernel, steps: seq<Step>)
    requires Legal(k, steps)
    ensures |Run(k, steps).accepted| <= |k.accepted| + |Arrivals(steps)|
    ensures Run(k, steps).accepted == k.accepted + Arrivals(steps) <==> AlwaysRoom(k, steps)
    decreases |steps|
  {
    hide Next, Enabled;
    if steps != [] {
      var n, rest := Next(k, steps[0]), steps[1..];
      StepAccepts(k, steps[0]);
      AcceptedIffRoom(n, rest);
      var first := if steps[0].Interrupt? then [steps[0].scancode] else [];
      assert k.accepted + (first + Arrivals(rest)) == (k.accepted + first) + Arrivals(rest);
    }
  }

  /**
    Over every run nothing that the keyboard sends is lost, and it comes in order, if and only if on each arrival
    the queue exists and fewer than 100 scancodes are waiting.
  */
  lemma DroppedOnlyWhenFull(k: Kernel, steps: seq<Step>)
    requires KernelOk(k) && Legal(k, steps)
    ensures Received(Run(k, steps)) == Received(k) + Arrivals(steps) <==> AlwaysRoom(k, steps)
  {
    hide Run, Legal, ExecutorOk, LiveIsUnfinished, NoPollAfterCompletion, PollsFollowPops, FirstInFirstOut;
    hide CacheIsPolled, KeyboardOk;
    RunOk(k, steps);
    AcceptedIffRoom(k, steps);
  }

  // ---------------------------------------------------------------- sleep

  /** Nothing to run, no handler active: where `sleep_if_idle`, with interrupts disabled, halts. */
  predicate Quiescent(k: Kernel) {
    k.executor == Idle && k.queue == [] && k.handler == Quiet
  }

  /** Going to sleep loses nothing: every accepted scancode has been delivered and no live task is due. */
  lemma SleepLosesNothing(k: Kernel)
    requires KernelOk(k) && !k.panicked && Quiescent(k)
    ensures k.scancodes == [] && k.delivered == k.accepted
    ensures forall id | id in k.tasks :: id !in k.due
  {
    hide LiveIsUnfinished, NoPollAfterCompletion, PollsFollowPops, FirstInFirstOut, CacheIsPolled;
  }

  // ---------------------------------------------------------------- progress

  /** The steps that need no new interrupt, wake or spawn. */
  predicate Internal(s: Step) {
    !s.Spawn? && !s.Interrupt? && !s.Wake?
  }

  function Rank(k: Kernel): nat {
    6 * |k.queue| + 4 * |k.scancodes|
    + (match k.handler case Quiet => 0 case Pushed => 8 case Took(_) => 7)
    + (match k.executor case Idle => 0 case Popped(_) => 5 case Polling(_) => 1)
    + (match k.keyboard case Suspended => 0 case SecondPop => 1 case Register => 2 case FirstPop => 3 case Take(_) => 4)
  }

  lemma InternalDecreases(k: Kernel, s: Step)
    requires KeyboardOk(k) && Enabled(k, s) && Internal(s)
    ensures Rank(Next(k, s)) < Rank(k) && Next(k, s).accepted == k.accepted
  {
  }

  ghost predicate InternalRun(k: Kernel, steps: seq<Step>) {
    Legal(k, steps) && forall i | 0 <= i < |steps| :: Internal(steps[i])
  }

  lemma InternalTail(k: Kernel, steps: seq<Step>)
    requires InternalRun(k, steps) && steps != []
    ensures Enabled(k, steps[0]) && Internal(steps[0]) && InternalRun(Next(k, steps[0]), steps[1..])
  {
    hide Next, Enabled, Internal;
    assert forall i | 0 <= i < |steps[1..]| :: steps[1..][i] == steps[i + 1];
  }

  lemma InternalCons(k: Kernel, s: Step, rest: seq<Step>)
    requires Enabled(k, s) && Internal(s) && InternalRun(Next(k, s), rest)
    ensures InternalRun(k, [s] + rest) && Run(k, [s] + rest) == Run(Next(k, s), rest)
  {
    hide Next, Enabled, Internal;
    assert ([s] + rest)[1..] == rest;
  }

  /** Without new input every run is finite: it has at most `Rank` steps. */
  lemma {:induction false} InternalRunsEnd(k: Kernel, steps: seq<Step>)
    requires KernelOk(k) && InternalRun(k, steps)
    ensures |steps| + Rank(Run(k, steps)) <= Rank(k) && Run(k, steps).accepted == k.accepted
    decreases |steps|
  {
    hide ExecutorOk, LiveIsUnfinished, NoPollAfterCompletion, PollsFollowPops, FirstInFirstOut, CacheIsPolled;
    hide KeyboardOk, Delivery, Armed;
    hide NoLostWakeup, Rank, Next, Enabled, Internal;
    if steps != [] {
      InternalTail(k, steps);
      InternalDecreases(k, steps[0]);
      StepOk(k, steps[0]);
      InternalRunsEnd(Next(k, steps[0]), steps[1..]);
    }
  }

  /** The system is never stuck: unless it is quiescent, some internal step can be taken, and without a panic. */
  lemma NotStuck(k: Kernel) returns (s: Step)
    requires KernelOk(k) && !k.panicked && !Quiescent(k)
    ensures Internal(s) && Enabled(k, s) && !Next(k, s).panicked
  {
    match k.executor
    case Idle => s := if k.queue != [] then Pop else if k.handler == Pushed then HandlerTake else HandlerNotify;
    case Popped(id) => s := if id in k.tasks then Begin else Skip;
    case Polling(id) =>
      if id != k.keyboardId { return End(false); }
      match k.keyboard
      case FirstPop => s := KeyFirstPop;
      case Register => s := KeyRegister;
      case SecondPop => s := KeySecondPop;
      case Take(_) => s := KeyTake;
  }

  /** From every reachable state the system can run, with no new input, until all is delivered. */
  lemma {:induction false} Drains(k: Kernel) returns (steps: seq<Step>)
    requires KernelOk(k) && !k.panicked
    ensures InternalRun(k, steps)
    ensures var n := Run(k, steps); !n.panicked && Quiescent(n) && n.delivered == k.accepted
    decreases Rank(k)
  {
    hide ExecutorOk, LiveIsUnfinished, NoPollAfterCompletion, PollsFollowPops, FirstInFirstOut, CacheIsPolled;
    hide KeyboardOk, Delivery, Armed;
    hide NoLostWakeup, Rank, Next, Enabled, Internal;
    if Quiescent(k) {
      SleepLosesNothing(k);
      steps := [];
    } else {
      var s := NotStuck(k);
      InternalDecreases(k, s);
      StepOk(k, s);
      var rest := Drains(Next(k, s));
      InternalCons(k, s, rest);
      steps := [s] + rest;
    }
  }

  // ---------------------------------------------------------------- overflow of the task queue

  /** The keyboard task gets to register its waker before the next id is popped. */
  predicate WillRegister(k: Kernel) {
    || k.executor == Popped(k.keyboardId)
    || (k.executor == Polling(k.keyboardId) &&
        (k.keyboard == FirstPop || k.keyboard == Register || k.keyboard.Take?
         || (k.keyboard == SecondPop && k.scancodes != [])))
  }

  /** The task queue is full and the handler is about to push, or will be if it finds a waker. */
  predicate MayOverflow(k: Kernel) {
    |k.queue| == 100 &&
    (k.handler.Took? || (k.handler == Pushed && (k.waker.Some? || WillRegister(k))))
  }

  lemma NoOverflowStep(k: Kernel, s: Step)
    requires KernelOk(k) && !MayOverflow(k) && Enabled(k, s) && Internal(s)
    ensures !Next(k, s).panicked && !MayOverflow(Next(k, s))
  {
    hide LiveIsUnfinished, NoPollAfterCompletion, PollsFollowPops, FirstInFirstOut, CacheIsPolled, Delivery;
    hide Armed, NoLostWakeup, DueIsQueued;
  }

  lemma {:induction false} NoOverflowRun(k: Kernel, steps: seq<Step>)
    requires KernelOk(k) && !k.panicked && !MayOverflow(k) && InternalRun(k, steps)
    ensures !Run(k, steps).panicked
    decreases |steps|
  {
    hide KernelOk, Next, Enabled, Internal, MayOverflow;
    if steps != [] {
      InternalTail(k, steps);
      NoOverflowStep(k, steps[0]);
      StepOk(k, steps[0]);
      NoOverflowRun(Next(k, steps[0]), steps[1..]);
    }
  }

  /** The step that leads towards the overflow: the handler's, or the keyboard task's until its waker is registered. */
  lemma TowardsOverflow(k: Kernel) returns (s: Step)
    requires KernelOk(k) && !k.panicked && MayOverflow(k)
    ensures Internal(s) && Enabled(k, s) && (Next(k, s).panicked || MayOverflow(Next(k, s)))
  {
    hide LiveIsUnfinished, NoPollAfterCompletion, PollsFollowPops, FirstInFirstOut, CacheIsPolled, Delivery;
    hide Armed, NoLostWakeup, DueIsQueued;
    if k.handler.Took? { return HandlerNotify; }
    if k.waker.Some? { return HandlerTake; }
    if k.executor.Popped? { return Begin; }
    match k.keyboard
    case FirstPop => s := KeyFirstPop;
    case Register => s := KeyRegister;
    case SecondPop => s := KeySecondPop;
    case Take(_) => s := KeyTake;
  }

  lemma {:induction false} OverflowRun(k: Kernel) returns (steps: seq<Step>)
    requires KernelOk(k) && !k.panicked && MayOverflow(k)
    ensures InternalRun(k, steps) && Run(k, steps).panicked
    decreases Rank(k)
  {
    hide ExecutorOk, LiveIsUnfinished, NoPollAfterCompletion, PollsFollowPops, FirstInFirstOut, CacheIsPolled;
    hide KeyboardOk, Delivery, Armed;
    hide NoLostWakeup, Rank, Next, Enabled, Internal, MayOverflow;
    var s := TowardsOverflow(k);
    var n := Next(k, s);
    InternalDecreases(k, s);
    StepOk(k, s);
    var rest := [];
    if !n.panicked { rest := OverflowRun(n); }
    InternalCons(k, s, rest);
    steps := [s] + rest;
  }

  /** Without new input some run panics if and only if the queue is full and the handler may still push to it. */
  lemma OverflowsIff(k: Kernel)
    requires KernelOk(k) && !k.panicked
    ensures (exists steps: seq<Step> :: InternalRun(k, steps) && Run(k, steps).panicked) <==> MayOverflow(k)
  {
    hide KernelOk, Legal, Internal, MayOverflow;
    if MayOverflow(k) {
      var steps := OverflowRun(k);
    } else {
      forall steps: seq<Step> | InternalRun(k, steps) ensures !Run(k, steps).panicked { NoOverflowRun(k, steps); }
    }
  }

  /** No step without new input can be taken. */
  ghost predicate Finished(k: Kernel) {
    forall s: Step | Internal(s) :: !Enabled(k, s)
  }

  /**
    Every run without new input that goes on until no step is left ends quiescent, with every scancode accepted so
    far delivered; only one that starts where the task queue may overflow can end in a panic instead.
  */
  lemma EveryRunDelivers(k: Kernel, steps: seq<Step>)
    requires KernelOk(k) && !k.panicked && InternalRun(k, steps) && Finished(Run(k, steps))
    ensures var n := Run(k, steps);
            if n.panicked then MayOverflow(k) else Quiescent(n) && n.delivered == k.accepted
  {
    hide ExecutorOk, LiveIsUnfinished, NoPollAfterCompletion, PollsFollowPops, FirstInFirstOut, CacheIsPolled;
    hide KeyboardOk, Delivery, Armed;
    hide NoLostWakeup, Run, Legal, Enabled, Internal, MayOverflow, Next;
    var n := Run(k, steps);
    RunOk(k, steps);
    InternalRunsEnd(k, steps);
    if n.panicked {
      if !MayOverflow(k) { NoOverflowRun(k, steps); }
    } else if Quiescent(n) {
      SleepLosesNothing(n);
    } else {
      var s := NotStuck(n);
    }
  }

  // ---------------------------------------------------------------- one processor

  predicate HandlerStep(s: Step) {
    s.HandlerTake? || s.HandlerNotify?
  }

  /** The handler, once entered, runs to its end before anything else, as it does on one processor. */
  predicate Prompt(k: Kernel, steps: seq<Step>)
    requires Legal(k, steps)
    decreases |steps|
  {
    steps == [] || ((k.handler == Quiet || HandlerStep(steps[0])) && Prompt(Next(k, steps[0]), steps[1..]))
  }

  predicate PromptOverflow(k: Kernel) {
    |k.queue| == 100 && (k.handler.Took? || (k.handler == Pushed && k.waker.Some?))
  }

  lemma NoPromptOverflowStep(k: Kernel, s: Step)
    requires KernelOk(k) && !PromptOverflow(k) && Enabled(k, s) && Internal(s) && (k.handler == Quiet || HandlerStep(s))
    ensures !Next(k, s).panicked && !PromptOverflow(Next(k, s))
  {
    hide LiveIsUnfinished, NoPollAfterCompletion, PollsFollowPops, FirstInFirstOut, CacheIsPolled, Delivery;
    hide Armed, NoLostWakeup, DueIsQueued;
  }

  lemma {:induction false} NoPromptOverflowRun(k: Kernel, steps: seq<Step>)
    requires KernelOk(k) && !k.panicked && !PromptOverflow(k) && InternalRun(k, steps) && Prompt(k, steps)
    ensures !Run(k, steps).panicked
    decreases |steps|
  {
    hide KernelOk, Next, Enabled, Internal, PromptOverflow, HandlerStep;
    if steps != [] {
      InternalTail(k, steps);
      NoPromptOverflowStep(k, steps[0]);
      StepOk(k, steps[0]);
      NoPromptOverflowRun(Next(k, steps[0]), steps[1..]);
    }
  }

  lemma NotifyPanics(k: Kernel)
    requires !k.panicked && k.handler.Took? && |k.queue| == QUEUE_CAPACITY
    ensures InternalRun(k, [HandlerNotify]) && Prompt(k, [HandlerNotify]) && Run(k, [HandlerNotify]).panicked
  {
    var n := Next(k, HandlerNotify);
    assert InternalRun(n, []) && Run(n, []) == n && [HandlerNotify][1..] == [];
    InternalCons(k, HandlerNotify, []);
    assert [HandlerNotify] + [] == [HandlerNotify];
  }

  /** There the condition is that the queue is full and the handler holds a waker or will find one registered. */
  lemma PromptOverflowsIff(k: Kernel)
    requires KernelOk(k) && !k.panicked
    ensures (exists steps: seq<Step> :: InternalRun(k, steps) && Prompt(k, steps) && Run(k, steps).panicked)
            <==> PromptOverflow(k)
  {
    hide LiveIsUnfinished, NoPollAfterCompletion, PollsFollowPops, FirstInFirstOut, CacheIsPolled, Delivery;
    hide Armed, NoLostWakeup, DueIsQueued;
    if PromptOverflow(k) {
      if k.handler.Took? {
        NotifyPanics(k);
      } else {
        var n := Next(k, HandlerTake);
        NotifyPanics(n);
        InternalCons(k, HandlerTake, [HandlerNotify]);
        assert ([HandlerTake] + [HandlerNotify])[1..] == [HandlerNotify];
        assert Prompt(k, [HandlerTake] + [HandlerNotify]);
      }
    } else {
      forall steps: seq<Step> | InternalRun(k, steps) && Prompt(k, steps) ensures !Run(k, steps).panicked {
        NoPromptOverflowRun(k, steps);
      }
    }
  }

  /**
    The two conditions differ: a handler that is overtaken by the keyboard task finds the waker that the task
    registers meanwhile.
  */
  lemma OvertakenHandlerOverflows(k: Kernel)
    requires KernelOk(k) && !k.panicked && |k.queue| == QUEUE_CAPACITY
    requires k.handler == Pushed && k.waker == None && k.executor == Polling(k.keyboardId) && k.keyboard == Register
    ensures !PromptOverflow(k)
    ensures exists steps: seq<Step> :: InternalRun(k, steps) && Run(k, steps).panicked
  {
    hide KernelOk, Legal, Run, InternalRun;
    OverflowsIff(k);
  }

  // ---------------------------------------------------------------- a run that overflows

  lemma {:induction false} PromptExtend(i: Kernel, s: seq<Step>, j: Kernel, step: Step)
    requires Leads(i, s, j) && Prompt(i, s) && Enabled(j, step) && (j.handler == Quiet || HandlerStep(step))
    ensures Leads(i, s + [step], Next(j, step)) && Prompt(i, s + [step])
    decreases |s|
  {
    hide Next, Enabled, HandlerStep;
    LeadsByStep(i, s, j, step);
    if s == [] {
      assert [] + [step] == [step] && [step][1..] == [];
    } else {
      assert (s + [step])[0] == s[0] && (s + [step])[1..] == s[1..] + [step];
      PromptExtend(Next(i, s[0]), s[1..], j, step);
    }
  }

  /** The keyboard task is being polled and has found its queue empty. */
  predicate Spinning(k: Kernel, n: nat) {
    && !k.panicked && k.executor == Polling(k.keyboardId) && k.keyboard == FirstPop && k.initialised
    && k.scancodes == [] && k.waker == None && k.handler == Quiet && |k.queue| == n
  }

  /** A prompt run from `i` to `k` with the given steps, all but the first neither a spawn nor a foreign wake. */
  ghost predicate Reaches(i: Kernel, s: seq<Step>, k: Kernel) {
    && Leads(i, s, k) && Prompt(i, s)
    && forall j | 0 <= j < |s| :: s[j].Spawn? || s[j].Wake? ==> j == 0
  }

  lemma Reach(i: Kernel, s: seq<Step>, j: Kernel, step: Step)
    requires Reaches(i, s, j) && Enabled(j, step) && (j.handler == Quiet || HandlerStep(step))
    requires s == [] || (!step.Spawn? && !step.Wake?)
    ensures Reaches(i, s + [step], Next(j, step))
  {
    hide Leads, Prompt, Next, Enabled;
    PromptExtend(i, s, j, step);
  }

  /** A scancode that arrives between the registration and the second pop queues the task while it is being polled. */
  lemma HalfRound(i: Kernel, s: seq<Step>, k: Kernel, n: nat) returns (t: seq<Step>, m: Kernel)
    requires Reaches(i, s, k) && s != [] && Spinning(k, n)
    ensures Reaches(i, t, m) && t != []
    ensures n >= QUEUE_CAPACITY ==> m.panicked
    ensures n < QUEUE_CAPACITY ==>
              && !m.panicked && m.executor == Polling(m.keyboardId) && m.keyboard == SecondPop && m.initialised
              && m.scancodes == [0] && m.waker == None && m.handler == Quiet && |m.queue| == n + 1
  {
    hide Reaches;
    Reach(i, s, k, KeyFirstPop);
    t, m := s + [KeyFirstPop], Next(k, KeyFirstPop);
    Reach(i, t, m, KeyRegister);
    t, m := t + [KeyRegister], Next(m, KeyRegister);
    Reach(i, t, m, Interrupt(0));
    t, m := t + [Interrupt(0)], Next(m, Interrupt(0));
    Reach(i, t, m, HandlerTake);
    t, m := t + [HandlerTake], Next(m, HandlerTake);
    Reach(i, t, m, HandlerNotify);
    t, m := t + [HandlerNotify], Next(m, HandlerNotify);
  }

  /** The task then takes the scancode and looks again: each round leaves one more entry on the task queue. */
  lemma {:induction false} Rounds(i: Kernel, s: seq<Step>, k: Kernel, n: nat) returns (t: seq<Step>, m: Kernel)
    requires Reaches(i, s, k) && s != [] && Spinning(k, n) && n <= QUEUE_CAPACITY
    ensures Reaches(i, t, m) && m.panicked
    decreases QUEUE_CAPACITY - n
  {
    hide Reaches;
    t, m := HalfRound(i, s, k, n);
    if n < QUEUE_CAPACITY {
      Reach(i, t, m, KeySecondPop);
      t, m := t + [KeySecondPop], Next(m, KeySecondPop);
      Reach(i, t, m, KeyTake);
      t, m := t + [KeyTake], Next(m, KeyTake);
      t, m := Rounds(i, t, m, n + 1);
    }
  }

  /**
    The panic is real: one task is spawned, the keyboard task, and during its first poll 101 scancodes arrive, each
    between the registration of the waker and the second pop.
  */
  lemma OverflowHappens() returns (steps: seq<Step>)
    ensures Legal(Fresh(0), steps) && Prompt(Fresh(0), steps) && Run(Fresh(0), steps).panicked
    ensures forall j | 0 <= j < |steps| :: steps[j].Spawn? || steps[j].Wake? ==> j == 0
  {
    var k := Fresh(0);
    LeadsNowhere(k);
    var k1 := Next(k, Spawn);
    Reach(k, [], k, Spawn);
    Reach(k, [] + [Spawn], k1, Pop);
    var k2 := Next(k1, Pop);
    Reach(k, [] + [Spawn] + [Pop], k2, Begin);
    var k3 := Next(k2, Begin);
    var m;
    steps, m := Rounds(k, [] + [Spawn] + [Pop] + [Begin], k3, 0);
  }
}
