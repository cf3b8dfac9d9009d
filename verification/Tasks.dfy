/**
  The executor, the keyboard stream and the interrupt handler as code, on the fields of one object.
  Interrupts arrive between any two accesses to the shared queues and run to completion, as they do
  on one processor. Every method is proved to make only steps of the transition system, so what holds
  of all its runs holds of this code.
*/
module Tasks {
  import opened Options
  import opened KernelModel

  lemma QueueBounded(k: Kernel)
    requires KernelOk(k)
    ensures |k.queue| <= QUEUE_CAPACITY && |k.scancodes| <= QUEUE_CAPACITY
  {
  }

  lemma PolledIsInitialised(k: Kernel)
    requires KernelOk(k) && k.keyboard != Suspended
    ensures k.initialised
  {
  }

  lemma WaitingIsArmed(k: Kernel)
    requires KernelOk(k) && !k.panicked && k.keyboard == Suspended && k.executor == Idle && k.handler == Quiet
    requires k.initialised
    ensures k.waker == Some(k.keyboardId) || k.keyboardId in k.queue
  {
  }

  class Machine {
    var tasks: set<TaskId>
    var taskQueue: seq<TaskId>
    var wakerCache: set<TaskId>
    var nextId: nat
    const keyboardId: TaskId
    var initialised: bool
    var scancodes: seq<nat>
    var waker: Option<TaskId>
    var panicked: bool
    ghost var view: Kernel

    /** The fields are those of the transition system, which is in one of its good states. */
    ghost predicate Valid()
      reads this
    {
      && KernelOk(view)
      && view.tasks == tasks && view.queue == taskQueue && view.cache == wakerCache && view.nextId == nextId
      && view.keyboardId == keyboardId && view.initialised == initialised && view.scancodes == scancodes
      && view.waker == waker && view.panicked == panicked
    }

    constructor (keyboardId: TaskId)
      ensures Valid() && view == Fresh(keyboardId)
    {
      this.keyboardId := keyboardId;
      tasks, taskQueue, wakerCache, nextId := {}, [], {}, 0;
      initialised, scancodes, waker, panicked := false, [], None, false;
      view := Fresh(keyboardId);
      new;
      FreshOk(keyboardId);
    }

    /** Records a step of the transition system. */
    ghost method Record(step: Step, start: Kernel, trace: seq<Step>) returns (longer: seq<Step>)
      requires KernelOk(view) && Enabled(view, step) && Leads(start, trace, view)
      modifies this`view
      ensures view == Next(old(view), step) && KernelOk(view) && longer == trace + [step] && Leads(start, longer, view)
    {
      StepOk(view, step);
      LeadsByStep(start, trace, view, step);
      longer := trace + [step];
      view := Next(view, step);
    }

    method PushTask(id: TaskId)
      modifies this`taskQueue, this`panicked
      ensures if |old(taskQueue)| >= QUEUE_CAPACITY then panicked && taskQueue == old(taskQueue)
              else panicked == old(panicked) && taskQueue == old(taskQueue) + [id]
    {
      if |taskQueue| >= QUEUE_CAPACITY { panicked := true; } else { taskQueue := taskQueue + [id]; }
    }

    method Spawn() returns (ghost trace: seq<Step>)
      requires Valid() && !panicked && view.executor == Idle
      modifies this
      ensures Valid() && Leads(old(view), trace, view)
      ensures tasks == old(tasks) + {old(nextId)} && nextId == old(nextId) + 1
      ensures panicked == (|old(taskQueue)| == QUEUE_CAPACITY)
      ensures !panicked ==> taskQueue == old(taskQueue) + [old(nextId)]
    {
      QueueBounded(view);
      hide KernelOk, Leads;
      LeadsNowhere(view);
      trace := Record(Step.Spawn, view, []);
      var id := nextId;
      nextId := nextId + 1;
      tasks := tasks + {id};
      PushTask(id);
    }

    /** `wake_task` of any task's waker. */
    method WakeTask(id: TaskId) returns (ghost trace: seq<Step>)
      requires Valid() && !panicked && id < nextId
      modifies this
      ensures Valid() && Leads(old(view), trace, view)
      ensures panicked == (|old(taskQueue)| == QUEUE_CAPACITY)
      ensures !panicked ==> taskQueue == old(taskQueue) + [id]
    {
      QueueBounded(view);
      hide KernelOk, Leads;
      LeadsNowhere(view);
      trace := Record(Wake(id), view, []);
      PushTask(id);
    }

    /** The keyboard interrupt handler. */
    method AddScancode(scancode: nat) returns (ghost trace: seq<Step>)
      requires Valid() && !panicked && view.handler == Quiet
      modifies this
      ensures Valid() && Leads(old(view), trace, view)
      ensures var accepted := old(initialised && |scancodes| < QUEUE_CAPACITY);
              && scancodes == (if accepted then old(scancodes) + [scancode] else old(scancodes))
              && waker == (if accepted then None else old(waker))
              && (!panicked ==>
                    taskQueue == old(taskQueue) + if accepted && old(waker).Some? then [old(waker).value] else [])
      ensures view.executor == old(view.executor) && view.keyboard == old(view.keyboard)
      ensures view.delivered == old(view.delivered) && view.pops == old(view.pops)
      ensures !panicked ==> view.handler == Quiet
      ensures tasks == old(tasks) && wakerCache == old(wakerCache)
    {
      hide KernelOk, Leads;
      ghost var start := view;
      LeadsNowhere(view);
      trace := Record(Interrupt(scancode), start, []);
      if initialised && |scancodes| < QUEUE_CAPACITY {
        scancodes := scancodes + [scancode];
        trace := WakeKeyboard(start, trace);
      }
    }

    /** `SCANCODE_WAKER.wake()` */
    method WakeKeyboard(ghost start: Kernel, ghost before: seq<Step>) returns (ghost trace: seq<Step>)
      requires Valid() && !panicked && view.handler == Pushed && Leads(start, before, view)
      modifies this`waker, this`taskQueue, this`panicked, this`view
      ensures Valid() && Leads(start, trace, view) && waker == None
      ensures !panicked ==> taskQueue == old(taskQueue) + if old(waker).Some? then [old(waker).value] else []
      ensures view.executor == old(view.executor) && view.keyboard == old(view.keyboard)
      ensures view.delivered == old(view.delivered) && view.pops == old(view.pops)
      ensures !panicked ==> view.handler == Quiet
    {
      hide KernelOk, Leads;
      trace := Record(HandlerTake, start, before);
      var taken := waker;
      waker := None;
      if taken.Some? {
        trace := Record(HandlerNotify, start, trace);
        PushTask(taken.value);
      }
    }

    /** Any number of interrupts. */
    method Interrupts() returns (ghost trace: seq<Step>)
      requires Valid() && !panicked && view.handler == Quiet
      modifies this
      ensures Valid() && Leads(old(view), trace, view)
      ensures view.executor == old(view.executor) && view.keyboard == old(view.keyboard)
      ensures view.delivered == old(view.delivered) && view.pops == old(view.pops)
      ensures !panicked ==> view.handler == Quiet
      ensures tasks == old(tasks) && wakerCache == old(wakerCache)
    {
      hide KernelOk, Leads;
      ghost var start := view;
      LeadsNowhere(view);
      trace := [];
      var n :| 0 <= n;
      for i := 0 to n
        invariant Valid() && Leads(start, trace, view)
        invariant view.executor == start.executor && view.keyboard == start.keyboard
        invariant view.delivered == start.delivered && view.pops == start.pops
        invariant !panicked ==> view.handler == Quiet
        invariant tasks == old(tasks) && wakerCache == old(wakerCache)
      {
        if panicked { return; }
        var scancode :| 0 <= scancode;
        ghost var here := view;
        ghost var more := AddScancode(scancode);
        LeadsOn(start, trace, here, more, view);
        trace := trace + more;
      }
    }

    ghost predicate AtFirstPop()
      reads this
    {
      !panicked && view.handler == Quiet && view.executor == Polling(keyboardId) && view.keyboard == FirstPop
    }

    /** The keyboard task has returned `Pending`. */
    ghost predicate Waiting()
      reads this
    {
      !panicked && view.handler == Quiet && view.executor == Idle && view.keyboard == Suspended
    }

    /** `poll_next`: pop, register, pop again; `None` is `Pending`. */
    method PollNext() returns (r: Option<nat>, ghost trace: seq<Step>)
      requires Valid() && AtFirstPop()
      modifies this
      ensures Valid() && Leads(old(view), trace, view)
      ensures !panicked && r.Some? ==> AtFirstPop() && view.delivered == old(view.delivered) + [r.value]
      ensures !panicked && r.None? ==> Waiting() && view.delivered == old(view.delivered)
      ensures !panicked && r.None? ==> waker == Some(keyboardId) || keyboardId in taskQueue
      ensures view.pops == old(view.pops) && tasks == old(tasks) && wakerCache == old(wakerCache)
    {
      hide KernelOk, Leads;
      ghost var start := view;
      trace := Pause(start, []);
      if panicked { return None, trace; }
      trace := Record(KeyFirstPop, start, trace);
      if scancodes != [] {
        r := Some(scancodes[0]);
        scancodes := scancodes[1..];
        return r, trace;
      }
      r, trace := PollRegistered(start, trace);
    }

    /** The slow path of `poll_next`, after the first pop found nothing. */
    method PollRegistered(ghost start: Kernel, ghost before: seq<Step>) returns (r: Option<nat>, ghost trace: seq<Step>)
      requires Valid() && !panicked && view.handler == Quiet && before != [] && Leads(start, before, view)
      requires view.executor == Polling(keyboardId) && view.keyboard == Register
      modifies this
      ensures Valid() && Leads(start, trace, view)
      ensures !panicked && r.Some? ==> AtFirstPop() && view.delivered == old(view.delivered) + [r.value]
      ensures !panicked && r.Some? ==> waker == None
      ensures !panicked && r.None? ==> Waiting() && view.delivered == old(view.delivered)
      ensures !panicked && r.None? ==> waker == Some(keyboardId) || keyboardId in taskQueue
      ensures view.pops == old(view.pops) && tasks == old(tasks) && wakerCache == old(wakerCache)
    {
      hide KernelOk, Leads;
      trace := Pause(start, before);
      if panicked { return None, trace; }
      trace := Record(KeyRegister, start, trace);
      waker := Some(keyboardId);
      trace := Pause(start, trace);
      if panicked { return None, trace; }
      PolledIsInitialised(view);
      trace := Record(KeySecondPop, start, trace);
      if scancodes == [] {
        WaitingIsArmed(view);
        return None, trace;
      }
      r := Some(scancodes[0]);
      scancodes := scancodes[1..];
      trace := TakeWaker(start, trace);
    }

    method TakeWaker(ghost start: Kernel, ghost before: seq<Step>) returns (ghost trace: seq<Step>)
      requires Valid() && !panicked && view.handler == Quiet && before != [] && Leads(start, before, view)
      requires view.executor == Polling(keyboardId) && view.keyboard.Take?
      modifies this
      ensures Valid() && Leads(start, trace, view)
      ensures !panicked ==> AtFirstPop() && view.delivered == old(view.delivered) + [old(view.keyboard.scancode)]
      ensures !panicked ==> waker == None
      ensures view.pops == old(view.pops) && tasks == old(tasks) && wakerCache == old(wakerCache)
    {
      hide KernelOk, Leads;
      trace := Pause(start, before);
      if panicked { return; }
      trace := Record(KeyTake, start, trace);
      waker := None;
    }

    /** Interrupts between two steps of a task. */
    method Pause(ghost start: Kernel, ghost trace: seq<Step>) returns (ghost longer: seq<Step>)
      requires Valid() && !panicked && view.handler == Quiet && (trace == [] ==> start == view)
      requires trace == [] || Leads(start, trace, view)
      modifies this
      ensures Valid() && Leads(start, longer, view)
      ensures view.executor == old(view.executor) && view.keyboard == old(view.keyboard)
      ensures view.delivered == old(view.delivered) && view.pops == old(view.pops)
      ensures !panicked ==> view.handler == Quiet
      ensures tasks == old(tasks) && wakerCache == old(wakerCache)
    {
      hide KernelOk, Leads;
      ghost var here := view;
      LeadsNowhere(view);
      ghost var more := Interrupts();
      LeadsOn(start, trace, here, more, view);
      longer := trace + more;
    }

    /** `print_keypresses` from one suspension to the next; at most `rounds` scancodes are looked at. */
    method PollKeyboard(rounds: nat) returns (received: seq<nat>, pending: bool, ghost trace: seq<Step>)
      requires Valid() && AtFirstPop()
      modifies this
      ensures Valid() && Leads(old(view), trace, view)
      ensures panicked || (if pending then Waiting() else AtFirstPop())
      ensures !panicked ==> view.delivered == old(view.delivered) + received
      ensures view.pops == old(view.pops) && tasks == old(tasks) && wakerCache == old(wakerCache)
    {
      hide KernelOk, Leads;
      ghost var start := view;
      LeadsNowhere(view);
      trace, received, pending := [], [], false;
      for i := 0 to rounds
        invariant Valid() && AtFirstPop() && Leads(start, trace, view)
        invariant view.delivered == start.delivered + received && view.pops == start.pops
        invariant tasks == old(tasks) && wakerCache == old(wakerCache)
      {
        ghost var here, more := view, [];
        var r: Option<nat>;
        r, more := PollNext();
        LeadsOn(start, trace, here, more, view);
        trace := trace + more;
        if panicked || r.None? { pending := true; return; }
        received := received + [r.value];
      }
    }

    /** One task is popped and, if it is live, polled. `ready` is how another task's poll ends. */
    method RunOne(ready: bool, rounds: nat) returns (returned: bool, ghost trace: seq<Step>)
      requires Valid() && !panicked && view.executor == Idle && view.handler == Quiet && taskQueue != []
      modifies this
      ensures Valid() && Leads(old(view), trace, view)
      ensures panicked || !returned || (view.executor == Idle && view.handler == Quiet)
      ensures view.pops == old(view.pops) + [(old(taskQueue)[0], old(taskQueue)[0] in old(tasks))]
      ensures !panicked ==>
                var id := old(taskQueue)[0];
                if id !in old(tasks) then tasks == old(tasks) && wakerCache == old(wakerCache)
                else if ready && id != keyboardId
                  then tasks == old(tasks) - {id} && wakerCache == old(wakerCache) - {id}
                else tasks == old(tasks) && wakerCache == old(wakerCache) + {id}
    {
      hide KernelOk, Leads;
      ghost var start := view;
      LeadsNowhere(view);
      returned := true;
      trace := Record(Pop, start, []);
      var id := taskQueue[0];
      taskQueue := taskQueue[1..];
      trace := Pause(start, trace);
      if panicked { return; }
      if id !in tasks {
        trace := Record(Skip, start, trace);
        return;
      }
      trace := Record(Begin, start, trace);
      wakerCache := wakerCache + {id};
      if id == keyboardId {
        initialised := true;
        ghost var here, more := view, [];
        var received;
        received, returned, more := PollKeyboard(rounds);
        LeadsOn(start, trace, here, more, view);
        trace := trace + more;
      } else {
        trace := FinishOther(id, ready, start, trace);
      }
    }

    method FinishOther(id: TaskId, ready: bool, ghost start: Kernel, ghost before: seq<Step>)
      returns (ghost trace: seq<Step>)
      requires Valid() && !panicked && view.handler == Quiet && before != [] && Leads(start, before, view)
      requires view.executor == Polling(id) && id != keyboardId
      modifies this
      ensures Valid() && Leads(start, trace, view)
      ensures panicked || (view.executor == Idle && view.handler == Quiet)
      ensures !panicked ==> tasks == if ready then old(tasks) - {id} else old(tasks)
      ensures !panicked ==> wakerCache == if ready then old(wakerCache) - {id} else old(wakerCache)
      ensures view.pops == old(view.pops)
    {
      hide KernelOk, Leads;
      trace := Pause(start, before);
      if panicked { return; }
      trace := Record(End(ready), start, trace);
      if ready {
        tasks := tasks - {id};
        wakerCache := wakerCache - {id};
      }
    }

    /**
      `run_ready_tasks`, for at most as many polls as `polls` describes: `popped` ids come off the queue,
      and unless the run is cut short there is nothing left on it or `polls` is used up.
    */
    method RunReadyTasks(polls: seq<(bool, nat)>) returns (popped: nat, returned: bool, ghost trace: seq<Step>)
      requires Valid() && !panicked && view.executor == Idle && view.handler == Quiet
      modifies this
      ensures Valid() && Leads(old(view), trace, view)
      ensures |view.pops| == |old(view.pops)| + popped
      ensures !panicked && returned ==> view.executor == Idle && (taskQueue == [] || popped == |polls|)
    {
      hide KernelOk, Leads;
      ghost var start := view;
      LeadsNowhere(view);
      trace, popped, returned := [], 0, true;
      for i := 0 to |polls|
        invariant Valid() && Leads(start, trace, view)
        invariant !panicked && view.executor == Idle && view.handler == Quiet && returned
        invariant popped == i && |view.pops| == |start.pops| + popped
      {
        if taskQueue == [] { return; }
        ghost var here, more := view, [];
        returned, more := RunOne(polls[i].0, polls[i].1);
        LeadsOn(start, trace, here, more, view);
        trace, popped := trace + more, popped + 1;
        if panicked || !returned { return; }
      }
    }
  }
}
