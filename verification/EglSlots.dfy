/** Replaceable tasks of the EGL thread (src/grd-egl-thread.c): a slot holds the newest task only, and every
    push leaves a marker of the slot in the thread's queue. Pushes hold the queue lock; the thread takes the
    task of a slot under the slot's own lock, so it can do so in the middle of a push. */
module EglSlots {
  import opened Options

  type Slot = nat
  type Task = nat  // the identity of a task

  datatype Item = Marker(slot: Slot) | Plain(task: Task)

  datatype Thread = Idle | Dispatching(slot: Slot) | Running(task: Task) | RunningPlain(task: Task) | Draining | Stopped

  /** How a task's callback was called: FALSE for a displaced or released one, otherwise as its run went. */
  datatype Outcome = Displaced | Released | Ran(success: bool)

  /** The life of a task of a slot. */
  datatype Place = InSlot(slot: Slot) | OnThread | Done(outcome: Outcome)

  datatype State = State(
    slots: map<Slot, Option<Task>>, queue: seq<Item>, pusher: Option<Slot>, thread: Thread,
    places: map<Task, Place>, newest: map<Slot, Task>,
    called: multiset<Task>, destroyed: multiset<Task>)

  datatype Step =
    | Acquire(slot: Slot)
    | Release(slot: Slot)
    | Replace(slot: Slot, task: Task)  // first half of a push
    | PushMarker                       // second half
    | PushPlain(task: Task)
    | Pop
    | Steal
    | Finish(success: bool)
    | Quit
    | Drain

  predicate HasMarker(queue: seq<Item>, slot: Slot) {
    Marker(slot) in queue
  }

  predicate Enabled(s: State, step: Step) {
    match step
    case Acquire(slot) => slot !in s.slots && s.pusher.None?
    case Release(slot) =>
      slot in s.slots && s.pusher.None? && !HasMarker(s.queue, slot) && s.thread != Dispatching(slot)
    case Replace(slot, task) => slot in s.slots && s.pusher.None? && task !in s.places
    case PushMarker => s.pusher.Some?
    case PushPlain(task) => s.pusher.None? && task !in s.places
    case Pop => s.pusher.None? && s.thread.Idle?
    case Steal => s.thread.Dispatching? && s.thread.slot in s.slots
    case Finish(_) => s.thread.Running? || s.thread.RunningPlain?
    case Quit => s.thread.Idle?
    case Drain => s.pusher.None? && s.thread.Draining?
  }

  /** replaceable_task_replace_task: the held task's callback is called with FALSE, and it is destroyed. */
  function Replaced(s: State, slot: Slot, task: Option<Task>, outcome: Outcome): State
    requires slot in s.slots
  {
    var held := s.slots[slot];
    var placed := if task.Some? then s.places[task.value := InSlot(slot)] else s.places;
    var cleared := s.(slots := s.slots[slot := task], places := placed);
    if held.Some?
    then cleared.(called := s.called + multiset{held.value}, destroyed := s.destroyed + multiset{held.value},
                  places := placed[held.value := Done(outcome)])
    else cleared
  }

  function TakePop(s: State): State {
    if |s.queue| == 0 then s
    else
      var popped := s.(queue := s.queue[1..]);
      match s.queue[0]
      case Marker(slot) => popped.(thread := Dispatching(slot))
      case Plain(task) => popped.(thread := RunningPlain(task))
  }

  function TakeSteal(s: State, slot: Slot): State
    requires slot in s.slots
  {
    match s.slots[slot]
    case None => s.(thread := Idle)
    case Some(task) => s.(slots := s.slots[slot := None], thread := Running(task), places := s.places[task := OnThread])
  }

  function TakeFinish(s: State, success: bool): State
    requires s.thread.Running? || s.thread.RunningPlain?
  {
    if s.thread.RunningPlain? then s.(thread := Idle)
    else s.(thread := Idle, places := s.places[s.thread.task := Done(Ran(success))],
            called := s.called + multiset{s.thread.task}, destroyed := s.destroyed + multiset{s.thread.task})
  }

  function Take(s: State, step: Step): State
    requires Enabled(s, step)
  {
    match step
    case Acquire(slot) => s.(slots := s.slots[slot := None])
    case Release(slot) =>
      var emptied := Replaced(s, slot, None, Released);
      emptied.(slots := emptied.slots - {slot}, newest := s.newest - {slot})
    case Replace(slot, task) =>
      Replaced(s, slot, Some(task), Displaced).(pusher := Some(slot), newest := s.newest[slot := task])
    case PushMarker => s.(queue := s.queue + [Marker(s.pusher.value)], pusher := None)
    case PushPlain(task) => s.(queue := s.queue + [Plain(task)])
    case Pop => TakePop(s)
    case Steal => TakeSteal(s, s.thread.slot)
    case Finish(success) => TakeFinish(s, success)
    case Quit => s.(thread := Draining)
    case Drain => if |s.queue| == 0 then s.(thread := Stopped) else s.(queue := s.queue[1..])
  }

  predicate Initial(s: State) {
    s == State(map[], [], None, Idle, map[], map[], multiset{}, multiset{})
  }

  // ----- what every run keeps

  /** Each task is where its place says. */
  ghost predicate PlacesKept(s: State) {
    && (forall task :: task in s.places && s.places[task].InSlot? ==>
          s.places[task].slot in s.slots && s.slots[s.places[task].slot] == Some(task))
    && (forall slot :: slot in s.slots && s.slots[slot].Some? ==>
          s.slots[slot].value in s.places && s.places[s.slots[slot].value] == InSlot(slot))
    && (forall task :: task in s.places && s.places[task] == OnThread ==> s.thread == Running(task))
    && (s.thread.Running? ==> s.thread.task in s.places && s.places[s.thread.task] == OnThread)
  }

  /** A task's callback has been called, and it has been destroyed, once if it is done and not at all before. */
  ghost predicate CalledOnce(s: State) {
    forall task :: s.called[task] == s.destroyed[task] == if task in s.places && s.places[task].Done? then 1 else 0
  }

  /** Markers, the pusher and the dispatched marker are of slots that exist. */
  ghost predicate MarkersKept(s: State) {
    && (forall slot :: HasMarker(s.queue, slot) ==> slot in s.slots)
    && (s.pusher.Some? ==> s.pusher.value in s.slots)
    && (s.thread.Dispatching? ==> s.thread.slot in s.slots)
  }

  /** While the thread runs, a slot that holds a task has a marker, queued or on its way. */
  ghost predicate NotStranded(s: State) {
    !s.thread.Draining? && !s.thread.Stopped? ==>
      forall slot :: slot in s.slots && s.slots[slot].Some? ==>
        HasMarker(s.queue, slot) || s.pusher == Some(slot) || s.thread == Dispatching(slot)
  }

  /** The newest task of a slot is held there, runs, or has run: it is never displaced. */
  ghost predicate NewestWins(s: State) {
    forall slot :: slot in s.newest ==>
      slot in s.slots && s.newest[slot] in s.places &&
      match s.places[s.newest[slot]]
      case InSlot(other) => other == slot
      case OnThread => true
      case Done(outcome) => outcome.Ran?
  }

  /** What a slot holds is the newest task pushed to it. */
  ghost predicate HoldsNewest(s: State) {
    forall slot :: slot in s.slots && s.slots[slot].Some? ==> slot in s.newest && s.newest[slot] == s.slots[slot].value
  }

  ghost predicate NewestDistinct(s: State) {
    forall slot, slot' :: slot in s.newest && slot' in s.newest && slot != slot' ==> s.newest[slot] != s.newest[slot']
  }

  ghost predicate Inv(s: State) {
    && PlacesKept(s) && CalledOnce(s) && MarkersKept(s) && NotStranded(s)
    && NewestWins(s) && HoldsNewest(s) && NewestDistinct(s)
  }

  // ----- pushing

  lemma ReplaceKeepsPlaces(s: State, slot: Slot, task: Task)
    requires PlacesKept(s) && Enabled(s, Replace(slot, task))
    ensures PlacesKept(Take(s, Replace(slot, task)))
  {
    var s' := Take(s, Replace(slot, task));
    var held := s.slots[slot];
    forall t | t in s'.places && s'.places[t].InSlot?
      ensures s'.places[t].slot in s'.slots && s'.slots[s'.places[t].slot] == Some(t)
    {
      if t != task {
        assert held != Some(t) && s'.places[t] == s.places[t];
      }
    }
    if held.Some? {
      assert held.value != task && s.places[held.value] == InSlot(slot);
    }
  }

  lemma ReplaceCallsOnce(s: State, slot: Slot, task: Task)
    requires Inv(s) && Enabled(s, Replace(slot, task))
    ensures CalledOnce(Take(s, Replace(slot, task)))
  {
    var s' := Take(s, Replace(slot, task));
    assert forall t :: t in s'.places <==> t in s.places || t == task;
    if s.slots[slot].Some? {
      var held := s.slots[slot].value;
      assert s.places[held] == InSlot(slot) && held != task;
    }
  }

  lemma ReplaceKeepsMarkers(s: State, slot: Slot, task: Task)
    requires Inv(s) && Enabled(s, Replace(slot, task))
    ensures var s' := Take(s, Replace(slot, task)); MarkersKept(s') && NotStranded(s')
  {
  }

  lemma ReplaceKeepsNewest(s: State, slot: Slot, task: Task)
    requires Inv(s) && Enabled(s, Replace(slot, task))
    ensures var s' := Take(s, Replace(slot, task)); NewestWins(s') && HoldsNewest(s') && NewestDistinct(s')
  {
  }

  // ----- releasing

  lemma ReleaseKeepsPlaces(s: State, slot: Slot)
    requires Inv(s) && Enabled(s, Release(slot))
    ensures PlacesKept(Take(s, Release(slot))) && CalledOnce(Take(s, Release(slot)))
  {
  }

  lemma ReleaseKeepsQueue(s: State, slot: Slot)
    requires Inv(s) && Enabled(s, Release(slot))
    ensures var s' := Take(s, Release(slot));
            MarkersKept(s') && NotStranded(s') && NewestWins(s') && HoldsNewest(s') && NewestDistinct(s')
  {
  }

  // ----- the thread

  lemma PopKeepsInv(s: State)
    requires Inv(s) && Enabled(s, Pop)
    ensures Inv(Take(s, Pop))
  {
    if |s.queue| > 0 {
      FirstOrRest(s.queue);
    }
  }

  lemma FirstOrRest(queue: seq<Item>)
    requires |queue| > 0
    ensures forall slot :: HasMarker(queue, slot) <==> queue[0] == Marker(slot) || HasMarker(queue[1..], slot)
  {
    assert queue == [queue[0]] + queue[1..];
  }

  lemma StealKeepsPlaces(s: State)
    requires Inv(s) && Enabled(s, Steal)
    ensures PlacesKept(Take(s, Steal)) && CalledOnce(Take(s, Steal))
  {
  }

  lemma StealKeepsQueue(s: State)
    requires Inv(s) && Enabled(s, Steal)
    ensures var s' := Take(s, Steal);
            MarkersKept(s') && NotStranded(s') && NewestWins(s') && HoldsNewest(s') && NewestDistinct(s')
  {
  }

  lemma FinishKeepsInv(s: State, success: bool)
    requires Inv(s) && Enabled(s, Finish(success))
    ensures Inv(Take(s, Finish(success)))
  {
  }

  lemma DrainKeepsInv(s: State)
    requires Inv(s) && Enabled(s, Drain)
    ensures Inv(Take(s, Drain))
  {
    if |s.queue| > 0 {
      FirstOrRest(s.queue);
    }
  }

  /** Steps that leave all tasks where they are. */
  lemma QuietStepKeepsInv(s: State, step: Step)
    requires Inv(s) && Enabled(s, step) && (step.Acquire? || step.PushMarker? || step.PushPlain? || step.Quit?)
    ensures Inv(Take(s, step))
  {
  }

  lemma StepKeepsInv(s: State, step: Step)
    requires Inv(s) && Enabled(s, step)
    ensures Inv(Take(s, step))
  {
    match step
    case Release(slot) =>
      ReleaseKeepsPlaces(s, slot);
      ReleaseKeepsQueue(s, slot);
    case Replace(slot, task) =>
      ReplaceKeepsPlaces(s, slot, task);
      ReplaceCallsOnce(s, slot, task);
      ReplaceKeepsMarkers(s, slot, task);
      ReplaceKeepsNewest(s, slot, task);
    case Pop => PopKeepsInv(s);
    case Steal =>
      StealKeepsPlaces(s);
      StealKeepsQueue(s);
    case Finish(success) => FinishKeepsInv(s, success);
    case Drain => DrainKeepsInv(s);
    case _ => QuietStepKeepsInv(s, step);
  }

  // ----- every reachable state

  predicate Run(s: State, steps: seq<Step>)
    decreases |steps|
  {
    |steps| == 0 || (Enabled(s, steps[0]) && Run(Take(s, steps[0]), steps[1..]))
  }

  function After(s: State, steps: seq<Step>): State
    requires Run(s, steps)
    decreases |steps|
  {
    if |steps| == 0 then s else After(Take(s, steps[0]), steps[1..])
  }

  /** However pushes, releases and the thread interleave. */
  lemma {:induction false} RunKeepsInv(s: State, steps: seq<Step>)
    requires Inv(s) && Run(s, steps)
    ensures Inv(After(s, steps))
    decreases |steps|
  {
    if |steps| > 0 {
      StepKeepsInv(s, steps[0]);
      RunKeepsInv(Take(s, steps[0]), steps[1..]);
    }
  }

  /** Over every run from the start. */
  lemma EveryRun(s: State, steps: seq<Step>, task: Task)
    requires Initial(s) && Run(s, steps)
    ensures var s' := After(s, steps);
            && s'.called[task] == s'.destroyed[task] <= 1
            && (s'.called[task] == 1 <==> task in s'.places && s'.places[task].Done?)
            && (task in s'.places && s'.places[task] == OnThread ==> s'.thread == Running(task))
            && (task in s'.places && s'.places[task].InSlot? ==>
                  s'.places[task].slot in s'.slots && s'.slots[s'.places[task].slot] == Some(task))
            && NotStranded(s') && NewestWins(s')
  {
    RunKeepsInv(s, steps);
  }

  // ----- progress

  ghost predicate Leads(s: State, s': State) {
    exists steps :: Run(s, steps) && After(s, steps) == s'
  }

  lemma LeadsFirst(s: State, step: Step, s': State)
    requires Enabled(s, step) && Leads(Take(s, step), s')
    ensures Leads(s, s')
  {
    var rest :| Run(Take(s, step), rest) && After(Take(s, step), rest) == s';
    var steps := [step] + rest;
    assert steps[1..] == rest;
    assert Run(s, steps) && After(s, steps) == s';
  }

  /** What the thread does between two looks at the queue. */
  predicate Serving(thread: Thread) {
    thread.Idle? || thread.Dispatching? || thread.Running? || thread.RunningPlain?
  }

  /** How far the thread is from an empty queue. */
  function Work(s: State): nat {
    3 * |s.queue| + match s.thread case Idle => 0 case Dispatching(_) => 2 case _ => 1
  }

  /** The thread's next step, if it has any work left. */
  function ServeStep(s: State, success: bool): Step {
    if s.thread.Idle? then Pop else if s.thread.Dispatching? then Steal else Finish(success)
  }

  lemma ServeStepWorks(s: State, success: bool)
    requires Inv(s) && s.pusher.None? && Serving(s.thread) && Work(s) > 0
    ensures Enabled(s, ServeStep(s, success))
    ensures var s' := Take(s, ServeStep(s, success));
            Work(s') < Work(s) && Serving(s'.thread) && s'.pusher.None? && s'.newest == s.newest
  {
  }

  /** With no work left, the newest task of every slot has had its run. */
  ghost predicate AllServed(s: State) {
    s.queue == [] && s.thread.Idle? &&
    (forall slot :: slot in s.slots ==> s.slots[slot] == None) &&
    (forall slot :: slot in s.newest ==> s.newest[slot] in s.places && s.places[s.newest[slot]].Done? &&
                                         s.places[s.newest[slot]].outcome.Ran?)
  }

  lemma NoWorkLeft(s: State)
    requires Inv(s) && s.pusher.None? && Serving(s.thread) && Work(s) == 0
    ensures AllServed(s)
  {
  }

  /** From every reachable state between two pushes, the thread on its own reaches a point where the newest
      task of every slot has run, however its tasks fare. */
  lemma {:induction false} NewestIsServed(s: State, success: bool)
    requires Inv(s) && s.pusher.None? && Serving(s.thread)
    ensures exists s' :: Leads(s, s') && AllServed(s') && s'.newest == s.newest
    decreases Work(s)
  {
    if Work(s) == 0 {
      NoWorkLeft(s);
      assert Run(s, []) && After(s, []) == s;
    } else {
      var step := ServeStep(s, success);
      ServeStepWorks(s, success);
      StepKeepsInv(s, step);
      NewestIsServed(Take(s, step), success);
      var s' :| Leads(Take(s, step), s') && AllServed(s') && s'.newest == s.newest;
      LeadsFirst(s, step, s');
    }
  }

  /** A task that was displaced was not the newest of any slot. */
  lemma DisplacedIsNotNewest(s: State, task: Task)
    requires Inv(s) && task in s.places && s.places[task] == Done(Displaced)
    ensures forall slot :: slot in s.newest ==> s.newest[slot] != task
  {
  }

  /** While the thread runs, a slot that nobody pushes to and whose markers have all been dispatched is empty. */
  lemma NewestIsReached(s: State, slot: Slot)
    requires Inv(s) && slot in s.slots && !s.thread.Draining? && !s.thread.Stopped?
    requires !HasMarker(s.queue, slot) && s.pusher != Some(slot) && s.thread != Dispatching(slot)
    ensures s.slots[slot] == None
    ensures slot in s.newest ==> s.thread == Running(s.newest[slot]) || (s.places[s.newest[slot]].Done? &&
                                                                      s.places[s.newest[slot]].outcome.Ran?)
  {
  }

  /** When all slots are released and the thread has stopped, every task pushed to a slot is done. */
  lemma NothingLeaks(s: State, task: Task)
    requires Inv(s) && s.slots == map[] && !s.thread.Running? && task in s.places
    ensures s.called[task] == 1 && s.destroyed[task] == 1
  {
    assert s.places[task].Done?;
  }

  // ----- the object

  class EglThread {
    var slotTable: map<Slot, Option<Task>>
    var taskQueue: seq<Item>

    ghost var pusher: Option<Slot>
    ghost var thread: Thread
    ghost var places: map<Task, Place>
    ghost var newest: map<Slot, Task>
    ghost var called: multiset<Task>
    ghost var destroyed: multiset<Task>

    ghost function Abs(): State
      reads this
    {
      State(slotTable, taskQueue, pusher, thread, places, newest, called, destroyed)
    }

    ghost predicate Valid()
      reads this
    {
      Inv(Abs())
    }

    constructor ()
      ensures Valid() && Initial(Abs())
    {
      slotTable, taskQueue := map[], [];
      pusher, thread, places, newest, called, destroyed := None, Idle, map[], map[], multiset{}, multiset{};
    }

    method AcquireSlot(slot: Slot)
      requires Valid() && slot !in slotTable && pusher.None?
      modifies this`slotTable
      ensures Valid() && Abs() == Take(old(Abs()), Acquire(slot))
    {
      QuietStepKeepsInv(Abs(), Acquire(slot));
      slotTable := slotTable[slot := None];
    }

    /** replaceable_task_replace_task */
    method ReplaceTask(slot: Slot, newTask: Option<Task>, ghost outcome: Outcome)
      requires slot in slotTable
      modifies this`slotTable, this`places, this`called, this`destroyed
      ensures Abs() == Replaced(old(Abs()), slot, newTask, outcome)
    {
      var task := slotTable[slot];
      if newTask.Some? {
        places := places[newTask.value := InSlot(slot)];
      }
      if task.Some? {
        called, destroyed := called + multiset{task.value}, destroyed + multiset{task.value};
        places := places[task.value := Done(outcome)];
      }
      slotTable := slotTable[slot := newTask];
    }

    /** Nobody may release a slot while a marker of it is queued or dispatched. */
    method ReleaseSlot(slot: Slot)
      requires Valid() && Enabled(Abs(), Release(slot))
      modifies this`slotTable, this`places, this`called, this`destroyed, this`newest
      ensures Valid() && Abs() == Take(old(Abs()), Release(slot))
    {
      StepKeepsInv(Abs(), Release(slot));
      ReplaceTask(slot, None, Released);
      slotTable := slotTable - {slot};
      newest := newest - {slot};
    }

    method ReplaceNewest(slot: Slot, task: Task)
      requires Valid() && slot in slotTable && pusher.None? && task !in places
      modifies this`slotTable, this`places, this`called, this`destroyed, this`newest, this`pusher
      ensures Valid() && Abs() == Take(old(Abs()), Replace(slot, task))
    {
      StepKeepsInv(Abs(), Replace(slot, task));
      ReplaceTask(slot, Some(task), Displaced);
      pusher := Some(slot);
      newest := newest[slot := task];
    }

    /** push_replaceable_task, when the thread does nothing in between */
    method PushReplaceableTask(slot: Slot, task: Task)
      requires Valid() && slot in slotTable && pusher.None? && task !in places
      modifies this
      ensures Valid() && Abs() == Take(Take(old(Abs()), Replace(slot, task)), PushMarker)
    {
      ReplaceNewest(slot, task);
      QuietStepKeepsInv(Abs(), PushMarker);
      taskQueue := taskQueue + [Marker(slot)];
      pusher := None;
    }

    /** The thread pops one task or marker. */
    method PopItem() returns (item: Option<Item>)
      requires Valid() && thread.Idle? && pusher.None?
      modifies this`taskQueue, this`thread
      ensures Valid() && Abs() == Take(old(Abs()), Pop)
      ensures item.None? ==> thread.Idle?
      ensures item.Some? ==> thread == match item.value case Marker(slot) => Dispatching(slot)
                                                        case Plain(task) => RunningPlain(task)
    {
      PopKeepsInv(Abs());
      if taskQueue == [] {
        return None;
      }
      item := Some(taskQueue[0]);
      taskQueue := taskQueue[1..];
      thread := match item.value case Marker(slot) => Dispatching(slot) case Plain(task) => RunningPlain(task);
    }

    /** run_replaceable_task_in_impl up to the release of the slot's lock */
    method StealTask(slot: Slot) returns (task: Option<Task>)
      requires Valid() && thread == Dispatching(slot)
      modifies this`slotTable, this`thread, this`places
      ensures Valid() && Abs() == Take(old(Abs()), Steal)
      ensures thread == if task.Some? then Running(task.value) else Idle
      ensures slot in slotTable && slotTable[slot] == None
    {
      StepKeepsInv(Abs(), Steal);
      task := slotTable[slot];
      if task.None? {
        thread := Idle;
        return;
      }
      slotTable := slotTable[slot := None];
      thread, places := Running(task.value), places[task.value := OnThread];
    }

    /** The task's function, which calls the callback as its work went, and its destruction. */
    method RunTask(task: Task, success: bool)
      requires Valid() && thread == Running(task)
      modifies this`thread, this`places, this`called, this`destroyed
      ensures Valid() && thread.Idle? && Abs() == Take(old(Abs()), Finish(success))
    {
      FinishKeepsInv(Abs(), success);
      ghost var before := Abs();
      thread, places := Idle, places[task := Done(Ran(success))];
      called, destroyed := called + multiset{task}, destroyed + multiset{task};
      assert Abs() == Take(before, Finish(success));
    }

    /** run_replaceable_task_in_impl */
    method RunReplaceableTask(slot: Slot, success: bool)
      requires Valid() && thread == Dispatching(slot)
      modifies this`slotTable, this`thread, this`places, this`called, this`destroyed
      ensures Valid() && thread.Idle? && slot in slotTable && slotTable[slot] == None
    {
      var task := StealTask(slot);
      if task.Some? {
        RunTask(task.value, success);
      }
    }

    method RunPlainTask(task: Task, success: bool)
      requires Valid() && thread == RunningPlain(task)
      modifies this`thread
      ensures Valid() && thread.Idle? && Abs() == Take(old(Abs()), Finish(success))
    {
      FinishKeepsInv(Abs(), success);
      thread := Idle;
    }

    /** grd_thread_dispatch_in_impl: after a marker its slot is empty. */
    method Dispatch(success: bool) returns (item: Option<Item>)
      requires Valid() && thread.Idle? && pusher.None?
      modifies this`taskQueue, this`slotTable, this`thread, this`places, this`called, this`destroyed
      ensures Valid() && thread.Idle?
      ensures item.Some? && item.value.Marker? ==> item.value.slot in slotTable && slotTable[item.value.slot] == None
    {
      item := PopItem();
      if item.Some? {
        match item.value
        case Marker(slot) => RunReplaceableTask(slot, success);
        case Plain(task) => RunPlainTask(task, success);
      }
    }

    /** The end of the thread: what is still queued is destroyed without being run; markers are no more than that. */
    method DrainQueue()
      requires Valid() && thread.Draining? && pusher.None?
      modifies this`taskQueue, this`thread
      ensures Valid() && thread.Stopped? && taskQueue == [] && Abs() == old(Abs()).(queue := [], thread := Stopped)
    {
      while taskQueue != []
        invariant Valid() && thread.Draining? && pusher.None?
        invariant Abs() == old(Abs()).(queue := taskQueue)
        decreases |taskQueue|
      {
        DrainKeepsInv(Abs());
        taskQueue := taskQueue[1..];
      }
      DrainKeepsInv(Abs());
      thread := Stopped;
    }
  }
}
