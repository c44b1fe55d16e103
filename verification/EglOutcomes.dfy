/** What becomes of the tasks of EglSlots (src/grd-egl-thread.c): who runs, in what order, and how callbacks
    are called. */
module EglOutcomes {
  import opened Options
  import opened EglSlots

  // ----- single steps

  /** A run ends with the task's callback, called with how the run went, and its destruction. */
  lemma FinishReportsRun(s: State, success: bool)
    requires Enabled(s, Finish(success)) && s.thread.Running?
    ensures var s', task := Take(s, Finish(success)), s.thread.task;
            && s' == s.(thread := Idle, places := s.places[task := Done(Ran(success))],
                        called := s.called + multiset{task}, destroyed := s.destroyed + multiset{task})
  {
  }

  /** A push puts the task into the slot, and the one it displaces is called with FALSE and destroyed. */
  lemma PushDisplaces(s: State, slot: Slot, task: Task)
    requires Inv(s) && Enabled(s, Replace(slot, task))
    ensures var s', held := Take(s, Replace(slot, task)), s.slots[slot];
            && s'.slots == s.slots[slot := Some(task)] && s'.newest == s.newest[slot := task]
            && s'.places[task] == InSlot(slot) && s'.pusher == Some(slot) && s'.queue == s.queue && s'.thread == s.thread
            && (held.Some? ==> held.value != task && s'.places[held.value] == Done(Displaced) &&
                               s'.called == s.called + multiset{held.value} &&
                               s'.destroyed == s.destroyed + multiset{held.value})
            && (held.None? ==> s'.called == s.called && s'.destroyed == s.destroyed)
            && forall other :: other in s.places && held != Some(other) ==> s'.places[other] == s.places[other]
  {
  }

  /** A released slot is gone, and the task it held is called with FALSE and destroyed. */
  lemma ReleaseGivesUp(s: State, slot: Slot)
    requires Inv(s) && Enabled(s, Release(slot))
    ensures var s', held := Take(s, Release(slot)), s.slots[slot];
            && s'.slots == s.slots - {slot} && s'.queue == s.queue && s'.thread == s.thread
            && (held.Some? ==> s'.places == s.places[held.value := Done(Released)] &&
                               s'.called == s.called + multiset{held.value} &&
                               s'.destroyed == s.destroyed + multiset{held.value})
            && (held.None? ==> s'.places == s.places && s'.called == s.called && s'.destroyed == s.destroyed)
  {
    assert s.slots[slot := None] - {slot} == s.slots - {slot};
  }

  /** Markers and plain tasks go to the tail of the queue; the thread takes them from its head. */
  lemma QueueIsFirstInFirstOut(s: State, task: Task)
    ensures Enabled(s, PushMarker) ==>
              Take(s, PushMarker) == s.(queue := s.queue + [Marker(s.pusher.value)], pusher := None)
    ensures Enabled(s, PushPlain(task)) ==> Take(s, PushPlain(task)) == s.(queue := s.queue + [Plain(task)])
    ensures Enabled(s, Pop) && |s.queue| > 0 ==>
              Take(s, Pop) == s.(queue := s.queue[1..],
                                 thread := if s.queue[0].Marker? then Dispatching(s.queue[0].slot) else RunningPlain(s.queue[0].task))
    ensures Enabled(s, Pop) && s.queue == [] ==> Take(s, Pop) == s
  {
  }

  /** The thread takes the task out of the slot; if it is gone already, the thread goes on. */
  lemma StealTakesNewest(s: State)
    requires Inv(s) && Enabled(s, Steal)
    ensures var s', held := Take(s, Steal), s.slots[s.thread.slot];
            && s'.slots == s.slots[s.thread.slot := None] && s'.queue == s.queue
            && s'.called == s.called && s'.destroyed == s.destroyed
            && (held.Some? ==> s'.thread == Running(held.value) && s'.places == s.places[held.value := OnThread])
            && (held.None? ==> s'.thread == Idle && s'.places == s.places)
  {
    if s.slots[s.thread.slot].None? {
      assert s.slots[s.thread.slot := None] == s.slots;
    }
  }

  /** Draining the queue touches no task of a slot. */
  lemma DrainDropsMarkers(s: State)
    requires Enabled(s, Drain)
    ensures Take(s, Drain) == if s.queue == [] then s.(thread := Stopped) else s.(queue := s.queue[1..])
  {
  }

  lemma NewSlotIsEmpty(s: State, slot: Slot)
    requires Enabled(s, Acquire(slot))
    ensures Take(s, Acquire(slot)) == s.(slots := s.slots[slot := None])
  {
  }

  function DrainSteps(n: nat): seq<Step> {
    seq(n + 1, i => Drain)
  }

  lemma {:induction false} DrainEnds(s: State)
    requires s.thread.Draining? && s.pusher.None?
    ensures Run(s, DrainSteps(|s.queue|))
    ensures After(s, DrainSteps(|s.queue|)) == s.(queue := [], thread := Stopped)
    decreases |s.queue|
  {
    var steps := DrainSteps(|s.queue|);
    var s' := Take(s, Drain);
    if s.queue == [] {
      assert steps[1..] == [];
      assert Run(s', []) && After(s', []) == s';
    } else {
      assert steps[1..] == DrainSteps(|s'.queue|);
      DrainEnds(s');
    }
  }

  /** A thread that is told to quit empties its queue and stops; what the slots hold stays for their release. */
  lemma QuitStopsThread(s: State)
    requires Enabled(s, Quit) && s.pusher.None?
    ensures Run(Take(s, Quit), DrainSteps(|s.queue|))
    ensures After(Take(s, Quit), DrainSteps(|s.queue|)) == s.(queue := [], thread := Stopped)
  {
    DrainEnds(Take(s, Quit));
  }

  // ----- from a push to a run

  lemma OneStep(s: State, a: Step)
    requires Enabled(s, a)
    ensures Run(s, [a]) && After(s, [a]) == Take(s, a)
  {
    var rest: seq<Step> := [a][1..];
    assert rest == [];
    assert Run(Take(s, a), rest) && After(Take(s, a), rest) == Take(s, a);
  }

  lemma TwoSteps(s: State, a: Step, b: Step)
    requires Enabled(s, a) && Enabled(Take(s, a), b)
    ensures Run(s, [a, b]) && After(s, [a, b]) == Take(Take(s, a), b)
  {
    var s1 := Take(s, a);
    OneStep(s1, b);
    assert [a, b][1..] == [b];
  }

  function PushSteps(slot: Slot, task: Task): seq<Step> {
    [Replace(slot, task), PushMarker]
  }

  /** A marker is dispatched, with or without a task for it. */
  lemma Dispatched(s: State, slot: Slot)
    requires Inv(s) && s.thread.Idle? && s.pusher.None? && |s.queue| > 0 && s.queue[0] == Marker(slot)
    ensures slot in s.slots && Run(s, [Pop, Steal])
    ensures var s', held := After(s, [Pop, Steal]), s.slots[slot];
            && Inv(s') && s'.queue == s.queue[1..] && s'.slots == s.slots[slot := None] && s'.pusher.None?
            && (held.Some? ==> s'.thread == Running(held.value)) && (held.None? ==> s'.thread == Idle && s'.places == s.places)
  {
    assert HasMarker(s.queue, slot);
    StepKeepsInv(s, Pop);
    var s1 := Take(s, Pop);
    StepKeepsInv(s1, Steal);
    StealTakesNewest(s1);
    TwoSteps(s, Pop, Steal);
  }

  lemma Pushed(s: State, slot: Slot, task: Task)
    requires Inv(s) && Enabled(s, Replace(slot, task))
    ensures Run(s, PushSteps(slot, task))
    ensures var s' := After(s, PushSteps(slot, task));
            && Inv(s') && s'.queue == s.queue + [Marker(slot)] && s'.slots == s.slots[slot := Some(task)]
            && s'.pusher.None? && s'.thread == s.thread && task in s'.places && s'.places[task] == InSlot(slot)
            && (forall other :: other in s.places ==> other in s'.places)
            && (s.slots[slot].Some? ==> s.slots[slot].value in s'.places && s'.places[s.slots[slot].value] == Done(Displaced))
  {
    PushDisplaces(s, slot, task);
    StepKeepsInv(s, Replace(slot, task));
    StepKeepsInv(Take(s, Replace(slot, task)), PushMarker);
    TwoSteps(s, Replace(slot, task), PushMarker);
  }

  /** With the queue empty, the task that is pushed is the one that runs, and its callback tells how. */
  lemma PushedTaskRuns(s: State, slot: Slot, task: Task, success: bool)
    requires Inv(s) && Enabled(s, Replace(slot, task)) && s.thread.Idle? && s.queue == []
    ensures Run(s, PushSteps(slot, task))
    ensures var pushed := After(s, PushSteps(slot, task));
            && Run(pushed, [Pop, Steal])
            && var dispatched := After(pushed, [Pop, Steal]);
               && dispatched.thread == Running(task) && Enabled(dispatched, Finish(success))
               && var s' := Take(dispatched, Finish(success));
                  s'.places[task] == Done(Ran(success)) && s'.thread.Idle? && s'.queue == [] && slot in s'.slots && s'.slots[slot] == None
  {
    Pushed(s, slot, task);
    var pushed := After(s, PushSteps(slot, task));
    Dispatched(pushed, slot);
    FinishReportsRun(After(pushed, [Pop, Steal]), success);
  }

  /** Of two tasks that are pushed before the thread gets to the slot, only the second runs; the first is called
      with FALSE, and the second marker finds the slot empty. */
  lemma SecondPushWins(s: State, slot: Slot, first: Task, second: Task, success: bool)
    requires Inv(s) && Enabled(s, Replace(slot, first)) && s.thread.Idle? && s.queue == []
    requires second != first && second !in s.places
    ensures Run(s, PushSteps(slot, first)) && Run(After(s, PushSteps(slot, first)), PushSteps(slot, second))
    ensures var pushed := After(After(s, PushSteps(slot, first)), PushSteps(slot, second));
            && first in pushed.places && pushed.places[first] == Done(Displaced)
            && Run(pushed, [Pop, Steal]) && After(pushed, [Pop, Steal]).thread == Running(second)
            && Enabled(After(pushed, [Pop, Steal]), Finish(success))
            && var run := Take(After(pushed, [Pop, Steal]), Finish(success));
               && run.places[second] == Done(Ran(success))
               && Run(run, [Pop, Steal])
               && After(run, [Pop, Steal]).thread.Idle? && After(run, [Pop, Steal]).queue == []
               && After(run, [Pop, Steal]).places == run.places
  {
    Pushed(s, slot, first);
    var once := After(s, PushSteps(slot, first));
    SecondIsNew(s, slot, first, second);
    Pushed(once, slot, second);
    var pushed := After(once, PushSteps(slot, second));
    Dispatched(pushed, slot);
    var dispatched := After(pushed, [Pop, Steal]);
    FinishReportsRun(dispatched, success);
    StepKeepsInv(dispatched, Finish(success));
    var run := Take(dispatched, Finish(success));
    Dispatched(run, slot);
  }

  lemma SecondIsNew(s: State, slot: Slot, first: Task, second: Task)
    requires Inv(s) && Enabled(s, Replace(slot, first)) && second != first && second !in s.places
    requires Run(s, PushSteps(slot, first))
    ensures second !in After(s, PushSteps(slot, first)).places
  {
    TwoSteps(s, Replace(slot, first), PushMarker);
  }
}
