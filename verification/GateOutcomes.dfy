/** What becomes of the requests that pass the gate of FormatDataGate (src/grd-clipboard-rdp.c,
    src/grd-clipboard.c): which are read, which are refused, and what they are responded to with. */
module GateOutcomes {
  import opened MimeTypes
  import opened Options
  import opened FormatDataGate

  // ----- single steps

  /** A request waits at the gate for the type that its format id means. */
  lemma ArrivalWaits(s: State, mime: Mime)
    requires Enabled(s, Arrive(mime))
    ensures var s', request := Take(s, Arrive(mime)), Request(mime, |s.log.received|);
            && s'.gate == s.gate.(waiting := Some(request)) && s'.reading == s.reading && s'.main == s.main
            && s'.log == s.log.(received := s.log.received + [request]) && s'.enabled == s.enabled
  {
  }

  /** A request for an unknown format is refused; every other one enters the gate, with its callback scheduled. */
  lemma PassRefusesUnknown(s: State)
    requires Enabled(s, Pass)
    ensures var s', request := Take(s, Pass), s.gate.waiting.value;
            && s'.gate.waiting.None? && s'.reading == s.reading && s'.main == s.main && s'.enabled == s.enabled
            && (request.mime == NoType ==>
                  s'.log == s.log.(responses := s.log.responses + [Response(request, None)]) &&
                  s'.gate.context == s.gate.context && s'.gate.completed)
            && (request.mime != NoType ==>
                  s'.log == s.log && s'.gate.context == Some(request) && s'.gate.idleScheduled && !s'.gate.completed)
  {
  }

  /** An operation for the request has been started, and its worker runs, with its timeout armed. */
  predicate Started(s: State, s': State, request: Request) {
    var op := |s.log.operations|;
    && s'.log == s.log.(operations := s.log.operations + [request])
    && s'.reading.pending && op in s'.reading.running && s'.reading.cancellable == Some(op) && s'.reading.timeoutArmed
    && s'.gate.context == Some(request) && !s'.gate.completed && !s'.gate.idleScheduled
  }

  /** The request has been responded to, with the data of an operation or refusing it, and the gate is open. */
  predicate Responded(s: State, s': State, request: Request, operation: Option<nat>) {
    && s'.log == s.log.(responses := s.log.responses + [Response(request, operation)])
    && s'.gate.context.None? && s'.gate.completed
  }

  /** A request is read exactly if its type is allowed and can be read, and refused otherwise. */
  lemma ReadIffAllowed(s: State, allowed: bool, readable: bool)
    requires Inv(s) && Enabled(s, RunRequest(allowed, readable))
    ensures var s', request := Take(s, RunRequest(allowed, readable)), s.gate.context.value;
            && (Started(s, s', request) <==> allowed && readable)
            && (Responded(s, s', request, None) <==> !(allowed && readable))
            && (!(allowed && readable) ==> s'.reading == s.reading)
  {
    assert |s.log.operations + [s.gate.context.value]| != |s.log.operations|;
    assert |s.log.responses + [Response(s.gate.context.value, None)]| != |s.log.responses|;
  }

  /** The completion of a read that was not given up responds with its data, or with nothing once the clipboard
      is disabled; the completion of one that was given up does nothing. */
  lemma CompletionResponds(s: State, op: nat)
    requires Inv(s) && Enabled(s, Complete(op))
    ensures var s' := Take(s, Complete(op));
            && (op !in s.reading.cancelled && s.enabled ==> Responded(s, s', s.log.operations[op], Some(op)))
            && (op in s.reading.cancelled || !s.enabled ==> s'.log == s.log && s'.gate == s.gate)
            && (op in s.reading.cancelled ==> s'.reading == s.reading.(returned := s.reading.returned - {op}))
            && (op !in s.reading.cancelled ==> !s'.reading.pending && s'.reading.result.None? && !s'.reading.timeoutArmed)
  {
  }

  /** The timeout, and a new selection, give up the read that is pending: the main loop waits for its worker. */
  lemma GivingUpCancels(s: State, step: Step)
    requires Inv(s) && Enabled(s, step) && (step == Timeout || step == Abort)
    ensures var s', op := Take(s, step), |s.log.operations| - 1;
            && s.reading.cancellable == Some(op) && op in s'.reading.cancelled && s'.main.Flushing?
            && !s'.reading.timeoutArmed && s'.log == s.log && s'.gate == s.gate && s'.reading.pending
            && s'.reading.running == s.reading.running && s'.reading.result == s.reading.result
  {
  }

  /** The flush responds with what the worker stored before it gave up, or with nothing once disabled. */
  lemma FlushResponds(s: State)
    requires Inv(s) && Enabled(s, Flush)
    ensures var s', op := Take(s, Flush), |s.log.operations| - 1;
            && (s.enabled ==> Responded(s, s', s.log.operations[op], Some(op)))
            && (!s.enabled ==> s'.log == s.log && s'.gate == s.gate)
            && s'.main.Free? && !s'.reading.pending && s'.reading.result.None?
  {
  }

  /** The worker returns after it has stored its result; its completion is due then. */
  lemma WorkerReturns(s: State, op: nat)
    requires Enabled(s, Return(op))
    ensures var s' := Take(s, Return(op));
            s' == s.(reading := s.reading.(stored := s.reading.stored - {op}, returned := s.reading.returned + {op}))
  {
  }

  /** Once the clipboard is disabled, no read is responded to any more, and no request is started. */
  lemma DisabledRespondsNothing(s: State, step: Step)
    requires Inv(s) && Enabled(s, Disable) && Enabled(Take(s, Disable), step) && !step.Pass?
    ensures var s' := Take(Take(s, Disable), step);
            s'.log.responses == s.log.responses && s'.log.operations == s.log.operations && !s'.enabled
  {
  }

  // ----- from a request to its response

  lemma OneStep(s: State, a: Step)
    requires Enabled(s, a)
    ensures Run(s, [a]) && After(s, [a]) == Take(s, a)
  {
    var rest: seq<Step> := [a][1..];
    assert rest == [];
    assert Run(Take(s, a), rest) && After(Take(s, a), rest) == Take(s, a);
  }

  lemma TwoSteps(s: State, a: Step, b: Step)
    requires Enabled(s, a) && Enabled(Take(s, a), b)
    ensures Run(s, [a, b]) && After(s, [a, b]) == Take(Take(s, a), b)
  {
    var s1 := Take(s, a);
    OneStep(s1, b);
    assert [a, b][1..] == [b];
  }

  lemma FourSteps(s: State, a: Step, b: Step, c: Step, d: Step)
    requires Enabled(s, a) && Enabled(Take(s, a), b) && Enabled(Take(Take(s, a), b), c)
    requires Enabled(Take(Take(Take(s, a), b), c), d)
    ensures Run(s, [a, b, c, d]) && After(s, [a, b, c, d]) == Take(Take(Take(Take(s, a), b), c), d)
  {
    var s1 := Take(s, a);
    var s2 := Take(s1, b);
    TwoSteps(s2, c, d);
    assert [b, c, d][1..] == [c, d];
    assert Run(s1, [b, c, d]) && After(s1, [b, c, d]) == After(s2, [c, d]);
    assert [a, b, c, d][1..] == [b, c, d];
  }

  /** The worker's result is kept for the main loop, also when the read was given up meanwhile. */
  lemma WorkerStores(s: State, op: nat)
    requires Inv(s) && Enabled(s, StoreResult(op))
    ensures var s' := Take(s, StoreResult(op));
            && s'.reading.result == Some(op) && op in s'.reading.stored && s'.reading.cancelled == s.reading.cancelled
            && s'.gate == s.gate && s'.log == s.log && s'.main == s.main && s'.enabled == s.enabled
            && s'.reading.pending == s.reading.pending
  {
  }

  /** The steps of a read that nothing interferes with. */
  function ReadSteps(op: nat): seq<Step> {
    [RunRequest(true, true), StoreResult(op), Return(op), Complete(op)]
  }

  /** A read that nothing interferes with: its request is responded to with its data. */
  lemma ReadResponds(s: State)
    requires Inv(s) && Enabled(s, RunRequest(true, true))
    ensures var op, request := |s.log.operations|, s.gate.context.value;
            && Run(s, ReadSteps(op))
            && After(s, ReadSteps(op)).log ==
               s.log.(operations := s.log.operations + [request], responses := s.log.responses + [Response(request, Some(op))])
  {
    var op := |s.log.operations|;
    ReadIffAllowed(s, true, true);
    StepKeepsInv(s, RunRequest(true, true));
    var s1 := Take(s, RunRequest(true, true));
    assert op !in s1.reading.cancelled;
    WorkerStores(s1, op);
    StepKeepsInv(s1, StoreResult(op));
    var s2 := Take(s1, StoreResult(op));
    StepKeepsInv(s2, Return(op));
    var s3 := Take(s2, Return(op));
    assert s3.log == s2.log && s3.gate == s2.gate && op in s3.reading.returned && op !in s3.reading.cancelled;
    CompletionResponds(s3, op);
    FourSteps(s, RunRequest(true, true), StoreResult(op), Return(op), Complete(op));
  }

  /** A read that is given up by the timeout or a new selection before its worker is done: its request is
      responded to all the same, with what the worker stores. */
  lemma GivenUpReadResponds(s: State, giveUp: Step)
    requires Inv(s) && s.enabled && Enabled(s, giveUp) && (giveUp == Timeout || giveUp == Abort)
    requires |s.log.operations| - 1 in s.reading.running
    ensures var op := |s.log.operations| - 1;
            && Run(Take(s, giveUp), [StoreResult(op), Flush])
            && s.gate.context == Some(s.log.operations[op])
            && After(Take(s, giveUp), [StoreResult(op), Flush]).log ==
               s.log.(responses := s.log.responses + [Response(s.log.operations[op], Some(op))])
  {
    var op := |s.log.operations| - 1;
    GivingUpCancels(s, giveUp);
    StepKeepsInv(s, giveUp);
    var s1 := Take(s, giveUp);
    assert s1.enabled && op in s1.reading.running;
    WorkerStores(s1, op);
    StepKeepsInv(s1, StoreResult(op));
    var s2 := Take(s1, StoreResult(op));
    FlushResponds(s2);
    TwoSteps(s1, StoreResult(op), Flush);
  }

  // ----- over runs: which responses are without data

  /** The request that the step refuses, because it is not allowed or cannot be read, by its number. */
  function RefusedNow(s: State, step: Step): set<nat> {
    if step.RunRequest? && !(step.allowed && step.readable) && s.gate.context.Some? then {s.gate.context.value.number} else {}
  }

  function Refused(s: State, steps: seq<Step>): set<nat>
    requires Run(s, steps)
    decreases |steps|
  {
    if |steps| == 0 then {} else RefusedNow(s, steps[0]) + Refused(Take(s, steps[0]), steps[1..])
  }

  ghost predicate Numbered(received: seq<Request>) {
    forall i :: 0 <= i < |received| ==> received[i].number == i
  }

  /** A response is without data exactly if the format is unknown, or the request was refused. */
  ghost predicate DatalessIff(responses: seq<Response>, refused: set<nat>) {
    forall i :: 0 <= i < |responses| ==>
      responses[i].request.number == i &&
      (responses[i].operation.None? <==> responses[i].request.mime == NoType || i in refused)
  }

  ghost predicate OutcomesKept(s: State, refused: set<nat>) {
    && Numbered(s.log.received) && DatalessIff(s.log.responses, refused)
    && (forall n :: n in refused ==> n < |s.log.responses|)
    && (s.gate.context.Some? ==> s.gate.context.value.mime != NoType)
  }

  lemma GateNumbers(s: State)
    requires ReceivedInOrder(s) && Numbered(s.log.received)
    ensures s.gate.context.Some? ==> s.gate.context.value.number == |s.log.responses|
    ensures s.gate.waiting.Some? ==>
              s.gate.waiting.value.number == |s.log.responses| + if s.gate.context.Some? then 1 else 0
  {
    var n := |s.log.responses|;
    if s.gate.context.Some? {
      assert s.log.received[n] == s.gate.context.value;
    }
    if s.gate.waiting.Some? {
      assert s.log.received[n + if s.gate.context.Some? then 1 else 0] == s.gate.waiting.value;
    }
  }

  lemma OneResponseMore(responses: seq<Response>, r: Response, refused: set<nat>, refused': set<nat>)
    requires DatalessIff(responses, refused) && r.request.number == |responses|
    requires forall n :: n in refused ==> n < |responses|
    requires refused' == if r.operation.None? && r.request.mime != NoType then refused + {|responses|} else refused
    requires r.operation.Some? ==> r.request.mime != NoType
    ensures DatalessIff(responses + [r], refused') && forall n :: n in refused' ==> n < |responses + [r]|
  {
  }

  lemma ResponseKeepsOutcomes(s: State, s': State, request: Request, operation: Option<nat>, refused: set<nat>)
    requires Inv(s) && OutcomesKept(s, refused) && Responded(s, s', request, operation) && request.mime != NoType
    requires request.number == |s.log.responses|
    ensures OutcomesKept(s', if operation.None? then refused + {request.number} else refused)
  {
    OneResponseMore(s.log.responses, Response(request, operation), refused,
                    if operation.None? then refused + {request.number} else refused);
  }

  lemma PassKeepsOutcomes(s: State, refused: set<nat>)
    requires Inv(s) && OutcomesKept(s, refused) && Enabled(s, Pass)
    ensures OutcomesKept(Take(s, Pass), refused)
  {
    GateNumbers(s);
    PassRefusesUnknown(s);
    if s.gate.waiting.value.mime == NoType {
      OneResponseMore(s.log.responses, Response(s.gate.waiting.value, None), refused, refused);
    }
  }

  lemma RunRequestKeepsOutcomes(s: State, allowed: bool, readable: bool, refused: set<nat>)
    requires Inv(s) && OutcomesKept(s, refused) && Enabled(s, RunRequest(allowed, readable))
    ensures OutcomesKept(Take(s, RunRequest(allowed, readable)), refused + RefusedNow(s, RunRequest(allowed, readable)))
  {
    GateNumbers(s);
    ReadIffAllowed(s, allowed, readable);
    if allowed && readable {
      assert refused + {} == refused;
    } else {
      ResponseKeepsOutcomes(s, Take(s, RunRequest(allowed, readable)), s.gate.context.value, None, refused);
    }
  }

  lemma EndOfReadKeepsOutcomes(s: State, step: Step, refused: set<nat>)
    requires Inv(s) && OutcomesKept(s, refused) && Enabled(s, step) && (step.Complete? || step.Flush?)
    ensures OutcomesKept(Take(s, step), refused)
  {
    GateNumbers(s);
    var op := |s.log.operations| - 1;
    if step.Complete? {
      CompletionResponds(s, step.operation);
      if step.operation !in s.reading.cancelled && s.enabled {
        ResponseKeepsOutcomes(s, Take(s, step), s.log.operations[op], Some(op), refused);
      }
    } else {
      FlushResponds(s);
      if s.enabled {
        ResponseKeepsOutcomes(s, Take(s, step), s.log.operations[op], Some(op), refused);
      }
    }
  }

  lemma StepKeepsOutcomes(s: State, step: Step, refused: set<nat>)
    requires Inv(s) && OutcomesKept(s, refused) && Enabled(s, step)
    ensures OutcomesKept(Take(s, step), refused + RefusedNow(s, step))
  {
    assert !step.RunRequest? ==> refused + RefusedNow(s, step) == refused;
    match step
    case Pass => PassKeepsOutcomes(s, refused);
    case RunRequest(allowed, readable) => RunRequestKeepsOutcomes(s, allowed, readable, refused);
    case Complete(_) => EndOfReadKeepsOutcomes(s, step, refused);
    case Flush => EndOfReadKeepsOutcomes(s, step, refused);
    case _ =>
  }

  lemma {:induction false} RunKeepsOutcomes(s: State, steps: seq<Step>, refused: set<nat>)
    requires Inv(s) && OutcomesKept(s, refused) && Run(s, steps)
    ensures OutcomesKept(After(s, steps), refused + Refused(s, steps))
    decreases |steps|
  {
    if |steps| == 0 {
      assert refused + {} == refused;
    } else {
      StepKeepsOutcomes(s, steps[0], refused);
      StepKeepsInv(s, steps[0]);
      RunKeepsOutcomes(Take(s, steps[0]), steps[1..], refused + RefusedNow(s, steps[0]));
      assert refused + RefusedNow(s, steps[0]) + Refused(Take(s, steps[0]), steps[1..]) == refused + Refused(s, steps);
    }
  }

  /** Over every run from the start: the i-th response is without data if and only if the i-th request was for an
      unknown format, or when its turn came it was not allowed or could not be read. */
  lemma ResponseIsDatalessIff(s: State, steps: seq<Step>, i: nat)
    requires Initial(s) && Run(s, steps) && i < |After(s, steps).log.responses|
    ensures var r := After(s, steps).log.responses[i];
            r.request.number == i && (r.operation.None? <==> r.request.mime == NoType || i in Refused(s, steps))
  {
    RunKeepsOutcomes(s, steps, {});
    assert {} + Refused(s, steps) == Refused(s, steps);
  }
}
