/** Requests of the client for the data of the local clipboard (src/grd-clipboard-rdp.c) and the read operation
    that serves them (src/grd-clipboard.c). The channel thread lets one request at a time through; the main
    loop starts a read in a worker thread, and its completion, a timeout, or a new selection that aborts it
    come in any order. */
module FormatDataGate {
  import opened MimeTypes
  import opened Options

  datatype Request = Request(mime: Mime, number: nat)

  /** A response to a request, with the data of a read operation or refusing it. */
  datatype Response = Response(request: Request, operation: Option<nat>)

  /** The main loop is between callbacks, or waits for the worker to give up a cancelled read. */
  datatype MainLoop = Free | Flushing

  datatype Gate = Gate(completed: bool, context: Option<Request>, idleScheduled: bool, waiting: Option<Request>)

  datatype Reading = Reading(
    pending: bool, cancellable: Option<nat>, timeoutArmed: bool, result: Option<nat>,
    cancelled: set<nat>,     // operations whose cancellable was cancelled
    running: set<nat>,       // operations whose worker has not stored its result
    stored: set<nat>,        // operations whose worker has, but has not returned
    returned: set<nat>)      // operations whose completion callback is due

  datatype Log = Log(operations: seq<Request>, received: seq<Request>, responses: seq<Response>)

  datatype State = State(enabled: bool, gate: Gate, reading: Reading, main: MainLoop, log: Log)

  datatype Step =
    | Arrive(mime: Mime)                        // channel thread
    | Pass                                      // channel thread
    | RunRequest(allowed: bool, readable: bool)
    | StoreResult(operation: nat)               // worker
    | Return(operation: nat)                    // worker
    | Complete(operation: nat)
    | Timeout
    | Abort                                     // a new selection
    | Flush
    | Disable

  function Respond(s: State, request: Request, operation: Option<nat>): State {
    s.(log := s.log.(responses := s.log.responses + [Response(request, operation)]))
  }

  /** submit_requested_server_content: the context is taken, the response sent, the gate opened. */
  function Submit(s: State, operation: Option<nat>): State
    requires s.gate.context.Some?
  {
    Respond(s.(gate := s.gate.(context := None, completed := true)), s.gate.context.value, operation)
  }

  /** handle_read_result: the result is discarded once the clipboard is disabled. */
  function HandleResult(s: State, operation: nat): State
    requires s.enabled ==> s.gate.context.Some?
  {
    var handled := s.(reading := s.reading.(pending := false, result := None));
    if s.enabled then Submit(handled, Some(operation)) else handled
  }

  function StartRead(s: State): State
    requires s.gate.context.Some?
  {
    var op := |s.log.operations|;
    s.(reading := s.reading.(pending := true, cancellable := Some(op), timeoutArmed := true,
                             running := s.reading.running + {op}),
       log := s.log.(operations := s.log.operations + [s.gate.context.value]))
  }

  /** abort_current_read_operation up to its wait for the worker */
  function StartAbort(s: State): State
    requires s.reading.cancellable.Some?
  {
    s.(reading := s.reading.(cancelled := s.reading.cancelled + {s.reading.cancellable.value}, cancellable := None,
                             timeoutArmed := false),
       main := Flushing)
  }

  predicate Enabled(s: State, step: Step) {
    match step
    case Arrive(_) => s.gate.waiting.None?
    case Pass => s.gate.waiting.Some? && s.gate.completed
    case RunRequest(_, _) => s.main.Free? && s.gate.idleScheduled && s.gate.context.Some? && s.enabled
    case StoreResult(op) => op in s.reading.running
    case Return(op) => op in s.reading.stored
    case Complete(op) =>
      s.main.Free? && op in s.reading.returned && (op !in s.reading.cancelled && s.enabled ==> s.gate.context.Some?)
    case Timeout => s.main.Free? && s.reading.timeoutArmed && s.reading.cancellable.Some?
    case Abort => s.main.Free? && s.reading.pending && s.reading.cancellable.Some?
    case Flush => s.main.Flushing? && s.reading.result.Some? && (s.enabled ==> s.gate.context.Some?)
    case Disable => s.main.Free?
  }

  function TakePass(s: State): State
    requires s.gate.waiting.Some?
  {
    var request := s.gate.waiting.value;
    if request.mime == NoType then Respond(s.(gate := s.gate.(waiting := None)), request, None)
    else s.(gate := Gate(false, Some(request), true, None))
  }

  function TakeRun(s: State, allowed: bool, readable: bool): State
    requires s.gate.context.Some?
  {
    var running := s.(gate := s.gate.(idleScheduled := false));
    if allowed && readable then StartRead(running) else Submit(running, None)
  }

  function TakeComplete(s: State, op: nat): State
    requires op !in s.reading.cancelled && s.enabled ==> s.gate.context.Some?
  {
    var due := s.(reading := s.reading.(returned := s.reading.returned - {op}));
    if op in s.reading.cancelled then due
    else HandleResult(due.(reading := due.reading.(cancellable := None, timeoutArmed := false)), op)
  }

  function Take(s: State, step: Step): State
    requires Enabled(s, step)
  {
    match step
    case Arrive(mime) =>
      var request := Request(mime, |s.log.received|);
      s.(gate := s.gate.(waiting := Some(request)), log := s.log.(received := s.log.received + [request]))
    case Pass => TakePass(s)
    case RunRequest(allowed, readable) => TakeRun(s, allowed, readable)
    case StoreResult(op) =>
      s.(reading := s.reading.(running := s.reading.running - {op}, stored := s.reading.stored + {op}, result := Some(op)))
    case Return(op) =>
      s.(reading := s.reading.(stored := s.reading.stored - {op}, returned := s.reading.returned + {op}))
    case Complete(op) => TakeComplete(s, op)
    case Timeout => StartAbort(s)
    case Abort => StartAbort(s)
    case Flush => HandleResult(s, s.reading.result.value).(main := Free)
    case Disable => s.(enabled := false)
  }

  predicate Initial(s: State) {
    s == State(true, Gate(true, None, false, None), Reading(false, None, false, None, {}, {}, {}, {}), Free, Log([], [], []))
  }

  // ----- what every run keeps

  function Requests(responses: seq<Response>): seq<Request> {
    seq(|responses|, i requires 0 <= i < |responses| => responses[i].request)
  }

  function Just<T>(o: Option<T>): seq<T> {
    if o.Some? then [o.value] else []
  }

  /** The read operations whose data was submitted, in order. */
  function Submitted(responses: seq<Response>): seq<nat>
    decreases |responses|
  {
    if |responses| == 0 then []
    else Submitted(responses[..|responses| - 1]) + Just(responses[|responses| - 1].operation)
  }

  function UpTo(n: nat): seq<nat> {
    seq(n, i => i)
  }

  /** What was received is what was responded to, then the request in the gate, then the one before it. */
  predicate ReceivedInOrder(s: State) {
    s.log.received == Requests(s.log.responses) + Just(s.gate.context) + Just(s.gate.waiting)
  }

  /** Read operations are submitted in the order they were started, each once, but for the pending one. */
  predicate SubmittedInOrder(s: State) {
    s.enabled ==>
      UpTo(|s.log.operations|) ==
      Submitted(s.log.responses) + if s.reading.pending then [|s.log.operations| - 1] else []
  }

  predicate DataIsForRequest(log: Log) {
    forall i :: 0 <= i < |log.responses| && log.responses[i].operation.Some? ==>
      log.responses[i].operation.value < |log.operations| &&
      log.operations[log.responses[i].operation.value] == log.responses[i].request
  }

  /** The gate is closed exactly while a request is in it, and that request is scheduled, or being read. */
  predicate GateKept(s: State) {
    && s.gate.completed == s.gate.context.None?
    && (s.gate.idleScheduled ==> s.gate.context.Some? && !s.reading.pending)
    && (s.reading.pending ==> s.gate.context.Some? && !s.gate.idleScheduled)
    && (s.enabled && s.gate.context.Some? ==> s.gate.idleScheduled || s.reading.pending)
  }

  /** A pending read is the last operation started; its worker runs, or has stored its result. */
  predicate ReadingKept(s: State) {
    var r := s.reading;
    var last := |s.log.operations| - 1;
    && (r.pending ==> last >= 0 && s.gate.context == Some(s.log.operations[last]))
    && (if r.pending then (r.running == {last} && r.result == None && last !in r.stored && last !in r.returned) ||
                          (r.running == {} && r.result == Some(last))
        else r.running == {} && r.result == None)
    && (r.cancellable == if r.pending && s.main.Free? then Some(last) else None)
    && r.timeoutArmed == (r.pending && s.main.Free?)
    && (s.main.Flushing? ==> r.pending && last in r.cancelled)
    && (s.main.Free? && r.pending ==> last !in r.cancelled)
  }

  /** A completion callback that was not cancelled finds its operation pending, with its result. */
  ghost predicate CallbacksKept(s: State) {
    var r := s.reading;
    var last := |s.log.operations| - 1;
    && (forall op :: op in r.cancelled ==> op <= last)
    && (forall op :: op in r.stored ==> op <= last && (op !in r.cancelled ==> r.pending && op == last))
    && (forall op :: op in r.returned ==> op <= last && op !in r.stored && (op !in r.cancelled ==> r.pending && op == last))
    && (r.pending && s.main.Free? && r.running == {} ==> last in r.stored || last in r.returned)
  }

  ghost predicate Inv(s: State) {
    && GateKept(s) && ReadingKept(s) && CallbacksKept(s)
    && ReceivedInOrder(s) && SubmittedInOrder(s) && DataIsForRequest(s.log)
  }

  lemma ResponseAdded(responses: seq<Response>, r: Response)
    ensures Requests(responses + [r]) == Requests(responses) + [r.request]
    ensures Submitted(responses + [r]) == Submitted(responses) + Just(r.operation)
  {
    assert (responses + [r])[..|responses|] == responses;
  }

  lemma OneMoreUpTo(n: nat)
    ensures UpTo(n + 1) == UpTo(n) + [n]
  {
  }

  // ----- the worker and the channel thread

  lemma WorkerKeepsInv(s: State, step: Step)
    requires Inv(s) && Enabled(s, step) && (step.StoreResult? || step.Return?)
    ensures Inv(Take(s, step))
  {
  }

  lemma ArriveKeepsInv(s: State, mime: Mime)
    requires Inv(s) && Enabled(s, Arrive(mime))
    ensures Inv(Take(s, Arrive(mime)))
  {
  }

  lemma PassKeepsInv(s: State)
    requires Inv(s) && Enabled(s, Pass)
    ensures Inv(Take(s, Pass))
  {
    ResponseAdded(s.log.responses, Response(s.gate.waiting.value, None));
  }

  // ----- the main loop

  lemma ReadStarts(s: State)
    requires Inv(s) && s.main.Free? && s.gate.idleScheduled && s.gate.context.Some?
    ensures var s' := StartRead(s.(gate := s.gate.(idleScheduled := false)));
            && GateKept(s') && ReadingKept(s') && CallbacksKept(s')
  {
  }

  lemma ReadStartsInOrder(s: State)
    requires Inv(s) && s.main.Free? && s.gate.idleScheduled && s.gate.context.Some?
    ensures var s' := StartRead(s.(gate := s.gate.(idleScheduled := false)));
            && ReceivedInOrder(s') && SubmittedInOrder(s') && DataIsForRequest(s'.log)
  {
    OneMoreUpTo(|s.log.operations|);
  }

  lemma RefusalKeepsInv(s: State)
    requires Inv(s) && s.main.Free? && s.gate.idleScheduled && s.gate.context.Some?
    ensures Inv(Submit(s.(gate := s.gate.(idleScheduled := false)), None))
  {
    ResponseAdded(s.log.responses, Response(s.gate.context.value, None));
  }

  lemma RunRequestKeepsInv(s: State, allowed: bool, readable: bool)
    requires Inv(s) && Enabled(s, RunRequest(allowed, readable))
    ensures Inv(Take(s, RunRequest(allowed, readable)))
  {
    if allowed && readable {
      ReadStarts(s);
      ReadStartsInOrder(s);
    } else {
      RefusalKeepsInv(s);
    }
  }

  lemma AbortKeepsInv(s: State)
    requires Inv(s) && s.main.Free? && s.reading.cancellable.Some?
    ensures Inv(StartAbort(s))
  {
  }

  /** The pending operation's result is handled; everything about it is settled before. */
  lemma HandleKeepsInv(s: State, op: nat)
    requires GateKept(s) && ReceivedInOrder(s) && SubmittedInOrder(s) && DataIsForRequest(s.log)
    requires s.reading.pending && op == |s.log.operations| - 1 && s.gate.context == Some(s.log.operations[op])
    ensures var s' := HandleResult(s, op);
            GateKept(s') && ReceivedInOrder(s') && SubmittedInOrder(s') && DataIsForRequest(s'.log)
  {
    ResponseAdded(s.log.responses, Response(s.gate.context.value, Some(op)));
  }

  lemma CompleteKeepsInv(s: State, op: nat)
    requires Inv(s) && Enabled(s, Complete(op))
    ensures Inv(Take(s, Complete(op)))
  {
    if op !in s.reading.cancelled {
      HandleKeepsInv(s.(reading := s.reading.(returned := s.reading.returned - {op}, cancellable := None, timeoutArmed := false)), op);
    }
  }

  lemma FlushKeepsInv(s: State)
    requires Inv(s) && Enabled(s, Flush)
    ensures Inv(Take(s, Flush))
  {
    HandleKeepsInv(s, s.reading.result.value);
  }

  lemma StepKeepsInv(s: State, step: Step)
    requires Inv(s) && Enabled(s, step)
    ensures Inv(Take(s, step))
  {
    match step
    case Arrive(mime) => ArriveKeepsInv(s, mime);
    case Pass => PassKeepsInv(s);
    case RunRequest(allowed, readable) => RunRequestKeepsInv(s, allowed, readable);
    case StoreResult(_) => WorkerKeepsInv(s, step);
    case Return(_) => WorkerKeepsInv(s, step);
    case Complete(op) => CompleteKeepsInv(s, op);
    case Timeout => AbortKeepsInv(s);
    case Abort => AbortKeepsInv(s);
    case Flush => FlushKeepsInv(s);
    case Disable =>
  }

  // ----- every reachable state

  predicate Run(s: State, steps: seq<Step>)
    decreases |steps|
  {
    |steps| == 0 || (Enabled(s, steps[0]) && Run(Take(s, steps[0]), steps[1..]))
  }

  function After(s: State, steps: seq<Step>): State
    requires Run(s, steps)
    decreases |steps|
  {
    if |steps| == 0 then s else After(Take(s, steps[0]), steps[1..])
  }

  /** However completion, timeout, new selections and the worker interleave. */
  lemma {:induction false} RunKeepsInv(s: State, steps: seq<Step>)
    requires Inv(s) && Run(s, steps)
    ensures Inv(After(s, steps))
    decreases |steps|
  {
    if |steps| > 0 {
      StepKeepsInv(s, steps[0]);
      RunKeepsInv(Take(s, steps[0]), steps[1..]);
    }
  }

  /** Every request that was received has its own number, so every one is responded to once, in order, except
      the one in the gate and the one behind it. */
  lemma RespondedOnceInOrder(s: State, steps: seq<Step>, i: nat)
    requires Initial(s) && Run(s, steps)
    ensures var log := After(s, steps).log;
            && |log.responses| <= |log.received| <= |log.responses| + 2
            && (i < |log.responses| ==> log.responses[i].request == log.received[i])
  {
    RunKeepsInv(s, steps);
    var s' := After(s, steps);
    assert i < |s'.log.responses| ==> s'.log.received[i] == Requests(s'.log.responses)[i];
  }

  /** The assertions on the context, the pending operation and its result hold wherever they are made. */
  lemma AssertionsHold(s: State)
    requires Inv(s)
    ensures s.gate.completed ==> s.gate.context.None?
    ensures s.gate.idleScheduled ==> s.gate.context.Some? && !s.reading.pending && s.reading.result.None?
    ensures forall op :: op in s.reading.returned && op !in s.reading.cancelled ==>
              s.reading.pending && s.reading.result == Some(op) && s.main.Free?
    ensures s.reading.timeoutArmed ==> s.reading.pending && s.reading.cancellable.Some?
  {
  }

  /** No request is stranded while the clipboard is enabled: its callback is due, its worker runs or has
      something left to do, or its completion is due; and a main loop that waits, waits for a worker. */
  lemma NothingIsStranded(s: State)
    requires Inv(s) && s.enabled && s.gate.context.Some?
    ensures s.main.Free? ==>
              || Enabled(s, RunRequest(true, true))
              || exists op :: Enabled(s, StoreResult(op)) || Enabled(s, Return(op)) ||
                              (Enabled(s, Complete(op)) && op !in s.reading.cancelled)
    ensures s.main.Flushing? ==> Enabled(s, Flush) || exists op :: Enabled(s, StoreResult(op))
  {
    var last := |s.log.operations| - 1;
    if s.reading.pending {
      if s.reading.running == {last} {
        assert Enabled(s, StoreResult(last));
      } else if s.main.Free? {
        assert last in s.reading.stored || last in s.reading.returned;
        assert Enabled(s, Return(last)) || Enabled(s, Complete(last));
      }
    }
  }

  // ----- progress

  /** The client sends nothing new, and the clipboard stays enabled. */
  predicate OnItsOwn(step: Step) {
    !step.Arrive? && !step.Disable?
  }

  /** What is left to do for the request in the gate. */
  function ReadWork(s: State): nat {
    if s.reading.pending then
      if s.main.Free? then (if s.reading.running == {} then 2 else 5) else (if s.reading.running == {} then 1 else 4)
    else if s.gate.idleScheduled then 6 else 0
  }

  /** A bound on the steps until there is nothing left to do. */
  function Work(s: State): nat {
    (if s.gate.waiting.Some? then 7 else 0) + ReadWork(s) + 2 * |s.reading.stored| + |s.reading.returned|
  }

  lemma RequestWorks(s: State, step: Step)
    requires GateKept(s) && ReadingKept(s) && Enabled(s, step) && (step.Pass? || step.RunRequest?)
    ensures Work(Take(s, step)) < Work(s)
  {
  }

  lemma WorkerWorks(s: State, step: Step)
    requires ReadingKept(s) && Enabled(s, step) && (step.StoreResult? || step.Return?)
    ensures Work(Take(s, step)) < Work(s)
  {
  }

  lemma CompleteWorks(s: State, op: nat)
    requires Enabled(s, Complete(op)) && GateKept(s)
    requires op !in s.reading.cancelled ==> s.reading.pending
    ensures Work(Take(s, Complete(op))) < Work(s)
  {
  }

  lemma AbortWorks(s: State, step: Step)
    requires GateKept(s) && ReadingKept(s) && Enabled(s, step) && (step.Timeout? || step.Abort? || step.Flush?)
    ensures Work(Take(s, step)) < Work(s)
  {
  }

  lemma StepWorks(s: State, step: Step)
    requires Inv(s) && Enabled(s, step) && OnItsOwn(step)
    ensures Work(Take(s, step)) < Work(s)
  {
    match step
    case Pass => RequestWorks(s, step);
    case RunRequest(_, _) => RequestWorks(s, step);
    case StoreResult(_) => WorkerWorks(s, step);
    case Return(_) => WorkerWorks(s, step);
    case Complete(op) => CompleteWorks(s, op);
    case _ => AbortWorks(s, step);
  }

  /** Left alone, the gate comes to rest, whatever it does and in whatever order. */
  lemma {:induction false} RunsOnItsOwnEnd(s: State, steps: seq<Step>)
    requires Inv(s) && Run(s, steps) && forall i :: 0 <= i < |steps| ==> OnItsOwn(steps[i])
    ensures |steps| <= Work(s)
    decreases |steps|
  {
    if |steps| > 0 {
      StepWorks(s, steps[0]);
      StepKeepsInv(s, steps[0]);
      RunsOnItsOwnEnd(Take(s, steps[0]), steps[1..]);
    }
  }

  /** It does not rest while a request that was received has not been responded to. */
  lemma NoRestBeforeAnswered(s: State)
    requires Inv(s) && s.enabled && s.log.received != Requests(s.log.responses)
    ensures exists step :: OnItsOwn(step) && Enabled(s, step)
  {
    if s.gate.context.Some? {
      NothingIsStranded(s);
      if s.main.Flushing? && !Enabled(s, Flush) {
        var op :| Enabled(s, StoreResult(op));
        assert OnItsOwn(StoreResult(op));
      } else if s.main.Free? && !Enabled(s, RunRequest(true, true)) {
        var op :| Enabled(s, StoreResult(op)) || Enabled(s, Return(op)) || Enabled(s, Complete(op));
        assert OnItsOwn(StoreResult(op)) && OnItsOwn(Return(op)) && OnItsOwn(Complete(op));
      } else {
        assert OnItsOwn(RunRequest(true, true)) && OnItsOwn(Flush);
      }
    } else {
      assert OnItsOwn(Pass) && Enabled(s, Pass);
    }
  }

  // ----- the object

  class RdpFormatDataGate {
    var enabled: bool
    var completedFormatDataRequest: bool
    var formatDataRequestContext: Option<Request>
    var serverFormatDataRequestScheduled: bool
    var waitingRequest: Option<Request>  // held by the blocked channel thread
    var hasPendingReadOperation: bool
    var readCancellable: Option<nat>
    var abortReadArmed: bool
    var readResult: Option<nat>

    ghost var cancelled: set<nat>
    ghost var running: set<nat>
    ghost var stored: set<nat>
    ghost var returned: set<nat>
    ghost var main: MainLoop
    ghost var log: Log

    var operations: nat  // numbers the read operations
    var arrivals: nat    // numbers the requests

    ghost function Abs(): State
      reads this
    {
      State(enabled,
            Gate(completedFormatDataRequest, formatDataRequestContext, serverFormatDataRequestScheduled, waitingRequest),
            Reading(hasPendingReadOperation, readCancellable, abortReadArmed, readResult, cancelled, running, stored, returned),
            main, log)
    }

    ghost predicate Valid()
      reads this
    {
      Inv(Abs()) && operations == |log.operations| && arrivals == |log.received|
    }

    constructor ()
      ensures Valid() && Initial(Abs())
    {
      enabled, completedFormatDataRequest, formatDataRequestContext := true, true, None;
      serverFormatDataRequestScheduled, waitingRequest := false, None;
      hasPendingReadOperation, readCancellable, abortReadArmed, readResult := false, None, false, None;
      cancelled, running, stored, returned, main := {}, {}, {}, {}, Free;
      log, operations, arrivals := Log([], [], []), 0, 0;
    }

    /** Channel thread: a format data request, up to the wait for the gate. */
    method ClientFormatDataRequest(mime: Mime)
      requires Valid() && waitingRequest.None?
      modifies this`waitingRequest, this`arrivals, this`log
      ensures Valid() && Abs() == Take(old(Abs()), Arrive(mime))
    {
      ArriveKeepsInv(Abs(), mime);
      waitingRequest := Some(Request(mime, arrivals));
      log := log.(received := log.received + [Request(mime, arrivals)]);
      arrivals := arrivals + 1;
    }

    /** Channel thread, once the gate is open. */
    method PassGate()
      requires Valid() && waitingRequest.Some? && completedFormatDataRequest
      modifies this`waitingRequest, this`completedFormatDataRequest, this`formatDataRequestContext,
               this`serverFormatDataRequestScheduled, this`log
      ensures Valid() && Abs() == Take(old(Abs()), Pass)
    {
      PassKeepsInv(Abs());
      var request := waitingRequest.value;
      waitingRequest := None;
      if request.mime != NoType {
        assert completedFormatDataRequest && formatDataRequestContext.None?;
        completedFormatDataRequest := false;
        formatDataRequestContext := Some(request);
        serverFormatDataRequestScheduled := true;
      } else {
        log := log.(responses := log.responses + [Response(request, None)]);
      }
    }

    method SubmitRequestedServerContent(operation: Option<nat>)
      requires formatDataRequestContext.Some?
      modifies this`formatDataRequestContext, this`completedFormatDataRequest, this`log
      ensures Abs() == Submit(old(Abs()), operation)
    {
      log := log.(responses := log.responses + [Response(formatDataRequestContext.value, operation)]);
      formatDataRequestContext, completedFormatDataRequest := None, true;
    }

    method HandleReadResult(operation: nat)
      requires (enabled ==> formatDataRequestContext.Some?) && readResult == Some(operation)
      modifies this`hasPendingReadOperation, this`readResult, this`formatDataRequestContext,
               this`completedFormatDataRequest, this`log
      ensures Abs() == HandleResult(old(Abs()), operation)
    {
      readResult, hasPendingReadOperation := None, false;
      if enabled {
        SubmitRequestedServerContent(Some(operation));
      }
    }

    method ReadMimeTypeContentAsync()
      requires formatDataRequestContext.Some? && !hasPendingReadOperation && readResult.None?
      requires operations == |log.operations|
      modifies this`hasPendingReadOperation, this`readCancellable, this`abortReadArmed, this`running, this`log, this`operations
      ensures Abs() == StartRead(old(Abs())) && operations == |log.operations|
    {
      readCancellable, hasPendingReadOperation := Some(operations), true;
      running := running + {operations};
      log := log.(operations := log.operations + [formatDataRequestContext.value]);
      operations := operations + 1;
      abortReadArmed := true;
    }

    /** request_server_format_data: the type may no longer be offered, and the session may refuse the read. */
    method RequestServerFormatData(allowed: bool, readable: bool)
      requires Valid() && main.Free? && enabled && serverFormatDataRequestScheduled
      modifies this`serverFormatDataRequestScheduled, this`formatDataRequestContext, this`completedFormatDataRequest,
               this`hasPendingReadOperation, this`readCancellable, this`abortReadArmed, this`running, this`log, this`operations
      ensures Valid() && Abs() == Take(old(Abs()), RunRequest(allowed, readable))
    {
      RunRequestKeepsInv(Abs(), allowed, readable);
      serverFormatDataRequestScheduled := false;
      if allowed && readable {
        ReadMimeTypeContentAsync();
      } else {
        SubmitRequestedServerContent(None);
      }
    }

    /** Worker: the result is stored under the mutex. */
    method StoreReadResult(operation: nat)
      requires Valid() && operation in running
      modifies this`readResult, this`running, this`stored
      ensures Valid() && Abs() == Take(old(Abs()), StoreResult(operation))
    {
      WorkerKeepsInv(Abs(), StoreResult(operation));
      readResult := Some(operation);
      running, stored := running - {operation}, stored + {operation};
    }

    /** async_read_operation_complete; `isCancelled` is the state of the operation's own cancellable. */
    method AsyncReadOperationComplete(operation: nat, isCancelled: bool)
      requires Valid() && main.Free? && operation in returned && isCancelled == (operation in cancelled)
      modifies this`returned, this`readCancellable, this`abortReadArmed, this`hasPendingReadOperation, this`readResult,
               this`formatDataRequestContext, this`completedFormatDataRequest, this`log
      ensures Valid() && Abs() == Take(old(Abs()), Complete(operation))
    {
      CompleteKeepsInv(Abs(), operation);
      returned := returned - {operation};
      if isCancelled {
        return;
      }
      assert hasPendingReadOperation;
      readCancellable, abortReadArmed := None, false;
      HandleReadResult(readResult.value);
    }

    /** abort_current_read_operation, by the timeout or a new selection, up to its wait for the result */
    method AbortCurrentReadOperation()
      requires Valid() && main.Free? && hasPendingReadOperation
      modifies this`cancelled, this`readCancellable, this`abortReadArmed, this`main
      ensures Valid() && Abs() == Take(old(Abs()), Abort)
    {
      AbortKeepsInv(Abs());
      cancelled := cancelled + {readCancellable.value};
      readCancellable, abortReadArmed, main := None, false, Flushing;
    }

    /** flush_pending_read_result, once the worker has stored its result */
    method FlushPendingReadResult()
      requires Valid() && main.Flushing? && readResult.Some?
      modifies this`main, this`hasPendingReadOperation, this`readResult, this`formatDataRequestContext,
               this`completedFormatDataRequest, this`log
      ensures Valid() && Abs() == Take(old(Abs()), Flush)
    {
      FlushKeepsInv(Abs());
      HandleReadResult(readResult.value);
      main := Free;
    }
  }
}
