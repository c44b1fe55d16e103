/** Requests for the content of the RDP client's clipboard (src/grd-clipboard-rdp.c, src/grd-clipboard.c):
    one request at a time on the wire, a queue behind it, and a cache of converted content. The channel
    thread stores responses and new format lists at any moment, also between the parts of a main loop
    callback; the main loop runs everything else. */
module ClientRequests {
  import opened MimeTypes
  import opened Options

  type Serial = nat

  /** The request on the wire, and when it was sent. */
  datatype Request = Request(table: MimeTable, sentAt: nat)

  /** A response of the client, and when the channel thread stored it. */
  datatype Response = Response(payload: nat, storedAt: nat)

  /** Converted content: the response it was made from, and the request that response was accepted for. */
  datatype Content = Content(request: Request, response: Response)

  /** A serial that was submitted, with its content or without, and when a format list last named its type. */
  datatype Answer = Answer(mime: Mime, serial: Serial, content: Option<Content>, namedAt: nat)

  /** Where the main loop is within a callback. */
  datatype Phase =
    | Idle
    | Handling(request: Request, response: Response)  // took the stored response
    | TimedOut(request: Request)                      // took a request the client did not answer
    | Updating(taken: Option<Request>, tables: seq<MimeTable>)  // applies a new client format list
    | Advancing                                       // looks for the next request to send

  /** Who asked for what, who is still waiting, and what was submitted. */
  datatype Accounts = Accounts(
    pending: map<Mime, seq<Serial>>, requested: seq<(Mime, Serial)>, answers: seq<Answer>, namedAt: map<Mime, nat>)

  /** What the channel thread and the main loop share. */
  datatype Wire = Wire(current: Option<Request>, stored: Option<Response>, handlerScheduled: bool)

  datatype State = State(
    wire: Wire, timerArmed: bool, queue: seq<MimeTable>, cache: map<Mime, Content>, clientTables: map<Mime, nat>,
    listScheduled: Option<seq<MimeTable>>, phase: Phase, clock: nat, accounts: Accounts)

  datatype Step =
    | Ask(mime: Mime, serial: Serial, sendFails: bool)
    | Respond(payload: nat)
    | TakeResponse
    | FinishResponse(converted: bool)
    | TakeTimeout
    | FinishTimeout
    | OfferList(tables: seq<MimeTable>)
    | TakeList
    | FinishList(order: seq<Mime>)
    | SendNext(sendFails: bool)
    | ChangeSelection(dropped: set<Mime>)
    | SendList(dropped: set<Mime>)  // a format list that had to wait: only the cache is affected

  // ----- the accounts

  function NamedAt(a: Accounts, mime: Mime): nat {
    if mime in a.namedAt then a.namedAt[mime] else 0
  }

  function Submit(a: Accounts, mime: Mime, serial: Serial, content: Option<Content>): Accounts {
    a.(answers := a.answers + [Answer(mime, serial, content, NamedAt(a, mime))])
  }

  function Asked(a: Accounts, mime: Mime, serial: Serial): Accounts {
    a.(requested := a.requested + [(mime, serial)])
  }

  /** track_serial_for_mime_type */
  function Track(a: Accounts, mime: Mime, serial: Serial): Accounts {
    a.(pending := a.pending[mime := (if mime in a.pending then a.pending[mime] else []) + [serial]])
  }

  function SubmitAll(answers: seq<Answer>, mime: Mime, serials: seq<Serial>, content: Option<Content>, namedAt: nat): seq<Answer> {
    answers + seq(|serials|, i requires 0 <= i < |serials| => Answer(mime, serials[i], content, namedAt))
  }

  /** abort_client_requests_for_mime_type without content, serve_mime_type_content with it */
  function AnswerType(a: Accounts, mime: Mime, content: Option<Content>): Accounts {
    if mime !in a.pending then a
    else a.(pending := a.pending - {mime},
            answers := SubmitAll(a.answers, mime, a.pending[mime], content, NamedAt(a, mime)))
  }

  /** All that is pending, in whatever order the hash table is walked. */
  function AbortTypes(a: Accounts, mimes: seq<Mime>): Accounts
    decreases |mimes|
  {
    if |mimes| == 0 then a else AbortTypes(AnswerType(a, mimes[0], None), mimes[1..])
  }

  function AbortAll(a: Accounts, taken: Option<Request>, order: seq<Mime>): Accounts {
    AbortTypes(if taken.Some? then AnswerType(a, taken.value.table.mime, None) else a, order)
  }

  // ----- parts of the steps

  /** The other type made from the same file list. */
  function Paired(mime: Mime): Mime {
    if mime == UriList then GnomeCopiedFiles else if mime == GnomeCopiedFiles then UriList else mime
  }

  /** The serials served from a converted response, those of the paired type as well. */
  function ServeBoth(a: Accounts, mime: Mime, content: Content): Accounts {
    var served := AnswerType(a, mime, Some(content));
    if Paired(mime) == mime then served else AnswerType(served, Paired(mime), Some(content))
  }

  function Send(s: State, table: MimeTable): State {
    s.(wire := s.wire.(current := Some(Request(table, s.clock))), timerArmed := true)
  }

  /** grd_clipboard_rdp_request_client_content_for_mime_type */
  function AskClient(s: State, table: MimeTable, serial: Serial, sendFails: bool): State {
    var mime, a := table.mime, s.accounts;
    if mime == NoType then s.(accounts := Submit(a, mime, serial, None))
    else if mime in s.cache then s.(accounts := Submit(a, mime, serial, Some(s.cache[mime])))
    else if s.listScheduled.Some? then s.(accounts := Submit(a, mime, serial, None))
    else if s.wire.current.Some? then s.(queue := s.queue + [table], accounts := Track(a, mime, serial))
    else if sendFails then s.(accounts := Submit(a, mime, serial, None))
    else Send(s, table).(accounts := Track(a, mime, serial))
  }

  /** grd_clipboard_request_client_content_for_mime_type */
  function TakeAsk(s: State, mime: Mime, serial: Serial, sendFails: bool): State {
    if mime !in s.clientTables then s.(accounts := Submit(s.accounts, mime, serial, None))
    else AskClient(s, MimeTable(mime, s.clientTables[mime]), serial, sendFails)
  }

  /** The second half of the response handler. A failed conversion caches nothing. */
  function TakeConversion(s: State, request: Request, response: Response, converted: bool): State {
    var mime, content := request.table.mime, Content(request, response);
    if converted
    then s.(cache := s.cache[mime := content][Paired(mime) := content], accounts := ServeBoth(s.accounts, mime, content))
    else s.(accounts := AnswerType(s.accounts, mime, None))
  }

  /** One attempt of maybe_send_next_mime_type_content_request. */
  function TakeNext(s: State, sendFails: bool): State {
    if |s.queue| == 0 then s.(phase := Idle)
    else
      var table, popped := s.queue[0], s.(queue := s.queue[1..]);
      if table.mime !in s.accounts.pending then popped
      else if sendFails then popped.(accounts := AnswerType(s.accounts, table.mime, None))
      else Send(popped, table).(phase := Idle)
  }

  function Insert(tables: map<Mime, nat>, list: seq<MimeTable>): map<Mime, nat>
    decreases |list|
  {
    if |list| == 0 then tables else Insert(tables[list[0].mime := list[0].formatId], list[1..])
  }

  function NamedNow(namedAt: map<Mime, nat>, named: set<Mime>, clock: nat): map<Mime, nat> {
    namedAt + (map mime | mime in named :: clock)
  }

  function Named(list: seq<MimeTable>): set<Mime> {
    set table | table in list :: table.mime
  }

  // ----- the machine

  predicate Enabled(s: State, step: Step) {
    match step
    case Ask(_, _, _) => s.phase.Idle?
    case Respond(_) => true
    case TakeResponse => s.phase.Idle? && s.wire.handlerScheduled && s.wire.current.Some? && s.wire.stored.Some?
    case FinishResponse(_) => s.phase.Handling?
    case TakeTimeout => s.phase.Idle? && s.timerArmed && s.wire.current.Some?
    case FinishTimeout => s.phase.TimedOut?
    case OfferList(_) => s.listScheduled.None?
    case TakeList => s.phase.Idle? && s.listScheduled.Some?
    case FinishList(order) => s.phase.Updating? && forall mime :: mime in s.accounts.pending ==> mime in order
    case SendNext(_) => s.phase.Advancing?
    case ChangeSelection(_) => s.phase.Idle?
    case SendList(_) => s.phase.Idle?
  }

  function Take(s: State, step: Step): State
    requires Enabled(s, step)
  {
    TakeNow(s.(clock := s.clock + 1), step)
  }

  function TakeNow(s: State, step: Step): State
    requires Enabled(s, step)
  {
    match step
    case Ask(mime, serial, sendFails) =>
      TakeAsk(s.(accounts := Asked(s.accounts, mime, serial)), mime, serial, sendFails)
    case Respond(payload) =>
      if s.wire.current.None? then s
      else s.(wire := Wire(s.wire.current, Some(Response(payload, s.clock)), true))
    case TakeResponse =>
      s.(wire := Wire(None, None, false), phase := Handling(s.wire.current.value, s.wire.stored.value))
    case FinishResponse(converted) =>
      TakeConversion(s, s.phase.request, s.phase.response, converted).(timerArmed := false, phase := Advancing)
    case TakeTimeout =>
      s.(wire := Wire(None, s.wire.stored, false), phase := TimedOut(s.wire.current.value))
    case FinishTimeout =>
      s.(accounts := AnswerType(s.accounts, s.phase.request.table.mime, None), timerArmed := false, phase := Advancing)
    case OfferList(tables) => s.(listScheduled := Some(tables))
    case TakeList =>
      var named := Named(s.listScheduled.value);
      s.(cache := s.cache - named, phase := Updating(s.wire.current, s.listScheduled.value),
         wire := Wire(None, s.wire.stored, false),
         accounts := s.accounts.(namedAt := NamedNow(s.accounts.namedAt, named, s.clock)))
    case FinishList(order) =>
      s.(accounts := AbortAll(s.accounts, s.phase.taken, order), timerArmed := false, queue := [],
         clientTables := Insert(s.clientTables, s.phase.tables), listScheduled := None, phase := Idle)
    case SendNext(sendFails) => TakeNext(s, sendFails)
    case ChangeSelection(dropped) => s.(clientTables := map[], cache := s.cache - dropped)
    case SendList(dropped) => s.(cache := s.cache - dropped)
  }

  predicate Initial(s: State) {
    s == State(Wire(None, None, false), false, [], map[], map[], None, Idle, 0, Accounts(map[], [], [], map[]))
  }

  predicate Run(s: State, steps: seq<Step>)
    decreases |steps|
  {
    |steps| == 0 || (Enabled(s, steps[0]) && Run(Take(s, steps[0]), steps[1..]))
  }

  function After(s: State, steps: seq<Step>): State
    requires Run(s, steps)
    decreases |steps|
  {
    if |steps| == 0 then s else After(Take(s, steps[0]), steps[1..])
  }

  // ----- conservation: every serial is answered once or pending

  /** How often a serial was asked for, answered, or is pending, for a type. */
  function Requested(requested: seq<(Mime, Serial)>, mime: Mime, serial: Serial): nat {
    multiset(requested)[(mime, serial)]
  }

  function Answered(answers: seq<Answer>, mime: Mime, serial: Serial): nat
    decreases |answers|
  {
    if |answers| == 0 then 0
    else Answered(answers[..|answers| - 1], mime, serial) +
         if answers[|answers| - 1].mime == mime && answers[|answers| - 1].serial == serial then 1 else 0
  }

  function Waiting(pending: map<Mime, seq<Serial>>, mime: Mime, serial: Serial): nat {
    if mime in pending then multiset(pending[mime])[serial] else 0
  }

  function Owed(a: Accounts, mime: Mime, serial: Serial): int {
    Requested(a.requested, mime, serial) - Answered(a.answers, mime, serial) - Waiting(a.pending, mime, serial)
  }

  lemma AnsweredOne(answers: seq<Answer>, a: Answer, mime: Mime, serial: Serial)
    ensures Answered(answers + [a], mime, serial) ==
            Answered(answers, mime, serial) + if a.mime == mime && a.serial == serial then 1 else 0
  {
    assert (answers + [a])[..|answers|] == answers;
  }

  lemma {:induction false} AnsweredAll(answers: seq<Answer>, m: Mime, serials: seq<Serial>, content: Option<Content>,
                                       namedAt: nat, mime: Mime, serial: Serial)
    ensures Answered(SubmitAll(answers, m, serials, content, namedAt), mime, serial) ==
            Answered(answers, mime, serial) + if m == mime then multiset(serials)[serial] else 0
    decreases |serials|
  {
    if |serials| > 0 {
      var n := |serials|;
      AnsweredAll(answers, m, serials[..n - 1], content, namedAt, mime, serial);
      assert SubmitAll(answers, m, serials, content, namedAt) ==
             SubmitAll(answers, m, serials[..n - 1], content, namedAt) + [Answer(m, serials[n - 1], content, namedAt)];
      AnsweredOne(SubmitAll(answers, m, serials[..n - 1], content, namedAt), Answer(m, serials[n - 1], content, namedAt),
                  mime, serial);
      assert serials == serials[..n - 1] + [serials[n - 1]];
    } else {
      assert SubmitAll(answers, m, serials, content, namedAt) == answers;
    }
  }

  lemma AnswerTypeOwes(a: Accounts, m: Mime, content: Option<Content>, mime: Mime, serial: Serial)
    ensures Owed(AnswerType(a, m, content), mime, serial) == Owed(a, mime, serial)
  {
    if m in a.pending {
      AnsweredAll(a.answers, m, a.pending[m], content, NamedAt(a, m), mime, serial);
    }
  }

  lemma {:induction false} AbortTypesOwe(a: Accounts, mimes: seq<Mime>, mime: Mime, serial: Serial)
    ensures Owed(AbortTypes(a, mimes), mime, serial) == Owed(a, mime, serial)
    decreases |mimes|
  {
    if |mimes| > 0 {
      AnswerTypeOwes(a, mimes[0], None, mime, serial);
      AbortTypesOwe(AnswerType(a, mimes[0], None), mimes[1..], mime, serial);
    }
  }

  lemma AbortAllOwes(a: Accounts, taken: Option<Request>, order: seq<Mime>, mime: Mime, serial: Serial)
    ensures Owed(AbortAll(a, taken, order), mime, serial) == Owed(a, mime, serial)
  {
    if taken.Some? {
      AnswerTypeOwes(a, taken.value.table.mime, None, mime, serial);
      AbortTypesOwe(AnswerType(a, taken.value.table.mime, None), order, mime, serial);
    } else {
      AbortTypesOwe(a, order, mime, serial);
    }
  }

  lemma ServeBothOwes(a: Accounts, m: Mime, content: Content, mime: Mime, serial: Serial)
    ensures Owed(ServeBoth(a, m, content), mime, serial) == Owed(a, mime, serial)
  {
    AnswerTypeOwes(a, m, Some(content), mime, serial);
    AnswerTypeOwes(AnswerType(a, m, Some(content)), Paired(m), Some(content), mime, serial);
  }

  lemma CountAppended<T>(s: seq<T>, x: T, y: T)
    ensures multiset(s + [x])[y] == multiset(s)[y] + if x == y then 1 else 0
  {
  }

  /** A serial asked for is owed until it is submitted, or tracked. */
  lemma AskedOwes(a: Accounts, m: Mime, one: Serial, mime: Mime, serial: Serial)
    ensures Owed(Asked(a, m, one), mime, serial) ==
            Owed(a, mime, serial) + if m == mime && one == serial then 1 else 0
  {
    CountAppended(a.requested, (m, one), (mime, serial));
  }

  lemma SubmitOwes(a: Accounts, m: Mime, one: Serial, content: Option<Content>, mime: Mime, serial: Serial)
    ensures Owed(Submit(a, m, one, content), mime, serial) ==
            Owed(a, mime, serial) - if m == mime && one == serial then 1 else 0
  {
    AnsweredOne(a.answers, Answer(m, one, content, NamedAt(a, m)), mime, serial);
  }

  lemma TrackOwes(a: Accounts, m: Mime, one: Serial, mime: Mime, serial: Serial)
    ensures Owed(Track(a, m, one), mime, serial) ==
            Owed(a, mime, serial) - if m == mime && one == serial then 1 else 0
  {
    CountAppended(if m in a.pending then a.pending[m] else [], one, serial);
  }

  lemma AskOwes(s: State, m: Mime, one: Serial, sendFails: bool, mime: Mime, serial: Serial)
    ensures Owed(TakeAsk(s.(accounts := Asked(s.accounts, m, one)), m, one, sendFails).accounts, mime, serial) ==
            Owed(s.accounts, mime, serial)
  {
    var a := Asked(s.accounts, m, one);
    AskedOwes(s.accounts, m, one, mime, serial);
    SubmitOwes(a, m, one, None, mime, serial);
    TrackOwes(a, m, one, mime, serial);
    if m in s.cache {
      SubmitOwes(a, m, one, Some(s.cache[m]), mime, serial);
    }
  }

  lemma ConversionOwes(s: State, request: Request, response: Response, converted: bool, mime: Mime, serial: Serial)
    ensures Owed(TakeConversion(s, request, response, converted).accounts, mime, serial) == Owed(s.accounts, mime, serial)
  {
    if converted {
      ServeBothOwes(s.accounts, request.table.mime, Content(request, response), mime, serial);
    } else {
      AnswerTypeOwes(s.accounts, request.table.mime, None, mime, serial);
    }
  }

  lemma NextOwes(s: State, sendFails: bool, mime: Mime, serial: Serial)
    ensures Owed(TakeNext(s, sendFails).accounts, mime, serial) == Owed(s.accounts, mime, serial)
  {
    if |s.queue| > 0 {
      AnswerTypeOwes(s.accounts, s.queue[0].mime, None, mime, serial);
    }
  }

  lemma AskStepOwes(s: State, m: Mime, one: Serial, sendFails: bool, mime: Mime, serial: Serial)
    requires Enabled(s, Ask(m, one, sendFails))
    ensures Owed(Take(s, Ask(m, one, sendFails)).accounts, mime, serial) == Owed(s.accounts, mime, serial)
  {
    AskOwes(s.(clock := s.clock + 1), m, one, sendFails, mime, serial);
  }

  /** No step loses a serial, answers it twice, or answers one that is still pending. */
  lemma StepOwes(s: State, step: Step, mime: Mime, serial: Serial)
    requires Enabled(s, step)
    ensures Owed(Take(s, step).accounts, mime, serial) == Owed(s.accounts, mime, serial)
  {
    var a, later := s.accounts, s.(clock := s.clock + 1);
    match step
    case Ask(m, one, sendFails) => AskStepOwes(s, m, one, sendFails, mime, serial);
    case FinishResponse(converted) => ConversionOwes(later, s.phase.request, s.phase.response, converted, mime, serial);
    case FinishTimeout => AnswerTypeOwes(a, s.phase.request.table.mime, None, mime, serial);
    case FinishList(order) => AbortAllOwes(a, s.phase.taken, order, mime, serial);
    case SendNext(sendFails) => NextOwes(later, sendFails, mime, serial);
    case _ =>
  }

  // ----- what one response settles

  /** A converted response leaves no serial of its type, or of the paired type, pending; both are cached, and
      all that is submitted is that content. */
  lemma ConversionSettlesBoth(s: State)
    requires s.phase.Handling? && Enabled(s, FinishResponse(true))
    ensures var s' := Take(s, FinishResponse(true));
            var mime, content := s.phase.request.table.mime, Content(s.phase.request, s.phase.response);
            && mime !in s'.accounts.pending && Paired(mime) !in s'.accounts.pending
            && mime in s'.cache && s'.cache[mime] == content
            && Paired(mime) in s'.cache && s'.cache[Paired(mime)] == content
            && s.accounts.answers <= s'.accounts.answers
            && forall i :: |s.accounts.answers| <= i < |s'.accounts.answers| ==>
                 s'.accounts.answers[i].content == Some(content) && s'.accounts.answers[i].mime in {mime, Paired(mime)}
  {
  }

  /** A failed conversion, and a timeout, leave no serial of the type pending, cache nothing, and submit no content. */
  lemma FailureSettlesType(s: State, step: Step)
    requires (step == FinishResponse(false) || step == FinishTimeout) && Enabled(s, step)
    ensures var s' := Take(s, step);
            var mime := s.phase.request.table.mime;
            && mime !in s'.accounts.pending && s'.cache == s.cache && s.accounts.answers <= s'.accounts.answers
            && forall i :: |s.accounts.answers| <= i < |s'.accounts.answers| ==>
                 s'.accounts.answers[i].content == None && s'.accounts.answers[i].mime == mime
  {
  }

  // ----- the shape of every reachable state

  /** The request whose serials may be pending without its type being queued. */
  function Front(s: State): Option<Mime> {
    match s.phase
    case Idle => if s.wire.current.Some? then Some(s.wire.current.value.table.mime) else None
    case Handling(request, _) => Some(request.table.mime)
    case TimedOut(request) => Some(request.table.mime)
    case Updating(taken, _) => if taken.Some? then Some(taken.value.table.mime) else None
    case Advancing => None
  }

  ghost predicate Queued(queue: seq<MimeTable>, mime: Mime) {
    exists i :: 0 <= i < |queue| && queue[i].mime == mime
  }

  /** Every pending type is the front one or queued. */
  ghost predicate PendingQueued(pending: map<Mime, seq<Serial>>, queue: seq<MimeTable>, front: Option<Mime>) {
    forall mime :: mime in pending ==> front == Some(mime) || Queued(queue, mime)
  }

  /** The response handler is scheduled only with a current request, and a response stored after it was sent. */
  predicate HandlerShape(s: State) {
    && (s.wire.current.Some? ==> s.phase.Idle? && s.wire.current.value.sentAt <= s.clock)
    && (s.wire.handlerScheduled ==>
          s.wire.current.Some? && s.wire.stored.Some? && s.wire.current.value.sentAt < s.wire.stored.value.storedAt)
  }

  /** The abort timer is armed exactly while a request is current, outside of callbacks; without a current
      request nothing is queued. */
  predicate TimerShape(s: State) {
    && (s.phase.Idle? ==> s.timerArmed == s.wire.current.Some?)
    && (s.phase.Advancing? ==> !s.timerArmed)
    && (s.phase.Idle? && s.wire.current.None? ==> s.queue == [])
    && (s.phase.Updating? ==> s.listScheduled.Some?)
  }

  predicate NoTypeNowhere(s: State) {
    && (forall i :: 0 <= i < |s.queue| ==> s.queue[i].mime != NoType)
    && (s.wire.current.Some? ==> s.wire.current.value.table.mime != NoType)
  }

  ghost predicate Shape(s: State) {
    HandlerShape(s) && TimerShape(s) && NoTypeNowhere(s) && PendingQueued(s.accounts.pending, s.queue, Front(s))
  }

  lemma StepKeepsHandlerShape(s: State, step: Step)
    requires Shape(s) && Enabled(s, step)
    ensures HandlerShape(Take(s, step)) && TimerShape(Take(s, step)) && NoTypeNowhere(Take(s, step))
  {
  }

  lemma QueuedBehind(queue: seq<MimeTable>, table: MimeTable)
    ensures Queued(queue + [table], table.mime)
    ensures forall mime :: Queued(queue, mime) ==> Queued(queue + [table], mime)
  {
    var longer := queue + [table];
    assert longer[|queue|] == table;
    forall mime | Queued(queue, mime) ensures Queued(longer, mime) {
      var i :| 0 <= i < |queue| && queue[i].mime == mime;
      assert longer[i].mime == mime;
    }
  }

  lemma QueuedAfterFirst(queue: seq<MimeTable>)
    requires |queue| > 0
    ensures forall mime :: Queued(queue, mime) && mime != queue[0].mime ==> Queued(queue[1..], mime)
  {
    forall mime | Queued(queue, mime) && mime != queue[0].mime ensures Queued(queue[1..], mime) {
      var i :| 0 <= i < |queue| && queue[i].mime == mime;
      assert queue[1..][i - 1].mime == mime;
    }
  }

  lemma {:induction false} AbortTypesRemoves(a: Accounts, mimes: seq<Mime>)
    ensures forall mime :: mime in AbortTypes(a, mimes).pending ==> mime in a.pending && mime !in mimes
    decreases |mimes|
  {
    if |mimes| > 0 {
      AbortTypesRemoves(AnswerType(a, mimes[0], None), mimes[1..]);
    }
  }

  lemma AskKeepsPendingQueued(s: State, m: Mime, serial: Serial, sendFails: bool)
    requires Shape(s) && Enabled(s, Ask(m, serial, sendFails))
    ensures var s' := Take(s, Ask(m, serial, sendFails)); PendingQueued(s'.accounts.pending, s'.queue, Front(s'))
  {
    if m in s.clientTables {
      QueuedBehind(s.queue, MimeTable(m, s.clientTables[m]));
    }
  }

  lemma StepKeepsPendingQueued(s: State, step: Step)
    requires Shape(s) && Enabled(s, step)
    ensures var s' := Take(s, step); PendingQueued(s'.accounts.pending, s'.queue, Front(s'))
  {
    match step
    case Ask(m, serial, sendFails) => AskKeepsPendingQueued(s, m, serial, sendFails);
    case SendNext(_) =>
      if |s.queue| > 0 {
        QueuedAfterFirst(s.queue);
      }
    case FinishList(order) =>
      if s.phase.taken.Some? {
        AbortTypesRemoves(AnswerType(s.accounts, s.phase.taken.value.table.mime, None), order);
      } else {
        AbortTypesRemoves(s.accounts, order);
      }
    case _ =>
  }

  // ----- freshness of the cache

  /** Made from a response that was stored while a request for the type, or its paired type, was current,
      and that request was sent after the type was last named. */
  predicate FreshFor(content: Content, mime: Mime, namedAt: nat) {
    && namedAt < content.request.sentAt < content.response.storedAt
    && (content.request.table.mime == mime || content.request.table.mime == Paired(mime))
  }

  ghost predicate CacheFresh(cache: map<Mime, Content>, a: Accounts) {
    forall mime :: mime in cache ==> FreshFor(cache[mime], mime, NamedAt(a, mime))
  }

  /** Nothing was named since the given time. */
  ghost predicate NamedBefore(a: Accounts, time: nat) {
    time > 0 && forall mime :: mime in a.namedAt ==> a.namedAt[mime] < time
  }

  ghost predicate AnswersFresh(a: Accounts) {
    forall i :: 0 <= i < |a.answers| && a.answers[i].content.Some? ==>
      FreshFor(a.answers[i].content.value, a.answers[i].mime, a.answers[i].namedAt)
  }

  ghost predicate RequestsFresh(s: State) {
    && NamedBefore(s.accounts, s.clock + 1)
    && (s.wire.current.Some? ==> NamedBefore(s.accounts, s.wire.current.value.sentAt))
    && (s.phase.Handling? ==> NamedBefore(s.accounts, s.phase.request.sentAt) &&
                              s.phase.request.sentAt < s.phase.response.storedAt)
  }

  ghost predicate Fresh(s: State) {
    CacheFresh(s.cache, s.accounts) && AnswersFresh(s.accounts) && RequestsFresh(s)
  }

  lemma AnswerTypeFresh(a: Accounts, mime: Mime, content: Option<Content>)
    requires AnswersFresh(a) && (content.Some? ==> FreshFor(content.value, mime, NamedAt(a, mime)))
    ensures AnswersFresh(AnswerType(a, mime, content)) && AnswerType(a, mime, content).namedAt == a.namedAt
  {
  }

  lemma {:induction false} AbortTypesFresh(a: Accounts, mimes: seq<Mime>)
    requires AnswersFresh(a)
    ensures AnswersFresh(AbortTypes(a, mimes)) && AbortTypes(a, mimes).namedAt == a.namedAt
    decreases |mimes|
  {
    if |mimes| > 0 {
      AbortTypesFresh(AnswerType(a, mimes[0], None), mimes[1..]);
    }
  }

  lemma ConversionFresh(s: State, request: Request, response: Response, converted: bool)
    requires CacheFresh(s.cache, s.accounts) && AnswersFresh(s.accounts) && NamedBefore(s.accounts, request.sentAt)
    requires request.sentAt < response.storedAt
    ensures var s' := TakeConversion(s, request, response, converted);
            CacheFresh(s'.cache, s'.accounts) && AnswersFresh(s'.accounts) && s'.accounts.namedAt == s.accounts.namedAt
  {
    var mime, content := request.table.mime, Content(request, response);
    if converted {
      AnswerTypeFresh(s.accounts, mime, Some(content));
      AnswerTypeFresh(AnswerType(s.accounts, mime, Some(content)), Paired(mime), Some(content));
    }
  }

  lemma SubmitFresh(a: Accounts, mime: Mime, serial: Serial, content: Option<Content>)
    requires AnswersFresh(a) && (content.Some? ==> FreshFor(content.value, mime, NamedAt(a, mime)))
    ensures AnswersFresh(Submit(a, mime, serial, content))
  {
  }

  lemma AskAnswersFresh(s: State, m: Mime, serial: Serial, sendFails: bool)
    requires Fresh(s) && Enabled(s, Ask(m, serial, sendFails))
    ensures AnswersFresh(Take(s, Ask(m, serial, sendFails)).accounts)
  {
    SubmitFresh(Asked(s.accounts, m, serial), m, serial, if m in s.cache then Some(s.cache[m]) else None);
    SubmitFresh(Asked(s.accounts, m, serial), m, serial, None);
  }

  lemma AskFresh(s: State, m: Mime, serial: Serial, sendFails: bool)
    requires Fresh(s) && Enabled(s, Ask(m, serial, sendFails))
    ensures Fresh(Take(s, Ask(m, serial, sendFails)))
  {
    AskAnswersFresh(s, m, serial, sendFails);
    var s' := Take(s, Ask(m, serial, sendFails));
    assert s'.cache == s.cache && s'.accounts.namedAt == s.accounts.namedAt;
    assert RequestsFresh(s');
  }

  lemma NextFresh(s: State, sendFails: bool)
    requires Fresh(s) && Enabled(s, SendNext(sendFails))
    ensures Fresh(Take(s, SendNext(sendFails)))
  {
    if |s.queue| > 0 {
      AnswerTypeFresh(s.accounts, s.queue[0].mime, None);
    }
  }

  lemma ListFresh(s: State, order: seq<Mime>)
    requires Fresh(s) && Enabled(s, FinishList(order))
    ensures Fresh(Take(s, FinishList(order)))
  {
    if s.phase.taken.Some? {
      AnswerTypeFresh(s.accounts, s.phase.taken.value.table.mime, None);
      AbortTypesFresh(AnswerType(s.accounts, s.phase.taken.value.table.mime, None), order);
    } else {
      AbortTypesFresh(s.accounts, order);
    }
  }

  lemma NamingFresh(s: State)
    requires Fresh(s) && Enabled(s, TakeList)
    ensures Fresh(Take(s, TakeList))
  {
  }

  lemma StepKeepsFresh(s: State, step: Step)
    requires Shape(s) && Fresh(s) && Enabled(s, step)
    ensures Fresh(Take(s, step))
  {
    match step
    case Ask(m, serial, sendFails) => AskFresh(s, m, serial, sendFails);
    case FinishResponse(converted) => ConversionFresh(s.(clock := s.clock + 1), s.phase.request, s.phase.response, converted);
    case FinishTimeout => AnswerTypeFresh(s.accounts, s.phase.request.table.mime, None);
    case TakeList => NamingFresh(s);
    case FinishList(order) => ListFresh(s, order);
    case SendNext(sendFails) => NextFresh(s, sendFails);
    case _ =>
  }

  // ----- every reachable state

  lemma {:induction false} RunKeepsShapeAndFresh(s: State, steps: seq<Step>)
    requires Shape(s) && Fresh(s) && Run(s, steps)
    ensures Shape(After(s, steps)) && Fresh(After(s, steps))
    decreases |steps|
  {
    if |steps| > 0 {
      StepKeepsHandlerShape(s, steps[0]);
      StepKeepsPendingQueued(s, steps[0]);
      StepKeepsFresh(s, steps[0]);
      RunKeepsShapeAndFresh(Take(s, steps[0]), steps[1..]);
    }
  }

  lemma {:induction false} RunOwes(s: State, steps: seq<Step>, mime: Mime, serial: Serial)
    requires Run(s, steps)
    ensures Owed(After(s, steps).accounts, mime, serial) == Owed(s.accounts, mime, serial)
    decreases |steps|
  {
    if |steps| > 0 {
      StepOwes(s, steps[0], mime, serial);
      RunOwes(Take(s, steps[0]), steps[1..], mime, serial);
    }
  }

  ghost predicate Reachable(s: State) {
    exists start: State, steps :: Initial(start) && Run(start, steps) && s == After(start, steps)
  }

  lemma ReachableIsShapedAndFresh(s: State)
    requires Reachable(s)
    ensures Shape(s) && Fresh(s)
  {
    var start: State, steps :| Initial(start) && Run(start, steps) && s == After(start, steps);
    RunKeepsShapeAndFresh(start, steps);
  }

  /** A serial has been answered, or is pending, as often as it was asked for: once each time, never both. */
  lemma EverySerialAnsweredOrPending(s: State, mime: Mime, serial: Serial)
    requires Reachable(s)
    ensures Requested(s.accounts.requested, mime, serial) ==
            Answered(s.accounts.answers, mime, serial) + Waiting(s.accounts.pending, mime, serial)
  {
    var start: State, steps :| Initial(start) && Run(start, steps) && s == After(start, steps);
    RunOwes(start, steps, mime, serial);
  }

  lemma NothingQueued(pending: map<Mime, seq<Serial>>)
    requires PendingQueued(pending, [], None)
    ensures pending == map[]
  {
    assert forall mime :: mime in pending ==> Queued([], mime);
  }

  /** Nothing waits without a request on the wire and an armed timer. */
  lemma NothingIsStranded(s: State)
    requires Reachable(s) && s.phase.Idle?
    ensures s.timerArmed <==> s.wire.current.Some?
    ensures s.wire.current.None? ==> s.queue == [] && s.accounts.pending == map[]
    ensures s.wire.handlerScheduled ==> s.wire.current.Some? && s.wire.stored.Some? &&
                                        s.wire.current.value.sentAt < s.wire.stored.value.storedAt
  {
    ReachableIsShapedAndFresh(s);
    if s.wire.current.None? {
      NothingQueued(s.accounts.pending);
    }
  }

  /** The assertions before a request is sent hold wherever the next one is looked for. */
  lemma SendAssertionsHold(s: State)
    requires Reachable(s) && s.phase.Advancing? && |s.queue| > 0
    ensures s.queue[0].mime != NoType && s.wire.current.None? && !s.wire.handlerScheduled && !s.timerArmed
  {
    ReachableIsShapedAndFresh(s);
  }

  // ----- progress

  /** The steps of the main loop by which requests are settled. The others are those of the client, the
      selection and the consumers. */
  predicate Settling(step: Step) {
    !step.Ask? && !step.Respond? && !step.OfferList? && !step.ChangeSelection? && !step.SendList?
  }

  /** Nothing new is asked for, and no list is offered, while the client may respond as it likes. */
  predicate OnItsOwn(step: Step) {
    !step.Ask? && !step.OfferList?
  }

  function SettlingSteps(steps: seq<Step>): nat
    decreases |steps|
  {
    if |steps| == 0 then 0 else (if Settling(steps[0]) then 1 else 0) + SettlingSteps(steps[1..])
  }

  /** A bound on the settling steps until nothing is pending. */
  function Work(s: State): nat {
    4 * |s.queue| + (if s.wire.current.Some? then 3 else 0) +
    (if s.listScheduled.Some? && !s.phase.Updating? then 2 else 0) +
    match s.phase
    case Idle => 0
    case Handling(_, _) => 2
    case TimedOut(_) => 2
    case Updating(_, _) => 1
    case Advancing => 1
  }

  lemma StepWorks(s: State, step: Step)
    requires Shape(s) && Enabled(s, step) && OnItsOwn(step)
    ensures Work(Take(s, step)) <= Work(s) - if Settling(step) then 1 else 0
  {
  }

  /** However the client responds, or fails to, the main loop settles everything within a bounded number of steps;
      so the loop that looks for the next request to send terminates. */
  lemma {:induction false} SettlingEnds(s: State, steps: seq<Step>)
    requires Shape(s) && Run(s, steps) && forall i :: 0 <= i < |steps| ==> OnItsOwn(steps[i])
    ensures SettlingSteps(steps) <= Work(s)
    decreases |steps|
  {
    if |steps| > 0 {
      StepWorks(s, steps[0]);
      StepKeepsHandlerShape(s, steps[0]);
      StepKeepsPendingQueued(s, steps[0]);
      SettlingEnds(Take(s, steps[0]), steps[1..]);
    }
  }

  ghost predicate Covers(order: seq<Mime>, mimes: set<Mime>) {
    forall mime :: mime in mimes ==> mime in order
  }

  lemma {:induction false} SomeOrderCovers(mimes: set<Mime>)
    ensures exists order: seq<Mime> :: Covers(order, mimes)
  {
    if mimes == {} {
      assert Covers([], mimes);
    } else {
      var first :| first in mimes;
      SomeOrderCovers(mimes - {first});
      var order: seq<Mime> :| Covers(order, mimes - {first});
      assert Covers(order + [first], mimes);
    }
  }

  /** While a serial is pending, a settling step is due. */
  lemma PendingMeansWork(s: State)
    requires Reachable(s) && s.accounts.pending != map[]
    ensures exists step :: Settling(step) && Enabled(s, step)
  {
    ReachableIsShapedAndFresh(s);
    match s.phase
    case Idle =>
      NothingIsStranded(s);
      assert Settling(TakeTimeout) && Enabled(s, TakeTimeout);
    case Handling(_, _) => assert Settling(FinishResponse(true)) && Enabled(s, FinishResponse(true));
    case TimedOut(_) => assert Settling(FinishTimeout) && Enabled(s, FinishTimeout);
    case Advancing => assert Settling(SendNext(true)) && Enabled(s, SendNext(true));
    case Updating(_, _) =>
      SomeOrderCovers(s.accounts.pending.Keys);
      var order: seq<Mime> :| Covers(order, s.accounts.pending.Keys);
      assert Settling(FinishList(order)) && Enabled(s, FinishList(order));
  }

  /** So at rest every serial has been answered as often as it was asked for. */
  lemma RestMeansAnswered(s: State, mime: Mime, serial: Serial)
    requires Reachable(s) && forall step :: Settling(step) ==> !Enabled(s, step)
    ensures Answered(s.accounts.answers, mime, serial) == Requested(s.accounts.requested, mime, serial)
  {
    EverySerialAnsweredOrPending(s, mime, serial);
    if mime in s.accounts.pending {
      PendingMeansWork(s);
    }
  }

  /** Whatever was submitted with content is fresh for its type. */
  lemma AnswersAreFresh(s: State, i: nat)
    requires Reachable(s) && i < |s.accounts.answers| && s.accounts.answers[i].content.Some?
    ensures var a := s.accounts.answers[i]; FreshFor(a.content.value, a.mime, a.namedAt)
  {
    ReachableIsShapedAndFresh(s);
  }

  lemma {:induction false} RunOn(s: State, steps: seq<Step>, step: Step)
    requires Run(s, steps) && Enabled(After(s, steps), step)
    ensures Run(s, steps + [step]) && After(s, steps + [step]) == Take(After(s, steps), step)
    decreases |steps|
  {
    var longer := steps + [step];
    if |steps| == 0 {
      assert longer[1..] == [];
    } else {
      assert longer[1..] == steps[1..] + [step];
      RunOn(Take(s, steps[0]), steps[1..], step);
    }
  }

  const START: State := State(Wire(None, None, false), false, [], map[], map[], None, Idle, 0, Accounts(map[], [], [], map[]))

  lemma {:induction false} AbortOneMore(a: Accounts, mimes: seq<Mime>, mime: Mime)
    ensures AbortTypes(a, mimes + [mime]) == AnswerType(AbortTypes(a, mimes), mime, None)
    decreases |mimes|
  {
    var longer := mimes + [mime];
    if |mimes| == 0 {
      assert longer[1..] == [];
    } else {
      assert longer[1..] == mimes[1..] + [mime];
      AbortOneMore(AnswerType(a, mimes[0], None), mimes[1..], mime);
    }
  }

  lemma {:induction false} InsertOneMore(tables: map<Mime, nat>, list: seq<MimeTable>, table: MimeTable)
    ensures Insert(tables, list + [table]) == Insert(tables, list)[table.mime := table.formatId]
    decreases |list|
  {
    var longer := list + [table];
    if |list| == 0 {
      assert longer[1..] == [];
    } else {
      assert longer[1..] == list[1..] + [table];
      InsertOneMore(tables[list[0].mime := list[0].formatId], list[1..], table);
    }
  }

  /** The clipboard object. Each callback takes the steps of the machine above one after another. */
  class RdpClipboardRequests {
    var currentClientRequest: Option<Request>
    var formatDataResponse: Option<Response>
    var formatDataResponseScheduled: bool
    var clientRequestAbortArmed: bool
    var pendingClientRequests: map<Mime, seq<Serial>>
    var orderedClientRequests: seq<MimeTable>
    var formatDataCache: map<Mime, Content>
    var clientMimeTypeTables: map<Mime, nat>
    var serverFormatListUpdate: Option<seq<MimeTable>>

    ghost var phase: Phase
    ghost var namedAt: map<Mime, nat>
    ghost var requested: seq<(Mime, Serial)>
    ghost var answers: seq<Answer>
    ghost var steps: seq<Step>

    var clock: nat  // numbers the steps, so that requests and responses can be told apart

    ghost function Abs(): State
      reads this
    {
      State(Wire(currentClientRequest, formatDataResponse, formatDataResponseScheduled), clientRequestAbortArmed,
            orderedClientRequests, formatDataCache, clientMimeTypeTables, serverFormatListUpdate, phase, clock,
            Accounts(pendingClientRequests, requested, answers, namedAt))
    }

    /** The object is where its run has led it. */
    ghost predicate OnRun()
      reads this
    {
      Run(START, steps) && Abs() == After(START, steps)
    }

    constructor ()
      ensures OnRun() && phase.Idle? && steps == []
    {
      currentClientRequest, formatDataResponse, formatDataResponseScheduled := None, None, false;
      clientRequestAbortArmed, pendingClientRequests, orderedClientRequests := false, map[], [];
      formatDataCache, clientMimeTypeTables, serverFormatListUpdate := map[], map[], None;
      phase, namedAt, requested, answers, steps, clock := Idle, map[], [], [], [], 0;
    }

    /** The machine has taken one more step. */
    ghost method Record(before: State, step: Step)
      requires Run(START, steps) && before == After(START, steps) && Enabled(before, step) && Abs() == Take(before, step)
      modifies this`steps
      ensures OnRun() && steps == old(steps) + [step]
    {
      RunOn(START, steps, step);
      steps := steps + [step];
    }

    /** Channel thread: a format data response of the client. */
    method ClientFormatDataResponse(payload: nat)
      requires OnRun()
      modifies this
      ensures OnRun() && steps == old(steps) + [Respond(payload)]
    {
      clock := clock + 1;
      if currentClientRequest.Some? {
        formatDataResponse := Some(Response(payload, clock));
        formatDataResponseScheduled := true;
      }
      Record(old(Abs()), Respond(payload));
    }

    /** grd_clipboard_submit_client_content_for_mime_type, for the serials of one type */
    method SubmitClientContent(mime: Mime, serials: seq<Serial>, content: Option<Content>)
      modifies this`answers
      ensures answers == SubmitAll(old(answers), mime, serials, content, if mime in namedAt then namedAt[mime] else 0)
    {
      ghost var named := if mime in namedAt then namedAt[mime] else 0;
      var i := 0;
      while i < |serials|
        invariant 0 <= i <= |serials| && answers == SubmitAll(old(answers), mime, serials[..i], content, named)
      {
        answers := answers + [Answer(mime, serials[i], content, named)];
        i := i + 1;
      }
      assert serials[..i] == serials;
    }

    /** abort_client_requests_for_mime_type, serve_mime_type_content */
    method AnswerPending(mime: Mime, content: Option<Content>)
      modifies this`pendingClientRequests, this`answers
      ensures Abs() == old(Abs()).(accounts := AnswerType(old(Abs()).accounts, mime, content))
    {
      if mime in pendingClientRequests {
        var serials := pendingClientRequests[mime];
        pendingClientRequests := pendingClientRequests - {mime};
        SubmitClientContent(mime, serials, content);
      }
    }

    method SubmitOne(mime: Mime, serial: Serial, content: Option<Content>)
      modifies this`answers
      ensures Abs() == old(Abs()).(accounts := Submit(old(Abs()).accounts, mime, serial, content))
    {
      SubmitClientContent(mime, [serial], content);
    }

    method TrackSerial(mime: Mime, serial: Serial)
      modifies this`pendingClientRequests
      ensures Abs() == old(Abs()).(accounts := Track(old(Abs()).accounts, mime, serial))
    {
      var serials := if mime in pendingClientRequests then pendingClientRequests[mime] else [];
      pendingClientRequests := pendingClientRequests[mime := serials + [serial]];
    }

    method SendMimeTypeContentRequest(table: MimeTable, fails: bool) returns (sent: bool)
      requires table.mime != NoType && currentClientRequest.None?
      requires !formatDataResponseScheduled && !clientRequestAbortArmed
      modifies this`currentClientRequest, this`clientRequestAbortArmed
      ensures sent == !fails
      ensures Abs() == if sent then Send(old(Abs()), table) else old(Abs())
    {
      if fails {
        return false;
      }
      currentClientRequest, clientRequestAbortArmed := Some(Request(table, clock)), true;
      return true;
    }

    /** The part of the main loop that asks the client, under the assertions of the source. */
    method AskClientFor(table: MimeTable, serial: Serial, sendFails: bool)
      requires phase.Idle? && clientRequestAbortArmed == currentClientRequest.Some?
      requires currentClientRequest.None? ==> !formatDataResponseScheduled && orderedClientRequests == []
      modifies this`pendingClientRequests, this`answers, this`orderedClientRequests, this`currentClientRequest,
               this`clientRequestAbortArmed
      ensures Abs() == AskClient(old(Abs()), table, serial, sendFails)
    {
      if table.mime == NoType {
        SubmitOne(table.mime, serial, None);
      } else if table.mime in formatDataCache {
        SubmitOne(table.mime, serial, Some(formatDataCache[table.mime]));
      } else if serverFormatListUpdate.Some? {
        SubmitOne(table.mime, serial, None);
      } else if currentClientRequest.Some? {
        orderedClientRequests := orderedClientRequests + [table];
        TrackSerial(table.mime, serial);
      } else {
        assert orderedClientRequests == [];
        var sent := SendMimeTypeContentRequest(table, sendFails);
        if sent {
          TrackSerial(table.mime, serial);
        } else {
          SubmitOne(table.mime, serial, None);
        }
      }
    }

    lemma IdleFacts()
      requires OnRun() && phase.Idle?
      ensures clientRequestAbortArmed == currentClientRequest.Some?
      ensures currentClientRequest.None? ==> !formatDataResponseScheduled && orderedClientRequests == []
      ensures formatDataResponseScheduled ==> currentClientRequest.Some? && formatDataResponse.Some?
    {
      RunKeepsShapeAndFresh(START, steps);
    }

    lemma AdvancingFacts()
      requires OnRun() && phase.Advancing?
      ensures currentClientRequest.None? && !formatDataResponseScheduled && !clientRequestAbortArmed
      ensures forall i :: 0 <= i < |orderedClientRequests| ==> orderedClientRequests[i].mime != NoType
    {
      RunKeepsShapeAndFresh(START, steps);
    }

    method Ask(mime: Mime, serial: Serial, sendFails: bool)
      requires phase.Idle? && clientRequestAbortArmed == currentClientRequest.Some?
      requires currentClientRequest.None? ==> !formatDataResponseScheduled && orderedClientRequests == []
      modifies this`clock, this`requested, this`pendingClientRequests, this`answers, this`orderedClientRequests,
               this`currentClientRequest, this`clientRequestAbortArmed
      ensures Abs() == Take(old(Abs()), Step.Ask(mime, serial, sendFails))
    {
      NoteRequest(mime, serial);
      if mime !in clientMimeTypeTables {
        SubmitOne(mime, serial, None);
      } else {
        AskClientFor(MimeTable(mime, clientMimeTypeTables[mime]), serial, sendFails);
      }
    }

    method NoteRequest(mime: Mime, serial: Serial)
      modifies this`clock, this`requested
      ensures Abs() == old(Abs()).(clock := old(clock) + 1, accounts := Asked(old(Abs()).accounts, mime, serial))
    {
      clock := clock + 1;
      requested := requested + [(mime, serial)];
    }

    /** grd_clipboard_request_client_content_for_mime_type */
    method RequestClientContent(mime: Mime, serial: Serial, sendFails: bool)
      requires OnRun() && phase.Idle?
      modifies this
      ensures OnRun() && steps == old(steps) + [Step.Ask(mime, serial, sendFails)]
    {
      IdleFacts();
      Ask(mime, serial, sendFails);
      Record(old(Abs()), Step.Ask(mime, serial, sendFails));
    }

    method PopRequest() returns (table: MimeTable)
      requires |orderedClientRequests| > 0
      modifies this`orderedClientRequests
      ensures table == old(orderedClientRequests)[0]
      ensures Abs() == old(Abs()).(queue := old(orderedClientRequests)[1..])
    {
      table := orderedClientRequests[0];
      orderedClientRequests := orderedClientRequests[1..];
    }

    /** One attempt of maybe_send_next_mime_type_content_request. */
    method SendNextOnce(refused: bool) returns (more: bool)
      requires phase.Advancing? && currentClientRequest.None? && !formatDataResponseScheduled && !clientRequestAbortArmed
      requires forall i :: 0 <= i < |orderedClientRequests| ==> orderedClientRequests[i].mime != NoType
      modifies this`clock, this`phase, this`pendingClientRequests, this`answers, this`orderedClientRequests,
               this`currentClientRequest, this`clientRequestAbortArmed
      ensures Abs() == Take(old(Abs()), SendNext(refused))
      ensures more ==> phase.Advancing? && |orderedClientRequests| < |old(orderedClientRequests)|
      ensures !more ==> phase.Idle?
    {
      clock := clock + 1;
      if |orderedClientRequests| == 0 {
        phase := Idle;
        return false;
      }
      var table := PopRequest();
      if table.mime !in pendingClientRequests {
        return true;
      }
      var sent := SendMimeTypeContentRequest(table, refused);
      if sent {
        phase := Idle;
      } else {
        AnswerPending(table.mime, None);
      }
      return !sent;
    }

    /** maybe_send_next_mime_type_content_request; `refusals` says which attempts the channel refuses. */
    method MaybeSendNext(refusals: seq<bool>) returns (ghost sends: seq<Step>)
      requires OnRun() && phase.Advancing?
      modifies this
      ensures OnRun() && phase.Idle? && steps == old(steps) + sends && forall step :: step in sends ==> step.SendNext?
      decreases |orderedClientRequests|
    {
      AdvancingFacts();
      var refused := |refusals| > 0 && refusals[0];
      var more := SendNextOnce(refused);
      Record(old(Abs()), SendNext(refused));
      sends := [SendNext(refused)];
      if more {
        ghost var rest;
        rest := MaybeSendNext(if |refusals| > 0 then refusals[1..] else []);
        sends := sends + rest;
      }
    }

    /** handle_format_data_response up to the release of its mutex */
    method StealResponse() returns (request: Request, response: Response)
      requires OnRun() && phase.Idle? && formatDataResponseScheduled
      modifies this
      ensures OnRun() && steps == old(steps) + [TakeResponse]
      ensures phase == Handling(request, response)
    {
      IdleFacts();
      clock := clock + 1;
      request, response := currentClientRequest.value, formatDataResponse.value;
      currentClientRequest, formatDataResponse, formatDataResponseScheduled := None, None, false;
      phase := Handling(request, response);
      Record(old(Abs()), TakeResponse);
    }

    /** The converted content goes into the cache, for both file list types if it is a file list, and is served. */
    method ServeConverted(request: Request, response: Response, converted: bool)
      modifies this`formatDataCache, this`pendingClientRequests, this`answers
      ensures Abs() == TakeConversion(old(Abs()), request, response, converted)
    {
      var mime, content := request.table.mime, Content(request, response);
      if converted {
        if mime == UriList || mime == GnomeCopiedFiles {
          formatDataCache := formatDataCache[Paired(mime) := content];
        }
        formatDataCache := formatDataCache[mime := content];
        AnswerPending(mime, Some(formatDataCache[mime]));
        if mime == UriList {
          AnswerPending(GnomeCopiedFiles, Some(formatDataCache[GnomeCopiedFiles]));
        } else if mime == GnomeCopiedFiles {
          AnswerPending(UriList, Some(formatDataCache[UriList]));
        }
      } else {
        AnswerPending(mime, None);
      }
    }

    method FinishHandling(request: Request, response: Response, converted: bool)
      requires OnRun() && phase == Handling(request, response)
      modifies this
      ensures OnRun() && steps == old(steps) + [FinishResponse(converted)] && phase.Advancing?
    {
      clock := clock + 1;
      ServeConverted(request, response, converted);
      clientRequestAbortArmed, phase := false, Advancing;
      Record(old(Abs()), FinishResponse(converted));
    }

    /** handle_format_data_response: extracting and converting the data may fail. */
    method HandleFormatDataResponse(converted: bool, refusals: seq<bool>) returns (ghost sends: seq<Step>)
      requires OnRun() && phase.Idle? && formatDataResponseScheduled
      modifies this
      ensures OnRun() && phase.Idle? && forall step :: step in sends ==> step.SendNext?
      ensures steps == old(steps) + [TakeResponse, FinishResponse(converted)] + sends
    {
      var request, response := StealResponse();
      FinishHandling(request, response, converted);
      sends := MaybeSendNext(refusals);
    }

    method StealTimedOut() returns (request: Request)
      requires OnRun() && phase.Idle? && clientRequestAbortArmed
      modifies this
      ensures OnRun() && steps == old(steps) + [TakeTimeout] && phase == TimedOut(request)
    {
      IdleFacts();
      clock := clock + 1;
      request := currentClientRequest.value;
      currentClientRequest, formatDataResponseScheduled := None, false;
      phase := TimedOut(request);
      Record(old(Abs()), TakeTimeout);
    }

    method FinishTimedOut(request: Request)
      requires OnRun() && phase == TimedOut(request)
      modifies this
      ensures OnRun() && steps == old(steps) + [FinishTimeout] && phase.Advancing?
    {
      clock := clock + 1;
      AnswerPending(request.table.mime, None);
      clientRequestAbortArmed, phase := false, Advancing;
      Record(old(Abs()), FinishTimeout);
    }

    /** abort_current_client_request, the callback of the abort timer */
    method AbortCurrentClientRequest(refusals: seq<bool>) returns (ghost sends: seq<Step>)
      requires OnRun() && phase.Idle? && clientRequestAbortArmed
      modifies this
      ensures OnRun() && phase.Idle? && forall step :: step in sends ==> step.SendNext?
      ensures steps == old(steps) + [TakeTimeout, FinishTimeout] + sends
    {
      var request := StealTimedOut();
      FinishTimedOut(request);
      sends := MaybeSendNext(refusals);
    }

    /** Channel thread: the classified format list is handed to the main loop, once the last one is done with. */
    method ClientFormatList(tables: seq<MimeTable>)
      requires OnRun() && serverFormatListUpdate.None?
      modifies this
      ensures OnRun() && steps == old(steps) + [OfferList(tables)]
    {
      clock := clock + 1;
      serverFormatListUpdate := Some(tables);
      Record(old(Abs()), OfferList(tables));
    }

    /** The named types leave the cache. */
    method ForgetNamed(tables: seq<MimeTable>)
      modifies this`formatDataCache
      ensures Abs() == old(Abs()).(cache := old(formatDataCache) - Named(tables))
    {
      var i := 0;
      while i < |tables|
        invariant 0 <= i <= |tables| && formatDataCache == old(formatDataCache) - Named(tables[..i])
      {
        formatDataCache := formatDataCache - {tables[i].mime};
        assert Named(tables[..i + 1]) == Named(tables[..i]) + {tables[i].mime};
        i := i + 1;
      }
      assert tables[..i] == tables;
    }

    method TakeUpdate() returns (taken: Option<Request>, tables: seq<MimeTable>)
      requires phase.Idle? && serverFormatListUpdate.Some?
      modifies this`clock, this`formatDataCache, this`currentClientRequest, this`formatDataResponseScheduled,
               this`phase, this`namedAt
      ensures Abs() == Take(old(Abs()), TakeList) && phase == Updating(taken, tables)
    {
      clock := clock + 1;
      tables := serverFormatListUpdate.value;
      ForgetNamed(tables);
      taken := StealCurrent(tables);
    }

    method StealCurrent(tables: seq<MimeTable>) returns (taken: Option<Request>)
      modifies this`currentClientRequest, this`formatDataResponseScheduled, this`phase, this`namedAt
      ensures taken == old(currentClientRequest)
      ensures Abs() == old(Abs()).(wire := Wire(None, formatDataResponse, false), phase := Updating(taken, tables),
                                   accounts := old(Abs()).accounts.(namedAt := NamedNow(old(namedAt), Named(tables), clock)))
    {
      taken := currentClientRequest;
      currentClientRequest, formatDataResponseScheduled := None, false;
      phase := Updating(taken, tables);
      namedAt := NamedNow(namedAt, Named(tables), clock);
    }

    /** abort_all_client_requests, after the mutex is released: the context's type, then the whole hash table. */
    method AbortAllRequests(taken: Option<Request>) returns (ghost order: seq<Mime>)
      modifies this`pendingClientRequests, this`answers
      ensures Abs() == old(Abs()).(accounts := AbortAll(old(Abs()).accounts, taken, order))
      ensures forall mime :: mime in old(pendingClientRequests) ==> mime in order
    {
      if taken.Some? {
        AnswerPending(taken.value.table.mime, None);
      }
      ghost var start := Abs();
      order := [];
      while pendingClientRequests != map[]
        invariant Abs() == start.(accounts := AbortTypes(start.accounts, order))
        invariant forall mime :: mime in start.accounts.pending ==> mime in order || mime in pendingClientRequests
        decreases |pendingClientRequests|
      {
        var mime :| mime in pendingClientRequests;
        assert |pendingClientRequests - {mime}| < |pendingClientRequests| by {
          assert (pendingClientRequests - {mime}).Keys < pendingClientRequests.Keys;
        }
        AbortOneMore(start.accounts, order, mime);
        AnswerPending(mime, None);
        order := order + [mime];
      }
      if taken.Some? {
        order := order + [taken.value.table.mime];
        AbortOneMore(start.accounts, order[..|order| - 1], taken.value.table.mime);
      }
    }

    method InsertTables(tables: seq<MimeTable>)
      modifies this`clientMimeTypeTables
      ensures Abs() == old(Abs()).(clientTables := Insert(old(clientMimeTypeTables), tables))
    {
      var i := 0;
      while i < |tables|
        invariant 0 <= i <= |tables| && clientMimeTypeTables == Insert(old(clientMimeTypeTables), tables[..i])
      {
        clientMimeTypeTables := clientMimeTypeTables[tables[i].mime := tables[i].formatId];
        InsertOneMore(old(clientMimeTypeTables), tables[..i], tables[i]);
        assert tables[..i + 1] == tables[..i] + [tables[i]];
        i := i + 1;
      }
      assert tables[..i] == tables;
    }

    method FinishUpdate(taken: Option<Request>, tables: seq<MimeTable>) returns (ghost order: seq<Mime>)
      requires phase == Updating(taken, tables)
      modifies this`clock, this`pendingClientRequests, this`answers, this`clientRequestAbortArmed,
               this`orderedClientRequests, this`clientMimeTypeTables, this`serverFormatListUpdate, this`phase
      ensures Enabled(old(Abs()), FinishList(order)) && Abs() == Take(old(Abs()), FinishList(order))
    {
      clock := clock + 1;
      order := AbortAllRequests(taken);
      FinishTables(tables);
    }

    method FinishTables(tables: seq<MimeTable>)
      modifies this`clientRequestAbortArmed, this`orderedClientRequests, this`clientMimeTypeTables,
               this`serverFormatListUpdate, this`phase
      ensures Abs() == old(Abs()).(timerArmed := false, queue := [], listScheduled := None, phase := Idle,
                                   clientTables := Insert(old(clientMimeTypeTables), tables))
    {
      clientRequestAbortArmed, orderedClientRequests := false, [];
      InsertTables(tables);
      serverFormatListUpdate, phase := None, Idle;
    }

    /** update_server_format_list */
    method UpdateServerFormatList() returns (ghost order: seq<Mime>)
      requires OnRun() && phase.Idle? && serverFormatListUpdate.Some?
      modifies this
      ensures OnRun() && phase.Idle? && steps == old(steps) + [TakeList, FinishList(order)]
    {
      var taken, tables := TakeUpdate();
      Record(old(Abs()), TakeList);
      ghost var updating := Abs();
      order := FinishUpdate(taken, tables);
      Record(updating, FinishList(order));
    }

    /** grd_clipboard_update_client_mime_type_list: the local selection changed; the types now offered to the
        client, and those left out as duplicates, leave the cache. */
    method UpdateClientMimeTypeList(dropped: set<Mime>)
      requires OnRun() && phase.Idle?
      modifies this
      ensures OnRun() && phase.Idle? && steps == old(steps) + [ChangeSelection(dropped)]
    {
      clock := clock + 1;
      clientMimeTypeTables := map[];
      formatDataCache := formatDataCache - dropped;
      Record(old(Abs()), ChangeSelection(dropped));
    }

    /** send_mime_type_list, for a list that waited behind another one: its types leave the cache, while the
        client's types stay known. */
    method SendQueuedMimeTypeList(dropped: set<Mime>)
      requires OnRun() && phase.Idle?
      modifies this
      ensures OnRun() && phase.Idle? && steps == old(steps) + [SendList(dropped)]
    {
      clock := clock + 1;
      formatDataCache := formatDataCache - dropped;
      Record(old(Abs()), SendList(dropped));
    }

    /** At any moment, for any history of calls: answered or pending, as often as asked. */
    lemma NoSerialLost(mime: Mime, serial: Serial)
      requires OnRun()
      ensures Requested(requested, mime, serial) ==
              Answered(answers, mime, serial) + Waiting(pendingClientRequests, mime, serial)
    {
      RunOwes(START, steps, mime, serial);
    }

    /** Every answer with content is fresh. */
    lemma AnswersStayFresh()
      requires OnRun()
      ensures forall i :: 0 <= i < |answers| && answers[i].content.Some? ==>
                FreshFor(answers[i].content.value, answers[i].mime, answers[i].namedAt)
    {
      RunKeepsShapeAndFresh(START, steps);
    }
  }
}
