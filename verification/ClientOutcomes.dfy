/** What the requests of ClientRequests come to (src/grd-clipboard-rdp.c): when the client is asked, what is
    answered at once, and what a response, a timeout, a format list and a new selection lead to. */
module ClientOutcomes {
  import opened MimeTypes
  import opened Options
  import opened ClientRequests

  /** The pending serials of a type, after one more was asked for. */
  function OneMoreWaits(pending: map<Mime, seq<Serial>>, mime: Mime, serial: Serial): map<Mime, seq<Serial>> {
    pending[mime := (if mime in pending then pending[mime] else []) + [serial]]
  }

  /** The client offers a type that is neither cached nor about to be replaced. */
  predicate MustBeFetched(s: State, mime: Mime) {
    mime != NoType && mime in s.clientTables && mime !in s.cache && s.listScheduled.None?
  }

  // ----- one request

  /** What is cached is served at once, and nothing else happens. */
  lemma CachedIsServed(s: State, mime: Mime, serial: Serial, sendFails: bool)
    requires Enabled(s, Ask(mime, serial, sendFails))
    requires mime != NoType && mime in s.clientTables && mime in s.cache
    ensures var s' := Take(s, Ask(mime, serial, sendFails));
            && s'.accounts.answers == s.accounts.answers + [Answer(mime, serial, Some(s.cache[mime]), NamedAt(s.accounts, mime))]
            && s'.accounts.pending == s.accounts.pending
            && s'.wire == s.wire && s'.queue == s.queue && s'.timerArmed == s.timerArmed && s'.cache == s.cache
  {
  }

  /** With nothing on the wire, the client is asked, by the id it offered the type under. */
  lemma ClientIsAsked(s: State, mime: Mime, serial: Serial)
    requires Enabled(s, Ask(mime, serial, false)) && MustBeFetched(s, mime) && s.wire.current.None?
    ensures var s' := Take(s, Ask(mime, serial, false));
            && s'.wire.current == Some(Request(MimeTable(mime, s.clientTables[mime]), s'.clock)) && s'.timerArmed
            && s'.accounts.pending == OneMoreWaits(s.accounts.pending, mime, serial)
            && s'.accounts.answers == s.accounts.answers && s'.queue == s.queue && s'.cache == s.cache
            && s'.wire.stored == s.wire.stored && s'.wire.handlerScheduled == s.wire.handlerScheduled
            && s'.listScheduled == s.listScheduled && s'.phase == s.phase && s'.clientTables == s.clientTables
            && s'.accounts.namedAt == s.accounts.namedAt
  {
  }

  /** With a request on the wire, the new one goes to the tail of the queue. */
  lemma RequestIsQueued(s: State, mime: Mime, serial: Serial, sendFails: bool)
    requires Enabled(s, Ask(mime, serial, sendFails)) && MustBeFetched(s, mime) && s.wire.current.Some?
    ensures var s' := Take(s, Ask(mime, serial, sendFails));
            && s'.queue == s.queue + [MimeTable(mime, s.clientTables[mime])]
            && s'.accounts.pending == OneMoreWaits(s.accounts.pending, mime, serial)
            && s'.accounts.answers == s.accounts.answers && s'.wire == s.wire && s'.timerArmed == s.timerArmed
  {
  }

  /** A request is answered without content at once exactly if the client does not offer the type, or it is not
      cached and either a new list is about to be applied, or it would have to be sent now and cannot be. */
  lemma RefusedAtOnceIff(s: State, mime: Mime, serial: Serial, sendFails: bool)
    requires Enabled(s, Ask(mime, serial, sendFails))
    ensures Take(s, Ask(mime, serial, sendFails)).accounts.answers ==
            s.accounts.answers + [Answer(mime, serial, None, NamedAt(s.accounts, mime))] <==>
            || mime !in s.clientTables || mime == NoType
            || (mime !in s.cache && (s.listScheduled.Some? || (s.wire.current.None? && sendFails)))
  {
    var answers: seq<Answer> := s.accounts.answers;
    var none: seq<Answer> := [Answer(mime, serial, None, NamedAt(s.accounts, mime))];
    var longer: seq<Answer> := answers + none;
    assert |longer| == |answers| + 1 && longer[|answers|].content == None;
    if mime in s.clientTables && mime != NoType {
      if mime in s.cache {
        CachedIsServed(s, mime, serial, sendFails);
      } else if s.listScheduled.None? && s.wire.current.Some? {
        RequestIsQueued(s, mime, serial, sendFails);
      } else if s.listScheduled.None? && !sendFails {
        ClientIsAsked(s, mime, serial);
      }
    }
  }

  /** A response without a request is ignored; otherwise it is kept, the latest one only. */
  lemma LatestResponseIsKept(s: State, payload: nat)
    ensures var s' := Take(s, Respond(payload));
            && s'.wire.current == s.wire.current && s'.accounts == s.accounts && s'.queue == s.queue && s'.cache == s.cache
            && (s.wire.current.None? ==> s'.wire == s.wire)
            && (s.wire.current.Some? ==> s'.wire.stored == Some(Response(payload, s'.clock)) && s'.wire.handlerScheduled)
  {
  }

  // ----- a request and its response

  lemma OneStep(s: State, a: Step)
    requires Enabled(s, a)
    ensures Run(s, [a]) && After(s, [a]) == Take(s, a)
  {
    var rest: seq<Step> := [a][1..];
    assert rest == [];
    assert Run(Take(s, a), rest) && After(Take(s, a), rest) == Take(s, a);
  }

  lemma TwoSteps(s: State, a: Step, b: Step)
    requires Enabled(s, a) && Enabled(Take(s, a), b)
    ensures Run(s, [a, b]) && After(s, [a, b]) == Take(Take(s, a), b)
  {
    var s1 := Take(s, a);
    OneStep(s1, b);
    assert [a, b][1..] == [b];
  }

  lemma FourSteps(s: State, a: Step, b: Step, c: Step, d: Step)
    requires Enabled(s, a) && Enabled(Take(s, a), b) && Enabled(Take(Take(s, a), b), c)
    requires Enabled(Take(Take(Take(s, a), b), c), d)
    ensures Run(s, [a, b, c, d]) && After(s, [a, b, c, d]) == Take(Take(Take(Take(s, a), b), c), d)
  {
    var s1 := Take(s, a);
    var s2 := Take(s1, b);
    TwoSteps(s2, c, d);
    assert [b, c, d][1..] == [c, d];
    assert Run(s1, [b, c, d]) && After(s1, [b, c, d]) == After(s2, [c, d]);
    assert [a, b, c, d][1..] == [b, c, d];
  }

  /** The content that the response to a request is converted to. */
  function Fetched(s: State, mime: Mime, payload: nat): Content
    requires mime in s.clientTables
  {
    Content(Request(MimeTable(mime, s.clientTables[mime]), s.clock + 1), Response(payload, s.clock + 2))
  }

  lemma ResponseIsServed(s: State, request: Request, response: Response, serial: Serial)
    requires s.phase.Handling? && s.phase.request == request && s.phase.response == response
    requires s.accounts.pending == map[request.table.mime := [serial]]
    ensures Enabled(s, FinishResponse(true))
    ensures var s', mime, content := Take(s, FinishResponse(true)), request.table.mime, Content(request, response);
            && s'.accounts.answers == s.accounts.answers + [Answer(mime, serial, Some(content), NamedAt(s.accounts, mime))]
            && s'.accounts.pending == map[]
            && s'.cache == s.cache[mime := content][Paired(mime) := content]
  {
    var mime, content := request.table.mime, Content(request, response);
    assert s.accounts.pending - {mime} == map[];
    assert seq(1, i requires 0 <= i < 1 => Answer(mime, [serial][i], Some(content), NamedAt(s.accounts, mime))) ==
           [Answer(mime, serial, Some(content), NamedAt(s.accounts, mime))];
  }

  /** A request that is sent, and the client's response to it: the serial is answered with just that response,
      which is cached for the type, and for the other type that is made from a file list. */
  lemma RequestIsAnswered(s: State, mime: Mime, serial: Serial, payload: nat)
    requires s.phase.Idle? && MustBeFetched(s, mime) && s.wire.current.None? && s.accounts.pending == map[]
    ensures var steps := [Ask(mime, serial, false), Respond(payload), TakeResponse, FinishResponse(true)];
            && Run(s, steps)
            && var s', content := After(s, steps), Fetched(s, mime, payload);
               && s'.accounts.answers ==
                  s.accounts.answers + [Answer(mime, serial, Some(content), NamedAt(s.accounts, mime))]
               && s'.accounts.pending == map[] && s'.cache == s.cache[mime := content][Paired(mime) := content]
  {
    ClientIsAsked(s, mime, serial);
    var asked := Take(s, Ask(mime, serial, false));
    assert [] + [serial] == [serial];
    assert asked.accounts.pending == map[mime := [serial]];
    LatestResponseIsKept(asked, payload);
    var responded := Take(asked, Respond(payload));
    assert responded.phase.Idle?;
    var taken := Take(responded, TakeResponse);
    var request, response := responded.wire.current.value, responded.wire.stored.value;
    assert taken.phase == Handling(request, response) && taken.accounts == asked.accounts;
    ResponseIsServed(taken, request, response, serial);
    FourSteps(s, Ask(mime, serial, false), Respond(payload), TakeResponse, FinishResponse(true));
  }

  /** At every reachable state between callbacks with nothing on the wire, so it goes. */
  lemma EveryRequestCanBeAnswered(s: State, mime: Mime, serial: Serial, payload: nat)
    requires Reachable(s) && s.phase.Idle? && MustBeFetched(s, mime) && s.wire.current.None?
    ensures var steps := [Ask(mime, serial, false), Respond(payload), TakeResponse, FinishResponse(true)];
            && Run(s, steps)
            && After(s, steps).accounts.answers ==
               s.accounts.answers + [Answer(mime, serial, Some(Fetched(s, mime, payload)), NamedAt(s.accounts, mime))]
  {
    NothingIsStranded(s);
    RequestIsAnswered(s, mime, serial, payload);
  }

  /** The callback takes the request off the wire together with the response that is kept. */
  lemma ResponseIsTaken(s: State)
    requires Enabled(s, TakeResponse)
    ensures var s' := Take(s, TakeResponse);
            && s'.phase == Handling(s.wire.current.value, s.wire.stored.value)
            && s'.wire == Wire(None, None, false) && s'.accounts == s.accounts && s'.queue == s.queue && s'.cache == s.cache
  {
  }

  /** A converted file list serves both types that are made from it. */
  lemma FileListServesBoth(s: State)
    requires Enabled(s, FinishResponse(true)) && s.phase.request.table.mime in {UriList, GnomeCopiedFiles}
    ensures var s', content := Take(s, FinishResponse(true)), Content(s.phase.request, s.phase.response);
            && s'.cache == s.cache[UriList := content][GnomeCopiedFiles := content]
            && s'.accounts.pending == s.accounts.pending - {UriList, GnomeCopiedFiles} && s'.phase.Advancing?
  {
  }

  /** Everything else is of use for its own type only. */
  lemma OtherContentServesOne(s: State)
    requires Enabled(s, FinishResponse(true)) && s.phase.request.table.mime !in {UriList, GnomeCopiedFiles}
    ensures var s', mime := Take(s, FinishResponse(true)), s.phase.request.table.mime;
            && s'.cache == s.cache[mime := Content(s.phase.request, s.phase.response)]
            && s'.accounts.pending == s.accounts.pending - {mime} && s'.phase.Advancing?
  {
  }

  /** The timeout gives up the request on the wire, and that request only. */
  lemma TimeoutGivesUp(s: State)
    requires Enabled(s, TakeTimeout)
    ensures Enabled(Take(s, TakeTimeout), FinishTimeout)
    ensures var s', mime := Take(Take(s, TakeTimeout), FinishTimeout), s.wire.current.value.table.mime;
            && s'.wire == Wire(None, s.wire.stored, false) && !s'.timerArmed && s'.phase.Advancing? && s'.queue == s.queue && s'.cache == s.cache
            && s'.accounts.pending == s.accounts.pending - {mime} && s.accounts.answers <= s'.accounts.answers
            && |s'.accounts.answers| ==
               |s.accounts.answers| + (if mime in s.accounts.pending then |s.accounts.pending[mime]| else 0)
            && forall i :: |s.accounts.answers| <= i < |s'.accounts.answers| ==>
                 s'.accounts.answers[i].content == None && s'.accounts.answers[i].mime == mime
  {
  }

  // ----- the queue

  /** The next request of the queue is sent if its type is still pending. */
  lemma NextIsSent(s: State)
    requires Enabled(s, SendNext(false)) && |s.queue| > 0 && s.queue[0].mime in s.accounts.pending
    ensures var s' := Take(s, SendNext(false));
            && s'.wire.current == Some(Request(s.queue[0], s'.clock)) && s'.timerArmed && s'.phase.Idle?
            && s'.queue == s.queue[1..] && s'.accounts == s.accounts && s'.cache == s.cache
  {
  }

  /** If it cannot be sent, its serials are answered without content, and the search goes on. */
  lemma NextIsRefused(s: State)
    requires Enabled(s, SendNext(true)) && |s.queue| > 0 && s.queue[0].mime in s.accounts.pending
    ensures var s', mime := Take(s, SendNext(true)), s.queue[0].mime;
            && s'.wire == s.wire && s'.phase.Advancing? && s'.queue == s.queue[1..] && s'.cache == s.cache
            && s'.accounts.pending == s.accounts.pending - {mime} && s.accounts.answers <= s'.accounts.answers
            && |s'.accounts.answers| == |s.accounts.answers| + |s.accounts.pending[mime]|
            && forall i :: |s.accounts.answers| <= i < |s'.accounts.answers| ==>
                 s'.accounts.answers[i].content == None && s'.accounts.answers[i].mime == mime
  {
  }

  /** A type that has been answered in the meantime is passed over, and the search ends with the queue. */
  lemma NextIsSkipped(s: State, sendFails: bool)
    requires Enabled(s, SendNext(sendFails)) && (|s.queue| > 0 ==> s.queue[0].mime !in s.accounts.pending)
    ensures var s' := Take(s, SendNext(sendFails));
            && s'.wire == s.wire && s'.accounts == s.accounts && s'.cache == s.cache && s'.timerArmed == s.timerArmed
            && s'.queue == (if |s.queue| > 0 then s.queue[1..] else [])
            && s'.phase == if |s.queue| > 0 then Advancing else Idle
  {
  }

  // ----- format lists and selections

  /** The k-th table of a list is the last one that names the type. */
  predicate LastNaming(tables: seq<MimeTable>, mime: Mime, k: nat) {
    k < |tables| && tables[k].mime == mime && forall j :: k < j < |tables| ==> tables[j].mime != mime
  }

  predicate Names(tables: seq<MimeTable>, mime: Mime) {
    exists k :: 0 <= k < |tables| && tables[k].mime == mime
  }

  lemma {:induction false} InsertedTables(before: map<Mime, nat>, tables: seq<MimeTable>, mime: Mime)
    ensures !Names(tables, mime) ==> (mime in Insert(before, tables) <==> mime in before) &&
                                     (mime in before ==> Insert(before, tables)[mime] == before[mime])
    ensures forall k: nat :: LastNaming(tables, mime, k) ==>
              mime in Insert(before, tables) && Insert(before, tables)[mime] == tables[k].formatId
    decreases |tables|
  {
    if |tables| > 0 {
      var first, rest := tables[0], tables[1..];
      InsertedTables(before[first.mime := first.formatId], rest, mime);
      forall k: nat | LastNaming(tables, mime, k)
        ensures mime in Insert(before, tables) && Insert(before, tables)[mime] == tables[k].formatId
      {
        if k > 0 {
          assert rest[k - 1] == tables[k] && forall j :: 0 <= j < |rest| ==> rest[j] == tables[j + 1];
          assert LastNaming(rest, mime, k - 1);
        } else {
          assert forall j :: 0 <= j < |rest| ==> rest[j] == tables[j + 1];
          assert !Names(rest, mime);
        }
      }
      if !Names(tables, mime) {
        assert forall j :: 0 <= j < |rest| ==> rest[j] == tables[j + 1];
        assert first.mime != mime && !Names(rest, mime);
      }
    }
  }

  lemma {:induction false} AbortTypesEmpties(a: Accounts, mimes: seq<Mime>)
    ensures var a' := AbortTypes(a, mimes);
            && a.answers <= a'.answers && a'.namedAt == a.namedAt
            && (forall mime :: mime in a'.pending ==> mime in a.pending && mime !in mimes)
            && forall i :: |a.answers| <= i < |a'.answers| ==> a'.answers[i].content == None
    decreases |mimes|
  {
    if |mimes| > 0 {
      AbortTypesEmpties(AnswerType(a, mimes[0], None), mimes[1..]);
    }
  }

  /** The types a list names leave the cache before anything else happens; the request on the wire is taken. */
  lemma ListDropsNamed(s: State)
    requires Enabled(s, TakeList)
    ensures var s', tables := Take(s, TakeList), s.listScheduled.value;
            && (forall mime :: mime in s'.cache <==> mime in s.cache && !Names(tables, mime))
            && (forall mime :: mime in s'.cache ==> s'.cache[mime] == s.cache[mime])
            && s'.wire.current.None? && !s'.wire.handlerScheduled && s'.accounts.answers == s.accounts.answers
            && s'.accounts.pending == s.accounts.pending && s'.phase == Updating(s.wire.current, tables)
            && (forall mime :: NamedAt(s'.accounts, mime) == if Names(tables, mime) then s'.clock else NamedAt(s.accounts, mime))
  {
    var tables := s.listScheduled.value;
    forall mime ensures mime in Named(tables) <==> Names(tables, mime) {
      if Names(tables, mime) {
        var k :| 0 <= k < |tables| && tables[k].mime == mime;
        assert tables[k] in tables;
      }
    }
  }

  /** Then all that is pending is answered without content, and the types that are named get the ids of the list. */
  lemma ListIsApplied(s: State, order: seq<Mime>)
    requires Enabled(s, FinishList(order))
    ensures var s', tables := Take(s, FinishList(order)), s.phase.tables;
            && s'.accounts.pending == map[] && s'.queue == [] && s'.wire == s.wire && !s'.timerArmed && s'.cache == s.cache
            && s'.phase.Idle? && s'.listScheduled.None? && s.accounts.answers <= s'.accounts.answers
            && (forall i :: |s.accounts.answers| <= i < |s'.accounts.answers| ==> s'.accounts.answers[i].content == None)
            && (forall mime, k: nat :: LastNaming(tables, mime, k) ==>
                  mime in s'.clientTables && s'.clientTables[mime] == tables[k].formatId)
            && forall mime :: !Names(tables, mime) ==>
                 (mime in s'.clientTables <==> mime in s.clientTables) &&
                 (mime in s.clientTables ==> s'.clientTables[mime] == s.clientTables[mime])
  {
    var taken, a := s.phase.taken, s.accounts;
    var aborted := if taken.Some? then AnswerType(a, taken.value.table.mime, None) else a;
    AbortTypesEmpties(aborted, order);
    assert forall mime :: mime !in AbortAll(a, taken, order).pending;
    forall mime, k: nat | LastNaming(s.phase.tables, mime, k)
      ensures mime in Insert(s.clientTables, s.phase.tables) &&
              Insert(s.clientTables, s.phase.tables)[mime] == s.phase.tables[k].formatId
    {
      InsertedTables(s.clientTables, s.phase.tables, mime);
    }
    forall mime | !Names(s.phase.tables, mime)
      ensures (mime in Insert(s.clientTables, s.phase.tables) <==> mime in s.clientTables) &&
              (mime in s.clientTables ==> Insert(s.clientTables, s.phase.tables)[mime] == s.clientTables[mime])
    {
      InsertedTables(s.clientTables, s.phase.tables, mime);
    }
  }

  /** Only the first of several lists waits, and until it is applied nothing new is sent. */
  lemma OfferedListWaits(s: State, tables: seq<MimeTable>)
    requires Enabled(s, OfferList(tables))
    ensures var s' := Take(s, OfferList(tables));
            && s'.listScheduled == Some(tables) && s'.wire == s.wire && s'.accounts == s.accounts && s'.queue == s.queue
            && s'.cache == s.cache && s'.clientTables == s.clientTables
            && forall mime :: !MustBeFetched(s', mime)
  {
  }

  /** After a new local selection the client's content is out of reach until the client names it again. */
  lemma SelectionForgetsClient(s: State, dropped: set<Mime>, mime: Mime, serial: Serial, sendFails: bool)
    requires Enabled(s, ChangeSelection(dropped))
    ensures var s' := Take(s, ChangeSelection(dropped));
            && s'.cache == s.cache - dropped && s'.accounts == s.accounts && s'.wire == s.wire && s'.queue == s.queue
            && Enabled(s', Ask(mime, serial, sendFails))
            && Take(s', Ask(mime, serial, sendFails)).accounts.answers ==
               s.accounts.answers + [Answer(mime, serial, None, NamedAt(s.accounts, mime))]
  {
    RefusedAtOnceIff(Take(s, ChangeSelection(dropped)), mime, serial, sendFails);
  }

  /** A list that was sent late: its types must be fetched again, all others stay as they are. */
  lemma LateListDropsCache(s: State, dropped: set<Mime>)
    requires Enabled(s, SendList(dropped))
    ensures var s' := Take(s, SendList(dropped));
            && s'.cache == s.cache - dropped && s'.clientTables == s.clientTables && s'.accounts == s.accounts
            && s'.wire == s.wire && s'.queue == s.queue && s'.listScheduled == s.listScheduled
            && forall mime :: mime in dropped && mime != NoType && mime in s.clientTables && s.listScheduled.None? ==>
                 MustBeFetched(s', mime)
  {
  }
}
