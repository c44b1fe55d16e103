/** Telling the client what the local clipboard holds (src/grd-clipboard-rdp.c): one format list at a time is
    unacknowledged, and a newer one waits behind it, replacing what waited before. */
module FormatListSender {
  import opened MimeTypes
  import opened Options
  import FormatClassification

  type MimeList = seq<Mime>

  /** The acknowledgement flags of a format list response. */
  datatype Flags = Flags(ok: bool, fail: bool)

  /** How a list that was sent came to be settled: by a response, the n-th the client sent, or by the timer. */
  datatype Outcome = AnsweredBy(response: nat) | GivenUp

  /** The responses so far: what they settled, how many there were, and which one is kept until it is handled. */
  datatype Replies = Replies(outcomes: seq<Outcome>, responded: nat, kept: nat)

  datatype State = State(
    allowed: set<Mime>, pending: MimeList, queued: MimeList, dropArmed: bool, responseFlags: Flags,
    responseScheduled: bool, unicodeFormat: Mime,
    offered: seq<MimeList>,  // lists offered by the session, without duplicates, unless empty
    sent: seq<MimeList>,     // lists sent to the client
    replies: Replies)        // and what became of them

  datatype Step =
    | Offer(list: MimeList)
    | Respond(flags: Flags)    // channel thread
    | HandleResponse
    | DropPending              // the timer
    | ReplaceByClient(named: set<Mime>)

  predicate NoRepeats(list: MimeList) {
    forall i, j :: 0 <= i < j < |list| ==> list[i] != list[j]
  }

  // ----- the list as it is advertised

  function RemoveFirst(list: MimeList, mime: Mime): MimeList
    decreases |list|
  {
    if |list| == 0 then []
    else if list[0] == mime then list[1..]
    else [list[0]] + RemoveFirst(list[1..], mime)
  }

  /** remove_duplicated_clipboard_mime_types */
  function Deduplicated(list: MimeList): MimeList {
    var noFiles := RemoveFirst(list, GnomeCopiedFiles);
    if TextPlainUtf8 in noFiles && Utf8String in noFiles then RemoveFirst(noFiles, TextPlainUtf8) else noFiles
  }

  /** The format id a mime type is advertised under. */
  function AdvertisedId(mime: Mime): nat {
    match mime
    case TextPlain => 1
    case TextPlainUtf8 => 13
    case Utf8String => 13
    case TextHtml => 0xD010
    case ImageBmp => 8
    case ImageTiff => 6
    case ImageGif => 0xD013
    case ImageJpeg => 0xD012
    case ImagePng => 0xD011
    case UriList => 0xD014
    case _ => 0
  }

  /** The name of a format whose id is not a fixed one. */
  function AdvertisedName(mime: Mime): Option<string> {
    match mime
    case TextHtml => Some("HTML Format")
    case ImageGif => Some("image/gif")
    case ImageJpeg => Some("image/jpeg")
    case ImagePng => Some("image/png")
    case UriList => Some("FileGroupDescriptorW")
    case _ => None
  }

  function AdvertisedFormat(mime: Mime): FormatClassification.Format {
    FormatClassification.Format(AdvertisedId(mime), AdvertisedName(mime))
  }

  function AdvertisedFormats(list: MimeList): seq<FormatClassification.Format> {
    seq(|list|, i requires 0 <= i < |list| => AdvertisedFormat(list[i]))
  }

  /** The mime type the client means when it requests a format id. */
  function RequestedMime(id: nat, unicodeFormat: Mime): Mime {
    if id == 1 then TextPlain
    else if id == 13 then unicodeFormat
    else if id == 0xD010 then TextHtml
    else if id == 8 then ImageBmp
    else if id == 6 then ImageTiff
    else if id == 0xD013 then ImageGif
    else if id == 0xD012 then ImageJpeg
    else if id == 0xD011 then ImagePng
    else if id == 0xD014 then UriList
    else NoType
  }

  /** The last Unicode text type of a list, or what it was before. */
  function UnicodeFormatAfter(list: MimeList, before: Mime): Mime
    decreases |list|
  {
    var n := |list|;
    if n == 0 then before
    else if list[n - 1] == TextPlainUtf8 || list[n - 1] == Utf8String then list[n - 1]
    else UnicodeFormatAfter(list[..n - 1], before)
  }

  lemma {:induction false} RemoveFirstRemoves(list: MimeList, mime: Mime)
    requires NoRepeats(list)
    ensures NoRepeats(RemoveFirst(list, mime))
    ensures forall m :: m in RemoveFirst(list, mime) <==> m in list && m != mime
    decreases |list|
  {
    if |list| > 0 && list[0] != mime {
      var rest := list[1..];
      RemoveFirstRemoves(rest, mime);
      assert list == [list[0]] + rest;
      assert forall i :: 0 <= i < |rest| ==> rest[i] == list[i + 1];
      assert list[0] !in RemoveFirst(rest, mime);
    }
  }

  /** The other types keep their order. */
  lemma {:induction false} RemoveFirstCuts(list: MimeList, mime: Mime, k: nat)
    requires k < |list| && list[k] == mime && mime !in list[..k]
    ensures RemoveFirst(list, mime) == list[..k] + list[k + 1..]
    decreases |list|
  {
    if k > 0 {
      assert list[0] in list[..k] && list[1..][..k - 1] == list[..k][1..] && list[1..][k..] == list[k + 1..];
      RemoveFirstCuts(list[1..], mime, k - 1);
    }
  }

  /** What is advertised: everything offered, but for the type that goes with text/uri-list, and only one of
      the two Unicode text types. */
  lemma DeduplicatedKeeps(list: MimeList)
    requires NoRepeats(list)
    ensures NoRepeats(Deduplicated(list))
    ensures forall m :: m in Deduplicated(list) <==>
              m in list && m != GnomeCopiedFiles && !(m == TextPlainUtf8 && Utf8String in list)
  {
    RemoveFirstRemoves(list, GnomeCopiedFiles);
    RemoveFirstRemoves(RemoveFirst(list, GnomeCopiedFiles), TextPlainUtf8);
  }

  predicate Advertisable(list: MimeList) {
    && NoRepeats(list) && NoType !in list && GnomeCopiedFiles !in list
    && !(TextPlainUtf8 in list && Utf8String in list)
  }

  /** Text, bitmaps and TIFF images have the ids of the standard clipboard formats. */
  lemma StandardIds(list: MimeList, mime: Mime)
    requires Advertisable(list) && mime in list
    ensures AdvertisedId(mime) == FormatClassification.CF_TEXT == 1 <==> mime == TextPlain
    ensures AdvertisedId(mime) == FormatClassification.CF_UNICODETEXT == 13 <==> mime == TextPlainUtf8 || mime == Utf8String
    ensures AdvertisedId(mime) == FormatClassification.CF_DIB == 8 <==> mime == ImageBmp
    ensures AdvertisedId(mime) == FormatClassification.CF_TIFF == 6 <==> mime == ImageTiff
  {
  }

  lemma {:induction false} UnicodeFormatIsListed(list: MimeList, before: Mime, mime: Mime)
    requires !(TextPlainUtf8 in list && Utf8String in list)
    requires mime in list && (mime == TextPlainUtf8 || mime == Utf8String)
    ensures UnicodeFormatAfter(list, before) == mime
    decreases |list|
  {
    var n := |list|;
    if list[n - 1] != TextPlainUtf8 && list[n - 1] != Utf8String {
      assert list == list[..n - 1] + [list[n - 1]];
      UnicodeFormatIsListed(list[..n - 1], before, mime);
    }
  }

  /** Every advertised type has an id of its own, and a request for that id means that type. */
  lemma AdvertisedIdMeansType(list: MimeList, before: Mime, mime: Mime)
    requires Advertisable(list) && mime in list
    ensures RequestedMime(AdvertisedId(mime), UnicodeFormatAfter(list, before)) == mime
    ensures forall other :: other in list && other != mime ==> AdvertisedId(other) != AdvertisedId(mime)
  {
    if mime == TextPlainUtf8 || mime == Utf8String {
      UnicodeFormatIsListed(list, before, mime);
    }
  }

  // ----- the steps

  function Types(list: MimeList): set<Mime> {
    set mime | mime in list
  }

  /** send_mime_type_list */
  function Send(s: State, list: MimeList): State {
    s.(allowed := s.allowed - Types(list), pending := s.pending + list, sent := s.sent + [list],
       unicodeFormat := UnicodeFormatAfter(list, s.unicodeFormat))
  }

  function Settled(r: Replies, received: bool): Replies {
    r.(outcomes := r.outcomes + [if received then AnsweredBy(r.kept) else GivenUp])
  }

  /** update_allowed_server_formats; without a response the list is given up */
  function Settle(s: State, received: bool): State {
    if received && s.responseFlags.ok
    then s.(allowed := s.allowed + Types(s.pending), pending := [], replies := Settled(s.replies, received))
    else s.(allowed := {}, pending := [], replies := Settled(s.replies, received))
  }

  /** One more response: the first is kept until it is handled, others until then are ignored. */
  function Received(r: Replies, kept: bool): Replies {
    if kept then Replies(r.outcomes, r.responded + 1, r.responded) else r.(responded := r.responded + 1)
  }

  function SendQueued(s: State): State {
    if s.queued == [] then s else Send(s.(queued := []), s.queued)
  }

  predicate Enabled(s: State, step: Step) {
    match step
    case Offer(list) => NoRepeats(list) && NoType !in list
    case Respond(_) => true
    case HandleResponse => s.responseScheduled
    case DropPending => s.dropArmed
    case ReplaceByClient(_) => true
  }

  function Take(s: State, step: Step): State
    requires Enabled(s, step)
  {
    match step
    case Offer(list) =>
      var offer := Deduplicated(list);
      if offer == [] then s
      else if s.pending != [] then s.(queued := offer, dropArmed := true, offered := s.offered + [offer])
      else Send(s.(offered := s.offered + [offer]), offer)
    case Respond(flags) =>
      var received := s.(replies := Received(s.replies, !s.responseScheduled));
      if s.responseScheduled then received else received.(responseFlags := flags, responseScheduled := true)
    case HandleResponse =>
      SendQueued((if s.pending != [] then Settle(s, true) else s).(dropArmed := false, responseScheduled := false))
    case DropPending => SendQueued(Settle(s, false)).(dropArmed := false)
    case ReplaceByClient(named) => s.(allowed := s.allowed - named)
  }

  predicate Initial(s: State) {
    s == State({}, [], [], false, Flags(false, false), false, NoType, [], [], Replies([], 0, 0))
  }

  /** Every list that was sent, but for the pending one, has been settled. */
  predicate OneUnacknowledged(s: State) {
    && |s.sent| == |s.replies.outcomes| + (if s.pending != [] then 1 else 0)
    && (s.pending != [] ==> s.pending == s.sent[|s.sent| - 1])
  }

  /** A list waits only behind a pending one, and exactly while the drop timer is armed. */
  predicate QueuedBehindPending(s: State) {
    (s.queued != [] ==> s.pending != []) && (s.queued != [] <==> s.dropArmed)
  }

  /** The newest offer is the one that waits, or else the last one sent. */
  predicate NewestWins(s: State) {
    if s.queued != [] then s.offered != [] && s.queued == s.offered[|s.offered| - 1]
    else s.sent == s.offered == [] || (s.sent != [] && s.offered != [] && s.sent[|s.sent| - 1] == s.offered[|s.offered| - 1])
  }

  predicate PendingNotAllowed(s: State) {
    Types(s.pending) !! s.allowed
  }

  ghost predicate AllAdvertisable(s: State) {
    && (forall i :: 0 <= i < |s.sent| ==> s.sent[i] != [] && Advertisable(s.sent[i]))
    && Advertisable(s.queued)
  }

  ghost predicate Inv(s: State) {
    OneUnacknowledged(s) && QueuedBehindPending(s) && NewestWins(s) && PendingNotAllowed(s) && AllAdvertisable(s)
  }

  /** What holds between settling a list and sending the next: nothing is pending. */
  ghost predicate NothingPending(s: State) {
    && s.pending == [] && |s.sent| == |s.replies.outcomes| && AllAdvertisable(s)
    && (s.queued != [] ==> s.offered != [] && s.queued == s.offered[|s.offered| - 1])
    && (s.queued == [] ==> NewestWins(s))
  }

  lemma SendKeeps(s: State, list: MimeList)
    requires s.pending == [] && |s.sent| == |s.replies.outcomes| && AllAdvertisable(s)
    requires list != [] && Advertisable(list) && s.queued == [] && !s.dropArmed
    requires s.offered != [] && list == s.offered[|s.offered| - 1]
    ensures Inv(Send(s, list))
  {
  }

  lemma SettleKeeps(s: State, received: bool)
    requires Inv(s) && s.pending != []
    ensures NothingPending(Settle(s, received))
  {
  }

  lemma SendQueuedKeeps(s: State)
    requires NothingPending(s) && !s.dropArmed
    ensures Inv(SendQueued(s))
  {
    if s.queued != [] {
      SendKeeps(s.(queued := []), s.queued);
    }
  }

  lemma HandleKeeps(s: State)
    requires Inv(s)
    ensures Inv(SendQueued((if s.pending != [] then Settle(s, true) else s).(dropArmed := false, responseScheduled := false)))
  {
    if s.pending != [] {
      SettleKeeps(s, true);
    }
    SendQueuedKeeps((if s.pending != [] then Settle(s, true) else s).(dropArmed := false, responseScheduled := false));
  }

  lemma DropKeeps(s: State)
    requires Inv(s) && s.dropArmed
    ensures Inv(SendQueued(Settle(s, false)).(dropArmed := false))
  {
    SettleKeeps(s, false);
    SendQueuedKeeps(Settle(s, false).(dropArmed := false));
    assert SendQueued(Settle(s, false)).(dropArmed := false) == SendQueued(Settle(s, false).(dropArmed := false));
  }

  lemma OfferKeeps(s: State, list: MimeList)
    requires Inv(s) && Enabled(s, Offer(list))
    ensures Inv(Take(s, Offer(list)))
  {
    DeduplicatedKeeps(list);
    var offer := Deduplicated(list);
    if offer != [] && s.pending == [] {
      SendKeeps(s.(offered := s.offered + [offer]), offer);
    }
  }

  lemma StepKeepsInv(s: State, step: Step)
    requires Inv(s) && Enabled(s, step)
    ensures Inv(Take(s, step))
  {
    match step
    case Offer(list) => OfferKeeps(s, list);
    case HandleResponse => HandleKeeps(s);
    case DropPending => DropKeeps(s);
    case _ =>
  }

  predicate Run(s: State, steps: seq<Step>)
    decreases |steps|
  {
    |steps| == 0 || (Enabled(s, steps[0]) && Run(Take(s, steps[0]), steps[1..]))
  }

  function After(s: State, steps: seq<Step>): State
    requires Run(s, steps)
    decreases |steps|
  {
    if |steps| == 0 then s else After(Take(s, steps[0]), steps[1..])
  }

  lemma {:induction false} RunKeepsInv(s: State, steps: seq<Step>)
    requires Inv(s) && Run(s, steps)
    ensures Inv(After(s, steps))
    decreases |steps|
  {
    if |steps| > 0 {
      StepKeepsInv(s, steps[0]);
      RunKeepsInv(Take(s, steps[0]), steps[1..]);
    }
  }

  /** Over every run from the start: at most one list is unacknowledged; a list waits only behind a pending
      one, exactly while the drop timer is armed; the newest offer waits or was the last one sent; nothing is
      both pending and allowed; and the ids of every list sent can be told apart. */
  lemma EveryRun(s: State, steps: seq<Step>)
    requires Initial(s) && Run(s, steps)
    ensures var s' := After(s, steps);
            && OneUnacknowledged(s') && QueuedBehindPending(s') && NewestWins(s') && PendingNotAllowed(s')
            && forall i :: 0 <= i < |s'.sent| ==> Advertisable(s'.sent[i])
  {
    RunKeepsInv(s, steps);
  }

  /** With nothing waiting, the types of the pending list become allowed if and only if the client accepts. */
  lemma ResponseDecides(s: State)
    requires Inv(s) && s.responseScheduled && s.pending != [] && s.queued == []
    ensures var s' := Take(s, HandleResponse);
            && s'.pending == [] && (Types(s.pending) <= s'.allowed <==> s.responseFlags.ok)
            && (s.responseFlags.ok ==> s.allowed <= s'.allowed) && (!s.responseFlags.ok ==> s'.allowed == {})
  {
    assert s.pending[0] in Types(s.pending);
  }

  // ----- which response settles which list

  /** A client that responds once to each list that was sent to it, in order. */
  predicate Conforming(s: State, steps: seq<Step>)
    requires Run(s, steps)
    decreases |steps|
  {
    |steps| > 0 ==> ConformingStep(s, steps[0]) && Conforming(Take(s, steps[0]), steps[1..])
  }

  predicate ConformingStep(s: State, step: Step) {
    step.Respond? ==> s.replies.responded < |s.sent|
  }

  /** Every list that was settled by a response was settled by the one to it. */
  predicate AnswersMatch(outcomes: seq<Outcome>) {
    forall i :: 0 <= i < |outcomes| && outcomes[i].AnsweredBy? ==> outcomes[i].response == i
  }

  /** After a list was given up, none was settled by a response. */
  predicate NoneAnsweredLater(outcomes: seq<Outcome>) {
    forall i, j :: 0 <= i < j < |outcomes| && outcomes[i].GivenUp? ==> outcomes[j].GivenUp?
  }

  /** The first lists were settled by their responses, all others given up. */
  predicate GivenUpFrom(outcomes: seq<Outcome>, n: nat) {
    n <= |outcomes| && forall i :: 0 <= i < |outcomes| ==> outcomes[i] == if i < n then AnsweredBy(i) else GivenUp
  }

  /** Responses and lists go together: the next response is to the pending list. */
  predicate Together(s: State) {
    var r, n := s.replies, |s.replies.outcomes|;
    GivenUpFrom(r.outcomes, n) &&
    if s.responseScheduled then s.pending != [] && r.kept == n && r.responded == n + 1 else r.responded == n
  }

  /** Lists were given up from the n-th on, and the next response to be handled is to the n-th. */
  predicate Apart(s: State, n: nat) {
    && n < |s.replies.outcomes| && GivenUpFrom(s.replies.outcomes, n) && s.pending != []
    && (if s.responseScheduled then s.replies.kept else s.replies.responded) == n
  }

  predicate Mismatched(outcomes: seq<Outcome>) {
    !AnswersMatch(outcomes) && !NoneAnsweredLater(outcomes)
  }

  ghost predicate RepliesKept(s: State) {
    Together(s) || (exists n :: Apart(s, n)) || Mismatched(s.replies.outcomes)
  }

  lemma TogetherStep(s: State, step: Step)
    requires Inv(s) && Enabled(s, step) && ConformingStep(s, step) && Together(s)
    ensures Together(Take(s, step)) || Apart(Take(s, step), |s.replies.outcomes|)
  {
  }

  /** The late response to the n-th list settles another one. */
  lemma ApartStep(s: State, step: Step, n: nat)
    requires Inv(s) && Enabled(s, step) && Apart(s, n)
    ensures Apart(Take(s, step), n) || Mismatched(Take(s, step).replies.outcomes)
  {
    if step.HandleResponse? {
      var outcomes := Take(s, step).replies.outcomes;
      assert outcomes[|outcomes| - 1] == AnsweredBy(n) && outcomes[n].GivenUp?;
    }
  }

  lemma OutcomesGrow(s: State, step: Step)
    requires Enabled(s, step)
    ensures s.replies.outcomes <= Take(s, step).replies.outcomes
  {
  }

  lemma MismatchStays(outcomes: seq<Outcome>, more: seq<Outcome>)
    requires Mismatched(outcomes) && outcomes <= more
    ensures Mismatched(more)
  {
    var i :| 0 <= i < |outcomes| && outcomes[i].AnsweredBy? && outcomes[i].response != i;
    assert more[i] == outcomes[i];
    var j, k :| 0 <= j < k < |outcomes| && outcomes[j].GivenUp? && !outcomes[k].GivenUp?;
    assert more[j] == outcomes[j] && more[k] == outcomes[k];
  }

  lemma RepliesStep(s: State, step: Step)
    requires Inv(s) && Enabled(s, step) && ConformingStep(s, step) && RepliesKept(s)
    ensures RepliesKept(Take(s, step))
  {
    if Together(s) {
      TogetherStep(s, step);
    } else if n: nat :| Apart(s, n) {
      ApartStep(s, step, n);
    } else {
      OutcomesGrow(s, step);
      MismatchStays(s.replies.outcomes, Take(s, step).replies.outcomes);
    }
  }

  lemma {:induction false} RunKeepsReplies(s: State, steps: seq<Step>)
    requires Inv(s) && RepliesKept(s) && Run(s, steps) && Conforming(s, steps)
    ensures RepliesKept(After(s, steps))
    decreases |steps|
  {
    if |steps| > 0 {
      RepliesStep(s, steps[0]);
      StepKeepsInv(s, steps[0]);
      RunKeepsReplies(Take(s, steps[0]), steps[1..]);
    }
  }

  /** Over every run with a client that responds to each list in order: every response settled the list that it
      is a response to, if and only if no list was settled by a response after one had been given up. */
  lemma AnswersMatchIff(s: State, steps: seq<Step>)
    requires Initial(s) && Run(s, steps) && Conforming(s, steps)
    ensures var outcomes := After(s, steps).replies.outcomes; AnswersMatch(outcomes) <==> NoneAnsweredLater(outcomes)
  {
    RunKeepsReplies(s, steps);
  }

  lemma OneStep(s: State, a: Step)
    requires Enabled(s, a)
    ensures Run(s, [a]) && After(s, [a]) == Take(s, a)
  {
    var rest: seq<Step> := [a][1..];
    assert rest == [];
    assert Run(Take(s, a), rest) && After(Take(s, a), rest) == Take(s, a);
  }

  lemma TwoSteps(s: State, a: Step, b: Step)
    requires Enabled(s, a) && Enabled(Take(s, a), b)
    ensures Run(s, [a, b]) && After(s, [a, b]) == Take(Take(s, a), b)
    ensures ConformingStep(s, a) && ConformingStep(Take(s, a), b) ==> Conforming(s, [a, b])
  {
    var s1 := Take(s, a);
    OneStep(s1, b);
    assert [a, b][1..] == [b];
  }

  /** Where a list is given up for one that waits, the late response to it settles that one. */
  lemma LateResponseSettlesNext(s: State, flags: Flags)
    requires Inv(s) && Together(s) && s.dropArmed && !s.responseScheduled
    ensures var late := Take(s, DropPending);
            && Run(late, [Respond(flags), HandleResponse]) && Conforming(late, [Respond(flags), HandleResponse])
            && var outcomes := After(late, [Respond(flags), HandleResponse]).replies.outcomes;
               outcomes == s.replies.outcomes + [GivenUp, AnsweredBy(|s.replies.outcomes|)] && !AnswersMatch(outcomes)
  {
    var late := Take(s, DropPending);
    TwoSteps(late, Respond(flags), HandleResponse);
    var outcomes := After(late, [Respond(flags), HandleResponse]).replies.outcomes;
    assert outcomes[|outcomes| - 1] == AnsweredBy(|s.replies.outcomes|);
  }

  /** Two offers in a row lead there. */
  lemma SecondOfferWaits(s: State, first: MimeList, second: MimeList)
    requires Initial(s) && Enabled(s, Offer(first)) && Enabled(s, Offer(second))
    requires Deduplicated(first) != [] && Deduplicated(second) != []
    ensures Run(s, [Offer(first), Offer(second)]) && Conforming(s, [Offer(first), Offer(second)])
    ensures var s' := After(s, [Offer(first), Offer(second)]);
            Inv(s') && Together(s') && s'.dropArmed && !s'.responseScheduled
  {
    TwoSteps(s, Offer(first), Offer(second));
    RunKeepsInv(s, [Offer(first), Offer(second)]);
  }

  // ----- the object

  class RdpFormatListSender {
    var allowedServerFormats: set<Mime>
    var pendingServerFormats: MimeList
    var queuedServerFormats: MimeList
    var pendingServerFormatsDropArmed: bool
    var formatListResponseFlags: Flags
    var formatListResponseScheduled: bool
    var whichUnicodeFormat: Mime

    ghost var offered: seq<MimeList>
    ghost var sent: seq<MimeList>
    ghost var replies: Replies

    ghost function Abs(): State
      reads this
    {
      State(allowedServerFormats, pendingServerFormats, queuedServerFormats, pendingServerFormatsDropArmed,
            formatListResponseFlags, formatListResponseScheduled, whichUnicodeFormat, offered, sent, replies)
    }

    ghost predicate Valid()
      reads this
    {
      Inv(Abs())
    }

    constructor ()
      ensures Valid() && Initial(Abs())
    {
      allowedServerFormats, pendingServerFormats, queuedServerFormats := {}, [], [];
      pendingServerFormatsDropArmed, formatListResponseScheduled := false, false;
      formatListResponseFlags, whichUnicodeFormat := Flags(false, false), NoType;
      offered, sent, replies := [], [], Replies([], 0, 0);
    }

    /** The formats of the list that goes to the client, in its order, and the state for it. */
    method SendMimeTypeList(list: MimeList) returns (formats: seq<FormatClassification.Format>)
      requires Advertisable(list)
      modifies this`allowedServerFormats, this`pendingServerFormats, this`whichUnicodeFormat, this`sent
      ensures Abs() == Send(old(Abs()), list)
      ensures formats == AdvertisedFormats(list)
    {
      formats := [];
      var i := 0;
      while i < |list|
        invariant 0 <= i <= |list|
        invariant formats == AdvertisedFormats(list[..i])
        invariant whichUnicodeFormat == UnicodeFormatAfter(list[..i], old(whichUnicodeFormat))
        invariant allowedServerFormats == old(allowedServerFormats) - Types(list[..i])
        invariant pendingServerFormats == old(pendingServerFormats) + list[..i] && sent == old(sent)
      {
        var mime := list[i];
        assert mime in list;
        assert AdvertisedId(mime) != 0;
        if mime == TextPlainUtf8 || mime == Utf8String {
          whichUnicodeFormat := mime;
        }
        formats := formats + [AdvertisedFormat(mime)];
        allowedServerFormats := allowedServerFormats - {mime};
        pendingServerFormats := pendingServerFormats + [mime];
        assert list[..i + 1][..i] == list[..i] && list[..i + 1] == list[..i] + [mime];
        i := i + 1;
      }
      assert list[..i] == list;
      sent := sent + [list];
    }

    method UpdateAllowedServerFormats(receivedResponse: bool)
      modifies this`allowedServerFormats, this`pendingServerFormats, this`replies
      ensures Abs() == Settle(old(Abs()), receivedResponse)
    {
      replies := Settled(replies, receivedResponse);
      if receivedResponse && formatListResponseFlags.ok {
        var i := 0;
        while i < |pendingServerFormats|
          invariant pendingServerFormats == old(pendingServerFormats) && replies == Settled(old(replies), true)
          invariant 0 <= i <= |pendingServerFormats|
          invariant allowedServerFormats == old(allowedServerFormats) + Types(pendingServerFormats[..i])
        {
          assert pendingServerFormats[..i + 1] == pendingServerFormats[..i] + [pendingServerFormats[i]];
          allowedServerFormats := allowedServerFormats + {pendingServerFormats[i]};
          i := i + 1;
        }
        assert pendingServerFormats[..i] == pendingServerFormats;
        pendingServerFormats := [];
        return;
      }
      allowedServerFormats := {};
      pendingServerFormats := [];
    }

    method SendQueuedList()
      requires queuedServerFormats != [] ==> Advertisable(queuedServerFormats)
      modifies this`allowedServerFormats, this`pendingServerFormats, this`whichUnicodeFormat, this`sent,
               this`queuedServerFormats
      ensures Abs() == SendQueued(old(Abs()))
    {
      var list := queuedServerFormats;
      queuedServerFormats := [];
      if list != [] {
        var _ := SendMimeTypeList(list);
      }
    }

    /** grd_clipboard_rdp_update_client_mime_type_list */
    method UpdateClientMimeTypeList(list: MimeList)
      requires Valid() && NoRepeats(list) && NoType !in list
      modifies this
      ensures Valid() && Abs() == Take(old(Abs()), Offer(list))
    {
      OfferKeeps(Abs(), list);
      DeduplicatedKeeps(list);
      var offer := Deduplicated(list);
      if offer == [] {
        return;
      }
      offered := offered + [offer];
      if pendingServerFormats != [] {
        queuedServerFormats := offer;
        if !pendingServerFormatsDropArmed {
          pendingServerFormatsDropArmed := true;
        }
        return;
      }
      var _ := SendMimeTypeList(offer);
    }

    /** Channel thread: the client's response to a format list; further ones are ignored until it is handled. */
    method ClientFormatListResponse(flags: Flags)
      requires Valid()
      modifies this
      ensures Valid() && Abs() == Take(old(Abs()), Respond(flags))
    {
      replies := Received(replies, !formatListResponseScheduled);
      if formatListResponseScheduled {
        return;
      }
      formatListResponseFlags, formatListResponseScheduled := flags, true;
    }

    method HandleFormatListResponse()
      requires Valid() && formatListResponseScheduled
      modifies this
      ensures Valid() && Abs() == Take(old(Abs()), HandleResponse)
    {
      HandleKeeps(Abs());
      ghost var before := Abs();
      if pendingServerFormats != [] {
        UpdateAllowedServerFormats(true);
      }
      pendingServerFormatsDropArmed, formatListResponseScheduled := false, false;
      assert Abs() == (if before.pending != [] then Settle(before, true) else before)
                      .(dropArmed := false, responseScheduled := false);
      SendQueuedList();
    }

    /** The drop timer: the client did not respond. */
    method DropPendingServerFormats()
      requires Valid() && pendingServerFormatsDropArmed
      modifies this
      ensures Valid() && Abs() == Take(old(Abs()), DropPending)
    {
      DropKeeps(Abs());
      UpdateAllowedServerFormats(false);
      SendQueuedList();
      pendingServerFormatsDropArmed := false;
    }
  }
}
