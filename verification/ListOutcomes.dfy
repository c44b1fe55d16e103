/** What an offered format list and the client's response to it lead to (src/grd-clipboard-rdp.c), on top of
    FormatListSender; and that what is advertised is understood on the other side. */
module ListOutcomes {
  import opened MimeTypes
  import opened Options
  import opened FormatListSender
  import FormatClassification

  // ----- offers

  /** An offer goes to the client at once if nothing is pending, and otherwise waits in the place of what waited. */
  lemma OfferIsSentOrWaits(s: State, list: MimeList)
    requires Inv(s) && Enabled(s, Offer(list)) && Deduplicated(list) != []
    ensures var s', offer := Take(s, Offer(list)), Deduplicated(list);
            && s'.offered == s.offered + [offer] && s'.replies == s.replies
            && (s.pending == [] ==>
                  s'.sent == s.sent + [offer] && s'.pending == offer && s'.queued == [] && !s'.dropArmed &&
                  s'.allowed == s.allowed - Types(offer))
            && (s.pending != [] ==>
                  s'.sent == s.sent && s'.pending == s.pending && s'.queued == offer && s'.dropArmed &&
                  s'.allowed == s.allowed && s'.unicodeFormat == s.unicodeFormat)
  {
  }

  /** An offer of which nothing is left is ignored. */
  lemma EmptyOfferIsIgnored(s: State, list: MimeList)
    requires Enabled(s, Offer(list)) && Deduplicated(list) == []
    ensures Take(s, Offer(list)) == s
  {
  }

  // ----- responses

  /** The first response is kept with its flags; until it is handled, others only count. */
  lemma FirstResponseIsKept(s: State, flags: Flags)
    ensures var s' := Take(s, Respond(flags));
            && s'.responseScheduled && s'.responseFlags == (if s.responseScheduled then s.responseFlags else flags)
            && s'.allowed == s.allowed && s'.pending == s.pending && s'.queued == s.queued && s'.sent == s.sent
            && s'.dropArmed == s.dropArmed && s'.offered == s.offered && s'.unicodeFormat == s.unicodeFormat
            && s'.replies.outcomes == s.replies.outcomes && s'.replies.responded == s.replies.responded + 1
  {
  }

  /** What is allowed once the pending list is settled. */
  function AllowedAfter(s: State, accepted: bool): set<Mime> {
    if accepted then s.allowed + Types(s.pending) else {}
  }

  /** The pending list is settled, and what waited has been sent in its place. */
  predicate SettledAndNextSent(s: State, s': State, allowed: set<Mime>) {
    && s'.pending == s.queued && s'.queued == [] && !s'.dropArmed && s'.offered == s.offered
    && s'.sent == (if s.queued != [] then s.sent + [s.queued] else s.sent)
    && s'.allowed == allowed - Types(s.queued)
  }

  lemma HandlingSettles(s: State)
    requires Inv(s) && s.responseScheduled && s.pending != []
    ensures var s' := Take(s, HandleResponse);
            SettledAndNextSent(s, s', AllowedAfter(s, s.responseFlags.ok)) && !s'.responseScheduled
  {
  }

  /** A response that finds nothing pending changes nothing. */
  lemma StrayResponseIsDropped(s: State)
    requires Inv(s) && s.responseScheduled && s.pending == []
    ensures Take(s, HandleResponse) == s.(responseScheduled := false)
  {
  }

  /** The timeout settles the pending list as if it had been refused. */
  lemma TimeoutRefuses(s: State)
    requires Inv(s) && s.dropArmed
    ensures var s' := Take(s, DropPending);
            SettledAndNextSent(s, s', {}) && s'.responseScheduled == s.responseScheduled && s.queued != []
  {
  }

  /** A new list of the client takes its types from what the client may request. */
  lemma ClientListReplaces(s: State, named: set<Mime>)
    ensures Take(s, ReplaceByClient(named)) == s.(allowed := s.allowed - named)
  {
  }

  /** The response to the pending list decides: what was pending becomes allowed exactly if the client sets
      CB_RESPONSE_OK, and otherwise nothing is allowed any more. */
  lemma FlagsDecide(s: State, flags: Flags)
    requires Inv(s) && s.pending != [] && s.queued == [] && !s.responseScheduled
    ensures Run(s, [Respond(flags), HandleResponse])
    ensures var s' := After(s, [Respond(flags), HandleResponse]);
            && s'.pending == [] && (Types(s.pending) <= s'.allowed <==> flags.ok)
            && (flags.ok ==> s'.allowed == s.allowed + Types(s.pending)) && (!flags.ok ==> s'.allowed == {})
  {
    FirstResponseIsKept(s, flags);
    StepKeepsInv(s, Respond(flags));
    var s1 := Take(s, Respond(flags));
    HandlingSettles(s1);
    TwoSteps(s, Respond(flags), HandleResponse);
    assert s.pending[0] in Types(s.pending);
  }

  /** Further responses before that do not change it. */
  lemma {:induction false} OnlyFirstFlagsDecide(s: State, flags: Flags, more: seq<Flags>)
    requires Inv(s) && s.pending != [] && s.queued == [] && s.responseScheduled && s.responseFlags == flags
    ensures Run(s, Responses(more) + [HandleResponse])
    ensures After(s, Responses(more) + [HandleResponse]).allowed == AllowedAfter(s, flags.ok)
    decreases |more|
  {
    var steps := Responses(more) + [HandleResponse];
    if |more| == 0 {
      assert steps == [HandleResponse] && steps[1..] == [];
      HandlingSettles(s);
    } else {
      assert steps[0] == Respond(more[0]) && steps[1..] == Responses(more[1..]) + [HandleResponse];
      FirstResponseIsKept(s, more[0]);
      StepKeepsInv(s, Respond(more[0]));
      OnlyFirstFlagsDecide(Take(s, Respond(more[0])), flags, more[1..]);
    }
  }

  function Responses(flags: seq<Flags>): seq<Step> {
    seq(|flags|, i requires 0 <= i < |flags| => Respond(flags[i]))
  }

  // ----- what the client means by a format id

  /** For every type of the list sent last, a request for its id means that type. */
  ghost predicate LastListMeant(s: State) {
    |s.sent| > 0 ==>
      forall mime :: mime in s.sent[|s.sent| - 1] ==> RequestedMime(AdvertisedId(mime), s.unicodeFormat) == mime
  }

  lemma SendIsMeant(s: State, list: MimeList)
    requires Advertisable(list)
    ensures LastListMeant(Send(s, list))
  {
    forall mime | mime in list
      ensures RequestedMime(AdvertisedId(mime), UnicodeFormatAfter(list, s.unicodeFormat)) == mime
    {
      AdvertisedIdMeansType(list, s.unicodeFormat, mime);
    }
  }

  lemma SendQueuedIsMeant(s: State)
    requires Advertisable(s.queued) && LastListMeant(s)
    ensures LastListMeant(SendQueued(s))
  {
    SendIsMeant(s.(queued := []), s.queued);
  }

  lemma StepKeepsMeaning(s: State, step: Step)
    requires Inv(s) && LastListMeant(s) && Enabled(s, step)
    ensures LastListMeant(Take(s, step))
  {
    match step
    case Offer(list) =>
      DeduplicatedKeeps(list);
      SendIsMeant(s.(offered := s.offered + [Deduplicated(list)]), Deduplicated(list));
    case HandleResponse =>
      SendQueuedIsMeant((if s.pending != [] then Settle(s, true) else s).(dropArmed := false, responseScheduled := false));
    case DropPending => SendQueuedIsMeant(Settle(s, false));
    case _ =>
  }

  lemma {:induction false} RunKeepsMeaning(s: State, steps: seq<Step>)
    requires Inv(s) && LastListMeant(s) && Run(s, steps)
    ensures LastListMeant(After(s, steps))
    decreases |steps|
  {
    if |steps| > 0 {
      StepKeepsMeaning(s, steps[0]);
      StepKeepsInv(s, steps[0]);
      RunKeepsMeaning(Take(s, steps[0]), steps[1..]);
    }
  }

  /** Over every run from the start: the client is understood when it requests a type of the list sent last. */
  lemma RequestsAreUnderstood(s: State, steps: seq<Step>, mime: Mime)
    requires Initial(s) && Run(s, steps)
    ensures var s' := After(s, steps);
            |s'.sent| > 0 && mime in s'.sent[|s'.sent| - 1] ==>
              RequestedMime(AdvertisedId(mime), s'.unicodeFormat) == mime
  {
    RunKeepsMeaning(s, steps);
  }

  // ----- what the other side makes of an advertised list

  /** What a peer that classifies formats as this server does finds: everything that is offered, but both text
      types for any text, and both file list types for a file list. */
  predicate Offers(list: MimeList, mime: Mime) {
    match mime
    case NoType => false
    case TextPlain => false
    case TextPlainUtf8 => TextPlain in list || TextPlainUtf8 in list || Utf8String in list
    case Utf8String => TextPlain in list || TextPlainUtf8 in list || Utf8String in list
    case GnomeCopiedFiles => UriList in list
    case _ => mime in list
  }

  /** The kind that an advertised type is classified as. */
  function AdvertisedKind(mime: Mime): Mime {
    if mime in {TextPlain, Utf8String} then TextPlainUtf8 else mime
  }

  lemma KindOfAdvertised(mime: Mime)
    requires mime != NoType && mime != GnomeCopiedFiles
    ensures FormatClassification.Kind(AdvertisedFormat(mime)) == AdvertisedKind(mime)
  {
    FormatClassification.NamesDiffer();
  }

  lemma UnicodeTextIffAdvertised(list: MimeList)
    requires Advertisable(list)
    ensures FormatClassification.HasUnicodeText(AdvertisedFormats(list)) <==> TextPlainUtf8 in list || Utf8String in list
  {
    var formats := AdvertisedFormats(list);
    if TextPlainUtf8 in list {
      var k :| 0 <= k < |list| && list[k] == TextPlainUtf8;
      assert formats[k].id == 13;
    }
    if Utf8String in list {
      var k :| 0 <= k < |list| && list[k] == Utf8String;
      assert formats[k].id == 13;
    }
    assert forall k :: 0 <= k < |list| ==> formats[k] == AdvertisedFormat(list[k]) && list[k] in list;
  }

  /** A kind that only one type is advertised as is found under the id of that type. */
  lemma OnlyOneOfKind(list: MimeList, mime: Mime)
    requires Advertisable(list) && mime in list
    requires forall other :: other in list && other != mime ==> AdvertisedKind(other) != AdvertisedKind(mime)
    ensures FormatClassification.FirstOf(AdvertisedFormats(list), AdvertisedKind(mime)) == Some(AdvertisedId(mime))
  {
    var formats := AdvertisedFormats(list);
    var k :| 0 <= k < |list| && list[k] == mime;
    forall j | 0 <= j <= k
      ensures formats[j] == AdvertisedFormat(list[j]) && FormatClassification.Kind(formats[j]) == AdvertisedKind(list[j])
    {
      assert list[j] in list;
      KindOfAdvertised(list[j]);
    }
    assert FormatClassification.IsFirst(formats, k, AdvertisedKind(mime)) by {
      forall j | 0 <= j < k ensures FormatClassification.Kind(formats[j]) != AdvertisedKind(mime) {
        assert list[j] in list && list[j] != mime;
      }
    }
    FormatClassification.FirstOfIffFirst(formats, AdvertisedKind(mime), k);
  }

  lemma FoundIsAdvertised(list: MimeList, kind: Mime)
    requires Advertisable(list) && FormatClassification.FirstOf(AdvertisedFormats(list), kind).Some?
    ensures exists mime :: mime in list && AdvertisedKind(mime) == kind
  {
    var k := FormatClassification.FirstOfIsThere(AdvertisedFormats(list), kind);
    assert list[k] in list;
    KindOfAdvertised(list[k]);
  }

  /** Every type that is advertised is found under the id it was advertised with, and nothing is found that was
      not advertised. Text types besides CF_TEXT, which stands for both of them only where there is no other. */
  lemma AdvertisedIsFound(list: MimeList, mime: Mime)
    requires Advertisable(list)
    ensures var formats := AdvertisedFormats(list);
            && (FormatClassification.IdFor(formats, |formats|, mime).Some? <==> Offers(list, mime))
            && (mime in list && mime != TextPlain ==>
                  FormatClassification.IdFor(formats, |formats|, mime) == Some(AdvertisedId(mime)))
  {
    var formats := AdvertisedFormats(list);
    var kind := FormatClassification.Provider(mime);
    assert formats[..|formats|] == formats;
    UnicodeTextIffAdvertised(list);
    if kind != NoType && FormatClassification.FirstOf(formats, kind).Some? {
      FoundIsAdvertised(list, kind);
    }
    if kind == TextPlainUtf8 {
      if TextPlain in list && !FormatClassification.HasUnicodeText(formats) {
        OnlyOneOfKind(list, TextPlain);
      }
    } else if kind in list {
      OnlyOneOfKind(list, kind);
    }
  }
}
