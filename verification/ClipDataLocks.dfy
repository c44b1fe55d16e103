/** Locks on the data of the local clipboard (src/grd-clipboard-rdp.c): the client locks a snapshot under an
    id of its choice; the entry of a lock sits in a table by id and in a table by clipboard serial, and takes
    over the WinPR clipboard it was made from once the selection changes. The channel thread waits for the
    main loop in the middle of a lock or unlock, so a selection change can fall in between. */
module ClipDataLocks {
  import opened Options

  type ClipId = nat
  type Serial = nat
  type System = nat    // the identity of a WinPR clipboard
  type EntryRef = nat  // the identity of an entry

  datatype Entry = Entry(id: ClipId, system: System, serial: Serial, independent: bool)

  /** Where the channel thread is within a lock or unlock. */
  datatype Phase =
    | Quiet
    | Locking(id: ClipId, entry: EntryRef, replaced: Option<EntryRef>)  // waits for the main loop
    | Retrieved(id: ClipId, entry: EntryRef, serial: Serial, inUse: bool)
    | Unlocking(id: ClipId, entry: EntryRef)                            // waits for the main loop
    | Destroyed(id: ClipId)

  datatype State = State(
    entries: map<EntryRef, Entry>, serialTable: map<Serial, EntryRef>, clipTable: map<ClipId, EntryRef>,
    system: System, serial: Serial, phase: Phase,
    alive: set<System>, destroyed: seq<System>)

  datatype Step =
    | LockBegin(id: ClipId, entry: EntryRef)  // a new entry is allocated
    | Retrieve
    | LockEnd(order: seq<ClipId>, stale: Entry)  // how the id table is walked, and what freed memory reads as
    | UnlockBegin(id: ClipId)
    | DestroyEntry
    | UnlockEnd
    | SendList(system: System)                // with a new WinPR clipboard, if one is needed

  /** update_clipboard_serial: the next serial that is not in use. */
  function NextSerial(used: set<Serial>, serial: Serial): (next: Serial)
    ensures serial < next && next !in used && forall k :: serial < k < next ==> k in used
    decreases used
  {
    if serial + 1 !in used then serial + 1 else NextSerial(used - {serial + 1}, serial + 1)
  }

  /** clip_data_entry_free, called when an entry leaves the serial table */
  function FreeEntry(s: State, e: EntryRef): State
    requires e in s.entries
  {
    var entry := s.entries[e];
    var freed := s.(entries := s.entries - {e}, serialTable := s.serialTable - {entry.serial});
    if entry.independent then freed.(alive := s.alive - {entry.system}, destroyed := s.destroyed + [entry.system]) else freed
  }

  // ----- the search of a double lock

  /** What a look at an entry reads: if it was freed, whatever its memory holds by then. */
  function Read(s: State, e: EntryRef, stale: Entry): Entry {
    if e in s.entries then s.entries[e] else stale
  }

  /** An order in which the id table can be walked. */
  ghost predicate Walks(order: seq<ClipId>, ids: set<ClipId>) {
    && (forall id :: id in order <==> id in ids)
    && (forall i, j :: 0 <= i < j < |order| ==> order[i] != order[j])
  }

  /** The search over the id table for an entry of the given serial stops at the first. */
  function Search(s: State, order: seq<ClipId>, serial: Serial, stale: Entry): Option<EntryRef>
    decreases |order|
  {
    if |order| == 0 then None
    else if order[0] in s.clipTable && Read(s, s.clipTable[order[0]], stale).serial == serial
    then Some(s.clipTable[order[0]])
    else Search(s, order[1..], serial, stale)
  }

  /** Every entry that the search looks at exists. */
  predicate TouchesLive(s: State, order: seq<ClipId>, serial: Serial)
    decreases |order|
  {
    |order| == 0 ||
    (order[0] in s.clipTable && s.clipTable[order[0]] in s.entries &&
     (s.entries[s.clipTable[order[0]]].serial == serial || TouchesLive(s, order[1..], serial)))
  }

  /** The entry that a lock ends up with: its own, or on a double lock the one that the search finds. */
  function Found(s: State, p: Phase, order: seq<ClipId>, stale: Entry): Option<EntryRef>
    requires p.Retrieved?
  {
    if p.inUse then Search(s, order, p.serial, stale) else Some(p.entry)
  }

  ghost predicate Enabled(s: State, step: Step) {
    match step
    case LockBegin(_, entry) => s.phase.Quiet? && entry !in s.entries && entry !in s.clipTable.Values
    case Retrieve => s.phase.Locking? && (s.phase.replaced.Some? ==> s.phase.replaced.value in s.entries)
    case LockEnd(order, stale) =>
      s.phase.Retrieved? && (s.phase.inUse ==> Walks(order, s.clipTable.Keys)) && Found(s, s.phase, order, stale).Some?
    case UnlockBegin(_) => s.phase.Quiet?
    case DestroyEntry => s.phase.Unlocking? && s.phase.entry in s.entries
    case UnlockEnd => s.phase.Destroyed?
    case SendList(system) =>
      system !in s.alive && system !in s.destroyed &&
      (s.serial in s.serialTable ==> s.serialTable[s.serial] in s.entries)
  }

  /** The entry a lock replaces goes first. */
  function FreeReplaced(s: State, replaced: Option<EntryRef>): State
    requires replaced.Some? ==> replaced.value in s.entries
  {
    if replaced.Some? then FreeEntry(s, replaced.value) else s
  }

  function FileEntry(s: State, e: EntryRef): State {
    s.(entries := s.entries[e := Entry(0, s.system, s.serial, false)], serialTable := s.serialTable[s.serial := e])
  }

  /** The main loop's part of a lock: the replaced entry goes, and the new one is filed unless its serial is taken. */
  function TakeRetrieve(s: State, p: Phase): State
    requires p.Locking? && (p.replaced.Some? ==> p.replaced.value in s.entries)
  {
    var freed := FreeReplaced(s, p.replaced);
    var inUse := s.serial in freed.serialTable;
    (if inUse then freed else FileEntry(freed, p.entry)).(phase := Retrieved(p.id, p.entry, s.serial, inUse))
  }

  /** The channel thread's end of a lock: the entry, new or found by its serial, gets the id. If it was freed,
      that is a write to memory that is not an entry any more. */
  function TakeLockEnd(s: State, p: Phase, e: EntryRef, stale: Entry): State
    requires p.Retrieved?
  {
    var clipTable := if p.inUse then s.clipTable - {Read(s, e, stale).id} else s.clipTable;
    var entries := if e in s.entries then s.entries[e := s.entries[e].(id := p.id)] else s.entries;
    s.(entries := entries, clipTable := clipTable[p.id := e], phase := Quiet)
  }

  /** The start of send_mime_type_list: the entry of the current clipboard becomes its owner. */
  function TakeSendList(s: State, system: System): State
    requires s.serial in s.serialTable ==> s.serialTable[s.serial] in s.entries
  {
    var next := NextSerial(s.serialTable.Keys, s.serial);
    if s.serial in s.serialTable then
      var e := s.serialTable[s.serial];
      s.(entries := s.entries[e := s.entries[e].(independent := true)], system := system, alive := s.alive + {system},
         serial := next)
    else s.(serial := next)
  }

  ghost function Take(s: State, step: Step): State
    requires Enabled(s, step)
  {
    match step
    case LockBegin(id, entry) =>
      s.(phase := Locking(id, entry, if id in s.clipTable then Some(s.clipTable[id]) else None))
    case Retrieve => TakeRetrieve(s, s.phase)
    case LockEnd(order, stale) => TakeLockEnd(s, s.phase, Found(s, s.phase, order, stale).value, stale)
    case UnlockBegin(id) => if id in s.clipTable then s.(phase := Unlocking(id, s.clipTable[id])) else s
    case DestroyEntry => FreeEntry(s, s.phase.entry).(phase := Destroyed(s.phase.id))
    case UnlockEnd => s.(clipTable := s.clipTable - {s.phase.id}, phase := Quiet)
    case SendList(system) => TakeSendList(s, system)
  }

  predicate Initial(s: State) {
    s.entries == map[] && s.serialTable == map[] && s.clipTable == map[] && s.phase.Quiet? && s.alive == {s.system} &&
    s.destroyed == []
  }

  // ----- what every run keeps

  /** The entries are those of the serial table, each under its own serial. */
  ghost predicate SerialsKept(s: State) {
    && (forall serial :: serial in s.serialTable ==>
          s.serialTable[serial] in s.entries && s.entries[s.serialTable[serial]].serial == serial)
    && (forall e :: e in s.entries ==> s.entries[e].serial in s.serialTable && s.serialTable[s.entries[e].serial] == e)
  }

  /** The id whose entry is being replaced or has just been destroyed: its slot is stale for a moment. */
  predicate Stale(p: Phase, id: ClipId) {
    (p.Retrieved? || p.Destroyed?) && p.id == id
  }

  /** The entries are those of the id table as well, each under its own id, but for the one being filed. */
  ghost predicate IdsKept(s: State) {
    && (forall id :: id in s.clipTable && s.clipTable[id] in s.entries ==> s.entries[s.clipTable[id]].id == id)
    && (forall id :: id in s.clipTable && !Stale(s.phase, id) ==> s.clipTable[id] in s.entries)
    && (forall e :: e in s.entries && !(s.phase.Retrieved? && !s.phase.inUse && s.phase.entry == e) ==>
          s.entries[e].id in s.clipTable && s.clipTable[s.entries[e].id] == e)
  }

  ghost predicate PhaseKept(s: State) {
    match s.phase
    case Quiet => true
    case Locking(id, entry, replaced) =>
      && entry !in s.entries && entry !in s.clipTable.Values
      && replaced == if id in s.clipTable then Some(s.clipTable[id]) else None
    case Retrieved(id, entry, serial, inUse) =>
      && entry !in s.clipTable.Values
      && (if inUse then entry !in s.entries && serial in s.serialTable
          else entry in s.entries && s.entries[entry].serial == serial)
      && (id in s.clipTable ==> s.clipTable[id] !in s.entries)
    case Unlocking(id, entry) => id in s.clipTable && s.clipTable[id] == entry
    case Destroyed(id) => id in s.clipTable && s.clipTable[id] !in s.entries
  }

  /** Every WinPR clipboard that exists has one owner: the session, or an entry that is independent, and an
      entry is independent exactly if its serial is not the current one. None is destroyed twice. */
  ghost predicate OwnersKept(s: State) {
    && (forall e :: e in s.entries ==>
          && s.entries[e].independent == (s.entries[e].serial != s.serial)
          && s.entries[e].system in s.alive
          && (s.entries[e].independent <==> s.entries[e].system != s.system))
    && (forall e, e' :: e in s.entries && e' in s.entries && s.entries[e].system == s.entries[e'].system ==> e == e')
    && s.system in s.alive
    && (forall y :: y in s.alive ==> y == s.system || exists e :: e in s.entries && s.entries[e].system == y)
  }

  ghost predicate DestroyedOnce(s: State) {
    && (forall i :: 0 <= i < |s.destroyed| ==> s.destroyed[i] !in s.alive)
    && (forall i, j :: 0 <= i < j < |s.destroyed| ==> s.destroyed[i] != s.destroyed[j])
  }

  ghost predicate Inv(s: State) {
    SerialsKept(s) && IdsKept(s) && PhaseKept(s) && OwnersKept(s) && DestroyedOnce(s)
  }

  // ----- freeing an entry

  lemma FreeKeepsSerials(s: State, e: EntryRef)
    requires SerialsKept(s) && e in s.entries
    ensures SerialsKept(FreeEntry(s, e))
  {
  }

  lemma FreeKeepsOwners(s: State, e: EntryRef)
    requires SerialsKept(s) && OwnersKept(s) && DestroyedOnce(s) && e in s.entries
    ensures OwnersKept(FreeEntry(s, e)) && DestroyedOnce(FreeEntry(s, e))
  {
    var s' := FreeEntry(s, e);
    forall y | y in s'.alive
      ensures y == s'.system || exists e' :: e' in s'.entries && s'.entries[e'].system == y
    {
      if y != s.system {
        var e' :| e' in s.entries && s.entries[e'].system == y;
        assert e' in s'.entries;
      }
    }
  }

  lemma FileKeepsSerials(s: State, e: EntryRef)
    requires SerialsKept(s) && e !in s.entries && s.serial !in s.serialTable
    ensures SerialsKept(FileEntry(s, e))
  {
  }

  lemma FileKeepsOwners(s: State, e: EntryRef)
    requires SerialsKept(s) && OwnersKept(s) && DestroyedOnce(s) && e !in s.entries && s.serial !in s.serialTable
    ensures OwnersKept(FileEntry(s, e)) && DestroyedOnce(FileEntry(s, e))
  {
    var s' := FileEntry(s, e);
    assert forall e' :: e' in s.entries ==> s.entries[e'].serial != s.serial;
    forall y | y in s'.alive
      ensures y == s'.system || exists e' :: e' in s'.entries && s'.entries[e'].system == y
    {
      if y != s.system {
        var e' :| e' in s.entries && s.entries[e'].system == y;
        assert e' in s'.entries && s'.entries[e'].system == y;
      }
    }
  }

  // ----- each step

  lemma RetrieveKeepsTables(s: State)
    requires Inv(s) && Enabled(s, Retrieve)
    ensures var s' := Take(s, Retrieve); SerialsKept(s') && OwnersKept(s') && DestroyedOnce(s')
  {
    var freed := FreeReplaced(s, s.phase.replaced);
    if s.phase.replaced.Some? {
      FreeKeepsSerials(s, s.phase.replaced.value);
      FreeKeepsOwners(s, s.phase.replaced.value);
    }
    if s.serial !in freed.serialTable {
      FileKeepsSerials(freed, s.phase.entry);
      FileKeepsOwners(freed, s.phase.entry);
    }
  }

  /** With the replaced entry gone, only the slot of its id is stale. */
  lemma FreedIds(s: State)
    requires SerialsKept(s) && IdsKept(s) && PhaseKept(s) && s.phase.Locking?
    ensures var freed := FreeReplaced(s, s.phase.replaced);
            && s.phase.entry !in freed.entries && s.phase.entry !in s.clipTable.Values
            && (s.phase.id in s.clipTable ==> s.clipTable[s.phase.id] !in freed.entries)
            && IdsKept(freed.(phase := Retrieved(s.phase.id, s.phase.entry, s.serial, true)))
  {
  }

  lemma FiledIds(freed: State, id: ClipId, e: EntryRef)
    requires IdsKept(freed.(phase := Retrieved(id, e, freed.serial, true)))
    requires e !in freed.entries && e !in freed.clipTable.Values
    requires id in freed.clipTable ==> freed.clipTable[id] !in freed.entries
    ensures IdsKept(FileEntry(freed, e).(phase := Retrieved(id, e, freed.serial, false)))
    ensures id in freed.clipTable ==> freed.clipTable[id] !in FileEntry(freed, e).entries
  {
    assert forall other :: other in freed.clipTable ==> freed.clipTable[other] in freed.clipTable.Values;
  }

  lemma RetrieveKeepsIds(s: State)
    requires Inv(s) && Enabled(s, Retrieve)
    ensures IdsKept(Take(s, Retrieve)) && PhaseKept(Take(s, Retrieve))
  {
    FreedIds(s);
    var freed := FreeReplaced(s, s.phase.replaced);
    if s.serial !in freed.serialTable {
      FiledIds(freed, s.phase.id, s.phase.entry);
    }
  }

  lemma {:induction false} SearchFindsUser(s: State, order: seq<ClipId>, serial: Serial, stale: Entry)
    requires Search(s, order, serial, stale).Some?
    ensures var e := Search(s, order, serial, stale).value;
            Read(s, e, stale).serial == serial && exists id :: id in s.clipTable && id in order && s.clipTable[id] == e
    decreases |order|
  {
    if order[0] in s.clipTable && Read(s, s.clipTable[order[0]], stale).serial == serial {
      assert order[0] in order;
    } else {
      SearchFindsUser(s, order[1..], serial, stale);
      var id :| id in s.clipTable && id in order[1..] && s.clipTable[id] == Search(s, order, serial, stale).value;
      assert id in order;
    }
  }

  /** A lock ends well if the entry it ends up with exists. */
  ghost predicate FindsLive(s: State, step: Step)
    requires Enabled(s, step)
  {
    step.LockEnd? ==> Found(s, s.phase, step.order, step.stale).value in s.entries
  }

  /** The entry that ends a lock: a new one, or the one that has the serial, under its own id. */
  ghost predicate Filed(s: State, p: Phase, e: EntryRef) {
    p.Retrieved? && e in s.entries &&
    if p.inUse then s.entries[e].serial == p.serial && s.entries[e].id in s.clipTable && s.clipTable[s.entries[e].id] == e
    else e == p.entry
  }

  lemma FoundIsFiled(s: State, order: seq<ClipId>, stale: Entry)
    requires IdsKept(s) && PhaseKept(s) && Enabled(s, LockEnd(order, stale)) && FindsLive(s, LockEnd(order, stale))
    ensures Filed(s, s.phase, Found(s, s.phase, order, stale).value)
  {
    if s.phase.inUse {
      SearchFindsUser(s, order, s.phase.serial, stale);
    }
  }

  lemma LockEndKeepsIds(s: State, e: EntryRef, stale: Entry)
    requires IdsKept(s) && PhaseKept(s) && Filed(s, s.phase, e)
    ensures var s' := TakeLockEnd(s, s.phase, e, stale); IdsKept(s') && PhaseKept(s')
  {
  }

  /** A change of an entry's id leaves serials and owners alone. */
  lemma LockEndKeepsTables(s: State, e: EntryRef, stale: Entry)
    requires SerialsKept(s) && OwnersKept(s) && DestroyedOnce(s) && Filed(s, s.phase, e)
    ensures var s' := TakeLockEnd(s, s.phase, e, stale); SerialsKept(s') && OwnersKept(s') && DestroyedOnce(s')
  {
    var s' := TakeLockEnd(s, s.phase, e, stale);
    assert forall e :: e in s'.entries <==> e in s.entries;
    assert forall e :: e in s.entries ==> s'.entries[e].(id := 0) == s.entries[e].(id := 0);
    forall y | y in s'.alive
      ensures y == s'.system || exists e :: e in s'.entries && s'.entries[e].system == y
    {
      if y != s.system {
        var e :| e in s.entries && s.entries[e].system == y;
        assert e in s'.entries && s'.entries[e].system == y;
      }
    }
  }

  lemma LockEndKeepsInv(s: State, order: seq<ClipId>, stale: Entry)
    requires Inv(s) && Enabled(s, LockEnd(order, stale)) && FindsLive(s, LockEnd(order, stale))
    ensures Inv(Take(s, LockEnd(order, stale)))
  {
    FoundIsFiled(s, order, stale);
    LockEndKeepsIds(s, Found(s, s.phase, order, stale).value, stale);
    LockEndKeepsTables(s, Found(s, s.phase, order, stale).value, stale);
  }

  /** If the entry was freed, the id leads nowhere afterwards. */
  lemma LockEndBreaksIds(s: State, order: seq<ClipId>, stale: Entry)
    requires Enabled(s, LockEnd(order, stale)) && !FindsLive(s, LockEnd(order, stale))
    ensures !IdsKept(Take(s, LockEnd(order, stale)))
  {
    var s' := Take(s, LockEnd(order, stale));
    assert s.phase.id in s'.clipTable && s'.clipTable[s.phase.id] !in s'.entries && !Stale(s'.phase, s.phase.id);
  }

  lemma DestroyKeepsTables(s: State)
    requires Inv(s) && Enabled(s, DestroyEntry)
    ensures var s' := Take(s, DestroyEntry); SerialsKept(s') && OwnersKept(s') && DestroyedOnce(s')
  {
    FreeKeepsSerials(s, s.phase.entry);
    FreeKeepsOwners(s, s.phase.entry);
  }

  lemma DestroyKeepsIds(s: State)
    requires Inv(s) && Enabled(s, DestroyEntry)
    ensures IdsKept(Take(s, DestroyEntry)) && PhaseKept(Take(s, DestroyEntry))
  {
  }

  lemma SendListKeepsIds(s: State, system: System)
    requires Inv(s) && Enabled(s, SendList(system))
    ensures var s' := Take(s, SendList(system)); SerialsKept(s') && IdsKept(s') && PhaseKept(s')
  {
  }

  /** The entry of the current clipboard takes it over, so that every clipboard keeps its owner. */
  lemma SendListOwnersAlive(s: State, system: System)
    requires Inv(s) && Enabled(s, SendList(system))
    ensures var s' := Take(s, SendList(system));
            forall y :: y in s'.alive ==> y == s'.system || exists e :: e in s'.entries && s'.entries[e].system == y
  {
    var s' := Take(s, SendList(system));
    forall y | y in s'.alive
      ensures y == s'.system || exists e :: e in s'.entries && s'.entries[e].system == y
    {
      if y == s.system {
        if s.serial in s.serialTable {
          assert s'.entries[s.serialTable[s.serial]].system == y;
        }
      } else if y in s.alive {
        var e :| e in s.entries && s.entries[e].system == y;
        assert e in s'.entries && s'.entries[e].system == y;
      }
    }
  }

  lemma SendListOwnersDistinct(s: State, system: System)
    requires Inv(s) && Enabled(s, SendList(system))
    ensures var s' := Take(s, SendList(system));
            && (forall e :: e in s'.entries ==>
                  && s'.entries[e].independent == (s'.entries[e].serial != s'.serial)
                  && s'.entries[e].system in s'.alive
                  && (s'.entries[e].independent <==> s'.entries[e].system != s'.system))
            && s'.system in s'.alive
  {
    var s' := Take(s, SendList(system));
    assert forall e :: e in s'.entries <==> e in s.entries;
    assert forall e :: e in s.entries ==> s'.entries[e].system == s.entries[e].system &&
                                          s'.entries[e].serial == s.entries[e].serial;
    assert forall e :: e in s.entries ==> s.entries[e].serial in s.serialTable.Keys;
  }

  lemma SendListKeepsOwners(s: State, system: System)
    requires Inv(s) && Enabled(s, SendList(system))
    ensures var s' := Take(s, SendList(system)); OwnersKept(s') && DestroyedOnce(s')
  {
    SendListOwnersAlive(s, system);
    SendListOwnersDistinct(s, system);
    var s' := Take(s, SendList(system));
    assert forall e :: e in s'.entries ==> e in s.entries && s'.entries[e].system == s.entries[e].system;
  }

  lemma UnlockEndKeeps(s: State)
    requires Inv(s) && Enabled(s, UnlockEnd)
    ensures Inv(Take(s, UnlockEnd))
  {
  }

  lemma BeginKeeps(s: State, step: Step)
    requires Inv(s) && Enabled(s, step) && (step.LockBegin? || step.UnlockBegin?)
    ensures Inv(Take(s, step))
  {
  }

  /** Every step but the end of a double lock that finds a freed entry. */
  lemma StepKeepsInvIff(s: State, step: Step)
    requires Inv(s) && Enabled(s, step)
    ensures Inv(Take(s, step)) <==> FindsLive(s, step)
  {
    match step
    case LockBegin(_, _) => BeginKeeps(s, step);
    case Retrieve =>
      RetrieveKeepsTables(s);
      RetrieveKeepsIds(s);
    case LockEnd(order, stale) =>
      if FindsLive(s, step) {
        LockEndKeepsInv(s, order, stale);
      } else {
        LockEndBreaksIds(s, order, stale);
      }
    case UnlockBegin(_) => BeginKeeps(s, step);
    case DestroyEntry =>
      DestroyKeepsTables(s);
      DestroyKeepsIds(s);
    case UnlockEnd => UnlockEndKeeps(s);
    case SendList(system) =>
      SendListKeepsIds(s, system);
      SendListKeepsOwners(s, system);
  }

  // ----- every reachable state

  ghost predicate Run(s: State, steps: seq<Step>)
    decreases |steps|
  {
    |steps| == 0 || (Enabled(s, steps[0]) && Run(Take(s, steps[0]), steps[1..]))
  }

  ghost function After(s: State, steps: seq<Step>): State
    requires Run(s, steps)
    decreases |steps|
  {
    if |steps| == 0 then s else After(Take(s, steps[0]), steps[1..])
  }

  /** Everything is kept at every state that the run passes through. */
  ghost predicate KeptAlong(s: State, steps: seq<Step>)
    requires Run(s, steps)
    decreases |steps|
  {
    Inv(s) && (|steps| > 0 ==> KeptAlong(Take(s, steps[0]), steps[1..]))
  }

  /** No double lock of the run ends up with an entry that was freed. */
  ghost predicate FindsLiveAlong(s: State, steps: seq<Step>)
    requires Run(s, steps)
    decreases |steps|
  {
    |steps| > 0 ==> FindsLive(s, steps[0]) && FindsLiveAlong(Take(s, steps[0]), steps[1..])
  }

  lemma {:induction false} RunKeepsInvIff(s: State, steps: seq<Step>)
    requires Inv(s) && Run(s, steps)
    ensures KeptAlong(s, steps) <==> FindsLiveAlong(s, steps)
    decreases |steps|
  {
    if |steps| > 0 {
      StepKeepsInvIff(s, steps[0]);
      if FindsLive(s, steps[0]) {
        RunKeepsInvIff(Take(s, steps[0]), steps[1..]);
      }
    }
  }

  /** Through replaced ids, double locks, unlocks, and selection changes in the middle of either. */
  lemma {:induction false} RunKeepsInv(s: State, steps: seq<Step>)
    requires Inv(s) && Run(s, steps) && FindsLiveAlong(s, steps)
    ensures Inv(After(s, steps))
    decreases |steps|
  {
    if |steps| > 0 {
      StepKeepsInvIff(s, steps[0]);
      RunKeepsInv(Take(s, steps[0]), steps[1..]);
    }
  }

  // ----- when the search of a double lock is sound

  /** The lock replaces an id while another entry has the current serial: the replaced entry is freed with its
      slot left in the id table, and then that table is searched. */
  predicate Clash(s: State) {
    s.phase.Locking? && s.phase.id in s.clipTable &&
    s.serial in s.serialTable && s.serialTable[s.serial] != s.clipTable[s.phase.id]
  }

  /** A double lock under a locked id: the slot of that id leads to a freed entry. */
  predicate StaleSearch(s: State) {
    s.phase.Retrieved? && s.phase.inUse && s.phase.id in s.clipTable
  }

  lemma ClashLeavesStaleSlotIff(s: State)
    requires Inv(s) && s.phase.Locking?
    ensures Enabled(s, Retrieve) && (StaleSearch(Take(s, Retrieve)) <==> Clash(s))
  {
  }

  lemma {:induction false} LiveSearchTouchesLive(s: State, order: seq<ClipId>, serial: Serial)
    requires forall id :: id in order ==> id in s.clipTable && s.clipTable[id] in s.entries
    ensures TouchesLive(s, order, serial)
    decreases |order|
  {
    if |order| > 0 {
      LiveSearchTouchesLive(s, order[1..], serial);
    }
  }

  lemma {:induction false} SomeWalk(ids: set<ClipId>)
    ensures exists order :: Walks(order, ids)
  {
    if ids == {} {
      assert Walks([], ids);
    } else {
      var id :| id in ids;
      SomeWalk(ids - {id});
      var rest :| Walks(rest, ids - {id});
      assert Walks([id] + rest, ids);
    }
  }

  lemma SomeWalkFrom(ids: set<ClipId>, first: ClipId) returns (order: seq<ClipId>)
    requires first in ids
    ensures Walks(order, ids) && |order| > 0 && order[0] == first
  {
    SomeWalk(ids - {first});
    var rest :| Walks(rest, ids - {first});
    order := [first] + rest;
  }

  /** Whatever the order, the search of a double lock looks at entries that exist only, if and only if the id
      was not locked. */
  lemma SearchTouchesLiveIff(s: State)
    requires Inv(s) && s.phase.Retrieved? && s.phase.inUse
    ensures (forall order :: Walks(order, s.clipTable.Keys) ==> TouchesLive(s, order, s.phase.serial)) <==> !StaleSearch(s)
  {
    if StaleSearch(s) {
      var order := SomeWalkFrom(s.clipTable.Keys, s.phase.id);
      assert !TouchesLive(s, order, s.phase.serial);
    } else {
      forall order | Walks(order, s.clipTable.Keys) ensures TouchesLive(s, order, s.phase.serial) {
        LiveSearchTouchesLive(s, order, s.phase.serial);
      }
    }
  }

  /** And it finds an entry that exists, whatever the order and the freed memory, under the same condition. */
  lemma SearchFindsLiveIff(s: State)
    requires Inv(s) && s.phase.Retrieved? && s.phase.inUse
    ensures (forall order, stale :: Enabled(s, LockEnd(order, stale)) ==> FindsLive(s, LockEnd(order, stale))) <==>
            !StaleSearch(s)
  {
    if StaleSearch(s) {
      var order := SomeWalkFrom(s.clipTable.Keys, s.phase.id);
      var stale := Entry(0, 0, s.phase.serial, false);
      assert Search(s, order, s.phase.serial, stale) == Some(s.clipTable[s.phase.id]);
      assert Enabled(s, LockEnd(order, stale)) && !FindsLive(s, LockEnd(order, stale));
    } else {
      forall order, stale | Enabled(s, LockEnd(order, stale)) ensures FindsLive(s, LockEnd(order, stale)) {
        SearchFindsUser(s, order, s.phase.serial, stale);
      }
    }
  }

  /** So a lock looks at entries that exist only if and only if the id is not locked already, or no other entry
      has the current serial when the main loop gets to it. */
  lemma LockTouchesLiveIff(s: State)
    requires Inv(s) && s.phase.Locking?
    ensures Enabled(s, Retrieve)
    ensures var s' := Take(s, Retrieve);
            (forall order :: s'.phase.inUse && Walks(order, s'.clipTable.Keys) ==> TouchesLive(s', order, s'.phase.serial))
            <==> !Clash(s)
  {
    ClashLeavesStaleSlotIff(s);
    StepKeepsInvIff(s, Retrieve);
    if Take(s, Retrieve).phase.inUse {
      SearchTouchesLiveIff(Take(s, Retrieve));
    }
  }

  ghost predicate NoClash(s: State, steps: seq<Step>)
    requires Run(s, steps)
    decreases |steps|
  {
    |steps| > 0 ==> (steps[0].Retrieve? ==> !Clash(s)) && NoClash(Take(s, steps[0]), steps[1..])
  }

  lemma NoClashStep(s: State, step: Step)
    requires Inv(s) && !StaleSearch(s) && Enabled(s, step) && (step.Retrieve? ==> !Clash(s))
    ensures FindsLive(s, step) && Inv(Take(s, step)) && !StaleSearch(Take(s, step))
  {
    if step.LockEnd? {
      if s.phase.inUse {
        SearchFindsLiveIff(s);
      }
    } else if step.Retrieve? {
      ClashLeavesStaleSlotIff(s);
    }
    StepKeepsInvIff(s, step);
  }

  lemma {:induction false} NoClashFindsLive(s: State, steps: seq<Step>)
    requires Inv(s) && !StaleSearch(s) && Run(s, steps) && NoClash(s, steps)
    ensures FindsLiveAlong(s, steps)
    decreases |steps|
  {
    if |steps| > 0 {
      NoClashStep(s, steps[0]);
      NoClashFindsLive(Take(s, steps[0]), steps[1..]);
    }
  }

  /** Over every run from the start without a clash. */
  lemma EveryRun(s: State, steps: seq<Step>)
    requires Initial(s) && Run(s, steps) && NoClash(s, steps)
    ensures KeptAlong(s, steps)
    ensures var s' := After(s, steps);
            SerialsKept(s') && IdsKept(s') && OwnersKept(s') && DestroyedOnce(s')
  {
    NoClashFindsLive(s, steps);
    RunKeepsInvIff(s, steps);
    RunKeepsInv(s, steps);
  }

  /** Between locks and unlocks the two tables hold the same entries, each keyed by its own serial and id. */
  lemma TablesInStep(s: State)
    requires Inv(s) && s.phase.Quiet?
    ensures s.serialTable.Values == s.clipTable.Values == s.entries.Keys
    ensures forall serial :: serial in s.serialTable ==> s.entries[s.serialTable[serial]].serial == serial
    ensures forall id :: id in s.clipTable ==> s.entries[s.clipTable[id]].id == id
  {
    forall e | e in s.entries.Keys ensures e in s.serialTable.Values && e in s.clipTable.Values {
      assert s.serialTable[s.entries[e].serial] == e && s.clipTable[s.entries[e].id] == e;
    }
    assert forall serial :: serial in s.serialTable ==> s.serialTable[serial] in s.entries;
    assert forall id :: id in s.clipTable ==> s.clipTable[id] in s.entries;
  }

  lemma {:induction false} SearchReaches(s: State, order: seq<ClipId>, serial: Serial, stale: Entry, id: ClipId)
    requires id in order && id in s.clipTable && Read(s, s.clipTable[id], stale).serial == serial
    ensures Search(s, order, serial, stale).Some?
    decreases |order|
  {
    if order[0] != id {
      SearchReaches(s, order[1..], serial, stale, id);
    }
  }

  /** The search of a double lock finds the one entry that has the serial, or else the freed one, if that has
      a slot and its memory reads so. */
  lemma DoubleLockFinds(s: State, order: seq<ClipId>, stale: Entry)
    requires Inv(s) && s.phase.Retrieved? && s.phase.inUse && Walks(order, s.clipTable.Keys)
    ensures var found := Search(s, order, s.phase.serial, stale);
            found == Some(s.serialTable[s.phase.serial]) ||
            (StaleSearch(s) && found == Some(s.clipTable[s.phase.id]) && stale.serial == s.phase.serial)
  {
    var e := s.serialTable[s.phase.serial];
    SearchReaches(s, order, s.phase.serial, stale, s.entries[e].id);
    SearchFindsUser(s, order, s.phase.serial, stale);
  }

  /** Whatever the channel thread waits for, the main loop can do, and what it does next finds an entry. */
  lemma NeverStuck(s: State)
    requires Inv(s)
    ensures s.phase.Locking? ==> Enabled(s, Retrieve)
    ensures s.phase.Retrieved? ==> forall order, stale :: Walks(order, s.clipTable.Keys) ==> Enabled(s, LockEnd(order, stale))
    ensures s.phase.Unlocking? ==> Enabled(s, DestroyEntry)
    ensures s.phase.Destroyed? ==> Enabled(s, UnlockEnd)
  {
    if s.phase.Retrieved? && s.phase.inUse {
      forall order, stale | Walks(order, s.clipTable.Keys) ensures Enabled(s, LockEnd(order, stale)) {
        DoubleLockFinds(s, order, stale);
      }
    }
  }

  // ----- what one call undoes

  const NO_SEARCH: Step := LockEnd([], Entry(0, 0, 0, false))

  /** A lock that does not find its serial taken. */
  function LockSteps(id: ClipId, e: EntryRef): seq<Step> {
    [LockBegin(id, e), Retrieve, NO_SEARCH]
  }

  function UnlockSteps(id: ClipId): seq<Step> {
    [UnlockBegin(id), DestroyEntry, UnlockEnd]
  }

  lemma OneStep(s: State, a: Step)
    requires Enabled(s, a)
    ensures Run(s, [a]) && After(s, [a]) == Take(s, a)
  {
    var rest: seq<Step> := [a][1..];
    assert rest == [];
    assert Run(Take(s, a), rest) && After(Take(s, a), rest) == Take(s, a);
  }

  lemma TwoSteps(s: State, a: Step, b: Step)
    requires Enabled(s, a) && Enabled(Take(s, a), b)
    ensures Run(s, [a, b]) && After(s, [a, b]) == Take(Take(s, a), b)
  {
    OneStep(Take(s, a), b);
    assert [a, b][1..] == [b];
  }

  /** Three steps in a row. */
  lemma ThreeSteps(s: State, a: Step, b: Step, c: Step)
    requires Enabled(s, a) && Enabled(Take(s, a), b) && Enabled(Take(Take(s, a), b), c)
    ensures Run(s, [a, b, c]) && After(s, [a, b, c]) == Take(Take(Take(s, a), b), c)
  {
    TwoSteps(Take(s, a), b, c);
    assert [a, b, c][1..] == [b, c];
  }

  /** One more entry, in both tables. */
  function WithEntry(s: State, e: EntryRef, entry: Entry): State {
    s.(entries := s.entries[e := entry], serialTable := s.serialTable[entry.serial := e],
       clipTable := s.clipTable[entry.id := e])
  }

  /** Nothing is filed under what the entry would be filed under. */
  predicate IsNew(s: State, e: EntryRef, id: ClipId, serial: Serial) {
    e !in s.entries && e !in s.clipTable.Values && id !in s.clipTable && serial !in s.serialTable
  }

  /** A lock under a new id of a clipboard that is not locked: one more entry in both tables. */
  lemma LockAddsEntry(s: State, id: ClipId, e: EntryRef)
    requires s.phase.Quiet? && IsNew(s, e, id, s.serial)
    ensures Run(s, LockSteps(id, e))
    ensures After(s, LockSteps(id, e)) == WithEntry(s, e, Entry(id, s.system, s.serial, false))
  {
    var retrieved := Take(Take(s, LockBegin(id, e)), Retrieve);
    assert retrieved.entries[e] == Entry(0, s.system, s.serial, false);
    assert retrieved.entries[e := retrieved.entries[e].(id := id)] == s.entries[e := Entry(id, s.system, s.serial, false)];
    ThreeSteps(s, LockBegin(id, e), Retrieve, NO_SEARCH);
  }

  /** An unlock takes its entry from both tables, and destroys its clipboard if the entry owns it. */
  lemma UnlockRemovesEntry(s: State, id: ClipId)
    requires s.phase.Quiet? && id in s.clipTable && s.clipTable[id] in s.entries
    ensures Run(s, UnlockSteps(id))
    ensures After(s, UnlockSteps(id)) ==
            FreeEntry(s, s.clipTable[id]).(clipTable := s.clipTable - {id})
  {
    ThreeSteps(s, UnlockBegin(id), DestroyEntry, UnlockEnd);
  }

  lemma EntryRemoved(s: State, e: EntryRef, entry: Entry)
    requires IsNew(s, e, entry.id, entry.serial)
    ensures FreeEntry(WithEntry(s, e, entry), e).(clipTable := WithEntry(s, e, entry).clipTable - {entry.id}) ==
            if entry.independent then s.(alive := s.alive - {entry.system}, destroyed := s.destroyed + [entry.system]) else s
  {
    assert s.entries[e := entry] - {e} == s.entries && s.clipTable[entry.id := e] - {entry.id} == s.clipTable;
    assert s.serialTable[entry.serial := e] - {entry.serial} == s.serialTable;
  }

  /** Locking and unlocking again restores everything. */
  lemma UnlockUndoesLock(s: State, id: ClipId, e: EntryRef)
    requires s.phase.Quiet? && IsNew(s, e, id, s.serial)
    ensures Run(s, LockSteps(id, e)) && Run(After(s, LockSteps(id, e)), UnlockSteps(id))
    ensures After(After(s, LockSteps(id, e)), UnlockSteps(id)) == s
  {
    LockAddsEntry(s, id, e);
    UnlockRemovesEntry(After(s, LockSteps(id, e)), id);
    EntryRemoved(s, e, Entry(id, s.system, s.serial, false));
  }

  /** A selection change while the current clipboard is locked leaves it to its entry. */
  lemma ChangeLeavesClipboard(s: State, e: EntryRef, entry: Entry, system: System)
    requires entry.serial == s.serial && system !in s.alive && system !in s.destroyed
    ensures Enabled(WithEntry(s, e, entry), SendList(system))
    ensures var s' := Take(WithEntry(s, e, entry), SendList(system));
            s' == WithEntry(s.(system := system, alive := s.alive + {system}, serial := s'.serial), e,
                            entry.(independent := true))
  {
    var locked := WithEntry(s, e, entry);
    assert locked.entries[e := entry.(independent := true)] == s.entries[e := entry.(independent := true)];
  }

  /** If the selection changes in between, the unlock destroys the old clipboard, which only the lock kept. */
  lemma UnlockAfterChangeDestroys(s: State, id: ClipId, e: EntryRef, system: System)
    requires s.phase.Quiet? && IsNew(s, e, id, s.serial) && system !in s.alive && system !in s.destroyed
    ensures Run(s, LockSteps(id, e))
    ensures var locked := After(s, LockSteps(id, e));
            && Enabled(locked, SendList(system)) && Run(Take(locked, SendList(system)), UnlockSteps(id))
            && var s' := After(Take(locked, SendList(system)), UnlockSteps(id));
               s' == s.(system := system, serial := s'.serial, alive := s.alive + {system} - {s.system},
                        destroyed := s.destroyed + [s.system])
  {
    var entry := Entry(id, s.system, s.serial, false);
    LockAddsEntry(s, id, e);
    ChangeLeavesClipboard(s, e, entry, system);
    var changed := Take(WithEntry(s, e, entry), SendList(system));
    UnlockRemovesEntry(changed, id);
    EntryRemoved(s.(system := system, alive := s.alive + {system}, serial := changed.serial), e, entry.(independent := true));
  }

  // ----- double locks and replaced ids

  function DoubleLockSteps(id: ClipId, e: EntryRef, order: seq<ClipId>, stale: Entry): seq<Step> {
    [LockBegin(id, e), Retrieve, LockEnd(order, stale)]
  }

  /** The entry goes from its old id to a new one. */
  function Renamed(s: State, x: EntryRef, id: ClipId): State
    requires x in s.entries
  {
    s.(entries := s.entries[x := s.entries[x].(id := id)], clipTable := (s.clipTable - {s.entries[x].id})[id := x])
  }

  lemma RetrieveFindsSerialTaken(s: State, id: ClipId, e: EntryRef)
    requires Inv(s) && s.phase.Quiet? && s.serial in s.serialTable && id !in s.clipTable
    requires e !in s.entries && e !in s.clipTable.Values
    ensures Enabled(s, LockBegin(id, e)) && Enabled(Take(s, LockBegin(id, e)), Retrieve)
    ensures var s' := Take(Take(s, LockBegin(id, e)), Retrieve);
            s' == s.(phase := Retrieved(id, e, s.serial, true)) && Inv(s')
  {
    StepKeepsInvIff(s, LockBegin(id, e));
    StepKeepsInvIff(Take(s, LockBegin(id, e)), Retrieve);
  }

  lemma DoubleLockEnds(s: State, order: seq<ClipId>, stale: Entry)
    requires Inv(s) && s.phase.Retrieved? && s.phase.inUse && !StaleSearch(s) && Walks(order, s.clipTable.Keys)
    ensures s.phase.serial in s.serialTable && s.serialTable[s.phase.serial] in s.entries
    ensures Enabled(s, LockEnd(order, stale))
    ensures Take(s, LockEnd(order, stale)) == Renamed(s, s.serialTable[s.phase.serial], s.phase.id).(phase := Quiet)
  {
    DoubleLockFinds(s, order, stale);
  }

  /** A lock of a clipboard that is locked already: its entry goes from its old id to the new one, and nothing
      else changes, in whatever order the id table is walked. */
  lemma DoubleLockRenames(s: State, id: ClipId, e: EntryRef, order: seq<ClipId>, stale: Entry)
    requires Inv(s) && s.phase.Quiet? && s.serial in s.serialTable && id !in s.clipTable
    requires e !in s.entries && e !in s.clipTable.Values && Walks(order, s.clipTable.Keys)
    ensures s.serialTable[s.serial] in s.entries && Run(s, DoubleLockSteps(id, e, order, stale))
    ensures var x := s.serialTable[s.serial];
            After(s, DoubleLockSteps(id, e, order, stale)) ==
            s.(entries := s.entries[x := s.entries[x].(id := id)], clipTable := (s.clipTable - {s.entries[x].id})[id := x])
  {
    RetrieveFindsSerialTaken(s, id, e);
    DoubleLockEnds(Take(Take(s, LockBegin(id, e)), Retrieve), order, stale);
    ThreeSteps(s, LockBegin(id, e), Retrieve, LockEnd(order, stale));
  }

  lemma RenamedIsRemoved(s: State, x: EntryRef, id: ClipId)
    requires x in s.entries && id !in s.clipTable
    ensures var renamed, entry := Renamed(s, x, id), s.entries[x];
            var left := FreeEntry(renamed, x).(clipTable := renamed.clipTable - {id});
            && left.entries == s.entries - {x} && left.serialTable == s.serialTable - {entry.serial}
            && left.clipTable == s.clipTable - {entry.id}
            && left.alive == (if entry.independent then s.alive - {entry.system} else s.alive)
            && left.destroyed == (if entry.independent then s.destroyed + [entry.system] else s.destroyed)
  {
    var renamed := Renamed(s, x, id);
    assert renamed.clipTable - {id} == s.clipTable - {s.entries[x].id};
    assert renamed.entries - {x} == s.entries - {x};
  }

  /** The unlock of the new id then takes the entry from both tables. The old id is unknown by then. */
  lemma UnlockAfterDoubleLock(s: State, id: ClipId, e: EntryRef, order: seq<ClipId>, stale: Entry)
    requires Inv(s) && s.phase.Quiet? && s.serial in s.serialTable && id !in s.clipTable
    requires e !in s.entries && e !in s.clipTable.Values && Walks(order, s.clipTable.Keys)
    ensures s.serialTable[s.serial] in s.entries && Run(s, DoubleLockSteps(id, e, order, stale))
    ensures var x, locked := s.serialTable[s.serial], After(s, DoubleLockSteps(id, e, order, stale));
            && (s.entries[x].id !in locked.clipTable)
            && Run(locked, UnlockSteps(id))
            && var s' := After(locked, UnlockSteps(id));
               && s'.entries == s.entries - {x} && s'.serialTable == s.serialTable - {s.serial}
               && s'.clipTable == s.clipTable - {s.entries[x].id}
  {
    DoubleLockRenames(s, id, e, order, stale);
    var x := s.serialTable[s.serial];
    assert s.entries[x].serial == s.serial && s.entries[x].id in s.clipTable;
    UnlockRemovesEntry(Renamed(s, x, id), id);
    RenamedIsRemoved(s, x, id);
  }

  /** A lock under a locked id, with no other entry in the way: the old entry goes, and the new one takes its place. */
  lemma LockReplacesEntry(s: State, id: ClipId, e: EntryRef)
    requires s.phase.Quiet? && id in s.clipTable && s.clipTable[id] in s.entries
    requires e !in s.entries && e !in s.clipTable.Values
    requires s.serial !in FreeEntry(s, s.clipTable[id]).serialTable
    ensures Run(s, LockSteps(id, e))
    ensures After(s, LockSteps(id, e)) == WithEntry(FreeEntry(s, s.clipTable[id]), e, Entry(id, s.system, s.serial, false))
  {
    var freed := FreeEntry(s, s.clipTable[id]);
    var retrieved := Take(Take(s, LockBegin(id, e)), Retrieve);
    assert retrieved == FileEntry(freed, e).(phase := Retrieved(id, e, s.serial, false));
    assert retrieved.entries[e := retrieved.entries[e].(id := id)] == freed.entries[e := Entry(id, s.system, s.serial, false)];
    ThreeSteps(s, LockBegin(id, e), Retrieve, NO_SEARCH);
  }

  lemma EntryOfId(s: State, id: ClipId)
    requires Inv(s) && s.phase.Quiet? && id in s.clipTable
    ensures s.clipTable[id] in s.entries
    ensures s.serial in s.serialTable && s.serialTable[s.serial] == s.clipTable[id] ==>
              s.entries[s.clipTable[id]].serial == s.serial
  {
  }

  /** A lock under a locked id, without a clash, is an unlock of that id and then a lock. */
  lemma ReplacingIsUnlockAndLock(s: State, id: ClipId, e: EntryRef)
    requires Inv(s) && s.phase.Quiet? && id in s.clipTable && e !in s.entries && e !in s.clipTable.Values
    requires s.serial in s.serialTable ==> s.serialTable[s.serial] == s.clipTable[id]
    ensures Run(s, LockSteps(id, e)) && Run(s, UnlockSteps(id)) && Run(After(s, UnlockSteps(id)), LockSteps(id, e))
    ensures After(s, LockSteps(id, e)) == After(After(s, UnlockSteps(id)), LockSteps(id, e))
  {
    EntryOfId(s, id);
    UnlockThenLock(s, id, e);
  }

  lemma UnlockThenLock(s: State, id: ClipId, e: EntryRef)
    requires s.phase.Quiet? && id in s.clipTable && s.clipTable[id] in s.entries
    requires e !in s.entries && e !in s.clipTable.Values
    requires s.serial !in FreeEntry(s, s.clipTable[id]).serialTable
    ensures Run(s, LockSteps(id, e)) && Run(s, UnlockSteps(id)) && Run(After(s, UnlockSteps(id)), LockSteps(id, e))
    ensures After(s, LockSteps(id, e)) == After(After(s, UnlockSteps(id)), LockSteps(id, e))
  {
    LockReplacesEntry(s, id, e);
    UnlockRemovesEntry(s, id);
    var freed := FreeEntry(s, s.clipTable[id]);
    var unlocked := freed.(clipTable := s.clipTable - {id});
    LockAddsEntry(unlocked, id, e);
    assert s.clipTable[id := e] == (s.clipTable - {id})[id := e];
    assert WithEntry(freed, e, Entry(id, s.system, s.serial, false)) == WithEntry(unlocked, e, Entry(id, s.system, s.serial, false));
  }

  /** An unlock of an id that is not locked does nothing. */
  lemma UnknownUnlockIgnored(s: State, id: ClipId)
    requires s.phase.Quiet? && id !in s.clipTable
    ensures Enabled(s, UnlockBegin(id)) && Take(s, UnlockBegin(id)) == s
  {
  }

  /** A selection change keeps a clipboard that is not locked, and moves on to an unused serial. */
  lemma ChangeKeepsUnlocked(s: State, system: System)
    requires Enabled(s, SendList(system)) && s.serial !in s.serialTable
    ensures var s' := Take(s, SendList(system));
            s' == s.(serial := s'.serial) && s.serial < s'.serial && s'.serial !in s.serialTable
  {
  }

  // ----- a clash

  lemma {:induction false} RunThen(s: State, first: seq<Step>, second: seq<Step>)
    requires Run(s, first) && Run(After(s, first), second)
    ensures Run(s, first + second) && After(s, first + second) == After(After(s, first), second)
    decreases |first|
  {
    if |first| == 0 {
      assert first + second == second;
    } else {
      assert (first + second)[1..] == first[1..] + second;
      RunThen(Take(s, first[0]), first[1..], second);
    }
  }

  const EXAMPLE_START: State := State(map[], map[], map[], 0, 0, Quiet, {0}, [])
  const EXAMPLE_LOCKED: State := State(map[10 := Entry(1, 0, 0, false)], map[0 := 10], map[1 := 10], 0, 0, Quiet, {0}, [])
  const EXAMPLE_CHANGED: State := State(map[10 := Entry(1, 0, 0, true)], map[0 := 10], map[1 := 10], 1, 1, Quiet, {0, 1}, [])
  const EXAMPLE_BOTH_LOCKED: State := State(map[10 := Entry(1, 0, 0, true), 11 := Entry(2, 1, 1, false)],
                                            map[0 := 10, 1 := 11], map[1 := 10, 2 := 11], 1, 1, Quiet, {0, 1}, [])
  const EXAMPLE_CLASHED: State := State(map[11 := Entry(2, 1, 1, false)], map[1 := 11], map[1 := 10, 2 := 11], 1, 1,
                                        Retrieved(1, 12, 1, true), {1}, [0])

  /** Id 1 is locked, the selection changes, id 2 is locked; then id 1 is locked again. */
  const EXAMPLE: seq<Step> := LockSteps(1, 10) + [SendList(1)] + LockSteps(2, 11) + [LockBegin(1, 12), Retrieve]

  lemma ExampleChanges()
    ensures Run(EXAMPLE_LOCKED, [SendList(1)]) && After(EXAMPLE_LOCKED, [SendList(1)]) == EXAMPLE_CHANGED
  {
    OneStep(EXAMPLE_LOCKED, SendList(1));
    assert Take(EXAMPLE_LOCKED, SendList(1)).serial == 1;
  }

  lemma ExampleLocks()
    ensures Run(EXAMPLE_START, LockSteps(1, 10)) && After(EXAMPLE_START, LockSteps(1, 10)) == EXAMPLE_LOCKED
    ensures Run(EXAMPLE_CHANGED, LockSteps(2, 11)) && After(EXAMPLE_CHANGED, LockSteps(2, 11)) == EXAMPLE_BOTH_LOCKED
  {
    LockAddsEntry(EXAMPLE_START, 1, 10);
    LockAddsEntry(EXAMPLE_CHANGED, 2, 11);
  }

  lemma ExampleClashes()
    ensures Run(EXAMPLE_BOTH_LOCKED, [LockBegin(1, 12), Retrieve])
    ensures After(EXAMPLE_BOTH_LOCKED, [LockBegin(1, 12), Retrieve]) == EXAMPLE_CLASHED
  {
    var s := EXAMPLE_BOTH_LOCKED;
    assert s.entries - {10} == EXAMPLE_CLASHED.entries && s.serialTable - {0} == EXAMPLE_CLASHED.serialTable;
    assert Take(Take(s, LockBegin(1, 12)), Retrieve).alive == {1};
    TwoSteps(s, LockBegin(1, 12), Retrieve);
  }

  lemma ExampleRuns()
    ensures Run(EXAMPLE_START, EXAMPLE) && After(EXAMPLE_START, EXAMPLE) == EXAMPLE_CLASHED
  {
    ExampleLocks();
    ExampleChanges();
    ExampleClashes();
    RunThen(EXAMPLE_START, LockSteps(1, 10), [SendList(1)]);
    RunThen(EXAMPLE_START, LockSteps(1, 10) + [SendList(1)], LockSteps(2, 11));
    RunThen(EXAMPLE_START, LockSteps(1, 10) + [SendList(1)] + LockSteps(2, 11), [LockBegin(1, 12), Retrieve]);
  }

  /** A run from the start after which the search of a double lock meets a freed entry; if the freed memory still
      reads as the serial in use, the lock leaves id 1 without an entry. */
  lemma ClashReached(stale: Entry)
    requires stale.serial == 1
    ensures Initial(EXAMPLE_START) && Run(EXAMPLE_START, EXAMPLE)
    ensures var s := After(EXAMPLE_START, EXAMPLE);
            && StaleSearch(s) && 1 in s.clipTable && s.clipTable[1] !in s.entries && !TouchesLive(s, [1, 2], s.phase.serial)
            && Enabled(s, LockEnd([1, 2], stale)) && !IdsKept(Take(s, LockEnd([1, 2], stale)))
  {
    ExampleRuns();
    var s := EXAMPLE_CLASHED;
    assert Walks([1, 2], s.clipTable.Keys);
    assert Search(s, [1, 2], 1, stale) == Some(10);
    LockEndBreaksIds(s, [1, 2], stale);
  }

  // ----- disposal

  /** Destroying the serial table frees every entry; the current clipboard goes last. */
  function FreeAll(s: State, order: seq<EntryRef>): State
    requires forall i :: 0 <= i < |order| ==> order[i] in s.entries
    requires forall i, j :: 0 <= i < j < |order| ==> order[i] != order[j]
    decreases |order|
  {
    if |order| == 0 then s else FreeAll(FreeEntry(s, order[0]), order[1..])
  }

  lemma {:induction false} FreeAllKeeps(s: State, order: seq<EntryRef>)
    requires SerialsKept(s) && OwnersKept(s) && DestroyedOnce(s)
    requires forall i :: 0 <= i < |order| ==> order[i] in s.entries
    requires forall i, j :: 0 <= i < j < |order| ==> order[i] != order[j]
    ensures var s' := FreeAll(s, order);
            && OwnersKept(s') && DestroyedOnce(s') && s'.system == s.system
            && (forall e :: e in s'.entries ==> e in s.entries && e !in order)
    decreases |order|
  {
    if |order| > 0 {
      FreeKeepsSerials(s, order[0]);
      FreeKeepsOwners(s, order[0]);
      FreeAllKeeps(FreeEntry(s, order[0]), order[1..]);
    }
  }

  /** In whatever order the table is torn down, every WinPR clipboard but the session's own, which is
      destroyed right after, has been destroyed by then, and none twice. */
  lemma DisposalDestroysAll(s: State, order: seq<EntryRef>)
    requires Inv(s) && s.phase.Quiet?
    requires forall i, j :: 0 <= i < j < |order| ==> order[i] != order[j]
    requires forall e :: e in order <==> e in s.entries
    ensures FreeAll(s, order).alive == {s.system}
    ensures DestroyedOnce(FreeAll(s, order))
  {
    FreeAllKeeps(s, order);
    var s' := FreeAll(s, order);
    assert forall e :: e !in s'.entries;
  }

  /** One more step of a run. */
  lemma {:induction false} RunOn(s: State, steps: seq<Step>, step: Step)
    requires Run(s, steps) && Enabled(After(s, steps), step)
    ensures Run(s, steps + [step]) && After(s, steps + [step]) == Take(After(s, steps), step)
    ensures FindsLiveAlong(s, steps + [step]) <==> FindsLiveAlong(s, steps) && FindsLive(After(s, steps), step)
    decreases |steps|
  {
    var longer := steps + [step];
    if |steps| == 0 {
      assert longer[1..] == [];
    } else {
      assert longer[1..] == steps[1..] + [step];
      RunOn(Take(s, steps[0]), steps[1..], step);
    }
  }

  // ----- the object

  class RdpClipDataLocks {
    var entries: map<EntryRef, Entry>           // the entries themselves
    var serialEntryTable: map<Serial, EntryRef>
    var clipDataTable: map<ClipId, EntryRef>
    var system: System
    var serial: Serial
    var retrievalEntry: EntryRef
    var entryToReplace: Option<EntryRef>
    var serialAlreadyInUse: bool
    var retrievedSerial: Serial                 // the serial of the entry that is being filed
    var destructionEntry: EntryRef

    ghost var phase: Phase
    ghost var alive: set<System>
    ghost var destroyed: seq<System>
    ghost var start: State       // where the run so far began
    ghost var steps: seq<Step>

    ghost function Abs(): State
      reads this
    {
      State(entries, serialEntryTable, clipDataTable, system, serial, phase, alive, destroyed)
    }

    /** The contexts shared with the channel thread agree with where it is. */
    ghost predicate ContextsKept()
      reads this`phase, this`retrievalEntry, this`entryToReplace, this`serialAlreadyInUse, this`retrievedSerial,
            this`destructionEntry
    {
      match phase
      case Locking(_, entry, replaced) => retrievalEntry == entry && entryToReplace == replaced
      case Retrieved(_, entry, serial, inUse) =>
        retrievalEntry == entry && retrievedSerial == serial && serialAlreadyInUse == inUse
      case Unlocking(_, entry) => destructionEntry == entry
      case _ => true
    }

    /** The object is where its run has led it. */
    ghost predicate OnRun()
      reads this
    {
      Initial(start) && Run(start, steps) && Abs() == After(start, steps)
    }

    ghost predicate Valid()
      reads this
    {
      OnRun() && FindsLiveAlong(start, steps) && ContextsKept()
    }

    /** Everything is kept. */
    lemma Kept()
      requires Valid()
      ensures Inv(Abs())
    {
      RunKeepsInv(start, steps);
    }

    /** Whatever comes next can be done. */
    lemma NextCanBeDone()
      requires Valid()
      ensures phase.Locking? ==> Enabled(Abs(), Retrieve)
      ensures phase.Retrieved? ==>
                forall order, stale :: Walks(order, clipDataTable.Keys) ==> Enabled(Abs(), LockEnd(order, stale))
      ensures phase.Unlocking? ==> Enabled(Abs(), DestroyEntry)
      ensures phase.Destroyed? ==> Enabled(Abs(), UnlockEnd)
      ensures serial in serialEntryTable ==> serialEntryTable[serial] in entries
    {
      Kept();
      NeverStuck(Abs());
    }

    ghost predicate Took(before: State, step: Step)
      reads this
    {
      Enabled(before, step) && Abs() == Take(before, step)
    }

    /** The machine has taken one more step. */
    ghost method Record(before: State, step: Step)
      requires Initial(start) && Run(start, steps) && before == After(start, steps) && FindsLiveAlong(start, steps)
      requires Took(before, step) && ContextsKept()
      modifies this`steps
      ensures OnRun() && Took(before, step) && steps == old(steps) + [step]
      ensures FindsLive(before, step) ==> Valid()
    {
      RunOn(start, steps, step);
      steps := steps + [step];
    }


    constructor (system: System)
      ensures Valid() && Initial(Abs()) && this.system == system
    {
      entries, serialEntryTable, clipDataTable := map[], map[], map[];
      this.system, serial := system, 0;
      retrievalEntry, entryToReplace, serialAlreadyInUse, retrievedSerial, destructionEntry := 0, None, false, 0, 0;
      phase, alive, destroyed := Quiet, {system}, [];
      steps, start := [], State(map[], map[], map[], system, 0, Quiet, {system}, []);
    }

    /** Leaving the serial table frees an entry, and its clipboard if it owns one. */
    method RemoveFromSerialTable(e: EntryRef)
      requires e in entries
      modifies this`entries, this`serialEntryTable, this`alive, this`destroyed
      ensures Abs() == FreeEntry(old(Abs()), e)
    {
      var entry := entries[e];
      serialEntryTable := serialEntryTable - {entry.serial};
      if entry.independent {
        alive, destroyed := alive - {entry.system}, destroyed + [entry.system];
      }
      entries := entries - {e};
    }

    /** Channel thread: the client locks the clipboard data. `e` is the newly allocated entry. */
    method BeginLock(id: ClipId, e: EntryRef)
      requires Valid() && phase.Quiet? && e !in entries && e !in clipDataTable.Values
      modifies this`entryToReplace, this`retrievalEntry, this`phase, this`steps
      ensures Valid() && Took(old(Abs()), LockBegin(id, e)) && steps == old(steps) + [LockBegin(id, e)]
    {
      entryToReplace := None;
      if id in clipDataTable {
        entryToReplace := Some(clipDataTable[id]);
      }
      retrievalEntry := e;
      phase := Locking(id, e, entryToReplace);
      Record(old(Abs()), LockBegin(id, e));
    }

    /** retrieve_current_clipboard, in the main loop */
    method RetrieveCurrentClipboard()
      requires Valid() && phase.Locking?
      modifies this`serialAlreadyInUse, this`serialEntryTable, this`entries, this`retrievedSerial, this`phase, this`steps,
               this`alive, this`destroyed
      ensures Valid() && Took(old(Abs()), Retrieve) && steps == old(steps) + [Retrieve]
    {
      NextCanBeDone();
      FileRetrieved();
      Record(old(Abs()), Retrieve);
    }

    method FileRetrieved()
      requires phase.Locking? && phase.entry == retrievalEntry && phase.replaced == entryToReplace
      requires entryToReplace.Some? ==> entryToReplace.value in entries
      modifies this`serialAlreadyInUse, this`serialEntryTable, this`entries, this`retrievedSerial, this`phase, this`alive,
               this`destroyed
      ensures Abs() == TakeRetrieve(old(Abs()), old(phase)) && ContextsKept()
    {
      if entryToReplace.Some? {
        RemoveFromSerialTable(entryToReplace.value);
      }
      serialAlreadyInUse := serial in serialEntryTable;
      if !serialAlreadyInUse {
        serialEntryTable := serialEntryTable[serial := retrievalEntry];
        entries := entries[retrievalEntry := Entry(0, system, serial, false)];
      }
      retrievedSerial := serial;
      phase := Retrieved(phase.id, retrievalEntry, serial, serialAlreadyInUse);
    }

    /** What the memory of an entry holds, freed or not. */
    function ReadEntry(e: EntryRef, stale: Entry): Entry
      reads this`entries
    {
      if e in entries then entries[e] else stale
    }

    /** The search of a double lock, as the id table is walked. */
    method FindUserOfSerial(order: seq<ClipId>, wanted: Serial, stale: Entry) returns (e: EntryRef)
      requires Search(Abs(), order, wanted, stale).Some? && forall id :: id in order ==> id in clipDataTable
      ensures Search(Abs(), order, wanted, stale) == Some(e)
    {
      var i := 0;
      assert order[0..] == order;
      while true
        invariant 0 <= i <= |order| && Search(Abs(), order[i..], wanted, stale) == Search(Abs(), order, wanted, stale)
        decreases |order| - i
      {
        assert order[i..][1..] == order[i + 1..];
        e := clipDataTable[order[i]];
        if ReadEntry(e, stale).serial == wanted {
          return;
        }
        i := i + 1;
      }
    }

    /** Channel thread, when the main loop is done: the entry, or on a double lock the one that the search finds
        to have the serial, is tracked under the id. */
    method EndLock(id: ClipId, order: seq<ClipId>, stale: Entry)
      requires Valid() && phase.Retrieved? && phase.id == id && Walks(order, clipDataTable.Keys)
      modifies this`entries, this`clipDataTable, this`phase, this`steps
      ensures OnRun() && Took(old(Abs()), LockEnd(order, stale)) && steps == old(steps) + [LockEnd(order, stale)]
      ensures old(!StaleSearch(Abs())) || FindsLive(old(Abs()), LockEnd(order, stale)) ==> Valid()
    {
      NextCanBeDone();
      EndLockFindsLive(order, stale);
      var e := retrievalEntry;
      if serialAlreadyInUse {
        e := FindUserOfSerial(order, retrievedSerial, stale);
      }
      TrackUnder(id, e, stale);
      Record(old(Abs()), LockEnd(order, stale));
    }

    lemma EndLockFindsLive(order: seq<ClipId>, stale: Entry)
      requires Valid() && phase.Retrieved? && Walks(order, clipDataTable.Keys)
      requires Enabled(Abs(), LockEnd(order, stale))
      ensures !StaleSearch(Abs()) ==> FindsLive(Abs(), LockEnd(order, stale))
    {
      RunKeepsInv(start, steps);
      if phase.inUse {
        SearchFindsLiveIff(Abs());
      }
    }

    method TrackUnder(id: ClipId, e: EntryRef, stale: Entry)
      requires phase.Retrieved? && phase.id == id && phase.inUse == serialAlreadyInUse
      modifies this`entries, this`clipDataTable, this`phase
      ensures Abs() == TakeLockEnd(old(Abs()), old(phase), e, stale) && phase.Quiet?
    {
      if serialAlreadyInUse {
        clipDataTable := clipDataTable - {ReadEntry(e, stale).id};
      }
      if e in entries {
        entries := entries[e := entries[e].(id := id)];
      }
      clipDataTable := clipDataTable[id := e];
      phase := Quiet;
    }

    /** Channel thread: the client unlocks; an unknown id is ignored. */
    method BeginUnlock(id: ClipId)
      requires Valid() && phase.Quiet?
      modifies this`destructionEntry, this`phase, this`steps
      ensures Valid() && Took(old(Abs()), UnlockBegin(id)) && steps == old(steps) + [UnlockBegin(id)]
    {
      if id in clipDataTable {
        destructionEntry := clipDataTable[id];
        phase := Unlocking(id, destructionEntry);
      }
      Record(old(Abs()), UnlockBegin(id));
    }

    /** handle_clip_data_entry_destruction, in the main loop */
    method HandleClipDataEntryDestruction()
      requires Valid() && phase.Unlocking?
      modifies this`entries, this`serialEntryTable, this`alive, this`destroyed, this`phase, this`steps
      ensures Valid() && Took(old(Abs()), DestroyEntry) && steps == old(steps) + [DestroyEntry]
    {
      NextCanBeDone();
      RemoveFromSerialTable(destructionEntry);
      phase := Destroyed(phase.id);
      Record(old(Abs()), DestroyEntry);
    }

    method EndUnlock(id: ClipId)
      requires Valid() && phase.Destroyed? && phase.id == id
      modifies this`clipDataTable, this`phase, this`steps
      ensures Valid() && Took(old(Abs()), UnlockEnd) && steps == old(steps) + [UnlockEnd]
    {
      clipDataTable := clipDataTable - {id};
      phase := Quiet;
      Record(old(Abs()), UnlockEnd);
    }

    method UpdateClipboardSerial()
      modifies this`serial
      ensures serial == NextSerial(serialEntryTable.Keys, old(serial))
    {
      serial := serial + 1;
      ghost var left := serialEntryTable.Keys;
      while serial in serialEntryTable
        invariant old(serial) < serial
        invariant forall k :: old(serial) < k < serial ==> k in serialEntryTable
        invariant forall k :: k in serialEntryTable && serial <= k ==> k in left
        decreases left
      {
        left := left - {serial};
        serial := serial + 1;
      }
    }

    method HandOverClipboard(newSystem: System)
      requires serial in serialEntryTable ==> serialEntryTable[serial] in entries
      modifies this`entries, this`system, this`alive, this`serial
      ensures Abs() == TakeSendList(old(Abs()), newSystem)
    {
      if serial in serialEntryTable {
        var e := serialEntryTable[serial];
        entries := entries[e := entries[e].(independent := true)];
        system, alive := newSystem, alive + {newSystem};
      }
      UpdateClipboardSerial();
    }

    /** The start of send_mime_type_list; `newSystem` is the clipboard that is created if the entry of the
        current one becomes independent. */
    method PrepareNewSelection(newSystem: System)
      requires Valid() && newSystem !in alive && newSystem !in destroyed
      modifies this`entries, this`system, this`alive, this`serial, this`steps
      ensures Valid() && Took(old(Abs()), SendList(newSystem)) && steps == old(steps) + [SendList(newSystem)]
    {
      NextCanBeDone();
      HandOverClipboard(newSystem);
      Record(old(Abs()), SendList(newSystem));
    }
  }
}
