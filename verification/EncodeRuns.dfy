/** Runs of the VA-API encode session (src/grd-encode-session-vaapi.c): encoding, locking and unlocking
    interleave, and any driver call may fail. */
module EncodeRuns {
  import opened Words
  import opened H264Syntax
  import opened Options

  const N_BITSTREAM_BUFFERS: nat := 4
  const LOG2_MAX_FRAME_NUM: nat := 8
  const MAX_FRAME_NUM: nat := 256
  const MAX_HEADER_SIZE: nat := 16384

  type View = nat       // an image view of the caller
  type Surface = nat    // a driver handle of a surface for a reconstructed picture
  type Bitstream = nat  // the identity of a bitstream object handed to the caller

  datatype Config = Config(width: Word, height: Word, refreshRate: Word, levelIdc: U8) {
    /** The assertions on the surface size; the 16 bit parameters hold it, and the size products do not overflow. */
    predicate Valid() {
      && width % 16 == 0 && height % 16 == 0 && 16 <= width < 0x10_0000 && 16 <= height < 0x10_0000
      && DedicatedSize() < WORD_MODULUS
    }

    function Macroblocks(): nat {
      (width / 16) * (height / 16)
    }

    /** get_max_bitstream_size */
    function DedicatedSize(): nat {
      Macroblocks() * 400 + MAX_HEADER_SIZE
    }

    /** The size of the coded buffer the driver writes into. */
    function CodedSize(headerBits: nat): nat {
      Macroblocks() * 400 + (headerBits + 7) / 8
    }
  }

  datatype Picture = Picture(surface: Surface, frameNum: U16, isIdr: bool)

  datatype Frame = Frame(buffer: nat, picture: Option<Picture>, codedSize: nat)

  /** Where a live frame is: being encoded, waiting for its lock, being locked, locked, being unlocked. */
  datatype Slot = Encoding | Pending(view: View) | Locking(view: View) | Locked(bitstream: Bitstream)
                | Unlocking(bitstream: Bitstream)

  /** A frame the driver accepted, the reference picture and the sequence parameters it was given. */
  datatype Coded = Coded(picture: Picture, reference: Option<Picture>, sequenceParam: SequenceParam)

  datatype Session = Session(
    live: map<Slot, Frame>, acquired: set<nat>, surfaces: set<Surface>, reference: Option<Picture>, frameNum: U16,
    pendingIdr: bool, sequenceParam: SequenceParam, pictureParam: PictureParam, coded: seq<Coded>)

  // ----- the parameters of a frame

  function SequenceParamFor(c: Config): SequenceParam
    requires c.Valid()
  {
    SequenceParam(c.levelIdc, 0, 1, 0, 0, 0, LOG2_MAX_FRAME_NUM - 4, 2, 1, c.width / 16, c.height / 16, 1, 1, 0, 1,
                  VuiParam(1, EXTENDED_SAR, 1, 1, 1, 1000, (2 * c.refreshRate * 1000) % WORD_MODULUS, 0, 1, 15, 15))
  }

  function PictureParamFor(p: Picture): PictureParam {
    PictureParam(0, 0, p.frameNum, 22, 0, 0, 0, 0, if p.isIdr then 1 else 0, 1, 0, 0, 0, 1, 0, 0, 0, 0)
  }

  function SliceParamFor(p: Picture): SliceParam {
    SliceParam(0, if p.isIdr then SLICE_TYPE_I else SLICE_TYPE_P, 0, 0, 0, 0, 0)
  }

  // ----- the steps

  /** The handles a step gets from the driver, or the caller, are new ones. */
  datatype Step =
    | Begin(buffer: nat, surface: Surface)
    | Abandon(sequenceFilled: bool, pictureFilled: bool)
    | Finish(view: View, headerBits: nat)
    | LockBegin(view: View)
    | LockFails(view: View)
    | LockDone(view: View, bitstream: Bitstream)
    | UnlockBegin(bitstream: Bitstream)
    | UnlockDone(bitstream: Bitstream)

  /** The coded buffer is the smallest that holds 400 bytes for every block of 16 by 16 pixels and the headers;
      the dedicated buffers have room for 400 bytes a block and the longest headers. */
  lemma BufferSizes(c: Config, headerBits: nat)
    requires c.Valid()
    ensures 256 * c.Macroblocks() == c.width * c.height
    ensures 8 * c.CodedSize(headerBits) - 7 <= 8 * 400 * c.Macroblocks() + headerBits <= 8 * c.CodedSize(headerBits)
    ensures c.DedicatedSize() == 400 * c.Macroblocks() + 0x4000
  {
    BlocksOfSurface(c.width / 16, c.height / 16);
  }

  lemma BlocksOfSurface(across: nat, down: nat)
    ensures 256 * (across * down) == (16 * across) * (16 * down)
  {
  }

  /** The parameter set a frame is encoded with: refilled for an IDR frame, otherwise kept. */
  function SequenceFor(c: Config, s: Session): SequenceParam
    requires c.Valid()
  {
    if s.pendingIdr then SequenceParamFor(c) else s.sequenceParam
  }

  function EncodedPicture(s: Session): Option<Picture> {
    if Encoding in s.live then s.live[Encoding].picture else None
  }

  predicate Enabled(c: Config, s: Session, step: Step) {
    c.Valid() &&
    match step
    case Begin(buffer, surface) =>
      Encoding !in s.live && buffer < N_BITSTREAM_BUFFERS && buffer !in s.acquired && surface !in s.surfaces
    case Abandon(_, _) => EncodedPicture(s).Some?
    case Finish(view, headerBits) =>
      EncodedPicture(s).Some? && Pending(view) !in s.live && headerBits <= 8 * MAX_HEADER_SIZE
    case LockBegin(view) => Pending(view) in s.live && Locking(view) !in s.live
    case LockFails(view) => Locking(view) in s.live
    case LockDone(view, bitstream) =>
      Locking(view) in s.live && Locked(bitstream) !in s.live && Unlocking(bitstream) !in s.live
    case UnlockBegin(bitstream) => Locked(bitstream) in s.live && Unlocking(bitstream) !in s.live
    case UnlockDone(bitstream) => Unlocking(bitstream) in s.live
  }

  /** A live frame moves on. */
  function Move(s: Session, from: Slot, to: Slot): Session
    requires from in s.live
  {
    s.(live := (s.live - {from})[to := s.live[from]])
  }

  /** h264_frame_free */
  function Free(s: Session, slot: Slot): Session
    requires slot in s.live
  {
    s.(live := s.live - {slot}, acquired := s.acquired - {s.live[slot].buffer},
       surfaces := if s.live[slot].picture.Some? then s.surfaces - {s.live[slot].picture.value.surface} else s.surfaces)
  }

  /** The counter is 16 bits wide and reaches MaxFrameNum itself before it wraps. */
  function NextFrameNum(frameNum: U16): U16 {
    (frameNum + 1) % 0x1_0000 % (MAX_FRAME_NUM + 1)
  }

  function Take(c: Config, s: Session, step: Step): Session
    requires Enabled(c, s, step)
  {
    match step
    case Begin(buffer, surface) =>
      s.(live := s.live[Encoding := Frame(buffer, Some(Picture(surface, s.frameNum, s.pendingIdr)), 0)],
         acquired := s.acquired + {buffer}, surfaces := s.surfaces + {surface})
    case Abandon(sequenceFilled, pictureFilled) =>
      Free(s, Encoding).(sequenceParam := if sequenceFilled then SequenceFor(c, s) else s.sequenceParam,
                         pictureParam := if pictureFilled then PictureParamFor(EncodedPicture(s).value) else s.pictureParam)
    case Finish(view, headerBits) =>
      var picture := EncodedPicture(s).value;
      var frame := Frame(s.live[Encoding].buffer, None, c.CodedSize(headerBits));
      s.(live := (s.live - {Encoding})[Pending(view) := frame],
         surfaces := if s.reference.Some? then s.surfaces - {s.reference.value.surface} else s.surfaces,
         reference := Some(picture), frameNum := NextFrameNum(s.frameNum), pendingIdr := false,
         sequenceParam := SequenceFor(c, s), pictureParam := PictureParamFor(picture),
         coded := s.coded + [Coded(picture, if picture.isIdr then None else s.reference, SequenceFor(c, s))])
    case LockBegin(view) => Move(s, Pending(view), Locking(view))
    case LockFails(view) => Free(s, Locking(view))
    case LockDone(view, bitstream) => Move(s, Locking(view), Locked(bitstream))
    case UnlockBegin(bitstream) => Move(s, Locked(bitstream), Unlocking(bitstream))
    case UnlockDone(bitstream) => Free(s, Unlocking(bitstream))
  }

  /** Two steps in a row. */
  predicate BothEnabled(c: Config, s: Session, first: Step, second: Step) {
    Enabled(c, s, first) && Enabled(c, Take(c, s, first), second)
  }

  function TakeBoth(c: Config, s: Session, first: Step, second: Step): Session
    requires BothEnabled(c, s, first, second)
  {
    Take(c, Take(c, s, first), second)
  }

  predicate Initial(s: Session) {
    s.live == map[] && s.acquired == {} && s.surfaces == {} && s.reference == None && s.frameNum == 0 && s.pendingIdr &&
    s.coded == []
  }

  /** A run from s: each step is enabled where it is taken. */
  predicate Run(c: Config, s: Session, steps: seq<Step>)
    decreases |steps|
  {
    |steps| == 0 || (Enabled(c, s, steps[0]) && Run(c, Take(c, s, steps[0]), steps[1..]))
  }

  function After(c: Config, s: Session, steps: seq<Step>): Session
    requires Run(c, s, steps)
    decreases |steps|
  {
    if |steps| == 0 then s else After(c, Take(c, s, steps[0]), steps[1..])
  }

  // ----- what every run keeps

  /** The acquired buffers are exactly those of the live frames, and no two frames share one. */
  ghost predicate BuffersOwned(live: map<Slot, Frame>, acquired: set<nat>) {
    && (forall slot :: slot in live ==> live[slot].buffer in acquired)
    && (forall slot, slot' :: slot in live && slot' in live && slot != slot' ==> live[slot].buffer != live[slot'].buffer)
    && (forall b :: b in acquired ==> b < N_BITSTREAM_BUFFERS && exists slot :: slot in live && live[slot].buffer == b)
  }

  /** The coded buffer of a live frame fits into its dedicated buffer; only the frame being encoded holds a picture. */
  ghost predicate FramesSized(c: Config, live: map<Slot, Frame>) {
    forall slot :: slot in live ==>
      live[slot].codedSize <= c.DedicatedSize() && live[slot].picture.Some? == (slot == Encoding)
  }

  /** The reconstruction surfaces that exist are those of the reference picture and of the frame being encoded. */
  ghost predicate SurfacesOwned(surfaces: set<Surface>, reference: Option<Picture>, encoded: Option<Picture>) {
    && surfaces == (if reference.Some? then {reference.value.surface} else {}) +
                   (if encoded.Some? then {encoded.value.surface} else {})
    && (reference.Some? && encoded.Some? ==> reference.value.surface != encoded.value.surface)
  }

  /** The reference chain, the frame counter and the IDR flag, in terms of the frames coded so far. */
  ghost predicate ChainKept(c: Config, s: Session)
    requires c.Valid()
  {
    && s.reference == LastPicture(s.coded)
    && s.pendingIdr == (s.coded == [])
    && s.frameNum == |s.coded| % (MAX_FRAME_NUM + 1)
    && (s.coded != [] ==> s.sequenceParam == SequenceParamFor(c))
    && (EncodedPicture(s).Some? ==> EncodedPicture(s).value.frameNum == s.frameNum &&
                                    EncodedPicture(s).value.isIdr == s.pendingIdr)
  }

  function LastPicture(coded: seq<Coded>): Option<Picture> {
    if |coded| == 0 then None else Some(coded[|coded| - 1].picture)
  }

  /** The k-th coded frame: the first is the only IDR, each other one refers to its predecessor. */
  ghost predicate CodedInChain(c: Config, coded: seq<Coded>, k: nat)
    requires c.Valid() && k < |coded|
  {
    && coded[k].picture.isIdr == (k == 0)
    && coded[k].picture.frameNum == k % (MAX_FRAME_NUM + 1)
    && coded[k].reference == (if k == 0 then None else Some(coded[k - 1].picture))
    && coded[k].sequenceParam == SequenceParamFor(c)
  }

  ghost predicate Inv(c: Config, s: Session) {
    && c.Valid()
    && BuffersOwned(s.live, s.acquired) && FramesSized(c, s.live)
    && SurfacesOwned(s.surfaces, s.reference, EncodedPicture(s)) && ChainKept(c, s)
    && forall k :: 0 <= k < |s.coded| ==> CodedInChain(c, s.coded, k)
  }

  /** A frame taken from one slot to another, with the same buffer. */
  lemma MoveKeeps(live: map<Slot, Frame>, acquired: set<nat>, from: Slot, to: Slot, frame: Frame)
    requires BuffersOwned(live, acquired) && from in live && to !in live && frame.buffer == live[from].buffer
    ensures BuffersOwned((live - {from})[to := frame], acquired)
  {
    var live' := (live - {from})[to := frame];
    forall b | b in acquired
      ensures exists slot :: slot in live' && live'[slot].buffer == b
    {
      var slot :| slot in live && live[slot].buffer == b;
      assert live'[if slot == from then to else slot].buffer == b;
    }
  }

  lemma FreeKeeps(live: map<Slot, Frame>, acquired: set<nat>, slot: Slot)
    requires BuffersOwned(live, acquired) && slot in live
    ensures BuffersOwned(live - {slot}, acquired - {live[slot].buffer})
  {
    var live' := live - {slot};
    forall b | b in acquired - {live[slot].buffer}
      ensures exists other :: other in live' && live'[other].buffer == b
    {
      var other :| other in live && live[other].buffer == b;
      assert live'[other].buffer == b;
    }
  }

  lemma BeginKeeps(live: map<Slot, Frame>, acquired: set<nat>, frame: Frame)
    requires BuffersOwned(live, acquired) && Encoding !in live
    requires frame.buffer < N_BITSTREAM_BUFFERS && frame.buffer !in acquired
    ensures BuffersOwned(live[Encoding := frame], acquired + {frame.buffer})
  {
    var live' := live[Encoding := frame];
    forall b | b in acquired + {frame.buffer}
      ensures exists slot :: slot in live' && live'[slot].buffer == b
    {
      if b == frame.buffer {
        assert live'[Encoding].buffer == b;
      } else {
        var slot :| slot in live && live[slot].buffer == b;
        assert live'[slot].buffer == b;
      }
    }
  }

  lemma StepKeepsBuffers(c: Config, s: Session, step: Step)
    requires Inv(c, s) && Enabled(c, s, step)
    ensures BuffersOwned(Take(c, s, step).live, Take(c, s, step).acquired)
  {
    match step
    case Begin(buffer, surface) => BeginKeeps(s.live, s.acquired, Take(c, s, step).live[Encoding]);
    case Abandon(_, _) => FreeKeeps(s.live, s.acquired, Encoding);
    case Finish(view, _) => MoveKeeps(s.live, s.acquired, Encoding, Pending(view), Take(c, s, step).live[Pending(view)]);
    case LockBegin(view) => MoveKeeps(s.live, s.acquired, Pending(view), Locking(view), s.live[Pending(view)]);
    case LockFails(view) => FreeKeeps(s.live, s.acquired, Locking(view));
    case LockDone(view, bs) => MoveKeeps(s.live, s.acquired, Locking(view), Locked(bs), s.live[Locking(view)]);
    case UnlockBegin(bs) => MoveKeeps(s.live, s.acquired, Locked(bs), Unlocking(bs), s.live[Locked(bs)]);
    case UnlockDone(bs) => FreeKeeps(s.live, s.acquired, Unlocking(bs));
  }

  lemma StepKeepsSizes(c: Config, s: Session, step: Step)
    requires Inv(c, s) && Enabled(c, s, step)
    ensures FramesSized(c, Take(c, s, step).live)
  {
  }

  lemma StepKeepsSurfaces(c: Config, s: Session, step: Step)
    requires Inv(c, s) && Enabled(c, s, step)
    ensures var s' := Take(c, s, step); SurfacesOwned(s'.surfaces, s'.reference, EncodedPicture(s'))
  {
  }

  lemma StepKeepsChain(c: Config, s: Session, step: Step)
    requires Inv(c, s) && Enabled(c, s, step)
    ensures ChainKept(c, Take(c, s, step))
  {
    if step.Finish? {
      FrameNumAdvances(|s.coded|);
    }
  }

  lemma FrameNumAdvances(n: nat)
    ensures n % (MAX_FRAME_NUM + 1) < 0x1_0000
    ensures NextFrameNum(n % (MAX_FRAME_NUM + 1)) == (n + 1) % (MAX_FRAME_NUM + 1)
  {
    var q, r := n / 257, n % 257;
    if r < 256 {
      ModUnique(n + 1, 257, q, r + 1);
    } else {
      ModUnique(n + 1, 257, q + 1, 0);
    }
  }

  lemma StepKeepsCoded(c: Config, s: Session, step: Step)
    requires Inv(c, s) && Enabled(c, s, step)
    ensures forall k :: 0 <= k < |Take(c, s, step).coded| ==> CodedInChain(c, Take(c, s, step).coded, k)
  {
    var s' := Take(c, s, step);
    forall k | 0 <= k < |s'.coded|
      ensures CodedInChain(c, s'.coded, k)
    {
      if k < |s.coded| {
        assert CodedInChain(c, s.coded, k);
      }
    }
  }

  lemma StepKeepsInvariant(c: Config, s: Session, step: Step)
    requires Inv(c, s) && Enabled(c, s, step)
    ensures Inv(c, Take(c, s, step))
  {
    StepKeepsBuffers(c, s, step);
    StepKeepsSizes(c, s, step);
    StepKeepsSurfaces(c, s, step);
    StepKeepsChain(c, s, step);
    StepKeepsCoded(c, s, step);
  }

  /** Every state of every run from the start keeps the invariant. */
  lemma {:induction false} RunKeepsInvariant(c: Config, s: Session, steps: seq<Step>)
    requires Inv(c, s) && Run(c, s, steps)
    ensures Inv(c, After(c, s, steps))
    decreases |steps|
  {
    if |steps| > 0 {
      StepKeepsInvariant(c, s, steps[0]);
      RunKeepsInvariant(c, Take(c, s, steps[0]), steps[1..]);
    }
  }

  // ----- what follows at every reachable state

  ghost predicate Reachable(c: Config, s: Session) {
    c.Valid() && exists start: Session, steps :: Initial(start) && Run(c, start, steps) && s == After(c, start, steps)
  }

  lemma ReachableKeepsInvariant(c: Config, s: Session)
    requires Reachable(c, s)
    ensures Inv(c, s)
  {
    var start: Session, steps :| Initial(start) && Run(c, start, steps) && s == After(c, start, steps);
    RunKeepsInvariant(c, start, steps);
  }

  lemma {:induction false} RunOn(c: Config, s: Session, steps: seq<Step>, step: Step)
    requires Run(c, s, steps) && Enabled(c, After(c, s, steps), step)
    ensures Run(c, s, steps + [step]) && After(c, s, steps + [step]) == Take(c, After(c, s, steps), step)
    decreases |steps|
  {
    var longer := steps + [step];
    if |steps| == 0 {
      assert longer[1..] == [];
    } else {
      assert longer[1..] == steps[1..] + [step];
      RunOn(c, Take(c, s, steps[0]), steps[1..], step);
    }
  }

  lemma RunOnBoth(c: Config, s: Session, steps: seq<Step>, first: Step, second: Step)
    requires Run(c, s, steps) && BothEnabled(c, After(c, s, steps), first, second)
    ensures Run(c, s, steps + [first, second])
    ensures After(c, s, steps + [first, second]) == TakeBoth(c, After(c, s, steps), first, second)
  {
    RunOn(c, s, steps, first);
    RunOn(c, s, steps + [first], second);
    assert steps + [first, second] == steps + [first] + [second];
  }

  // ----- a whole call: two steps with nothing in between

  /** After an encode call that fails: only refilled parameters are left behind. */
  function AfterFailedEncode(c: Config, s: Session, surface: Surface, sequenceFilled: bool, pictureFilled: bool): Session
    requires c.Valid()
  {
    s.(sequenceParam := if sequenceFilled then SequenceFor(c, s) else s.sequenceParam,
       pictureParam := if pictureFilled then PictureParamFor(Picture(surface, s.frameNum, s.pendingIdr)) else s.pictureParam)
  }

  lemma FailedEncode(c: Config, s: Session, buffer: nat, surface: Surface, sequenceFilled: bool, pictureFilled: bool)
    requires Inv(c, s) && Enabled(c, s, Begin(buffer, surface))
    ensures BothEnabled(c, s, Begin(buffer, surface), Abandon(sequenceFilled, pictureFilled))
    ensures TakeBoth(c, s, Begin(buffer, surface), Abandon(sequenceFilled, pictureFilled)) ==
            AfterFailedEncode(c, s, surface, sequenceFilled, pictureFilled)
  {
    var begun := Take(c, s, Begin(buffer, surface));
    assert begun.live - {Encoding} == s.live;
    assert begun.acquired - {buffer} == s.acquired && begun.surfaces - {surface} == s.surfaces;
  }

  /** After an encode call that succeeds: the frame is pending, and its picture is the reference picture. */
  function AfterEncode(c: Config, s: Session, buffer: nat, surface: Surface, view: View, headerBits: nat): Session
    requires c.Valid()
  {
    var picture := Picture(surface, s.frameNum, s.pendingIdr);
    Session(s.live[Pending(view) := Frame(buffer, None, c.CodedSize(headerBits))], s.acquired + {buffer},
            (if s.reference.Some? then s.surfaces - {s.reference.value.surface} else s.surfaces) + {surface},
            Some(picture), NextFrameNum(s.frameNum), false, SequenceFor(c, s), PictureParamFor(picture),
            s.coded + [Coded(picture, s.reference, SequenceFor(c, s))])
  }

  lemma SucceededEncode(c: Config, s: Session, buffer: nat, surface: Surface, view: View, headerBits: nat)
    requires Inv(c, s) && Enabled(c, s, Begin(buffer, surface))
    requires Pending(view) !in s.live && headerBits <= 8 * MAX_HEADER_SIZE
    ensures BothEnabled(c, s, Begin(buffer, surface), Finish(view, headerBits))
    ensures TakeBoth(c, s, Begin(buffer, surface), Finish(view, headerBits)) ==
            AfterEncode(c, s, buffer, surface, view, headerBits)
  {
    var begun := Take(c, s, Begin(buffer, surface));
    assert begun.live - {Encoding} == s.live;
  }

  lemma LockMoves(c: Config, s: Session, view: View, b: Bitstream)
    requires c.Valid() && Pending(view) in s.live
    requires Locking(view) !in s.live && Locked(b) !in s.live && Unlocking(b) !in s.live
    ensures BothEnabled(c, s, LockBegin(view), LockDone(view, b))
    ensures TakeBoth(c, s, LockBegin(view), LockDone(view, b)) ==
            s.(live := (s.live - {Pending(view)})[Locked(b) := s.live[Pending(view)]])
  {
    assert Take(c, s, LockBegin(view)).live - {Locking(view)} == s.live - {Pending(view)};
  }

  lemma UnlockFrees(c: Config, s: Session, b: Bitstream)
    requires c.Valid() && Locked(b) in s.live && Unlocking(b) !in s.live && s.live[Locked(b)].picture.None?
    ensures BothEnabled(c, s, UnlockBegin(b), UnlockDone(b))
    ensures TakeBoth(c, s, UnlockBegin(b), UnlockDone(b)) ==
            s.(live := s.live - {Locked(b)}, acquired := s.acquired - {s.live[Locked(b)].buffer})
  {
    assert Take(c, s, UnlockBegin(b)).live - {Unlocking(b)} == s.live - {Locked(b)};
  }

  /** The buffer the driver writes a frame into holds its headers and 400 bytes for every block. */
  lemma PendingFrameHolds(c: Config, s: Session, buffer: nat, surface: Surface, view: View, headerBits: nat)
    requires Inv(c, s) && Enabled(c, s, Begin(buffer, surface))
    requires Pending(view) !in s.live && headerBits <= 8 * MAX_HEADER_SIZE
    ensures BothEnabled(c, s, Begin(buffer, surface), Finish(view, headerBits))
    ensures var s' := TakeBoth(c, s, Begin(buffer, surface), Finish(view, headerBits));
            && Pending(view) in s'.live && s'.live[Pending(view)].buffer == buffer
            && 8 * 400 * c.Macroblocks() + headerBits <= 8 * s'.live[Pending(view)].codedSize
            && s'.live[Pending(view)].codedSize <= c.DedicatedSize()
  {
    SucceededEncode(c, s, buffer, surface, view, headerBits);
    BufferSizes(c, headerBits);
  }

  /** Encoding, locking and unlocking a frame gives its buffer back: the live frames and the acquired buffers
      are as before, and only the chain has moved on. */
  lemma UnlockReturnsBuffer(c: Config, s: Session, buffer: nat, surface: Surface, view: View, headerBits: nat, b: Bitstream)
    requires Inv(c, s) && Enabled(c, s, Begin(buffer, surface)) && headerBits <= 8 * MAX_HEADER_SIZE
    requires Pending(view) !in s.live && Locking(view) !in s.live && Locked(b) !in s.live && Unlocking(b) !in s.live
    ensures BothEnabled(c, s, Begin(buffer, surface), Finish(view, headerBits))
    ensures var coded := TakeBoth(c, s, Begin(buffer, surface), Finish(view, headerBits));
            && BothEnabled(c, coded, LockBegin(view), LockDone(view, b))
            && var locked := TakeBoth(c, coded, LockBegin(view), LockDone(view, b));
               && BothEnabled(c, locked, UnlockBegin(b), UnlockDone(b))
               && TakeBoth(c, locked, UnlockBegin(b), UnlockDone(b)) ==
                  coded.(live := s.live, acquired := s.acquired)
  {
    SucceededEncode(c, s, buffer, surface, view, headerBits);
    var coded := AfterEncode(c, s, buffer, surface, view, headerBits);
    LockMoves(c, coded, view, b);
    var locked := coded.(live := (coded.live - {Pending(view)})[Locked(b) := coded.live[Pending(view)]]);
    UnlockFrees(c, locked, b);
    assert locked.live - {Locked(b)} == s.live;
    assert coded.acquired - {buffer} == s.acquired;
  }

  /** An encode call, as two more steps of a run. */
  lemma EncodeRunsOn(c: Config, start: Session, steps: seq<Step>, buffer: nat, surface: Surface, last: Step)
    requires c.Valid() && Initial(start) && Run(c, start, steps)
    requires Enabled(c, After(c, start, steps), Begin(buffer, surface))
    requires last.Abandon? || (last.Finish? && Pending(last.view) !in After(c, start, steps).live &&
                               last.headerBits <= 8 * MAX_HEADER_SIZE)
    ensures Run(c, start, steps + [Begin(buffer, surface), last])
    ensures After(c, start, steps + [Begin(buffer, surface), last]) ==
            var s := After(c, start, steps);
            if last.Finish? then AfterEncode(c, s, buffer, surface, last.view, last.headerBits)
            else AfterFailedEncode(c, s, surface, last.sequenceFilled, last.pictureFilled)
  {
    var s := After(c, start, steps);
    RunKeepsInvariant(c, start, steps);
    if last.Finish? {
      SucceededEncode(c, s, buffer, surface, last.view, last.headerBits);
    } else {
      FailedEncode(c, s, buffer, surface, last.sequenceFilled, last.pictureFilled);
    }
    RunOnBoth(c, start, steps, Begin(buffer, surface), last);
  }

  /** A lock call: the pending frame is locked, or freed. */
  lemma LockRunsOn(c: Config, start: Session, steps: seq<Step>, view: View, last: Step)
    requires c.Valid() && Initial(start) && Run(c, start, steps)
    requires Pending(view) in After(c, start, steps).live
    requires last == LockFails(view) ||
             (last.LockDone? && last.view == view && Locked(last.bitstream) !in After(c, start, steps).live &&
              Unlocking(last.bitstream) !in After(c, start, steps).live)
    requires Locking(view) !in After(c, start, steps).live
    ensures Run(c, start, steps + [LockBegin(view), last])
    ensures After(c, start, steps + [LockBegin(view), last]) ==
            var s := After(c, start, steps);
            if last.LockDone? then s.(live := (s.live - {Pending(view)})[Locked(last.bitstream) := s.live[Pending(view)]])
            else s.(live := s.live - {Pending(view)}, acquired := s.acquired - {s.live[Pending(view)].buffer})
  {
    var s := After(c, start, steps);
    RunKeepsInvariant(c, start, steps);
    var begun := Take(c, s, LockBegin(view));
    assert begun.live - {Locking(view)} == s.live - {Pending(view)};
    RunOnBoth(c, start, steps, LockBegin(view), last);
  }

  /** An unlock call: the locked frame is freed, whether or not the driver unmaps its buffer. */
  lemma UnlockRunsOn(c: Config, start: Session, steps: seq<Step>, b: Bitstream)
    requires c.Valid() && Initial(start) && Run(c, start, steps)
    requires Locked(b) in After(c, start, steps).live && Unlocking(b) !in After(c, start, steps).live
    ensures Run(c, start, steps + [UnlockBegin(b), UnlockDone(b)])
    ensures After(c, start, steps + [UnlockBegin(b), UnlockDone(b)]) ==
            var s := After(c, start, steps);
            s.(live := s.live - {Locked(b)}, acquired := s.acquired - {s.live[Locked(b)].buffer})
  {
    var s := After(c, start, steps);
    RunKeepsInvariant(c, start, steps);
    UnlockFrees(c, s, b);
    RunOnBoth(c, start, steps, UnlockBegin(b), UnlockDone(b));
  }

  /** As many buffers are acquired as frames are live. */
  lemma {:induction false} OneBufferEach(live: map<Slot, Frame>, acquired: set<nat>)
    requires BuffersOwned(live, acquired)
    ensures |acquired| == |live|
    decreases |live|
  {
    if live != map[] {
      var slot :| slot in live;
      FreeKeeps(live, acquired, slot);
      OneBufferEach(live - {slot}, acquired - {live[slot].buffer});
      assert |live - {slot}| == |live| - 1 by {
        assert (live - {slot}).Keys == live.Keys - {slot};
      }
    } else {
      assert acquired == {};
    }
  }

  lemma PoolSize(acquired: set<nat>)
    requires forall b :: b in acquired ==> b < N_BITSTREAM_BUFFERS
    ensures (exists b: nat :: b < N_BITSTREAM_BUFFERS && b !in acquired) <==> |acquired| < N_BITSTREAM_BUFFERS
  {
    var pool := {0, 1, 2, 3};
    assert |pool| == 4;
    if b: nat :| b < N_BITSTREAM_BUFFERS && b !in acquired {
      assert b in pool && acquired <= pool - {b};
      SubsetSize(acquired, pool - {b});
    } else {
      assert acquired == pool;
    }
  }

  /** acquire_dedicated_bitstream_buffer finds a buffer exactly when fewer than four frames are live. */
  lemma AcquireSucceedsIff(c: Config, s: Session)
    requires Reachable(c, s)
    ensures (exists b: nat :: b < N_BITSTREAM_BUFFERS && b !in s.acquired) <==> |s.live| < N_BITSTREAM_BUFFERS
  {
    ReachableKeepsInvariant(c, s);
    OneBufferEach(s.live, s.acquired);
    PoolSize(s.acquired);
  }

  lemma {:induction false} SubsetSize(a: set<nat>, b: set<nat>)
    requires a <= b
    ensures |a| <= |b|
    decreases a
  {
    if a != {} {
      var x :| x in a;
      SubsetSize(a - {x}, b - {x});
    }
  }

  /** A frame that is not IDR has a reference picture, whose surface still exists and is not its own:
      the assertions on the reference hold, and only the first frame the driver accepts is IDR. */
  lemma ReferenceIsThere(c: Config, s: Session)
    requires Reachable(c, s) && EncodedPicture(s).Some?
    ensures EncodedPicture(s).value.isIdr <==> s.coded == []
    ensures !EncodedPicture(s).value.isIdr ==>
              && s.reference == Some(s.coded[|s.coded| - 1].picture)
              && s.reference.value.surface in s.surfaces
              && s.reference.value.surface != EncodedPicture(s).value.surface
  {
    ReachableKeepsInvariant(c, s);
  }

  // ----- the counter against section 7.4.3 of Rec. ITU-T H.264

  /** The frame_num a decoder reads for the k-th frame. */
  function ParsedFrameNum(k: nat): nat {
    k % (MAX_FRAME_NUM + 1) % MAX_FRAME_NUM
  }

  /** Without gaps, frame_num must follow that of the preceding reference frame. The source violates this
      exactly when its counter has wrapped from 256 to 0. */
  lemma FrameNumFollowsIff(k: nat)
    requires k > 0
    ensures ParsedFrameNum(k) == (ParsedFrameNum(k - 1) + 1) % MAX_FRAME_NUM <==> k % (MAX_FRAME_NUM + 1) != 0
  {
    var r := (k - 1) % 257;
    FrameNumAdvances(k - 1);
    assert k % 257 == if r == 256 then 0 else r + 1;
  }

  /** And frame_num is the number of frames since the IDR frame, modulo MaxFrameNum, exactly in every
      256-th round of the counter. */
  lemma FrameNumCountsIff(k: nat)
    ensures ParsedFrameNum(k) == k % MAX_FRAME_NUM <==> k / (MAX_FRAME_NUM + 1) % MAX_FRAME_NUM == 0
  {
    var q, r := k / (MAX_FRAME_NUM + 1), k % (MAX_FRAME_NUM + 1);
    assert k == q * MAX_FRAME_NUM + (q + r);
    assert k % MAX_FRAME_NUM == (q + r) % MAX_FRAME_NUM;
  }

  /** The 257th frame after the IDR frame shows both: its number repeats that of its predecessor. */
  lemma FrameNumRepeats()
    ensures ParsedFrameNum(256) == ParsedFrameNum(257) == 0
  {
  }

  // ----- sessions of any length

  lemma ReachesBoth(c: Config, s: Session, first: Step, second: Step)
    requires Reachable(c, s) && BothEnabled(c, s, first, second)
    ensures Reachable(c, TakeBoth(c, s, first, second))
  {
    var start: Session, steps :| Initial(start) && Run(c, start, steps) && s == After(c, start, steps);
    RunOnBoth(c, start, steps, first, second);
    assert TakeBoth(c, s, first, second) == After(c, start, steps + [first, second]);
  }

  /** One frame more: encoded, locked and unlocked. */
  lemma OneFrameMore(c: Config, s: Session) returns (s': Session)
    requires Reachable(c, s) && s.live == map[]
    ensures Reachable(c, s') && s'.live == map[] && |s'.coded| == |s.coded| + 1 && s'.coded[..|s.coded|] == s.coded
  {
    ReachableKeepsInvariant(c, s);
    var surface := if s.reference.Some? && s.reference.value.surface == 0 then 1 else 0;
    assert s.acquired == {} && surface !in s.surfaces && EncodedPicture(s).None?;
    UnlockReturnsBuffer(c, s, 0, surface, 0, 0, 0);
    SucceededEncode(c, s, 0, surface, 0, 0);
    var coded := TakeBoth(c, s, Begin(0, surface), Finish(0, 0));
    var locked := TakeBoth(c, coded, LockBegin(0), LockDone(0, 0));
    s' := TakeBoth(c, locked, UnlockBegin(0), UnlockDone(0));
    ReachesBoth(c, s, Begin(0, surface), Finish(0, 0));
    ReachesBoth(c, coded, LockBegin(0), LockDone(0, 0));
    ReachesBoth(c, locked, UnlockBegin(0), UnlockDone(0));
  }

  /** However many frames, some session codes that many. */
  lemma {:induction false} SessionOfLength(c: Config, n: nat) returns (s: Session)
    requires c.Valid()
    ensures Reachable(c, s) && s.live == map[] && |s.coded| == n
    decreases n
  {
    if n == 0 {
      s := Session(map[], {}, {}, None, 0, true, SequenceParamFor(c), PictureParamFor(Picture(0, 0, true)), []);
      assert Run(c, s, []) && After(c, s, []) == s;
    } else {
      s := SessionOfLength(c, n - 1);
      s := OneFrameMore(c, s);
    }
  }
}
