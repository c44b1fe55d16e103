/** The encode session object of src/grd-encode-session-vaapi.c: its tables, its buffers and its calls.
    Every call is a pair of steps of the runs in EncodeRuns, whichever driver call fails. */
module EncodeSession {
  import opened Words
  import opened BitStream
  import opened BitWriter
  import opened H264Syntax
  import opened NalWriter
  import opened Options
  import opened EncodeRuns
  import opened EncodedStream

  /** The driver calls of one frame, in the order they are made. */
  datatype Stage = CreateSurface | AudBuffers | SequenceBuffers | QualityLevel | SubMbPartPel | PictureSetBuffers
                 | SliceBuffers | CodedBuffer | PictureBuffer | Render

  /** A locked bitstream: the single segment the driver mapped, or segments combined in the dedicated buffer. */
  datatype Output = Mapped(bytes: seq<U8>) | Combined(size: nat)

  datatype LockedFrame = LockedFrame(frame: Frame, output: Output)

  function Flat(segments: seq<seq<U8>>): seq<U8> {
    if |segments| == 0 then [] else Flat(segments[..|segments| - 1]) + segments[|segments| - 1]
  }

  /** Segments lie one after another, each in whole. */
  lemma {:induction false} FlatJoins(before: seq<seq<U8>>, segment: seq<U8>, after: seq<seq<U8>>)
    ensures Flat([]) == [] && Flat([segment]) == segment
    ensures Flat(before + [segment] + after) == Flat(before) + segment + Flat(after)
    decreases |after|
  {
    assert [segment][..0] == [];
    var all := before + [segment] + after;
    var n := |after|;
    if n == 0 {
      assert all[..|all| - 1] == before;
    } else {
      assert all[..|all| - 1] == before + [segment] + after[..n - 1] && all[|all| - 1] == after[n - 1];
      FlatJoins(before, segment, after[..n - 1]);
    }
  }

  /** Mentioning a slot brings up what is known of its frame. */
  predicate Known(slot: Slot) { true }

  /** The live frames are those of the two tables. */
  ghost predicate InTables(live: map<Slot, Frame>, pending: map<View, Frame>, locked: map<Bitstream, LockedFrame>) {
    && (forall slot {:trigger Known(slot)} :: Known(slot) && slot in live ==>
          && (slot.Pending? ==> slot.view in pending && live[slot] == pending[slot.view])
          && (slot.Locked? ==> slot.bitstream in locked && live[slot] == locked[slot.bitstream].frame)
          && (slot.Pending? || slot.Locked?))
    && (forall v {:trigger Known(Pending(v))} :: Known(Pending(v)) && v in pending ==> Pending(v) in live)
    && (forall b {:trigger Known(Locked(b))} :: Known(Locked(b)) && b in locked ==> Locked(b) in live)
  }

  lemma PendingRemoved(live: map<Slot, Frame>, pending: map<View, Frame>, locked: map<Bitstream, LockedFrame>, view: View)
    requires InTables(live, pending, locked)
    ensures InTables(live - {Pending(view)}, pending - {view}, locked)
  {
  }

  lemma LockedRemoved(live: map<Slot, Frame>, pending: map<View, Frame>, locked: map<Bitstream, LockedFrame>, b: Bitstream)
    requires InTables(live, pending, locked)
    ensures InTables(live - {Locked(b)}, pending, locked - {b})
  {
  }

  lemma NothingLive(pending: map<View, Frame>, locked: map<Bitstream, LockedFrame>)
    requires InTables(map[], pending, locked)
    ensures pending == map[] && locked == map[]
  {
    assert forall v :: v in pending ==> Known(Pending(v));
    assert forall b :: b in locked ==> Known(Locked(b));
  }

  lemma {:induction false} TablesSize(live: map<Slot, Frame>, pending: map<View, Frame>, locked: map<Bitstream, LockedFrame>)
    requires InTables(live, pending, locked)
    ensures |live| == |pending| + |locked|
    decreases |live|
  {
    if live == map[] {
      NothingLive(pending, locked);
    } else {
      var slot :| slot in live;
      assert Known(slot);
      OneLess(live, slot);
      match slot
      case Pending(view) =>
        OneLess(pending, view);
        PendingRemoved(live, pending, locked, view);
        TablesSize(live - {slot}, pending - {view}, locked);
      case Locked(b) =>
        OneLess(locked, b);
        LockedRemoved(live, pending, locked, b);
        TablesSize(live - {slot}, pending, locked - {b});
      case _ =>
    }
  }

  lemma PendingAdded(live: map<Slot, Frame>, pending: map<View, Frame>, locked: map<Bitstream, LockedFrame>,
                     view: View, frame: Frame)
    requires InTables(live, pending, locked)
    ensures InTables(live[Pending(view) := frame], pending[view := frame], locked)
  {
  }

  lemma MovedToLocked(live: map<Slot, Frame>, pending: map<View, Frame>, locked: map<Bitstream, LockedFrame>,
                      view: View, b: Bitstream, l: LockedFrame)
    requires InTables(live, pending, locked)
    ensures InTables((live - {Pending(view)})[Locked(b) := l.frame], pending - {view}, locked[b := l])
  {
  }

  lemma OneLess<K, V>(m: map<K, V>, k: K)
    requires k in m
    ensures |m - {k}| == |m| - 1
  {
    assert (m - {k}).Keys == m.Keys - {k};
  }

  /** combine_bitstream_segments. Its assertion holds at every segment exactly when they all fit together. */
  method CombineBitstreamSegments(dedicated: array<U8>, segments: seq<seq<U8>>) returns (fits: bool, size: nat)
    modifies dedicated
    ensures fits <==> |Flat(segments)| <= dedicated.Length
    ensures fits ==> size == |Flat(segments)| && dedicated[..size] == Flat(segments)
  {
    size := 0;
    var i := 0;
    while i < |segments|
      invariant 0 <= i <= |segments| && size == |Flat(segments[..i])| <= dedicated.Length
      invariant dedicated[..size] == Flat(segments[..i])
    {
      var segment := segments[i];
      assert segments[..i + 1][..i] == segments[..i];
      if size + |segment| > dedicated.Length {
        FlatGrows(segments, i + 1);
        return false, size;
      }
      forall k | 0 <= k < |segment| {
        dedicated[size + k] := segment[k];
      }
      size := size + |segment|;
      i := i + 1;
    }
    assert segments[..|segments|] == segments;
    return true, size;
  }

  lemma {:induction false} FlatGrows(segments: seq<seq<U8>>, n: nat)
    requires n <= |segments|
    ensures |Flat(segments[..n])| <= |Flat(segments)|
    decreases |segments|
  {
    if n < |segments| {
      FlatGrows(segments[..|segments| - 1], n);
      assert segments[..|segments| - 1][..n] == segments[..n];
    } else {
      assert segments[..n] == segments;
    }
  }

  class EncodeSession {
    const config: Config
    const supportsQualityLevel: bool
    const dedicatedBuffers: seq<array<U8>>

    var acquired: set<nat>  // indices of dedicated buffers
    var reference: Option<Picture>
    var frameNum: U16
    var pendingIdrFrame: bool
    var sequenceParam: SequenceParam
    var pictureParam: PictureParam
    var pendingFrames: map<View, Frame>
    var bitstreams: map<Bitstream, LockedFrame>

    ghost var live: map<Slot, Frame>
    ghost var surfaces: set<Surface>  // reconstruction surfaces that exist in the driver
    ghost var coded: seq<Coded>       // the frames the driver accepted
    ghost var units: seq<AccessUnit>  // and their headers
    ghost const start: Session
    ghost var steps: seq<Step>        // the run so far

    ghost function Abs(): Session
      reads this
    {
      Session(live, acquired, surfaces, reference, frameNum, pendingIdrFrame,
              sequenceParam, pictureParam, coded)
    }

    ghost predicate BuffersMade() {
      && |dedicatedBuffers| == N_BITSTREAM_BUFFERS
      && (forall i :: 0 <= i < |dedicatedBuffers| ==> dedicatedBuffers[i].Length == config.DedicatedSize())
      && (forall i, j :: 0 <= i < j < |dedicatedBuffers| ==> dedicatedBuffers[i] != dedicatedBuffers[j])
    }

    ghost predicate OutputsFit()
      reads this`bitstreams
    {
      forall b :: b in bitstreams && bitstreams[b].output.Combined? ==>
        bitstreams[b].output.size <= config.DedicatedSize() && bitstreams[b].frame.buffer < N_BITSTREAM_BUFFERS
    }

    ghost predicate TablesKept()
      reads this`pendingFrames, this`bitstreams, this`live
    {
      BuffersMade() && OutputsFit() && InTables(live, pendingFrames, bitstreams)
    }

    ghost predicate HeadersKept()
      reads this`units, this`coded
    {
      HeadersOfAll(units, coded)
    }

    /** The run so far leads to the object's state. */
    ghost predicate OnRun()
      reads this
    {
      config.Valid() && Initial(start) && Run(config, start, steps) && Abs() == After(config, start, steps)
    }

    ghost predicate Valid()
      reads this
    {
      TablesKept() && HeadersKept() && OnRun()
    }

    /** The bytes the caller reads from a locked bitstream. */
    ghost function Data(b: Bitstream): seq<U8>
      requires BuffersMade() && OutputsFit() && b in bitstreams
      reads this`bitstreams, dedicatedBuffers
    {
      match bitstreams[b].output
      case Mapped(bytes) => bytes
      case Combined(size) => dedicatedBuffers[bitstreams[b].frame.buffer][..size]
    }

    /** Room for one more frame: at most four are pending or locked at a time. */
    predicate BufferFree()
      reads this
    {
      |pendingFrames| + |bitstreams| < N_BITSTREAM_BUFFERS
    }

    constructor (config: Config, supportsQualityLevel: bool, sequenceParam: SequenceParam, pictureParam: PictureParam)
      requires config.Valid()
      ensures Valid() && this.config == config
      ensures pendingFrames == map[] && bitstreams == map[] && coded == [] && surfaces == {}
      ensures steps == [] && fresh(dedicatedBuffers)
    {
      var buffers: seq<array<U8>> := [];
      while |buffers| < N_BITSTREAM_BUFFERS
        invariant |buffers| <= N_BITSTREAM_BUFFERS && fresh(buffers)
        invariant forall i :: 0 <= i < |buffers| ==> buffers[i].Length == config.DedicatedSize()
        invariant forall i, j :: 0 <= i < j < |buffers| ==> buffers[i] != buffers[j]
      {
        var buffer := new U8[config.DedicatedSize()];
        buffers := buffers + [buffer];
      }
      this.config, this.supportsQualityLevel, dedicatedBuffers := config, supportsQualityLevel, buffers;
      acquired, reference, frameNum, pendingIdrFrame := {}, None, 0, true;
      this.sequenceParam, this.pictureParam := sequenceParam, pictureParam;
      pendingFrames, bitstreams := map[], map[];
      live, surfaces, coded, units, steps := map[], {}, [], [], [];
      start := Session(map[], {}, {}, None, 0, true, sequenceParam, pictureParam, []);
    }

    method AcquireDedicatedBitstreamBuffer() returns (buffer: nat)
      requires forall b :: b in acquired ==> b < N_BITSTREAM_BUFFERS
      requires |acquired| < N_BITSTREAM_BUFFERS
      modifies this`acquired
      ensures buffer < N_BITSTREAM_BUFFERS && buffer !in old(acquired) && acquired == old(acquired) + {buffer}
      ensures forall i: nat :: i < buffer ==> i in old(acquired)
    {
      PoolSize(acquired);
      buffer := 0;
      while buffer in acquired
        invariant forall i: nat :: i < buffer ==> i in acquired
        invariant buffer <= N_BITSTREAM_BUFFERS
        decreases N_BITSTREAM_BUFFERS - buffer
      {
        buffer := buffer + 1;
      }
      acquired := acquired + {buffer};
    }

    method EnsureAccessUnitDelimiter(fails: set<Stage>) returns (ok: bool, length: nat, ghost nal: Stream)
      ensures ok == (AudBuffers !in fails) && length <= AUD_MAX_BITS && IsAud(nal) && length == |Flatten(nal)|
    {
      var header, bits := GetAudBitstream();
      InMemoryLength(header, bits);
      return AudBuffers !in fails, bits, InMemory(header, bits);
    }

    method MaybeEnsureSequence(picture: Picture, fails: set<Stage>) returns (ok: bool, length: nat, ghost nal: Option<Stream>)
      requires config.Valid()
      modifies this`sequenceParam
      ensures sequenceParam == if picture.isIdr then SequenceParamFor(config) else old(sequenceParam)
      ensures ok == (!picture.isIdr || SequenceBuffers !in fails) && length <= SPS_MAX_BITS
      ensures ok ==> nal.Some? == picture.isIdr && (picture.isIdr ==> IsSps(nal.value, sequenceParam))
      ensures ok ==> length == if nal.Some? then |Flatten(nal.value)| else 0
    {
      if !picture.isIdr {
        return true, 0, None;
      }
      sequenceParam := SequenceParamFor(config);
      if SequenceBuffers in fails {
        return false, 0, None;
      }
      var header, bits := GetSpsBitstream(sequenceParam);
      InMemoryLength(header, bits);
      return true, bits, Some(InMemory(header, bits));
    }

    method PreparePicture(picture: Picture, fails: set<Stage>) returns (ok: bool, length: nat, ghost nal: Option<Stream>)
      requires !picture.isIdr ==> reference.Some?
      modifies this`pictureParam
      ensures pictureParam == PictureParamFor(picture)
      ensures ok == (!picture.isIdr || PictureSetBuffers !in fails) && length <= PPS_MAX_BITS
      ensures ok ==> nal.Some? == picture.isIdr && (picture.isIdr ==> IsPps(nal.value, pictureParam))
      ensures ok ==> length == if nal.Some? then |Flatten(nal.value)| else 0
    {
      pictureParam := PictureParamFor(picture);
      if !picture.isIdr {
        return true, 0, None;
      }
      if PictureSetBuffers in fails {
        return false, 0, None;
      }
      var header, bits := GetPpsBitstream(pictureParam);
      InMemoryLength(header, bits);
      return true, bits, Some(InMemory(header, bits));
    }

    method EnsureSlice(picture: Picture) returns (length: nat, ghost nal: Stream)
      requires !picture.isIdr ==> reference.Some?
      requires SliceWritable(SliceParamFor(picture), sequenceParam, pictureParam)
      ensures length <= SLICE_MAX_BITS && IsSlice(nal, SliceParamFor(picture), sequenceParam, pictureParam)
      ensures length == |Flatten(nal)|
    {
      var header, bits := GetSliceHeaderBitstream(SliceParamFor(picture), sequenceParam, pictureParam);
      InMemoryLength(header, bits);
      return bits, InMemory(header, bits);
    }

    /** Whether the sequence, and the picture parameters are refilled before the first failing call, and
        whether all calls succeed. */
    predicate SequenceReached(fails: set<Stage>) {
      CreateSurface !in fails && AudBuffers !in fails
    }

    predicate PictureReached(idr: bool, fails: set<Stage>) {
      && SequenceReached(fails) && SubMbPartPel !in fails && (idr ==> SequenceBuffers !in fails)
      && (idr && supportsQualityLevel ==> QualityLevel !in fails)
    }

    predicate AllSucceed(idr: bool, fails: set<Stage>) {
      && PictureReached(idr, fails) && (idr ==> PictureSetBuffers !in fails)
      && SliceBuffers !in fails && CodedBuffer !in fails && PictureBuffer !in fails && Render !in fails
    }

    /** A frame is encoded exactly if no driver call fails; which ones there are depends on the frame and on
        whether the driver has quality levels. */
    lemma SucceedsIff(idr: bool, fails: set<Stage>)
      ensures AllSucceed(idr, fails) <==>
              fails !! {CreateSurface, AudBuffers, SubMbPartPel, SliceBuffers, CodedBuffer, PictureBuffer, Render} &&
              (idr ==> fails !! {SequenceBuffers, PictureSetBuffers}) &&
              (idr && supportsQualityLevel ==> QualityLevel !in fails)
      ensures PictureReached(idr, fails) <==>
              fails !! {CreateSurface, AudBuffers, SubMbPartPel} && (idr ==> SequenceBuffers !in fails) &&
              (idr && supportsQualityLevel ==> QualityLevel !in fails)
      ensures SequenceReached(fails) <==> fails !! {CreateSurface, AudBuffers}
    {
    }

    ghost method RecordHeaders(picture: Picture, unit: AccessUnit)
      requires HeadersKept() && HeadersOf(unit, sequenceParam, picture)
      modifies this`units, this`coded
      ensures HeadersKept()
      ensures coded == old(coded) + [Coded(picture, reference, sequenceParam)] && units == old(units) + [unit]
    {
      HeadersOfOneMore(units, coded, unit, Coded(picture, reference, sequenceParam));
      units, coded := units + [unit], coded + [Coded(picture, reference, sequenceParam)];
    }

    /** The parameters and headers of a frame, and the driver calls between them. */
    method WriteHeaders(picture: Picture, fails: set<Stage>)
      returns (ok: bool, headerBits: nat, ghost unit: AccessUnit)
      requires config.Valid() && CreateSurface !in fails
      requires !picture.isIdr ==> reference.Some? && sequenceParam == SequenceParamFor(config)
      modifies this`sequenceParam, this`pictureParam
      ensures ok == AllSucceed(picture.isIdr, fails)
      ensures sequenceParam == if picture.isIdr && SequenceReached(fails) then SequenceParamFor(config) else old(sequenceParam)
      ensures pictureParam == if PictureReached(picture.isIdr, fails) then PictureParamFor(picture) else old(pictureParam)
      ensures headerBits <= 8 * MAX_HEADER_SIZE && (ok ==> HeadersOf(unit, sequenceParam, picture))
      ensures ok ==> headerBits == HeaderBits(unit)
    {
      unit := AccessUnit(End, None, None, End);
      var audOk, aud, audNal := EnsureAccessUnitDelimiter(fails);
      if !audOk { return false, 0, unit; }
      var sequenceOk, sequence, sequenceNal := MaybeEnsureSequence(picture, fails);
      if !sequenceOk { return false, 0, unit; }
      if picture.isIdr && supportsQualityLevel && QualityLevel in fails { return false, 0, unit; }
      if SubMbPartPel in fails { return false, 0, unit; }
      var pictureOk, pictureSet, pictureNal := PreparePicture(picture, fails);
      if !pictureOk { return false, 0, unit; }
      if SliceBuffers in fails { return false, 0, unit; }
      var slice, sliceNal := EnsureSlice(picture);
      if CodedBuffer in fails || PictureBuffer in fails || Render in fails { return false, 0, unit; }
      return true, aud + sequence + pictureSet + slice, AccessUnit(audNal, sequenceNal, pictureNal, sliceNal);
    }

    /** encode_frame after the frame has been made. */
    method EncodePicture(picture: Picture, fails: set<Stage>) returns (ok: bool, headerBits: nat)
      requires config.Valid() && CreateSurface !in fails && HeadersKept()
      requires !picture.isIdr ==> reference.Some? && sequenceParam == SequenceParamFor(config)
      modifies this`sequenceParam, this`pictureParam, this`units, this`coded
      ensures ok == AllSucceed(picture.isIdr, fails)
      ensures sequenceParam == if picture.isIdr && SequenceReached(fails) then SequenceParamFor(config) else old(sequenceParam)
      ensures pictureParam == if PictureReached(picture.isIdr, fails) then PictureParamFor(picture) else old(pictureParam)
      ensures headerBits <= 8 * MAX_HEADER_SIZE && HeadersKept()
      ensures coded == if ok then old(coded) + [Coded(picture, reference, sequenceParam)] else old(coded)
      ensures if ok then |units| > 0 && units[..|units| - 1] == old(units) && LastHeaderBits(units, headerBits)
              else units == old(units)
    {
      ghost var unit;
      ok, headerBits, unit := WriteHeaders(picture, fails);
      if ok {
        RecordHeaders(picture, unit);
      }
    }

    lemma RoomForFrame()
      requires Valid() && BufferFree()
      ensures |acquired| < N_BITSTREAM_BUFFERS && forall b :: b in acquired ==> b < N_BITSTREAM_BUFFERS
      ensures pendingIdrFrame <==> reference.None?
      ensures reference.Some? ==> sequenceParam == SequenceParamFor(config)
    {
      RunKeepsInvariant(config, start, steps);
      TablesSize(live, pendingFrames, bitstreams);
      OneBufferEach(live, acquired);
    }

    method EncodeAndSubmit(view: View, surface: Surface, fails: set<Stage>)
      returns (ok: bool, buffer: nat, headerBits: nat)
      requires config.Valid() && |acquired| < N_BITSTREAM_BUFFERS && HeadersKept()
      requires forall b :: b in acquired ==> b < N_BITSTREAM_BUFFERS
      requires pendingIdrFrame <==> reference.None?
      requires reference.Some? ==> sequenceParam == SequenceParamFor(config)
      modifies this`acquired, this`reference, this`frameNum, this`pendingIdrFrame, this`sequenceParam, this`pictureParam,
               this`pendingFrames, this`live, this`surfaces, this`coded, this`units
      ensures HeadersKept()
      ensures buffer < N_BITSTREAM_BUFFERS && buffer !in old(acquired) && headerBits <= 8 * MAX_HEADER_SIZE
      ensures ok == AllSucceed(old(pendingIdrFrame), fails)
      ensures Abs() == if ok then AfterEncode(config, old(Abs()), buffer, surface, view, headerBits)
                       else AfterFailedEncode(config, old(Abs()), surface, SequenceReached(fails),
                                              PictureReached(old(pendingIdrFrame), fails))
      ensures pendingFrames == if ok then old(pendingFrames)[view := Frame(buffer, None, config.CodedSize(headerBits))]
                               else old(pendingFrames)
      ensures if ok then |units| > 0 && units[..|units| - 1] == old(units) && LastHeaderBits(units, headerBits)
              else units == old(units)
    {
      buffer := AcquireDedicatedBitstreamBuffer();
      var picture := Picture(surface, frameNum, pendingIdrFrame);
      if CreateSurface in fails {
        ok, headerBits := false, 0;
      } else {
        ok, headerBits := EncodePicture(picture, fails);
      }
      if !ok {
        acquired := acquired - {buffer};
        return;
      }
      Submit(view, buffer, picture, headerBits);
    }

    method Submit(view: View, buffer: nat, picture: Picture, headerBits: nat)
      modifies this`pendingFrames, this`live, this`surfaces, this`reference, this`frameNum, this`pendingIdrFrame
      ensures var frame := Frame(buffer, None, config.CodedSize(headerBits));
              pendingFrames == old(pendingFrames)[view := frame] && live == old(live)[Pending(view) := frame]
      ensures reference == Some(picture) && frameNum == NextFrameNum(old(frameNum)) && !pendingIdrFrame
      ensures surfaces == (if old(reference).Some? then old(surfaces) - {old(reference).value.surface} else old(surfaces))
                          + {picture.surface}
    {
      var frame := Frame(buffer, None, config.CodedSize(headerBits));
      pendingFrames, live := pendingFrames[view := frame], live[Pending(view) := frame];
      PrepareNextFrame(picture);
    }

    /** Encode one frame of a view that is not pending; `surface` is what the driver returns for its
        reconstructed picture, `fails` the driver calls that fail. */
    method EncodeFrame(view: View, surface: Surface, fails: set<Stage>)
      returns (ok: bool, buffer: nat, headerBits: nat)
      requires Valid() && view !in pendingFrames && BufferFree() && surface !in surfaces
      modifies this`acquired, this`reference, this`frameNum, this`pendingIdrFrame, this`sequenceParam, this`pictureParam,
               this`pendingFrames, this`live, this`surfaces, this`coded, this`units, this`steps
      ensures Valid()
      ensures ok == AllSucceed(old(pendingIdrFrame), fails)
      ensures steps == old(steps) + [Begin(buffer, surface),
                                     if ok then Finish(view, headerBits)
                                     else Abandon(SequenceReached(fails), PictureReached(old(pendingIdrFrame), fails))]
      ensures if ok then |units| > 0 && units[..|units| - 1] == old(units) && LastHeaderBits(units, headerBits)
              else units == old(units)
    {
      assert Known(Encoding) && Known(Pending(view));
      RoomForFrame();
      ghost var before, idr := Abs(), pendingIdrFrame;
      ok, buffer, headerBits := EncodeAndSubmit(view, surface, fails);
      ghost var last := if ok then Finish(view, headerBits) else Abandon(SequenceReached(fails), PictureReached(idr, fails));
      assert TablesKept() by {
        PendingAdded(old(live), old(pendingFrames), bitstreams, view, Frame(buffer, None, config.CodedSize(headerBits)));
      }
      RecordEncode(before, buffer, surface, last);
    }

    ghost method RecordEncode(before: Session, buffer: nat, surface: Surface, last: Step)
      requires config.Valid() && Initial(start) && Run(config, start, steps) && before == After(config, start, steps)
      requires Enabled(config, before, Begin(buffer, surface))
      requires last.Abandon? || (last.Finish? && Pending(last.view) !in before.live && last.headerBits <= 8 * MAX_HEADER_SIZE)
      requires Abs() == if last.Finish? then AfterEncode(config, before, buffer, surface, last.view, last.headerBits)
                        else AfterFailedEncode(config, before, surface, last.sequenceFilled, last.pictureFilled)
      modifies this`steps
      ensures steps == old(steps) + [Begin(buffer, surface), last]
      ensures OnRun()
    {
      EncodeRunsOn(config, start, steps, buffer, surface, last);
      steps := steps + [Begin(buffer, surface), last];
    }

    /** The reconstruction becomes the reference picture; the old reference picture is destroyed. */
    method PrepareNextFrame(picture: Picture)
      modifies this`surfaces, this`reference, this`frameNum, this`pendingIdrFrame
      ensures reference == Some(picture) && frameNum == NextFrameNum(old(frameNum)) && !pendingIdrFrame
      ensures surfaces == (if old(reference).Some? then old(surfaces) - {old(reference).value.surface} else old(surfaces))
                          + {picture.surface}
    {
      if reference.Some? {
        surfaces := surfaces - {reference.value.surface};
      }
      surfaces := surfaces + {picture.surface};
      reference := Some(picture);
      frameNum := (frameNum + 1) % 0x1_0000;
      frameNum := frameNum % (MAX_FRAME_NUM + 1);
      pendingIdrFrame := false;
    }

    /** What locking or unlocking one frame relies on: its buffer is no other frame's, and is large enough. */
    lemma OwnBuffer(slot: Slot)
      requires Valid() && slot in live
      ensures live[slot].buffer < N_BITSTREAM_BUFFERS && live[slot].codedSize <= config.DedicatedSize()
      ensures live[slot].buffer in acquired
      ensures forall b :: b in bitstreams && Locked(b) != slot ==> bitstreams[b].frame.buffer != live[slot].buffer
    {
      RunKeepsInvariant(config, start, steps);
      forall b | b in bitstreams && Locked(b) != slot
        ensures bitstreams[b].frame.buffer != live[slot].buffer
      {
        assert Known(Locked(b)) && Locked(b) in live && live[Locked(b)] == bitstreams[b].frame;
      }
    }

    /** get_bitstream, once the coded buffer is mapped. */
    method GetBitstream(frame: Frame, segments: seq<seq<U8>>) returns (output: Output)
      requires BuffersMade() && frame.buffer < N_BITSTREAM_BUFFERS
      requires |segments| > 0 && |Flat(segments)| <= config.DedicatedSize()
      modifies dedicatedBuffers[frame.buffer]
      ensures match output
              case Mapped(bytes) => bytes == Flat(segments)
              case Combined(size) =>
                size == |Flat(segments)| && dedicatedBuffers[frame.buffer][..size] == Flat(segments)
    {
      if |segments| == 1 {
        assert segments[..0] == [];
        return Mapped(segments[0]);
      }
      var _, size := CombineBitstreamSegments(dedicatedBuffers[frame.buffer], segments);
      return Combined(size);
    }

    /** Every locked bitstream still reads as before, but for the given ones. */
    twostate predicate DataKept(but: set<Bitstream>)
      requires old(BuffersMade() && OutputsFit()) && BuffersMade() && OutputsFit()
      reads this`bitstreams, dedicatedBuffers
    {
      forall b :: b in bitstreams && b !in but ==> b in old(bitstreams) && Data(b) == old(Data(b))
    }

    /** Table changes of a lock call: from pending to locked, with its output. */
    method FinishLock(view: View, bitstream: Bitstream, segments: seq<seq<U8>>)
      requires TablesKept() && view in pendingFrames && bitstream !in bitstreams
      requires pendingFrames[view].buffer < N_BITSTREAM_BUFFERS
      requires forall b :: b in bitstreams ==> bitstreams[b].frame.buffer != pendingFrames[view].buffer
      requires |segments| > 0 && |Flat(segments)| <= config.DedicatedSize()
      modifies this`pendingFrames, this`bitstreams, this`live, this`steps, dedicatedBuffers
      ensures steps == old(steps) + [LockBegin(view), LockDone(view, bitstream)]
      ensures TablesKept() && live == (old(live) - {Pending(view)})[Locked(bitstream) := old(pendingFrames)[view]]
      ensures pendingFrames == old(pendingFrames) - {view} && bitstreams.Keys == old(bitstreams).Keys + {bitstream}
      ensures Data(bitstream) == Flat(segments) && DataKept({bitstream})
    {
      var frame := pendingFrames[view];
      var output := GetBitstream(frame, segments);
      MovedToLocked(live, pendingFrames, bitstreams, view, bitstream, LockedFrame(frame, output));
      pendingFrames := pendingFrames - {view};
      bitstreams := bitstreams[bitstream := LockedFrame(frame, output)];
      live := (live - {Pending(view)})[Locked(bitstream) := frame];
      steps := steps + [LockBegin(view), LockDone(view, bitstream)];
    }

    method FailLock(view: View)
      requires view in pendingFrames && TablesKept()
      modifies this`pendingFrames, this`live, this`acquired, this`steps
      ensures steps == old(steps) + [LockBegin(view), LockFails(view)]
      ensures live == old(live) - {Pending(view)} && pendingFrames == old(pendingFrames) - {view}
      ensures acquired == old(acquired) - {old(pendingFrames)[view].buffer}
      ensures TablesKept()
    {
      acquired := acquired - {pendingFrames[view].buffer};
      pendingFrames, live := pendingFrames - {view}, live - {Pending(view)};
      steps := steps + [LockBegin(view), LockFails(view)];
    }

    /** The tables of a lock call that succeeds or fails. */
    method LockInTables(view: View, bitstream: Bitstream, segments: seq<seq<U8>>, ok: bool)
      requires TablesKept() && view in pendingFrames && bitstream !in bitstreams
      requires pendingFrames[view].buffer < N_BITSTREAM_BUFFERS
      requires forall b :: b in bitstreams ==> bitstreams[b].frame.buffer != pendingFrames[view].buffer
      requires |segments| > 0 && |Flat(segments)| <= config.DedicatedSize()
      modifies this`pendingFrames, this`bitstreams, this`live, this`acquired, this`steps, dedicatedBuffers
      ensures steps == old(steps) + [LockBegin(view), if ok then LockDone(view, bitstream) else LockFails(view)]
      ensures TablesKept() && pendingFrames == old(pendingFrames) - {view}
      ensures live == if ok then (old(live) - {Pending(view)})[Locked(bitstream) := old(pendingFrames)[view]]
                      else old(live) - {Pending(view)}
      ensures acquired == if ok then old(acquired) else old(acquired) - {old(pendingFrames)[view].buffer}
      ensures bitstreams.Keys == if ok then old(bitstreams).Keys + {bitstream} else old(bitstreams).Keys
      ensures (ok ==> Data(bitstream) == Flat(segments)) && DataKept({bitstream})
    {
      if ok {
        FinishLock(view, bitstream, segments);
      } else {
        FailLock(view);
      }
    }

    /** Lock the pending frame of a view; `segments` is what the driver wrote into its coded buffer. */
    method LockBitstream(view: View, bitstream: Bitstream, segments: seq<seq<U8>>, syncs: bool, maps: bool)
      returns (ok: bool)
      requires Valid() && view in pendingFrames && bitstream !in bitstreams
      requires |segments| > 0 && |Flat(segments)| <= pendingFrames[view].codedSize
      modifies this`pendingFrames, this`bitstreams, this`live, this`acquired, this`steps, dedicatedBuffers
      ensures Valid() && ok == (syncs && maps)
      ensures steps == old(steps) + [LockBegin(view), if ok then LockDone(view, bitstream) else LockFails(view)]
      ensures pendingFrames == old(pendingFrames) - {view}
      ensures bitstreams.Keys == if ok then old(bitstreams).Keys + {bitstream} else old(bitstreams).Keys
      ensures (ok ==> Data(bitstream) == Flat(segments)) && DataKept({bitstream})
    {
      assert Known(Pending(view)) && Known(Locking(view)) && Known(Locked(bitstream)) && Known(Unlocking(bitstream));
      OwnBuffer(Pending(view));
      ok := syncs && maps;
      ghost var last := if ok then LockDone(view, bitstream) else LockFails(view);
      LockRunsOn(config, start, steps, view, last);
      LockInTables(view, bitstream, segments, ok);
    }

    method FreeLocked(bitstream: Bitstream)
      requires TablesKept() && bitstream in bitstreams
      modifies this`bitstreams, this`live, this`acquired, this`steps
      ensures steps == old(steps) + [UnlockBegin(bitstream), UnlockDone(bitstream)]
      ensures live == old(live) - {Locked(bitstream)} && bitstreams.Keys == old(bitstreams).Keys - {bitstream}
      ensures acquired == old(acquired) - {old(bitstreams)[bitstream].frame.buffer}
      ensures TablesKept() && DataKept({})
    {
      acquired := acquired - {bitstreams[bitstream].frame.buffer};
      bitstreams, live := bitstreams - {bitstream}, live - {Locked(bitstream)};
      steps := steps + [UnlockBegin(bitstream), UnlockDone(bitstream)];
    }

    /** Unlock a locked bitstream. The frame is freed also when the driver fails to unmap its buffer. */
    method UnlockBitstream(bitstream: Bitstream, unmaps: bool) returns (ok: bool)
      requires Valid() && bitstream in bitstreams
      modifies this`bitstreams, this`live, this`acquired, this`steps
      ensures Valid() && ok == unmaps
      ensures steps == old(steps) + [UnlockBegin(bitstream), UnlockDone(bitstream)]
      ensures bitstreams.Keys == old(bitstreams).Keys - {bitstream} && DataKept({})
    {
      assert Known(Locked(bitstream)) && Known(Unlocking(bitstream));
      FreeLocked(bitstream);
      UnlockRunsOn(config, start, old(steps), bitstream);
      return unmaps;
    }

    /** The slice headers handed out so far are all decodable with the parameter sets of the first frame. */
    lemma HeadersDecode(k: nat, sliceData: Stream)
      requires Valid() && k < |units|
      ensures SliceOfKth(DecodeWithFirstSets(units[0], units[k], sliceData), k, sliceData)
    {
      RunKeepsInvariant(config, start, steps);
      KthHeaderDecodes(config, Abs(), units, k, sliceData);
    }
  }
}
