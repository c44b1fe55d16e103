/** The header writers of src/grd-nal-writer.c on top of the bit writer, and what a decoder makes of
    the memory they return. */
module NalWriter {
  import opened Words
  import opened BitStream
  import opened BitWriter
  import opened H264Syntax

  // ----- writers of the parts

  method WriteStartCodePrefix(b: NalBitstream)
    requires b.Valid() && b.capacity == 0 && b.Contents == []
    modifies b, b.buffer
    ensures b.Valid() && b.Room(0) && fresh(b.buffer) && |b.Contents| == 32
    ensures forall t {:trigger Feed(b.Contents, 0, t)} :: Feed(b.Contents, 0, t) == U(1, 32, t)
  {
    assert 1 < Pow2(32);
    FieldAppended([], 1, 32);
    b.WriteField(1, 32);
  }

  method WriteNalHeader(b: NalBitstream, nal: NalUnit)
    requires b.Valid() && b.capacity == 0 && b.Contents == []
    requires nal.refIdc < 4 && nal.unitType < 32
    modifies b, b.buffer
    ensures b.Valid() && b.Room(0) && fresh(b.buffer) && |b.Contents| == 40
    ensures forall t {:trigger Feed(b.Contents, 0, t)} :: Feed(b.Contents, 0, t) == NalHeader(nal, t)
  {
    assert nal.refIdc < Pow2(2) && nal.unitType < Pow2(5);
    WriteStartCodePrefix(b);
    b.WriteU(0, 1);
    b.WriteU(nal.refIdc, 2);
    b.WriteU(nal.unitType, 5);
  }

  method WriteVuiRestriction(b: NalBitstream, v: VuiParam)
    requires b.Valid() && b.Room(400)
    modifies b, b.buffer
    ensures b.Valid() && b.buffer == old(b.buffer) && b.capacity == old(b.capacity)
    ensures |old(b.Contents)| <= |b.Contents| <= |old(b.Contents)| + 400
    ensures forall t {:trigger Feed(b.Contents, 0, t)} ::
              Feed(b.Contents, 0, t) == Feed(old(b.Contents), 0, RestrictionData(v, t))
  {
    b.WriteU(1, 1);
    b.WriteUe(0);
    b.WriteUe(0);
    b.WriteUe(v.log2MaxMvLengthHorizontal);
    b.WriteUe(v.log2MaxMvLengthVertical);
    b.WriteUe(0);
    b.WriteUe(1);
  }

  method WriteVuiTail(b: NalBitstream, v: VuiParam)
    requires b.Valid() && b.Room(410)
    modifies b, b.buffer
    ensures b.Valid() && b.buffer == old(b.buffer) && b.capacity == old(b.capacity)
    ensures |old(b.Contents)| <= |b.Contents| <= |old(b.Contents)| + 410
    ensures forall t {:trigger Feed(b.Contents, 0, t)} ::
              Feed(b.Contents, 0, t) == Feed(old(b.Contents), 0, VuiTail(v, t))
  {
    b.WriteU(0, 1);
    b.WriteU(0, 1);
    b.WriteU(0, 1);
    b.WriteU(v.bitstreamRestrictionFlag, 1);
    if v.bitstreamRestrictionFlag == 1 {
      WriteVuiRestriction(b, v);
    }
  }

  method WriteVuiTiming(b: NalBitstream, v: VuiParam)
    requires b.Valid() && b.Room(480)
    modifies b, b.buffer
    ensures b.Valid() && b.buffer == old(b.buffer) && b.capacity == old(b.capacity)
    ensures |old(b.Contents)| <= |b.Contents| <= |old(b.Contents)| + 480
    ensures forall t {:trigger Feed(b.Contents, 0, t)} ::
              Feed(b.Contents, 0, t) == Feed(old(b.Contents), 0, VuiTiming(v, t))
  {
    WordModulusIsPow2();
    b.WriteU(0, 1);
    b.WriteU(0, 1);
    b.WriteU(0, 1);
    b.WriteU(v.timingInfoPresentFlag, 1);
    if v.timingInfoPresentFlag == 1 {
      b.WriteU(v.numUnitsInTick, 32);
      b.WriteU(v.timeScale, 32);
      b.WriteU(v.fixedFrameRateFlag, 1);
    }
    WriteVuiTail(b, v);
  }

  method WriteVuiParameters(b: NalBitstream, v: VuiParam)
    requires b.Valid() && b.Room(530)
    modifies b, b.buffer
    ensures b.Valid() && b.buffer == old(b.buffer) && b.capacity == old(b.capacity)
    ensures |old(b.Contents)| <= |b.Contents| <= |old(b.Contents)| + 530
    ensures forall t {:trigger Feed(b.Contents, 0, t)} ::
              Feed(b.Contents, 0, t) == Feed(old(b.Contents), 0, VuiData(v, t))
  {
    assert Pow2(8) == 256 && Pow2(16) == 65536;
    b.WriteU(v.aspectRatioInfoPresentFlag, 1);
    if v.aspectRatioInfoPresentFlag == 1 {
      b.WriteU(v.aspectRatioIdc, 8);
      if v.aspectRatioIdc == EXTENDED_SAR {
        b.WriteU(v.sarWidth, 16);
        b.WriteU(v.sarHeight, 16);
      }
    }
    WriteVuiTiming(b, v);
  }

  method WriteSpsFlags(b: NalBitstream, p: SequenceParam)
    requires b.Valid() && b.Room(540) && p.Writable()
    modifies b, b.buffer
    ensures b.Valid() && b.buffer == old(b.buffer) && b.capacity == old(b.capacity)
    ensures |old(b.Contents)| <= |b.Contents| <= |old(b.Contents)| + 540
    ensures forall t {:trigger Feed(b.Contents, 0, t)} ::
              Feed(b.Contents, 0, t) == Feed(old(b.Contents), 0, SpsFlags(p, t))
  {
    b.WriteU(p.frameMbsOnlyFlag, 1);
    b.WriteU(p.direct8x8InferenceFlag, 1);
    b.WriteU(p.frameCroppingFlag, 1);
    b.WriteU(p.vuiParametersPresentFlag, 1);
    if p.vuiParametersPresentFlag == 1 {
      WriteVuiParameters(b, p.vui);
    }
  }

  method WriteSpsTail(b: NalBitstream, p: SequenceParam)
    requires b.Valid() && b.Room(670) && p.Writable()
    modifies b, b.buffer
    ensures b.Valid() && b.buffer == old(b.buffer) && b.capacity == old(b.capacity)
    ensures |old(b.Contents)| <= |b.Contents| <= |old(b.Contents)| + 670
    ensures forall t {:trigger Feed(b.Contents, 0, t)} ::
              Feed(b.Contents, 0, t) == Feed(old(b.Contents), 0, SpsTail(p, t))
  {
    b.WriteUe(p.pictureWidthInMbs - 1);
    b.WriteUe(p.pictureHeightInMbs - 1);
    WriteSpsFlags(b, p);
  }

  method WriteSpsMiddle(b: NalBitstream, p: SequenceParam)
    requires b.Valid() && b.Room(870) && p.Writable()
    modifies b, b.buffer
    ensures b.Valid() && b.buffer == old(b.buffer) && b.capacity == old(b.capacity)
    ensures |old(b.Contents)| <= |b.Contents| <= |old(b.Contents)| + 870
    ensures forall t {:trigger Feed(b.Contents, 0, t)} ::
              Feed(b.Contents, 0, t) == Feed(old(b.Contents), 0, SpsMiddle(p, t))
  {
    b.WriteUe(p.log2MaxFrameNumMinus4);
    b.WriteUe(p.picOrderCntType);
    b.WriteUe(p.maxNumRefFrames);
    b.WriteU(0, 1);
    WriteSpsTail(b, p);
  }

  method WriteSpsFormat(b: NalBitstream, p: SequenceParam)
    requires b.Valid() && b.Room(1130) && p.Writable()
    modifies b, b.buffer
    ensures b.Valid() && b.buffer == old(b.buffer) && b.capacity == old(b.capacity)
    ensures |old(b.Contents)| <= |b.Contents| <= |old(b.Contents)| + 1130
    ensures forall t {:trigger Feed(b.Contents, 0, t)} ::
              Feed(b.Contents, 0, t) == Feed(old(b.Contents), 0, SpsFormat(p, t))
  {
    b.WriteUe(p.seqParameterSetId);
    b.WriteUe(p.chromaFormatIdc);
    b.WriteUe(p.bitDepthLumaMinus8);
    b.WriteUe(p.bitDepthChromaMinus8);
    b.WriteU(0, 1);
    b.WriteU(p.seqScalingMatrixPresentFlag, 1);
    WriteSpsMiddle(b, p);
  }

  method WriteSpsData(b: NalBitstream, p: SequenceParam)
    requires b.Valid() && b.Room(1160) && p.Writable()
    modifies b, b.buffer
    ensures b.Valid() && b.buffer == old(b.buffer) && b.capacity == old(b.capacity)
    ensures |old(b.Contents)| <= |b.Contents| <= |old(b.Contents)| + 1160
    ensures forall t {:trigger Feed(b.Contents, 0, t)} ::
              Feed(b.Contents, 0, t) == Feed(old(b.Contents), 0, SpsData(p, t))
  {
    assert PROFILE_HIGH < Pow2(8) && p.levelIdc < Pow2(8);
    b.WriteU(PROFILE_HIGH, 8);
    b.WriteU(0, 1);
    b.WriteU(0, 1);
    b.WriteU(0, 1);
    b.WriteU(0, 1);
    b.WriteU(1, 1);
    b.WriteU(1, 1);
    b.WriteU(0, 2);
    b.WriteU(p.levelIdc, 8);
    WriteSpsFormat(b, p);
  }

  method WritePpsTail(b: NalBitstream, p: PictureParam)
    requires b.Valid() && b.Room(70) && p.Writable()
    modifies b, b.buffer
    ensures b.Valid() && b.buffer == old(b.buffer) && b.capacity == old(b.capacity)
    ensures |old(b.Contents)| <= |b.Contents| <= |old(b.Contents)| + 70
    ensures forall t {:trigger Feed(b.Contents, 0, t)} ::
              Feed(b.Contents, 0, t) == Feed(old(b.Contents), 0, PpsTail(p, t))
  {
    b.WriteU(p.deblockingFilterControlPresentFlag, 1);
    b.WriteU(p.constrainedIntraPredFlag, 1);
    b.WriteU(p.redundantPicCntPresentFlag, 1);
    b.WriteU(p.transform8x8ModeFlag, 1);
    b.WriteU(p.picScalingMatrixPresentFlag, 1);
    b.WriteSe(p.secondChromaQpIndexOffset);
  }

  method WritePpsQuantisers(b: NalBitstream, p: PictureParam)
    requires b.Valid() && b.Room(260) && p.Writable()
    modifies b, b.buffer
    ensures b.Valid() && b.buffer == old(b.buffer) && b.capacity == old(b.capacity)
    ensures |old(b.Contents)| <= |b.Contents| <= |old(b.Contents)| + 260
    ensures forall t {:trigger Feed(b.Contents, 0, t)} ::
              Feed(b.Contents, 0, t) == Feed(old(b.Contents), 0, PpsQuantisers(p, t))
  {
    b.WriteSe(p.picInitQp - 26);
    b.WriteSe(0);
    b.WriteSe(p.chromaQpIndexOffset);
    WritePpsTail(b, p);
  }

  method WritePpsReferences(b: NalBitstream, p: PictureParam)
    requires b.Valid() && b.Room(390) && p.Writable()
    modifies b, b.buffer
    ensures b.Valid() && b.buffer == old(b.buffer) && b.capacity == old(b.capacity)
    ensures |old(b.Contents)| <= |b.Contents| <= |old(b.Contents)| + 390
    ensures forall t {:trigger Feed(b.Contents, 0, t)} ::
              Feed(b.Contents, 0, t) == Feed(old(b.Contents), 0, PpsReferences(p, t))
  {
    b.WriteUe(p.numRefIdxL0ActiveMinus1);
    b.WriteUe(p.numRefIdxL1ActiveMinus1);
    b.WriteU(p.weightedPredFlag, 1);
    b.WriteU(p.weightedBipredIdc, 2);
    WritePpsQuantisers(b, p);
  }

  method WritePpsData(b: NalBitstream, p: PictureParam)
    requires b.Valid() && b.Room(590) && p.Writable()
    modifies b, b.buffer
    ensures b.Valid() && b.buffer == old(b.buffer) && b.capacity == old(b.capacity)
    ensures |old(b.Contents)| <= |b.Contents| <= |old(b.Contents)| + 590
    ensures forall t {:trigger Feed(b.Contents, 0, t)} ::
              Feed(b.Contents, 0, t) == Feed(old(b.Contents), 0, PpsData(p, t))
  {
    b.WriteUe(p.picParameterSetId);
    b.WriteUe(p.seqParameterSetId);
    b.WriteU(p.entropyCodingModeFlag, 1);
    b.WriteU(p.picOrderPresentFlag, 1);
    b.WriteUe(0);
    WritePpsReferences(b, p);
  }

  method WriteSliceHead(b: NalBitstream, slice: SliceParam)
    requires b.Valid() && b.Room(190) && slice.macroblockAddress < WORD_MODULUS - 1
    modifies b, b.buffer
    ensures b.Valid() && b.buffer == old(b.buffer) && b.capacity == old(b.capacity)
    ensures |old(b.Contents)| <= |b.Contents| <= |old(b.Contents)| + 190
    ensures forall t {:trigger Feed(b.Contents, 0, t)} ::
              Feed(b.Contents, 0, t) == Feed(old(b.Contents), 0, SliceHead(slice, t))
  {
    b.WriteUe(slice.macroblockAddress);
    b.WriteUe(slice.sliceType);
    b.WriteUe(slice.picParameterSetId);
  }

  method WriteSliceEnd(b: NalBitstream, slice: SliceParam, pps: PictureParam)
    requires b.Valid() && b.Room(130) && -128 <= slice.sliceQpDelta < 128
    modifies b, b.buffer
    ensures b.Valid() && b.buffer == old(b.buffer) && b.capacity == old(b.capacity)
    ensures |old(b.Contents)| <= |b.Contents| <= |old(b.Contents)| + 130
    ensures forall t {:trigger Feed(b.Contents, 0, t)} ::
              Feed(b.Contents, 0, t) == Feed(old(b.Contents), 0, MarkingData(pps, SliceEnd(slice, pps, t)))
  {
    b.WriteU(0, 1);
    if pps.idrPicFlag == 1 {
      b.WriteU(0, 1);
    }
    if pps.entropyCodingModeFlag == 1 && slice.sliceType != SLICE_TYPE_I {
      b.WriteUe(slice.cabacInitIdc);
    }
    b.WriteSe(slice.sliceQpDelta);
  }

  method WriteSliceTail(b: NalBitstream, slice: SliceParam, pps: PictureParam)
    requires b.Valid() && b.Room(200) && -128 <= slice.sliceQpDelta < 128
    modifies b, b.buffer
    ensures b.Valid() && b.buffer == old(b.buffer) && b.capacity == old(b.capacity)
    ensures |old(b.Contents)| <= |b.Contents| <= |old(b.Contents)| + 200
    ensures forall t {:trigger Feed(b.Contents, 0, t)} ::
              Feed(b.Contents, 0, t) == Feed(old(b.Contents), 0, SliceTail(slice, pps, t))
  {
    if pps.idrPicFlag == 1 {
      b.WriteUe(slice.idrPicId);
    }
    if slice.sliceType == SLICE_TYPE_P {
      b.WriteU(slice.numRefIdxActiveOverrideFlag, 1);
      b.WriteU(0, 1);
    }
    WriteSliceEnd(b, slice, pps);
  }

  // ----- the entry points

  const AUD_MAX_BITS: nat := 60
  const SPS_MAX_BITS: nat := 1220
  const PPS_MAX_BITS: nat := 650
  const SLICE_MAX_BITS: nat := 460

  /** The first `length` bits of the returned memory, as a decoder reads them. */
  ghost function InMemory(bitstream: array<Word>, length: nat): Stream
    requires length <= 32 * bitstream.Length
    reads bitstream
  {
    Feed(MemoryBits(bitstream[..], length), 0, End)
  }

  lemma InMemoryLength(bitstream: array<Word>, length: nat)
    requires length <= 32 * bitstream.Length
    ensures |Flatten(InMemory(bitstream, length))| == length
  {
    FlattenFeed(MemoryBits(bitstream[..], length), 0);
  }

  /** The trailing bits and the final memory, common to all NAL units but slices. */
  method FinishNalUnit(b: NalBitstream) returns (bitstream: array<Word>, bitstreamLength: nat, ghost zeros: nat)
    requires b.Valid() && b.Room(20)
    modifies b, b.buffer
    ensures bitstreamLength < 32 * bitstream.Length && bitstreamLength % 8 == 0
    ensures 1 <= zeros <= 8 && bitstreamLength == |old(b.Contents)| + 1 + zeros
    ensures InMemory(bitstream, bitstreamLength) == Feed(old(b.Contents), 0, Trailing(zeros))
  {
    b.WriteTrailingBits();
    zeros := |b.Contents| - |old(b.Contents)| - 1;
    assert Feed(b.Contents, 0, End) == Feed(old(b.Contents), 0, Trailing(zeros));
    bitstream, bitstreamLength := b.EndBitstream();
  }

  method GetAudBitstream() returns (bitstream: array<Word>, bitstreamLength: nat)
    ensures bitstreamLength < 32 * bitstream.Length && bitstreamLength <= AUD_MAX_BITS && bitstreamLength % 8 == 0
    ensures exists zeros :: 1 <= zeros <= 8 && InMemory(bitstream, bitstreamLength) == AudNalUnit(zeros)
  {
    var b := new NalBitstream();
    WriteNalHeader(b, AUD_NAL);
    assert 1 < Pow2(3);
    b.WriteU(1, 3);
    ghost var zeros;
    bitstream, bitstreamLength, zeros := FinishNalUnit(b);
    assert InMemory(bitstream, bitstreamLength) == AudNalUnit(zeros);
  }

  method WriteSpsHeaderAndData(b: NalBitstream, p: SequenceParam)
    requires b.Valid() && b.capacity == 0 && b.Contents == [] && p.Writable()
    modifies b, b.buffer
    ensures b.Valid() && b.Room(20) && fresh(b.buffer) && |b.Contents| <= SPS_MAX_BITS - 20
    ensures forall t {:trigger Feed(b.Contents, 0, t)} ::
              Feed(b.Contents, 0, t) == NalHeader(SPS_NAL, SpsData(p, t))
  {
    WriteNalHeader(b, SPS_NAL);
    WriteSpsData(b, p);
  }

  method GetSpsBitstream(p: SequenceParam) returns (bitstream: array<Word>, bitstreamLength: nat)
    requires p.Writable()
    ensures bitstreamLength < 32 * bitstream.Length && bitstreamLength <= SPS_MAX_BITS && bitstreamLength % 8 == 0
    ensures exists zeros :: 1 <= zeros <= 8 && InMemory(bitstream, bitstreamLength) == SpsNalUnit(p, zeros)
  {
    var b := new NalBitstream();
    WriteSpsHeaderAndData(b, p);
    ghost var zeros;
    bitstream, bitstreamLength, zeros := FinishNalUnit(b);
    assert InMemory(bitstream, bitstreamLength) == SpsNalUnit(p, zeros);
  }

  method GetPpsBitstream(p: PictureParam) returns (bitstream: array<Word>, bitstreamLength: nat)
    requires p.Writable()
    ensures bitstreamLength < 32 * bitstream.Length && bitstreamLength <= PPS_MAX_BITS && bitstreamLength % 8 == 0
    ensures exists zeros :: 1 <= zeros <= 8 && InMemory(bitstream, bitstreamLength) == PpsNalUnit(p, zeros)
  {
    var b := new NalBitstream();
    WriteNalHeader(b, PPS_NAL);
    WritePpsData(b, p);
    ghost var zeros;
    bitstream, bitstreamLength, zeros := FinishNalUnit(b);
    assert InMemory(bitstream, bitstreamLength) == PpsNalUnit(p, zeros);
  }

  /** The bits of a slice header, for any frame_num: the excess of one that exceeds its field is or-ed
      onto the bits before it. */
  ghost function SliceHeaderStream(slice: SliceParam, sps: SequenceParam, pps: PictureParam, t: Stream): Stream {
    Feed(AppendU(Flatten(SliceNalHead(slice, pps)), pps.frameNum, sps.log2MaxFrameNumMinus4 + 4), 0,
         SliceTail(slice, pps, t))
  }

  method WriteSliceNalHead(b: NalBitstream, slice: SliceParam, pps: PictureParam)
    requires b.Valid() && b.capacity == 0 && b.Contents == []
    requires slice.macroblockAddress < WORD_MODULUS - 1
    modifies b, b.buffer
    ensures b.Valid() && b.Room(0) && fresh(b.buffer) && |b.Contents| <= 230
    ensures b.Contents == Flatten(SliceNalHead(slice, pps))
  {
    WriteNalHeader(b, SliceNal(slice, pps));
    WriteSliceHead(b, slice);
    assert Feed(b.Contents, 0, End) == SliceNalHead(slice, pps);
    FlattenFeed(b.Contents, 0);
  }

  method GetSliceHeaderBitstream(slice: SliceParam, sps: SequenceParam, pps: PictureParam)
    returns (bitstream: array<Word>, bitstreamLength: nat)
    requires SliceWritable(slice, sps, pps)
    ensures bitstreamLength < 32 * bitstream.Length && bitstreamLength <= SLICE_MAX_BITS
    ensures InMemory(bitstream, bitstreamLength) == SliceHeaderStream(slice, sps, pps, End)
  {
    var b := new NalBitstream();
    WriteSliceNalHead(b, slice, pps);
    b.WriteField(pps.frameNum, sps.log2MaxFrameNumMinus4 + 4);
    WriteSliceTail(b, slice, pps);
    assert Feed(b.Contents, 0, End) == SliceHeaderStream(slice, sps, pps, End);
    bitstream, bitstreamLength := b.EndBitstream();
  }

  lemma SliceHeadFollowedBy(slice: SliceParam, pps: PictureParam, t: Stream)
    ensures Append(SliceNalHead(slice, pps), t) == NalHeader(SliceNal(slice, pps), SliceHead(slice, t))
  {
    AppendToUe(slice.picParameterSetId, End, t);
    AppendToUe(slice.sliceType, Ue(slice.picParameterSetId, End), t);
    AppendToUe(slice.macroblockAddress, Ue(slice.sliceType, Ue(slice.picParameterSetId, End)), t);
    var nal, head := SliceNal(slice, pps), SliceHead(slice, End);
    var unitType := U(nal.unitType, 5, head);
    var refIdc := U(nal.refIdc, 2, unitType);
    AppendToBits(nal.unitType, 5, head, t);
    AppendToBits(nal.refIdc, 2, unitType, t);
    AppendToBits(0, 1, refIdc, t);
    AppendToBits(1, 32, U(0, 1, refIdc), t);
  }

  /** With its excess hidden, frame_num is a field like any other. */
  lemma CleanSliceHeader(slice: SliceParam, sps: SequenceParam, pps: PictureParam, t: Stream)
    requires ExcessHidden(Flatten(SliceNalHead(slice, pps)), pps.frameNum, sps.log2MaxFrameNumMinus4 + 4)
    ensures SliceHeaderStream(slice, sps, pps, t) ==
            NalHeader(SliceNal(slice, pps),
                      SliceHead(slice, PutBits(pps.frameNum, sps.log2MaxFrameNumMinus4 + 4, SliceTail(slice, pps, t))))
  {
    var width, tail := sps.log2MaxFrameNumMinus4 + 4, SliceTail(slice, pps, t);
    var head := Flatten(SliceNalHead(slice, pps));
    AppendIsCleanIff(head, pps.frameNum, width);
    FeedAppended(head, pps.frameNum, width, tail);
    FeedFlatten(SliceNalHead(slice, pps), PutBits(pps.frameNum, width, tail));
    SliceHeadFollowedBy(slice, pps, PutBits(pps.frameNum, width, tail));
  }

  /** A slice header that decodes as expected begins with the bits of its head. */
  lemma DecodedHeadIsClean(slice: SliceParam, sps: SequenceParam, pps: PictureParam, t: Stream)
    requires sps.Writable() && DecodeSlice(SpsOf(sps), PpsOf(pps), SliceHeaderStream(slice, sps, pps, t)).Got?
    requires var decoded := DecodeSlice(SpsOf(sps), PpsOf(pps), SliceHeaderStream(slice, sps, pps, t)).value;
             && decoded.0 == SliceNal(slice, pps)
             && decoded.1.firstMbInSlice == slice.macroblockAddress && decoded.1.sliceType == slice.sliceType
             && decoded.1.ppsId == slice.picParameterSetId
    ensures ExcessHidden(Flatten(SliceNalHead(slice, pps)), pps.frameNum, sps.log2MaxFrameNumMinus4 + 4)
  {
    var width, head := sps.log2MaxFrameNumMinus4 + 4, Flatten(SliceNalHead(slice, pps));
    var rest := DecodedHeadIsLaidOut(slice, sps, pps, SliceHeaderStream(slice, sps, pps, t));
    SliceHeadFollowedBy(slice, pps, rest);
    FeedFlatten(SliceNalHead(slice, pps), rest);
    FeedConcat(OrExcess(head, pps.frameNum, width), BitsOf(pps.frameNum, width), 0, SliceTail(slice, pps, t));
    FeedPrefix(OrExcess(head, pps.frameNum, width), head, 0,
               Feed(BitsOf(pps.frameNum, width), 0, SliceTail(slice, pps, t)), rest);
    assert OrExcess(head, pps.frameNum, width) == head;
    AppendIsCleanIff(head, pps.frameNum, width);
  }

  /** A decoder holding the parameter sets recovers the slice header, with frame_num modulo its field
      width, exactly when the excess of frame_num is hidden by the bits before it. */
  lemma SliceHeaderDecodesIff(slice: SliceParam, sps: SequenceParam, pps: PictureParam, t: Stream)
    requires SliceWritable(slice, sps, pps) && sps.Writable() && (pps.idrPicFlag == 1 ==> slice.sliceType == SLICE_TYPE_I)
    requires slice.picParameterSetId == pps.picParameterSetId && pps.seqParameterSetId == sps.seqParameterSetId
    ensures DecodeSlice(SpsOf(sps), PpsOf(pps), SliceHeaderStream(slice, sps, pps, t)) ==
            Got((SliceNal(slice, pps), SliceHeaderOf(slice, pps, pps.frameNum % Pow2(sps.log2MaxFrameNumMinus4 + 4))), t)
            <==> ExcessHidden(Flatten(SliceNalHead(slice, pps)), pps.frameNum, sps.log2MaxFrameNumMinus4 + 4)
  {
    if ExcessHidden(Flatten(SliceNalHead(slice, pps)), pps.frameNum, sps.log2MaxFrameNumMinus4 + 4) {
      CleanSliceHeader(slice, sps, pps, t);
      SliceDecodes(slice, sps, pps, t);
    } else if DecodeSlice(SpsOf(sps), PpsOf(pps), SliceHeaderStream(slice, sps, pps, t)) ==
              Got((SliceNal(slice, pps), SliceHeaderOf(slice, pps, pps.frameNum % Pow2(sps.log2MaxFrameNumMinus4 + 4))), t) {
      DecodedHeadIsClean(slice, sps, pps, t);
    }
  }

  lemma NalHeaderBits(nal: NalUnit, tail: Stream)
    requires nal.refIdc < 4 && nal.unitType < 32 && tail.Next?
    ensures var s := NalHeader(nal, tail); s.Next? && |Flatten(s)| == 40 + |Flatten(tail)| && EndsInOne(s) == EndsInOne(tail)
  {
    var unitType := U(nal.unitType, 5, tail);
    FlattenPutBits(nal.unitType, 5, tail);
    FlattenPutBits(nal.refIdc, 2, unitType);
    FlattenPutBits(0, 1, U(nal.refIdc, 2, unitType));
    FlattenPutBits(1, 32, U(0, 1, U(nal.refIdc, 2, unitType)));
  }

  /** The second picture parameter set is named by the bits 010. */
  lemma SecondSetBits()
    ensures var s := Ue(1, End); s.Next? && |Flatten(s)| == 3 && !EndsInOne(s)
  {
    assert BitLength(2) == 2 && PutBits(2, 0, End) == End;
    assert Ue(1, End) == Next(false, Next(Bit(2, 1), Next(Bit(2, 0), End)));
    assert Flatten(End) == [] && Flatten(Next(Bit(2, 0), End)) == [Bit(2, 0)];
  }

  lemma SliceHeadOfSecondSet(slice: SliceParam)
    requires slice.macroblockAddress == 0 && slice.sliceType == SLICE_TYPE_P && slice.picParameterSetId == 1
    ensures var s := SliceHead(slice, End); s.Next? && |Flatten(s)| == 5 && !EndsInOne(s)
  {
    SecondSetBits();
    assert BitLength(1) == 1;
    FlattenUe(slice.sliceType, Ue(slice.picParameterSetId, End));
    FlattenUe(slice.macroblockAddress, Ue(slice.sliceType, Ue(slice.picParameterSetId, End)));
  }

  lemma NalHeadBits(nal: NalUnit, tail: Stream)
    requires nal.refIdc < 4 && nal.unitType < 32 && tail.Next? && |Flatten(tail)| == 5 && !EndsInOne(tail)
    ensures var head := Flatten(NalHeader(nal, tail)); |head| == 45 && !head[|head| - 1]
  {
    NalHeaderBits(nal, tail);
    LastOfFlatten(NalHeader(nal, tail));
  }

  /** They end the 45 bits before frame_num of a P slice. */
  lemma HeadOfSecondSet(slice: SliceParam, pps: PictureParam)
    requires slice.macroblockAddress == 0 && slice.sliceType == SLICE_TYPE_P && slice.picParameterSetId == 1
    ensures var head := Flatten(SliceNalHead(slice, pps)); |head| == 45 && !head[|head| - 1]
  {
    SliceHeadOfSecondSet(slice);
    NalHeadBits(SliceNal(slice, pps), SliceHead(slice, End));
  }

  /** Slice headers that do not decode: with frame_num 256 in its 8 bits, the picture parameter set id 1 is
      overwritten by the excess. The encode session only ever uses id 0. */
  lemma SecondSetDoesNotDecode(slice: SliceParam, sps: SequenceParam, pps: PictureParam, t: Stream)
    requires SliceWritable(slice, sps, pps) && sps.Writable() && pps.idrPicFlag == 0
    requires slice.picParameterSetId == pps.picParameterSetId == 1 && pps.seqParameterSetId == sps.seqParameterSetId
    requires slice.macroblockAddress == 0 && slice.sliceType == SLICE_TYPE_P
    requires sps.log2MaxFrameNumMinus4 == 4 && pps.frameNum == 256
    ensures DecodeSlice(SpsOf(sps), PpsOf(pps), SliceHeaderStream(slice, sps, pps, t)) !=
            Got((SliceNal(slice, pps), SliceHeaderOf(slice, pps, 0)), t)
  {
    HeadOfSecondSet(slice, pps);
    assert Bit(256, 8);
    assert ExcessBit(Flatten(SliceNalHead(slice, pps)), 256, 8, 0);
    assert Pow2(8) == 256;
    SliceHeaderDecodesIff(slice, sps, pps, t);
  }

  /** What decodes to the expected header begins with the bits of that header. */
  lemma DecodedHeadIsLaidOut(slice: SliceParam, sps: SequenceParam, pps: PictureParam, s: Stream) returns (rest: Stream)
    requires sps.Writable() && DecodeSlice(SpsOf(sps), PpsOf(pps), s).Got?
    requires var decoded := DecodeSlice(SpsOf(sps), PpsOf(pps), s).value;
             && decoded.0 == SliceNal(slice, pps)
             && decoded.1.firstMbInSlice == slice.macroblockAddress && decoded.1.sliceType == slice.sliceType
             && decoded.1.ppsId == slice.picParameterSetId
    ensures s == NalHeader(SliceNal(slice, pps), SliceHead(slice, rest))
  {
    var nal := ReadNalHeader(s);
    NalHeaderCanonical(s);
    rest := SliceHeadCanonical(nal.value, SpsOf(sps), PpsOf(pps), nal.rest);
  }
}
