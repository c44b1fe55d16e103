/** The header syntax of Rec. ITU-T H.264 (08/2021) that the writer emits: what it lays out for given
    parameters, a parser that follows the standard's syntax tables, and that the parser recovers the
    parameters. Branches of the tables that the writer asserts away make the parser fail. */
module H264Syntax {
  import opened Words
  import opened BitStream
  import opened Options

  type Flag = n: nat | n < 2
  type U8 = n: nat | n < 256
  type U16 = n: nat | n < 65536

  const PROFILE_HIGH: nat := 100
  const EXTENDED_SAR: nat := 255
  const SLICE_TYPE_P: nat := 0
  const SLICE_TYPE_B: nat := 1
  const SLICE_TYPE_I: nat := 2

  datatype NalUnit = NalUnit(refIdc: nat, unitType: nat)

  const AUD_NAL := NalUnit(0, 9)
  const SPS_NAL := NalUnit(3, 7)
  const PPS_NAL := NalUnit(3, 8)
  const IDR_SLICE_NAL := NalUnit(3, 5)
  const I_SLICE_NAL := NalUnit(3, 1)
  const P_SLICE_NAL := NalUnit(2, 1)

  // ----- parameters, as the encoder fills them in

  datatype VuiParam = VuiParam(
    aspectRatioInfoPresentFlag: Flag, aspectRatioIdc: U8, sarWidth: U16, sarHeight: U16,
    timingInfoPresentFlag: Flag, numUnitsInTick: Word, timeScale: Word, fixedFrameRateFlag: Flag,
    bitstreamRestrictionFlag: Flag, log2MaxMvLengthHorizontal: U8, log2MaxMvLengthVertical: U8)

  datatype SequenceParam = SequenceParam(
    levelIdc: U8, seqParameterSetId: U8, chromaFormatIdc: U8, bitDepthLumaMinus8: U8, bitDepthChromaMinus8: U8,
    seqScalingMatrixPresentFlag: Flag, log2MaxFrameNumMinus4: U8, picOrderCntType: U8, maxNumRefFrames: Word,
    pictureWidthInMbs: U16, pictureHeightInMbs: U16, frameMbsOnlyFlag: Flag, direct8x8InferenceFlag: Flag,
    frameCroppingFlag: Flag, vuiParametersPresentFlag: Flag, vui: VuiParam)
  {
    /** The assertions of write_sps_data. */
    predicate Writable() {
      && pictureWidthInMbs > 0 && pictureHeightInMbs > 0
      && frameMbsOnlyFlag == 1
      && chromaFormatIdc < 3
      && seqScalingMatrixPresentFlag == 0
      && 2 <= picOrderCntType
      && frameCroppingFlag == 0
      && maxNumRefFrames < WORD_MODULUS - 1
      && log2MaxFrameNumMinus4 < 16
    }
  }

  datatype PictureParam = PictureParam(
    picParameterSetId: U8, seqParameterSetId: U8, frameNum: U16, picInitQp: U8,
    numRefIdxL0ActiveMinus1: U8, numRefIdxL1ActiveMinus1: U8, chromaQpIndexOffset: int, secondChromaQpIndexOffset: int,
    idrPicFlag: Flag, entropyCodingModeFlag: Flag, weightedPredFlag: Flag, weightedBipredIdc: U8,
    constrainedIntraPredFlag: Flag, transform8x8ModeFlag: Flag, deblockingFilterControlPresentFlag: Flag,
    redundantPicCntPresentFlag: Flag, picOrderPresentFlag: Flag, picScalingMatrixPresentFlag: Flag)
  {
    /** The assertions of write_pps_data, and the ranges of the C fields. */
    predicate Writable() {
      && weightedBipredIdc < 4
      && -128 <= chromaQpIndexOffset < 128
      && -128 <= secondChromaQpIndexOffset < 128
      && picScalingMatrixPresentFlag == 0
    }
  }

  datatype SliceParam = SliceParam(
    macroblockAddress: Word, sliceType: U8, picParameterSetId: U8, idrPicId: U16,
    numRefIdxActiveOverrideFlag: Flag, cabacInitIdc: U8, sliceQpDelta: int)

  /** The assertions of write_slice_header and get_nal_header_parameters. */
  predicate SliceWritable(slice: SliceParam, sps: SequenceParam, pps: PictureParam) {
    && slice.macroblockAddress < WORD_MODULUS - 1
    && (slice.sliceType == SLICE_TYPE_P || slice.sliceType == SLICE_TYPE_I)
    && (slice.sliceType == SLICE_TYPE_P ==> slice.numRefIdxActiveOverrideFlag == 0)
    && -128 <= slice.sliceQpDelta < 128
    && sps.frameMbsOnlyFlag == 1 && 2 <= sps.picOrderCntType && sps.log2MaxFrameNumMinus4 < 16
    && pps.redundantPicCntPresentFlag == 0 && pps.weightedPredFlag == 0 && pps.weightedBipredIdc == 0
    && pps.deblockingFilterControlPresentFlag == 0
  }

  /** get_nal_header_parameters */
  function SliceNal(slice: SliceParam, pps: PictureParam): NalUnit {
    if slice.sliceType == SLICE_TYPE_I then if pps.idrPicFlag == 1 then IDR_SLICE_NAL else I_SLICE_NAL
    else P_SLICE_NAL
  }

  // ----- what is laid out

  function NalHeader(nal: NalUnit, t: Stream): Stream
    requires nal.refIdc < 4 && nal.unitType < 32
  {
    U(1, 32, U(0, 1, U(nal.refIdc, 2, U(nal.unitType, 5, t))))
  }

  /** The stop bit and at least one zero. */
  function Trailing(zeros: nat): Stream {
    Next(true, PutZeros(zeros, End))
  }

  function AudData(t: Stream): Stream {
    U(1, 3, t)
  }

  function Optional(present: Flag, data: Stream, t: Stream): Stream {
    if present == 1 then data else t
  }

  function RestrictionData(v: VuiParam, t: Stream): Stream {
    U(1, 1, Ue(0, Ue(0, Ue(v.log2MaxMvLengthHorizontal, Ue(v.log2MaxMvLengthVertical, Ue(0, Ue(1, t)))))))
  }

  function TimingData(v: VuiParam, t: Stream): Stream {
    WordModulusIsPow2();
    U(v.numUnitsInTick, 32, U(v.timeScale, 32, U(v.fixedFrameRateFlag, 1, t)))
  }

  function AspectRatioData(v: VuiParam, t: Stream): Stream {
    assert Pow2(8) == 256 && Pow2(16) == 65536;
    U(v.aspectRatioIdc, 8, if v.aspectRatioIdc == EXTENDED_SAR then U(v.sarWidth, 16, U(v.sarHeight, 16, t)) else t)
  }

  function VuiTail(v: VuiParam, t: Stream): Stream {
    U(0, 1, U(0, 1, U(0, 1, U(v.bitstreamRestrictionFlag, 1,
      Optional(v.bitstreamRestrictionFlag, RestrictionData(v, t), t)))))
  }

  function VuiTiming(v: VuiParam, t: Stream): Stream {
    U(0, 1, U(0, 1, U(0, 1, U(v.timingInfoPresentFlag, 1,
      Optional(v.timingInfoPresentFlag, TimingData(v, VuiTail(v, t)), VuiTail(v, t))))))
  }

  function VuiData(v: VuiParam, t: Stream): Stream {
    U(v.aspectRatioInfoPresentFlag, 1,
      Optional(v.aspectRatioInfoPresentFlag, AspectRatioData(v, VuiTiming(v, t)), VuiTiming(v, t)))
  }

  function SpsFlags(p: SequenceParam, t: Stream): Stream {
    U(1, 1, U(p.direct8x8InferenceFlag, 1, U(0, 1, U(p.vuiParametersPresentFlag, 1,
      Optional(p.vuiParametersPresentFlag, VuiData(p.vui, t), t)))))
  }

  function SpsTail(p: SequenceParam, t: Stream): Stream
    requires p.Writable()
  {
    Ue(p.pictureWidthInMbs - 1, Ue(p.pictureHeightInMbs - 1, SpsFlags(p, t)))
  }

  function SpsMiddle(p: SequenceParam, t: Stream): Stream
    requires p.Writable()
  {
    Ue(p.log2MaxFrameNumMinus4, Ue(p.picOrderCntType, Ue(p.maxNumRefFrames, U(0, 1, SpsTail(p, t)))))
  }

  function SpsFormat(p: SequenceParam, t: Stream): Stream
    requires p.Writable()
  {
    Ue(p.seqParameterSetId, Ue(p.chromaFormatIdc, Ue(p.bitDepthLumaMinus8, Ue(p.bitDepthChromaMinus8,
      U(0, 1, U(0, 1, SpsMiddle(p, t)))))))
  }

  function SpsData(p: SequenceParam, t: Stream): Stream
    requires p.Writable()
  {
    U(PROFILE_HIGH, 8, U(0, 1, U(0, 1, U(0, 1, U(0, 1, U(1, 1, U(1, 1, U(0, 2, U(p.levelIdc, 8, SpsFormat(p, t))))))))))
  }

  function PpsTail(p: PictureParam, t: Stream): Stream
    requires p.Writable()
  {
    U(p.deblockingFilterControlPresentFlag, 1, U(p.constrainedIntraPredFlag, 1, U(p.redundantPicCntPresentFlag, 1,
      U(p.transform8x8ModeFlag, 1, U(0, 1, Se(p.secondChromaQpIndexOffset, t))))))
  }

  function PpsQuantisers(p: PictureParam, t: Stream): Stream
    requires p.Writable()
  {
    Se(p.picInitQp - 26, Se(0, Se(p.chromaQpIndexOffset, PpsTail(p, t))))
  }

  function PpsReferences(p: PictureParam, t: Stream): Stream
    requires p.Writable()
  {
    Ue(p.numRefIdxL0ActiveMinus1, Ue(p.numRefIdxL1ActiveMinus1, U(p.weightedPredFlag, 1, U(p.weightedBipredIdc, 2,
      PpsQuantisers(p, t)))))
  }

  function PpsData(p: PictureParam, t: Stream): Stream
    requires p.Writable()
  {
    Ue(p.picParameterSetId, Ue(p.seqParameterSetId, U(p.entropyCodingModeFlag, 1, U(p.picOrderPresentFlag, 1, Ue(0,
      PpsReferences(p, t))))))
  }

  /** The slice header before frame_num. */
  function SliceHead(slice: SliceParam, t: Stream): Stream {
    Ue(slice.macroblockAddress, Ue(slice.sliceType, Ue(slice.picParameterSetId, t)))
  }

  function MarkingData(pps: PictureParam, t: Stream): Stream {
    if pps.idrPicFlag == 1 then U(0, 1, U(0, 1, t)) else U(0, 1, t)
  }

  function SliceEnd(slice: SliceParam, pps: PictureParam, t: Stream): Stream {
    var qp := Se(slice.sliceQpDelta, t);
    if pps.entropyCodingModeFlag == 1 && slice.sliceType != SLICE_TYPE_I then Ue(slice.cabacInitIdc, qp) else qp
  }

  /** The slice header after frame_num. */
  function SliceTail(slice: SliceParam, pps: PictureParam, t: Stream): Stream {
    var marking := MarkingData(pps, SliceEnd(slice, pps, t));
    var refs := if slice.sliceType == SLICE_TYPE_P then U(slice.numRefIdxActiveOverrideFlag, 1, U(0, 1, marking))
                else marking;
    if pps.idrPicFlag == 1 then Ue(slice.idrPicId, refs) else refs
  }

  // ----- the parser, with the numbers of the standard

  datatype Vui = Vui(aspectRatioIdc: Option<nat>, sar: Option<(nat, nat)>, timing: Option<(nat, nat, nat)>,
                     restriction: Option<seq<nat>>)

  datatype Sps = Sps(
    profileIdc: nat, constraintFlags: seq<nat>, levelIdc: nat, id: nat, chromaFormatIdc: nat,
    bitDepthLumaMinus8: nat, bitDepthChromaMinus8: nat, qpprimeYZeroTransformBypassFlag: nat,
    log2MaxFrameNumMinus4: nat, picOrderCntType: nat, maxNumRefFrames: nat, gapsInFrameNumAllowedFlag: nat,
    picWidthInMbsMinus1: nat, picHeightInMapUnitsMinus1: nat, direct8x8InferenceFlag: nat, vui: Option<Vui>)

  datatype Pps = Pps(
    id: nat, spsId: nat, entropyCodingModeFlag: nat, bottomFieldPicOrderInFramePresentFlag: nat,
    numRefIdxL0DefaultActiveMinus1: nat, numRefIdxL1DefaultActiveMinus1: nat, weightedPredFlag: nat,
    weightedBipredIdc: nat, picInitQpMinus26: int, picInitQsMinus26: int, chromaQpIndexOffset: int,
    deblockingFilterControlPresentFlag: nat, constrainedIntraPredFlag: nat, redundantPicCntPresentFlag: nat,
    transform8x8ModeFlag: nat, secondChromaQpIndexOffset: int)

  datatype SliceHeader = SliceHeader(
    firstMbInSlice: nat, sliceType: nat, ppsId: nat, frameNum: nat, idrPicId: Option<nat>,
    marking: seq<nat>, cabacInitIdc: Option<nat>, sliceQpDelta: int)

  function ReadNalHeader(s: Stream): Read<NalUnit> {
    var (start, s) :- ReadU(s, 32);
    var (forbidden, s) :- ReadU(s, 1);
    var (refIdc, s) :- ReadU(s, 2);
    var (unitType, s) :- ReadU(s, 5);
    if start == 1 && forbidden == 0 then Got(NalUnit(refIdc, unitType), s) else Fail
  }

  function ReadAspectRatio(s: Stream): Read<(nat, Option<(nat, nat)>)> {
    var (idc, s) :- ReadU(s, 8);
    if idc != 255 then Got((idc, None), s)
    else
      var (width, s) :- ReadU(s, 16);
      var (height, s) :- ReadU(s, 16);
      Got((idc, Some((width, height))), s)
  }

  function ReadTiming(s: Stream): Read<(nat, nat, nat)> {
    var (units, s) :- ReadU(s, 32);
    var (scale, s) :- ReadU(s, 32);
    var (fixed, s) :- ReadU(s, 1);
    Got((units, scale, fixed), s)
  }

  function ReadRestriction(s: Stream): Read<seq<nat>> {
    var (over, s) :- ReadU(s, 1);
    var (bytes, s) :- ReadUe(s);
    var (bits, s) :- ReadUe(s);
    var (horizontal, s) :- ReadUe(s);
    var (vertical, s) :- ReadUe(s);
    var (reorder, s) :- ReadUe(s);
    var (buffering, s) :- ReadUe(s);
    Got([over, bytes, bits, horizontal, vertical, reorder, buffering], s)
  }

  function ReadOptional<T>(present: nat, some: Read<T>, s: Stream): Read<Option<T>> {
    if present == 0 then Got(None, s)
    else match some
      case Fail => Fail
      case Got(v, rest) => Got(Some(v), rest)
  }

  /** E.1.1 VUI parameters syntax */
  function ReadVui(s: Stream): Read<Vui> {
    var (aspectPresent, s) :- ReadU(s, 1);
    var (aspect, s) :- ReadOptional(aspectPresent, ReadAspectRatio(s), s);
    ReadVuiTiming(Vui(if aspect.Some? then Some(aspect.value.0) else None,
                      if aspect.Some? then aspect.value.1 else None, None, None), s)
  }

  function ReadVuiTiming(vui: Vui, s: Stream): Read<Vui> {
    var (overscan, s) :- ReadU(s, 1);
    var (videoSignal, s) :- ReadU(s, 1);
    var (chromaLoc, s) :- ReadU(s, 1);
    if overscan != 0 || videoSignal != 0 || chromaLoc != 0 then Fail else
    var (timingPresent, s) :- ReadU(s, 1);
    var (timing, s) :- ReadOptional(timingPresent, ReadTiming(s), s);
    ReadVuiTail(vui.(timing := timing), s)
  }

  function ReadVuiTail(vui: Vui, s: Stream): Read<Vui> {
    var (nalHrd, s) :- ReadU(s, 1);
    var (vclHrd, s) :- ReadU(s, 1);
    if nalHrd != 0 || vclHrd != 0 then Fail else
    var (picStruct, s) :- ReadU(s, 1);
    var (restrictionPresent, s) :- ReadU(s, 1);
    var (restriction, s) :- ReadOptional(restrictionPresent, ReadRestriction(s), s);
    Got(vui.(restriction := restriction), s)
  }

  /** 7.3.2.1.1 Sequence parameter set data syntax, for the High profile */
  function ReadSps(s: Stream): Read<Sps> {
    var (profile, s) :- ReadU(s, 8);
    var (c0, s) :- ReadU(s, 1);
    var (c1, s) :- ReadU(s, 1);
    var (c2, s) :- ReadU(s, 1);
    var (c3, s) :- ReadU(s, 1);
    var (c4, s) :- ReadU(s, 1);
    var (c5, s) :- ReadU(s, 1);
    var (reserved, s) :- ReadU(s, 2);
    var (level, s) :- ReadU(s, 8);
    var (id, s) :- ReadUe(s);
    if profile != 100 then Fail else
    var (chroma, s) :- ReadUe(s);
    if chroma == 3 then Fail else
    var (luma8, s) :- ReadUe(s);
    var (chroma8, s) :- ReadUe(s);
    var (bypass, s) :- ReadU(s, 1);
    var (scaling, s) :- ReadU(s, 1);
    if scaling != 0 then Fail else
    ReadSpsMiddle(Sps(profile, [c0, c1, c2, c3, c4, c5], level, id, chroma, luma8, chroma8, bypass, 0, 0, 0, 0, 0, 0, 0, None), s)
  }

  function ReadSpsMiddle(sps: Sps, s: Stream): Read<Sps> {
    var (log2, s) :- ReadUe(s);
    var (poc, s) :- ReadUe(s);
    if poc == 0 || poc == 1 then Fail else
    var (refFrames, s) :- ReadUe(s);
    var (gaps, s) :- ReadU(s, 1);
    ReadSpsTail(sps.(log2MaxFrameNumMinus4 := log2, picOrderCntType := poc, maxNumRefFrames := refFrames,
                     gapsInFrameNumAllowedFlag := gaps), s)
  }

  function ReadSpsTail(sps: Sps, s: Stream): Read<Sps> {
    var (width, s) :- ReadUe(s);
    var (height, s) :- ReadUe(s);
    var (mbsOnly, s) :- ReadU(s, 1);
    if mbsOnly == 0 then Fail else
    var (direct, s) :- ReadU(s, 1);
    var (cropping, s) :- ReadU(s, 1);
    if cropping != 0 then Fail else
    var (vuiPresent, s) :- ReadU(s, 1);
    var (vui, s) :- ReadOptional(vuiPresent, ReadVui(s), s);
    Got(sps.(picWidthInMbsMinus1 := width, picHeightInMapUnitsMinus1 := height, direct8x8InferenceFlag := direct,
             vui := vui), s)
  }

  /** 7.3.2.2 Picture parameter set RBSP syntax; without more data the second offset equals the first. */
  function ReadPps(s: Stream): Read<Pps> {
    var (id, s) :- ReadUe(s);
    var (spsId, s) :- ReadUe(s);
    var (entropy, s) :- ReadU(s, 1);
    var (bottomField, s) :- ReadU(s, 1);
    var (sliceGroups, s) :- ReadUe(s);
    if sliceGroups != 0 then Fail else
    var (l0, s) :- ReadUe(s);
    var (l1, s) :- ReadUe(s);
    var (weighted, s) :- ReadU(s, 1);
    var (bipred, s) :- ReadU(s, 2);
    ReadPpsQuantisers(Pps(id, spsId, entropy, bottomField, l0, l1, weighted, bipred, 0, 0, 0, 0, 0, 0, 0, 0), s)
  }

  function ReadOffsets(s: Stream): Read<(int, int, int)> {
    var (qp, s) :- ReadSe(s);
    var (qs, s) :- ReadSe(s);
    var (offset, s) :- ReadSe(s);
    Got((qp, qs, offset), s)
  }

  function ReadPpsQuantisers(pps: Pps, s: Stream): Read<Pps> {
    var (offsets, s) :- ReadOffsets(s);
    var (qp, qs, offset) := offsets;
    ReadPpsTail(pps.(picInitQpMinus26 := qp, picInitQsMinus26 := qs, chromaQpIndexOffset := offset,
                     secondChromaQpIndexOffset := offset), s)
  }

  function ReadPpsTail(pps: Pps, s: Stream): Read<Pps> {
    var (deblocking, s) :- ReadU(s, 1);
    var (constrained, s) :- ReadU(s, 1);
    var (redundant, s) :- ReadU(s, 1);
    var pps := pps.(deblockingFilterControlPresentFlag := deblocking, constrainedIntraPredFlag := constrained,
                    redundantPicCntPresentFlag := redundant);
    if !MoreRbspData(s) then Got(pps, s) else
    var (transform, s) :- ReadU(s, 1);
    var (scaling, s) :- ReadU(s, 1);
    if scaling != 0 then Fail else
    var (second, s) :- ReadSe(s);
    Got(pps.(transform8x8ModeFlag := transform, secondChromaQpIndexOffset := second), s)
  }

  function ReadMarking(nal: NalUnit, s: Stream): Read<seq<nat>> {
    if nal.refIdc == 0 then Got([], s)
    else if nal.unitType == 5 then
      var (noOutput, s) :- ReadU(s, 1);
      var (longTerm, s) :- ReadU(s, 1);
      Got([noOutput, longTerm], s)
    else
      var (adaptive, s) :- ReadU(s, 1);
      if adaptive != 0 then Fail else Got([adaptive], s)
  }

  /** The reference list part of a P slice: no override, no modification. */
  function ReadRefLists(sliceType: nat, s: Stream): Read<()> {
    if sliceType == 2 then Got((), s)
    else
      var (overriding, s) :- ReadU(s, 1);
      var (modification, s) :- ReadU(s, 1);
      if overriding != 0 || modification != 0 then Fail else Got((), s)
  }

  /** 7.3.3 Slice header syntax, given the active parameter sets */
  function ReadSliceHeader(nal: NalUnit, sps: Sps, pps: Pps, s: Stream): Read<SliceHeader> {
    var (firstMb, s) :- ReadUe(s);
    var (sliceType, s) :- ReadUe(s);
    var (ppsId, s) :- ReadUe(s);
    if ppsId != pps.id || pps.spsId != sps.id then Fail else
    var (frameNum, s) :- ReadU(s, sps.log2MaxFrameNumMinus4 + 4);
    ReadSliceTail(nal, sps, pps, SliceHeader(firstMb, sliceType, ppsId, frameNum, None, [], None, 0), s)
  }

  function ReadSliceTail(nal: NalUnit, sps: Sps, pps: Pps, h: SliceHeader, s: Stream): Read<SliceHeader> {
    var (idrPicId, s) :- ReadOptional(if nal.unitType == 5 then 1 else 0, ReadUe(s), s);
    if sps.picOrderCntType < 2 || pps.redundantPicCntPresentFlag != 0 then Fail else
    if h.sliceType != 0 && h.sliceType != 2 then Fail else
    var (_, s) :- ReadRefLists(h.sliceType, s);
    if pps.weightedPredFlag != 0 && h.sliceType == 0 then Fail else
    var (marking, s) :- ReadMarking(nal, s);
    var (cabac, s) :- ReadOptional(if pps.entropyCodingModeFlag != 0 && h.sliceType != 2 then 1 else 0, ReadUe(s), s);
    var (qpDelta, s) :- ReadSe(s);
    if pps.deblockingFilterControlPresentFlag != 0 then Fail else
    Got(h.(idrPicId := idrPicId, marking := marking, cabacInitIdc := cabac, sliceQpDelta := qpDelta), s)
  }

  // ----- what the parser must find

  function VuiOf(v: VuiParam): Vui {
    Vui(if v.aspectRatioInfoPresentFlag == 1 then Some(v.aspectRatioIdc) else None,
        if v.aspectRatioInfoPresentFlag == 1 && v.aspectRatioIdc == EXTENDED_SAR then Some((v.sarWidth, v.sarHeight)) else None,
        if v.timingInfoPresentFlag == 1 then Some((v.numUnitsInTick, v.timeScale, v.fixedFrameRateFlag)) else None,
        if v.bitstreamRestrictionFlag == 1
        then Some([1, 0, 0, v.log2MaxMvLengthHorizontal, v.log2MaxMvLengthVertical, 0, 1]) else None)
  }

  function SpsOf(p: SequenceParam): Sps
    requires p.Writable()
  {
    Sps(PROFILE_HIGH, [0, 0, 0, 0, 1, 1], p.levelIdc, p.seqParameterSetId, p.chromaFormatIdc, p.bitDepthLumaMinus8,
        p.bitDepthChromaMinus8, 0, p.log2MaxFrameNumMinus4, p.picOrderCntType, p.maxNumRefFrames, 0,
        p.pictureWidthInMbs - 1, p.pictureHeightInMbs - 1, p.direct8x8InferenceFlag,
        if p.vuiParametersPresentFlag == 1 then Some(VuiOf(p.vui)) else None)
  }

  function PpsOf(p: PictureParam): Pps {
    Pps(p.picParameterSetId, p.seqParameterSetId, p.entropyCodingModeFlag, p.picOrderPresentFlag,
        p.numRefIdxL0ActiveMinus1, p.numRefIdxL1ActiveMinus1, p.weightedPredFlag, p.weightedBipredIdc,
        p.picInitQp - 26, 0, p.chromaQpIndexOffset, p.deblockingFilterControlPresentFlag, p.constrainedIntraPredFlag,
        p.redundantPicCntPresentFlag, p.transform8x8ModeFlag, p.secondChromaQpIndexOffset)
  }

  function SliceHeaderOf(slice: SliceParam, pps: PictureParam, frameNum: nat): SliceHeader {
    SliceHeader(slice.macroblockAddress, slice.sliceType, slice.picParameterSetId, frameNum,
                if pps.idrPicFlag == 1 then Some(slice.idrPicId) else None,
                if pps.idrPicFlag == 1 then [0, 0] else [0],
                if pps.entropyCodingModeFlag == 1 && slice.sliceType == SLICE_TYPE_P then Some(slice.cabacInitIdc) else None,
                slice.sliceQpDelta)
  }

  // ----- round trips

  lemma NalHeaderRoundTrip(nal: NalUnit, t: Stream)
    requires nal.refIdc < 4 && nal.unitType < 32
    ensures ReadNalHeader(NalHeader(nal, t)) == Got(nal, t)
  {
  }

  lemma VuiTailRoundTrip(v: VuiParam, vui: Vui, t: Stream)
    ensures ReadVuiTail(vui, VuiTail(v, t)) == Got(vui.(restriction := VuiOf(v).restriction), t)
  {
  }

  lemma VuiTimingRoundTrip(v: VuiParam, vui: Vui, t: Stream)
    ensures ReadVuiTiming(vui, VuiTiming(v, t)) ==
            Got(vui.(timing := VuiOf(v).timing, restriction := VuiOf(v).restriction), t)
  {
    VuiTailRoundTrip(v, vui.(timing := VuiOf(v).timing), t);
    if v.timingInfoPresentFlag == 1 {
      assert ReadTiming(TimingData(v, VuiTail(v, t))) == Got(VuiOf(v).timing.value, VuiTail(v, t));
    }
  }

  lemma VuiRoundTrip(v: VuiParam, t: Stream)
    ensures ReadVui(VuiData(v, t)) == Got(VuiOf(v), t)
  {
    VuiTimingRoundTrip(v, VuiOf(v).(timing := None, restriction := None), t);
    if v.aspectRatioInfoPresentFlag == 1 {
      assert ReadAspectRatio(AspectRatioData(v, VuiTiming(v, t))) == Got((v.aspectRatioIdc, VuiOf(v).sar), VuiTiming(v, t));
    }
  }

  lemma SpsTailRoundTrip(p: SequenceParam, sps: Sps, t: Stream)
    requires p.Writable()
    ensures ReadSpsTail(sps, SpsTail(p, t)) ==
            Got(sps.(picWidthInMbsMinus1 := p.pictureWidthInMbs - 1, picHeightInMapUnitsMinus1 := p.pictureHeightInMbs - 1,
                     direct8x8InferenceFlag := p.direct8x8InferenceFlag, vui := SpsOf(p).vui), t)
  {
    VuiRoundTrip(p.vui, t);
  }

  /** Every sequence parameter set the writer accepts is recovered, and exactly its bits are consumed. */
  lemma SpsRoundTrip(p: SequenceParam, t: Stream)
    requires p.Writable()
    ensures ReadSps(SpsData(p, t)) == Got(SpsOf(p), t)
  {
    var sps := SpsOf(p).(picWidthInMbsMinus1 := 0, picHeightInMapUnitsMinus1 := 0, direct8x8InferenceFlag := 0, vui := None);
    SpsTailRoundTrip(p, sps, t);
    var start := sps.(log2MaxFrameNumMinus4 := 0, picOrderCntType := 0, maxNumRefFrames := 0, gapsInFrameNumAllowedFlag := 0);
    assert ReadSpsMiddle(start, SpsMiddle(p, t)) == Got(SpsOf(p), t);
  }

  lemma TailOfSe(v: int, tail: Stream)
    ensures AllZero(Se(v, tail)) ==> AllZero(tail)
  {
    TailOfUe(if v <= 0 then -2 * v else 2 * v - 1, tail);
  }

  lemma PpsTailRoundTrip(p: PictureParam, pps: Pps, t: Stream)
    requires p.Writable() && !AllZero(t)
    ensures ReadPpsTail(pps, PpsTail(p, t)) ==
            Got(pps.(deblockingFilterControlPresentFlag := p.deblockingFilterControlPresentFlag,
                     constrainedIntraPredFlag := p.constrainedIntraPredFlag,
                     redundantPicCntPresentFlag := p.redundantPicCntPresentFlag,
                     transform8x8ModeFlag := p.transform8x8ModeFlag,
                     secondChromaQpIndexOffset := p.secondChromaQpIndexOffset), t)
  {
    var scaling := U(0, 1, Se(p.secondChromaQpIndexOffset, t));
    var more := U(p.transform8x8ModeFlag, 1, scaling);
    assert MoreRbspData(more) by {
      TailOfSe(p.secondChromaQpIndexOffset, t);
      TailOfBits(0, 1, Se(p.secondChromaQpIndexOffset, t));
      assert PutBits(p.transform8x8ModeFlag, 0, scaling) == scaling;
    }
  }

  lemma OffsetsRoundTrip(a: int, b: int, c: int, t: Stream)
    ensures ReadOffsets(Se(a, Se(b, Se(c, t)))) == Got((a, b, c), t)
  {
  }

  lemma PpsQuantisersRoundTrip(p: PictureParam, pps: Pps, t: Stream)
    requires p.Writable() && !AllZero(t)
    ensures ReadPpsQuantisers(pps, PpsQuantisers(p, t)) ==
            ReadPpsTail(pps.(picInitQpMinus26 := p.picInitQp - 26, picInitQsMinus26 := 0,
                             chromaQpIndexOffset := p.chromaQpIndexOffset,
                             secondChromaQpIndexOffset := p.chromaQpIndexOffset), PpsTail(p, t))
  {
    OffsetsRoundTrip(p.picInitQp - 26, 0, p.chromaQpIndexOffset, PpsTail(p, t));
  }

  /** Every picture parameter set the writer accepts is recovered before its trailing bits. */
  lemma PpsRoundTrip(p: PictureParam, t: Stream)
    requires p.Writable() && !AllZero(t)
    ensures ReadPps(PpsData(p, t)) == Got(PpsOf(p), t)
  {
    var quantised := PpsOf(p).(deblockingFilterControlPresentFlag := 0, constrainedIntraPredFlag := 0,
                               redundantPicCntPresentFlag := 0, transform8x8ModeFlag := 0,
                               secondChromaQpIndexOffset := p.chromaQpIndexOffset);
    var start := quantised.(picInitQpMinus26 := 0, chromaQpIndexOffset := 0, secondChromaQpIndexOffset := 0);
    PpsTailRoundTrip(p, quantised, t);
    PpsQuantisersRoundTrip(p, start, t);
    assert ReadPps(PpsData(p, t)) == ReadPpsQuantisers(start, PpsQuantisers(p, t));
  }

  lemma SliceTailRoundTrip(slice: SliceParam, sps: SequenceParam, pps: PictureParam, f: nat, t: Stream)
    requires SliceWritable(slice, sps, pps)
    requires sps.Writable() && (pps.idrPicFlag == 1 ==> slice.sliceType == SLICE_TYPE_I)
    ensures var h := SliceHeader(slice.macroblockAddress, slice.sliceType, slice.picParameterSetId, f, None, [], None, 0);
            ReadSliceTail(SliceNal(slice, pps), SpsOf(sps), PpsOf(pps), h, SliceTail(slice, pps, t)) ==
            Got(SliceHeaderOf(slice, pps, f), t)
  {
  }

  // ----- whole NAL units

  function AudNalUnit(zeros: nat): Stream {
    NalHeader(AUD_NAL, AudData(Trailing(zeros)))
  }

  function SpsNalUnit(p: SequenceParam, zeros: nat): Stream
    requires p.Writable()
  {
    NalHeader(SPS_NAL, SpsData(p, Trailing(zeros)))
  }

  function PpsNalUnit(p: PictureParam, zeros: nat): Stream
    requires p.Writable()
  {
    NalHeader(PPS_NAL, PpsData(p, Trailing(zeros)))
  }

  /** A slice NAL unit up to frame_num. */
  function SliceNalHead(slice: SliceParam, pps: PictureParam): Stream {
    NalHeader(SliceNal(slice, pps), SliceHead(slice, End))
  }

  /** rbsp_trailing_bits: what must be left after the data of a parameter set. */
  predicate IsTrailing(s: Stream) {
    s.Next? && s.bit && AllZero(s.rest)
  }

  function DecodeAud(s: Stream): Read<nat> {
    var (nal, s) :- ReadNalHeader(s);
    var (primaryPicType, s) :- ReadU(s, 3);
    if nal.refIdc == 0 && nal.unitType == 9 && IsTrailing(s) then Got(primaryPicType, s) else Fail
  }

  function DecodeSps(s: Stream): Read<Sps> {
    var (nal, s) :- ReadNalHeader(s);
    var (sps, s) :- ReadSps(s);
    if nal.refIdc != 0 && nal.unitType == 7 && IsTrailing(s) then Got(sps, s) else Fail
  }

  function DecodePps(s: Stream): Read<Pps> {
    var (nal, s) :- ReadNalHeader(s);
    var (pps, s) :- ReadPps(s);
    if nal.refIdc != 0 && nal.unitType == 8 && IsTrailing(s) then Got(pps, s) else Fail
  }

  function DecodeSlice(sps: Sps, pps: Pps, s: Stream): Read<(NalUnit, SliceHeader)> {
    var (nal, s) :- ReadNalHeader(s);
    if nal.unitType != 1 && nal.unitType != 5 then Fail else
    var (header, s) :- ReadSliceHeader(nal, sps, pps, s);
    Got((nal, header), s)
  }

  lemma {:induction false} TrailingIsTrailing(zeros: nat)
    ensures AllZero(PutZeros(zeros, End)) && IsTrailing(Trailing(zeros)) && !AllZero(Trailing(zeros))
    decreases zeros
  {
    if zeros > 0 {
      TrailingIsTrailing(zeros - 1);
    }
  }

  /** The writer's access unit delimiter announces I and P pictures. */
  lemma AudDecodes(zeros: nat)
    ensures DecodeAud(AudNalUnit(zeros)) == Got(1, Trailing(zeros))
  {
    TrailingIsTrailing(zeros);
    NalHeaderRoundTrip(AUD_NAL, AudData(Trailing(zeros)));
    assert 1 < Pow2(3);
  }

  lemma SpsDecodes(p: SequenceParam, zeros: nat)
    requires p.Writable()
    ensures DecodeSps(SpsNalUnit(p, zeros)) == Got(SpsOf(p), Trailing(zeros))
  {
    TrailingIsTrailing(zeros);
    NalHeaderRoundTrip(SPS_NAL, SpsData(p, Trailing(zeros)));
    SpsRoundTrip(p, Trailing(zeros));
  }

  lemma PpsDecodes(p: PictureParam, zeros: nat)
    requires p.Writable()
    ensures DecodePps(PpsNalUnit(p, zeros)) == Got(PpsOf(p), Trailing(zeros))
  {
    TrailingIsTrailing(zeros);
    NalHeaderRoundTrip(PPS_NAL, PpsData(p, Trailing(zeros)));
    PpsRoundTrip(p, Trailing(zeros));
  }

  lemma SliceHeadRoundTrip(slice: SliceParam, sps: SequenceParam, pps: PictureParam, t: Stream)
    requires SliceWritable(slice, sps, pps) && sps.Writable()
    requires slice.picParameterSetId == pps.picParameterSetId && pps.seqParameterSetId == sps.seqParameterSetId
    ensures var width := sps.log2MaxFrameNumMinus4 + 4;
            var f := pps.frameNum % Pow2(width);
            var h := SliceHeader(slice.macroblockAddress, slice.sliceType, slice.picParameterSetId, f, None, [], None, 0);
            ReadSliceHeader(SliceNal(slice, pps), SpsOf(sps), PpsOf(pps), SliceHead(slice, PutBits(pps.frameNum, width, t))) ==
            ReadSliceTail(SliceNal(slice, pps), SpsOf(sps), PpsOf(pps), h, t)
  {
    ReadPutLowBits(pps.frameNum, sps.log2MaxFrameNumMinus4 + 4, t);
  }

  /** A slice header whose frame_num field was appended cleanly is recovered with frame_num modulo
      2^log2_max_frame_num, whatever slice data follows. */
  lemma SliceDecodes(slice: SliceParam, sps: SequenceParam, pps: PictureParam, t: Stream)
    requires SliceWritable(slice, sps, pps) && sps.Writable() && (pps.idrPicFlag == 1 ==> slice.sliceType == SLICE_TYPE_I)
    requires slice.picParameterSetId == pps.picParameterSetId && pps.seqParameterSetId == sps.seqParameterSetId
    ensures var width := sps.log2MaxFrameNumMinus4 + 4;
            DecodeSlice(SpsOf(sps), PpsOf(pps),
                        NalHeader(SliceNal(slice, pps),
                                  SliceHead(slice, PutBits(pps.frameNum, width, SliceTail(slice, pps, t))))) ==
            Got((SliceNal(slice, pps), SliceHeaderOf(slice, pps, pps.frameNum % Pow2(width))), t)
  {
    var width, tail := sps.log2MaxFrameNumMinus4 + 4, SliceTail(slice, pps, t);
    SliceHeadRoundTrip(slice, sps, pps, tail);
    NalHeaderRoundTrip(SliceNal(slice, pps), SliceHead(slice, PutBits(pps.frameNum, width, tail)));
    SliceTailRoundTrip(slice, sps, pps, pps.frameNum % Pow2(width), t);
  }

  // ----- the decoder's direction

  lemma NalHeaderCanonical(s: Stream)
    ensures ReadNalHeader(s).Got? ==>
              var r := ReadNalHeader(s);
              r.value.refIdc < 4 && r.value.unitType < 32 && s == NalHeader(r.value, r.rest)
  {
    if ReadNalHeader(s).Got? {
      ReadUCanonical(s, 32);
      var s1 := ReadU(s, 32).rest;
      ReadUCanonical(s1, 1);
      var s2 := ReadU(s1, 1).rest;
      ReadUCanonical(s2, 2);
      ReadUCanonical(ReadU(s2, 2).rest, 5);
      assert Pow2(2) == 4 && Pow2(5) == 32;
    }
  }

  lemma SliceHeadCanonical(nal: NalUnit, sps: Sps, pps: Pps, s: Stream) returns (rest: Stream)
    requires ReadSliceHeader(nal, sps, pps, s).Got?
    ensures var h := ReadSliceHeader(nal, sps, pps, s).value;
            s == Ue(h.firstMbInSlice, Ue(h.sliceType, Ue(h.ppsId, rest)))
  {
    ReadUeCanonical(s);
    var s1 := ReadUe(s).rest;
    ReadUeCanonical(s1);
    var s2 := ReadUe(s1).rest;
    ReadUeCanonical(s2);
    rest := ReadUe(s2).rest;
  }
}
