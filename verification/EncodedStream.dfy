/** What a decoder makes of the headers of a whole run: it keeps only the parameter sets of the first
    frame and parses every later slice header with them. */
module EncodedStream {
  import opened Words
  import opened BitStream
  import opened BitWriter
  import opened H264Syntax
  import opened NalWriter
  import opened Options
  import opened EncodeRuns

  /** The packed headers handed to the driver with a frame, as bits. */
  datatype AccessUnit = AccessUnit(aud: Stream, sequence: Option<Stream>, pictureSet: Option<Stream>, slice: Stream)

  ghost predicate IsAud(s: Stream) {
    exists zeros :: 1 <= zeros <= 8 && s == AudNalUnit(zeros)
  }

  ghost predicate IsSps(s: Stream, sps: SequenceParam) {
    sps.Writable() && exists zeros :: 1 <= zeros <= 8 && s == SpsNalUnit(sps, zeros)
  }

  ghost predicate IsPps(s: Stream, pps: PictureParam) {
    pps.Writable() && exists zeros :: 1 <= zeros <= 8 && s == PpsNalUnit(pps, zeros)
  }

  ghost predicate IsSlice(s: Stream, slice: SliceParam, sps: SequenceParam, pps: PictureParam) {
    s == SliceHeaderStream(slice, sps, pps, End)
  }

  /** What the header writers hand out for a frame. */
  ghost predicate HeadersOf(unit: AccessUnit, sps: SequenceParam, picture: Picture) {
    && IsAud(unit.aud)
    && unit.sequence.Some? == unit.pictureSet.Some? == picture.isIdr
    && (picture.isIdr ==> IsSps(unit.sequence.value, sps) && IsPps(unit.pictureSet.value, PictureParamFor(picture)))
    && IsSlice(unit.slice, SliceParamFor(picture), sps, PictureParamFor(picture))
  }

  /** The bits of the headers of a frame. */
  function HeaderBits(unit: AccessUnit): nat {
    |Flatten(unit.aud)| + (if unit.sequence.Some? then |Flatten(unit.sequence.value)| else 0) +
    (if unit.pictureSet.Some? then |Flatten(unit.pictureSet.value)| else 0) + |Flatten(unit.slice)|
  }

  /** The headers one after another. */
  function HeaderStream(unit: AccessUnit): Stream {
    Append(unit.aud, Append(if unit.sequence.Some? then unit.sequence.value else End,
                            Append(if unit.pictureSet.Some? then unit.pictureSet.value else End, unit.slice)))
  }

  lemma {:induction false} FlattenAppend(s: Stream, t: Stream)
    ensures Flatten(Append(s, t)) == Flatten(s) + Flatten(t)
    decreases s
  {
    if s.Next? {
      FlattenAppend(s.rest, t);
    }
  }

  lemma HeaderBitsCountAll(unit: AccessUnit)
    ensures HeaderBits(unit) == |Flatten(HeaderStream(unit))|
  {
    var sequence := if unit.sequence.Some? then unit.sequence.value else End;
    var pictureSet := if unit.pictureSet.Some? then unit.pictureSet.value else End;
    FlattenAppend(pictureSet, unit.slice);
    FlattenAppend(sequence, Append(pictureSet, unit.slice));
    FlattenAppend(unit.aud, Append(sequence, Append(pictureSet, unit.slice)));
  }

  /** Mentioning a frame's index brings up what is known of its headers. */
  predicate Index(k: nat) { true }

  ghost predicate HeadersOfAll(units: seq<AccessUnit>, coded: seq<Coded>) {
    && |units| == |coded|
    && forall k: nat {:trigger Index(k)} ::
         Index(k) && k < |units| ==> HeadersOf(units[k], coded[k].sequenceParam, coded[k].picture)
  }

  /** The headers of the last frame have that many bits. */
  ghost predicate LastHeaderBits(units: seq<AccessUnit>, headerBits: nat) {
    forall k: nat {:trigger Index(k)} :: Index(k) && k + 1 == |units| ==> headerBits == HeaderBits(units[k])
  }

  lemma HeadersOfOneMore(units: seq<AccessUnit>, coded: seq<Coded>, unit: AccessUnit, one: Coded)
    requires HeadersOfAll(units, coded) && HeadersOf(unit, one.sequenceParam, one.picture)
    ensures HeadersOfAll(units + [unit], coded + [one])
  {
  }

  /** A decoder that keeps the parameter sets of the first access unit, reading the slice header of
      another one before some slice data. */
  function DecodeWithFirstSets(first: AccessUnit, unit: AccessUnit, sliceData: Stream): Read<(NalUnit, SliceHeader)> {
    if first.sequence.None? || first.pictureSet.None? then Fail
    else
      var (sps, _) :- DecodeSps(first.sequence.value);
      var (pps, _) :- DecodePps(first.pictureSet.value);
      DecodeSlice(sps, pps, Append(unit.slice, sliceData))
  }

  /** The k-th slice header as the source means it. */
  function SliceHeaderAt(k: nat): SliceHeader {
    if k == 0 then SliceHeader(0, 2, 0, 0, Some(0), [0, 0], None, 0)
    else SliceHeader(0, 0, 0, ParsedFrameNum(k), None, [0], Some(0), 0)
  }

  // ----- slice data after the header

  lemma {:induction false} AppendToFeed(bits: Bits, i: nat, s: Stream, t: Stream)
    requires i <= |bits|
    ensures Append(Feed(bits, i, s), t) == Feed(bits, i, Append(s, t))
    decreases |bits| - i
  {
    if i < |bits| {
      AppendToFeed(bits, i + 1, s, t);
    }
  }

  lemma AppendToSe(v: int, s: Stream, t: Stream)
    ensures Append(Se(v, s), t) == Se(v, Append(s, t))
  {
    AppendToUe(if v <= 0 then -2 * v else 2 * v - 1, s, t);
  }

  lemma AppendToU(v: nat, n: nat, s: Stream, t: Stream)
    requires v < Pow2(n)
    ensures Append(U(v, n, s), t) == U(v, n, Append(s, t))
  {
    AppendToBits(v, n, s, t);
  }

  lemma AppendToMarking(pps: PictureParam, s: Stream, t: Stream)
    ensures Append(MarkingData(pps, s), t) == MarkingData(pps, Append(s, t))
  {
    AppendToU(0, 1, s, t);
    AppendToU(0, 1, U(0, 1, s), t);
  }

  lemma AppendToSliceEnd(slice: SliceParam, pps: PictureParam, s: Stream, t: Stream)
    ensures Append(SliceEnd(slice, pps, s), t) == SliceEnd(slice, pps, Append(s, t))
  {
    AppendToSe(slice.sliceQpDelta, s, t);
    AppendToUe(slice.cabacInitIdc, Se(slice.sliceQpDelta, s), t);
  }

  lemma AppendToSliceTail(slice: SliceParam, pps: PictureParam, s: Stream, t: Stream)
    ensures Append(SliceTail(slice, pps, s), t) == SliceTail(slice, pps, Append(s, t))
  {
    var end := SliceEnd(slice, pps, s);
    var marking := MarkingData(pps, end);
    var refs := U(slice.numRefIdxActiveOverrideFlag, 1, U(0, 1, marking));
    AppendToSliceEnd(slice, pps, s, t);
    AppendToMarking(pps, end, t);
    AppendToU(0, 1, marking, t);
    AppendToU(slice.numRefIdxActiveOverrideFlag, 1, U(0, 1, marking), t);
    AppendToUe(slice.idrPicId, if slice.sliceType == SLICE_TYPE_P then refs else marking, t);
  }

  /** The header bits before any slice data. */
  lemma SliceDataFollows(slice: SliceParam, sps: SequenceParam, pps: PictureParam, t: Stream)
    ensures Append(SliceHeaderStream(slice, sps, pps, End), t) == SliceHeaderStream(slice, sps, pps, t)
  {
    var bits := AppendU(Flatten(SliceNalHead(slice, pps)), pps.frameNum, sps.log2MaxFrameNumMinus4 + 4);
    AppendToFeed(bits, 0, SliceTail(slice, pps, End), t);
    AppendToSliceTail(slice, pps, End, t);
  }

  // ----- frame_num 256 does not disturb its neighbours

  lemma SliceHeadEndsInOne(slice: SliceParam, pps: PictureParam)
    requires slice.picParameterSetId == 0
    ensures EndsInOne(SliceNalHead(slice, pps))
  {
    var nal, head := SliceNal(slice, pps), SliceHead(slice, End);
    assert EndsInOne(Ue(0, End)) by {
      assert BitLength(1) == 1 && PutBits(1, 0, End) == End;
      assert PutBits(1, 1, End) == Next(true, End);
    }
    TailOfUe(slice.sliceType, Ue(0, End));
    TailOfUe(slice.macroblockAddress, Ue(slice.sliceType, Ue(0, End)));
    TailOfBits(nal.unitType, 5, head);
    TailOfBits(nal.refIdc, 2, U(nal.unitType, 5, head));
    TailOfBits(0, 1, U(nal.refIdc, 2, U(nal.unitType, 5, head)));
    TailOfBits(1, 32, U(0, 1, U(nal.refIdc, 2, U(nal.unitType, 5, head))));
  }

  /** The bit before frame_num ends the code ue(0), so it is set, and all that 256 exceeds 8 bits by is one bit. */
  lemma FrameNumExcessHidden(slice: SliceParam, pps: PictureParam)
    requires slice.picParameterSetId == 0 && pps.frameNum <= MAX_FRAME_NUM
    ensures ExcessHidden(Flatten(SliceNalHead(slice, pps)), pps.frameNum, LOG2_MAX_FRAME_NUM)
  {
    var head := Flatten(SliceNalHead(slice, pps));
    SliceHeadEndsInOne(slice, pps);
    LastOfFlatten(SliceNalHead(slice, pps));
    assert Pow2(9) == 512;
    forall j: nat | ExcessBit(head, pps.frameNum, LOG2_MAX_FRAME_NUM, j)
      ensures j < |head| && head[|head| - 1 - j]
    {
      if j > 0 {
        BitAbove(pps.frameNum, 9, LOG2_MAX_FRAME_NUM + j);
      }
    }
  }

  // ----- the whole stream

  /** The first access unit's parameter sets decode to the given ones. */
  predicate SetsDecodeTo(first: AccessUnit, sps: Sps, pps: Pps) {
    && first.sequence.Some? && first.pictureSet.Some?
    && DecodeSps(first.sequence.value).Got? && DecodeSps(first.sequence.value).value == sps
    && DecodePps(first.pictureSet.value).Got? && DecodePps(first.pictureSet.value).value == pps
  }

  lemma FirstSetsDecode(c: Config, picture: Picture, unit: AccessUnit)
    requires c.Valid() && picture.isIdr && HeadersOf(unit, SequenceParamFor(c), picture)
    ensures SetsDecodeTo(unit, SpsOf(SequenceParamFor(c)), PpsOf(PictureParamFor(picture)))
  {
    var z :| 1 <= z <= 8 && unit.sequence.value == SpsNalUnit(SequenceParamFor(c), z);
    SpsDecodes(SequenceParamFor(c), z);
    var z' :| 1 <= z' <= 8 && unit.pictureSet.value == PpsNalUnit(PictureParamFor(picture), z');
    PpsDecodes(PictureParamFor(picture), z');
  }

  lemma SliceOfPictureDecodes(c: Config, picture: Picture, slice: Stream, t: Stream)
    requires c.Valid() && picture.frameNum <= MAX_FRAME_NUM
    requires IsSlice(slice, SliceParamFor(picture), SequenceParamFor(c), PictureParamFor(picture))
    ensures DecodeSlice(SpsOf(SequenceParamFor(c)), PpsOf(PictureParamFor(picture)), Append(slice, t)) ==
            Got((SliceNal(SliceParamFor(picture), PictureParamFor(picture)),
                 SliceHeaderOf(SliceParamFor(picture), PictureParamFor(picture), picture.frameNum % MAX_FRAME_NUM)), t)
  {
    var sp, sps, pps := SliceParamFor(picture), SequenceParamFor(c), PictureParamFor(picture);
    SliceDataFollows(sp, sps, pps, t);
    FrameNumExcessHidden(sp, pps);
    SliceHeaderDecodesIff(sp, sps, pps, t);
    assert Pow2(LOG2_MAX_FRAME_NUM) == MAX_FRAME_NUM;
  }

  /** What a slice header carries for the k-th picture: an I slice of an IDR picture, and P slices after it. */
  predicate SliceOfKth(r: Read<(NalUnit, SliceHeader)>, k: nat, sliceData: Stream) {
    r == Got((if k == 0 then NalUnit(3, 5) else NalUnit(2, 1), SliceHeaderAt(k)), sliceData)
  }

  lemma HeaderOfKth(picture: Picture, k: nat)
    requires picture.isIdr == (k == 0) && picture.frameNum == k % (MAX_FRAME_NUM + 1)
    ensures SliceHeaderOf(SliceParamFor(picture), PictureParamFor(picture), picture.frameNum % MAX_FRAME_NUM) ==
            SliceHeaderAt(k)
    ensures SliceNal(SliceParamFor(picture), PictureParamFor(picture)) == if k == 0 then IDR_SLICE_NAL else P_SLICE_NAL
  {
  }

  lemma KthSliceDecodes(c: Config, picture: Picture, slice: Stream, k: nat, t: Stream)
    requires c.Valid() && picture.isIdr == (k == 0) && picture.frameNum == k % (MAX_FRAME_NUM + 1)
    requires IsSlice(slice, SliceParamFor(picture), SequenceParamFor(c), PictureParamFor(picture))
    ensures SliceOfKth(DecodeSlice(SpsOf(SequenceParamFor(c)), PpsOf(PictureParamFor(picture)), Append(slice, t)), k, t)
  {
    SliceOfPictureDecodes(c, picture, slice, t);
    HeaderOfKth(picture, k);
  }

  /** The surface's size, a single reference frame, 8 bits for frame_num, and a tick of half a frame at the
      refresh rate. */
  predicate Means(sps: Sps, c: Config) {
    && 16 * (sps.picWidthInMbsMinus1 + 1) == c.width && 16 * (sps.picHeightInMapUnitsMinus1 + 1) == c.height
    && sps.maxNumRefFrames == 1 && Pow2(sps.log2MaxFrameNumMinus4 + 4) == MAX_FRAME_NUM && sps.levelIdc == c.levelIdc
    && sps.vui.Some? && sps.vui.value.timing.Some?
    && (2000 * c.refreshRate < WORD_MODULUS ==>
          sps.vui.value.timing.value.1 == 2 * sps.vui.value.timing.value.0 * c.refreshRate)
  }

  lemma SequenceParamMeans(c: Config)
    requires c.Valid()
    ensures Means(SpsOf(SequenceParamFor(c)), c)
  {
    assert Pow2(LOG2_MAX_FRAME_NUM) == MAX_FRAME_NUM;
  }

  /** What the first sequence parameter set tells a decoder. */
  lemma FirstSequenceMeans(c: Config, picture: Picture, unit: AccessUnit)
    requires c.Valid() && picture.isIdr && HeadersOf(unit, SequenceParamFor(c), picture)
    ensures unit.sequence.Some? && DecodeSps(unit.sequence.value).Got?
    ensures DecodeSps(unit.sequence.value).value == IntendedSps(c) && Means(DecodeSps(unit.sequence.value).value, c)
  {
    FirstSetsDecode(c, picture, unit);
    SequenceParamMeans(c);
    SetsAreIntended(c, picture);
  }

  /** The sequence parameter set a decoder gets: High profile without interlacing, 4:2:0 with 8 bits, frame
      numbers of 8 bits, output in coding order, one reference frame, square pixels, and motion vectors of up
      to 2^15 quarter pixels. */
  function IntendedSps(c: Config): Sps
    requires c.Valid()
  {
    var tick := (1000, 2 * c.refreshRate * 1000 % 0x1_0000_0000, 0);
    Sps(100, [0, 0, 0, 0, 1, 1], c.levelIdc, 0, 1, 0, 0, 0, 4, 2, 1, 0, c.width / 16 - 1, c.height / 16 - 1, 1,
        Some(Vui(Some(255), Some((1, 1)), Some(tick), Some([1, 0, 0, 15, 15, 0, 1]))))
  }

  /** The picture parameter set: CABAC, 8 by 8 transforms, an initial quantiser of 22, one reference picture, and
      neither weights, offsets nor filter control. */
  const INTENDED_PPS: Pps := Pps(0, 0, 1, 0, 0, 0, 0, 0, -4, 0, 0, 0, 0, 0, 1, 0)

  lemma SetsAreIntended(c: Config, picture: Picture)
    requires c.Valid()
    ensures SpsOf(SequenceParamFor(c)) == IntendedSps(c) && PpsOf(PictureParamFor(picture)) == INTENDED_PPS
  {
  }

  /** In the stream of any session, the first access unit carries these sets, and no other one carries any. */
  lemma FirstUnitCarriesSets(c: Config, s: Session, units: seq<AccessUnit>, k: nat)
    requires Reachable(c, s) && HeadersOfAll(units, s.coded) && k < |units|
    ensures units[k].sequence.Some? == units[k].pictureSet.Some? == (k == 0)
    ensures units[0].sequence.Some? && DecodeSps(units[0].sequence.value).Got? &&
            DecodeSps(units[0].sequence.value).value == IntendedSps(c)
    ensures units[0].pictureSet.Some? && DecodePps(units[0].pictureSet.value).Got? &&
            DecodePps(units[0].pictureSet.value).value == INTENDED_PPS
  {
    ReachableKeepsInvariant(c, s);
    assert CodedInChain(c, s.coded, 0) && CodedInChain(c, s.coded, k);
    assert Index(0) && Index(k);
    FirstSetsDecode(c, s.coded[0].picture, units[0]);
    SetsAreIntended(c, s.coded[0].picture);
  }

  lemma DecodesWithSets(first: AccessUnit, sps: Sps, pps: Pps, unit: AccessUnit, t: Stream)
    requires SetsDecodeTo(first, sps, pps)
    ensures DecodeWithFirstSets(first, unit, t) == DecodeSlice(sps, pps, Append(unit.slice, t))
  {
  }

  lemma KthHeaderDecodes(c: Config, s: Session, units: seq<AccessUnit>, k: nat, sliceData: Stream)
    requires Inv(c, s) && HeadersOfAll(units, s.coded) && k < |units|
    ensures SliceOfKth(DecodeWithFirstSets(units[0], units[k], sliceData), k, sliceData)
  {
    assert CodedInChain(c, s.coded, 0) && CodedInChain(c, s.coded, k);
    assert Index(0) && Index(k);
    var p0, p := s.coded[0].picture, s.coded[k].picture;
    FirstSetsDecode(c, p0, units[0]);
    assert PpsOf(PictureParamFor(p0)) == PpsOf(PictureParamFor(p));
    DecodesWithSets(units[0], SpsOf(SequenceParamFor(c)), PpsOf(PictureParamFor(p)), units[k], sliceData);
    KthSliceDecodes(c, p, units[k].slice, k, sliceData);
  }

  /** Over any run, with any driver failures on the way: the parameter sets of the first coded frame let a
      decoder parse the slice header of every coded frame, whatever slice data follows, and the k-th
      frame_num it reads is (k mod 257) mod 256. */
  lemma EverySliceHeaderDecodes(c: Config, s: Session, units: seq<AccessUnit>, k: nat, sliceData: Stream)
    requires Reachable(c, s) && HeadersOfAll(units, s.coded) && k < |units|
    ensures SliceOfKth(DecodeWithFirstSets(units[0], units[k], sliceData), k, sliceData)
  {
    ReachableKeepsInvariant(c, s);
    KthHeaderDecodes(c, s, units, k, sliceData);
  }

  // ----- what the decoder reads as frame_num

  /** A decoder with the first frame's parameter sets reads the number from a frame, whatever the slice data. */
  ghost predicate ReadsFrameNum(first: AccessUnit, unit: AccessUnit, num: nat) {
    forall sliceData ::
      var r := DecodeWithFirstSets(first, unit, sliceData); r.Got? && r.value.1.frameNum == num
  }

  lemma ReadsParsedFrameNum(c: Config, s: Session, units: seq<AccessUnit>, k: nat)
    requires Reachable(c, s) && HeadersOfAll(units, s.coded) && k < |units|
    ensures ReadsFrameNum(units[0], units[k], ParsedFrameNum(k))
  {
    assert ParsedFrameNum(0) == 0;
    forall sliceData
      ensures var r := DecodeWithFirstSets(units[0], units[k], sliceData);
              r.Got? && r.value.1.frameNum == ParsedFrameNum(k)
    {
      EverySliceHeaderDecodes(c, s, units, k, sliceData);
    }
  }

  lemma ReadsOneFrameNum(first: AccessUnit, unit: AccessUnit, a: nat, b: nat)
    requires ReadsFrameNum(first, unit, a) && ReadsFrameNum(first, unit, b)
    ensures a == b
  {
    var _ := DecodeWithFirstSets(first, unit, End);
  }

  /** In the stream of any session, the frame_num that is decoded follows that of the frame before if and only if
      the frame is not a multiple of 257 frames after the first. */
  lemma DecodedNumbersFollowIff(c: Config, s: Session, units: seq<AccessUnit>, k: nat, previous: nat, num: nat)
    requires Reachable(c, s) && HeadersOfAll(units, s.coded) && 0 < k < |units|
    requires ReadsFrameNum(units[0], units[k - 1], previous) && ReadsFrameNum(units[0], units[k], num)
    ensures num == (previous + 1) % MAX_FRAME_NUM <==> k % (MAX_FRAME_NUM + 1) != 0
  {
    ReadsParsedFrameNum(c, s, units, k - 1);
    ReadsParsedFrameNum(c, s, units, k);
    ReadsOneFrameNum(units[0], units[k - 1], previous, ParsedFrameNum(k - 1));
    ReadsOneFrameNum(units[0], units[k], num, ParsedFrameNum(k));
    FrameNumFollowsIff(k);
  }

  lemma ReadsZero(c: Config, s: Session, units: seq<AccessUnit>, k: nat)
    requires Reachable(c, s) && HeadersOfAll(units, s.coded) && k < |units| && ParsedFrameNum(k) == 0
    ensures ReadsFrameNum(units[0], units[k], 0)
  {
    ReadsParsedFrameNum(c, s, units, k);
  }

  /** In every stream that is long enough, frame 257 after the first repeats the frame_num of frame 256. */
  lemma DecodedNumberRepeats(c: Config, s: Session, units: seq<AccessUnit>)
    requires Reachable(c, s) && HeadersOfAll(units, s.coded) && |units| > 257
    ensures ReadsFrameNum(units[0], units[256], 0) && ReadsFrameNum(units[0], units[257], 0)
  {
    FrameNumRepeats();
    ReadsZero(c, s, units, 256);
    ReadsZero(c, s, units, 257);
  }

  // ----- there are streams of any length

  lemma SomeSets(sps: SequenceParam, pps: PictureParam) returns (aud: Stream, sequence: Stream, pictureSet: Stream)
    requires sps.Writable() && pps.Writable()
    ensures IsAud(aud) && IsSps(sequence, sps) && IsPps(pictureSet, pps)
  {
    var zeros :| 1 <= zeros <= 8;
    aud, sequence, pictureSet := AudNalUnit(zeros), SpsNalUnit(sps, zeros), PpsNalUnit(pps, zeros);
  }

  lemma SomeUnit(one: Coded) returns (unit: AccessUnit)
    requires one.sequenceParam.Writable()
    ensures HeadersOf(unit, one.sequenceParam, one.picture)
  {
    var pictureParam := PictureParamFor(one.picture);
    var aud, sequence, pictureSet := SomeSets(one.sequenceParam, pictureParam);
    var slice := SliceHeaderStream(SliceParamFor(one.picture), one.sequenceParam, pictureParam, End);
    unit := if one.picture.isIdr then AccessUnit(aud, Some(sequence), Some(pictureSet), slice)
            else AccessUnit(aud, None, None, slice);
  }

  lemma {:induction false} SomeHeaders(coded: seq<Coded>) returns (units: seq<AccessUnit>)
    requires forall k :: 0 <= k < |coded| ==> coded[k].sequenceParam.Writable()
    ensures HeadersOfAll(units, coded)
    decreases |coded|
  {
    if |coded| == 0 {
      units := [];
    } else {
      var rest, one := coded[..|coded| - 1], coded[|coded| - 1];
      var before := SomeHeaders(rest);
      var unit := SomeUnit(one);
      HeadersOfOneMore(before, rest, unit, one);
      assert rest + [one] == coded;
      units := before + [unit];
    }
  }

  lemma SessionSetsWritable(c: Config, s: Session)
    requires Reachable(c, s)
    ensures forall k :: 0 <= k < |s.coded| ==> s.coded[k].sequenceParam.Writable()
  {
    ReachableKeepsInvariant(c, s);
    assert SequenceParamFor(c).Writable();
    forall k | 0 <= k < |s.coded| ensures s.coded[k].sequenceParam.Writable() {
      assert CodedInChain(c, s.coded, k);
    }
  }

  lemma StreamOfAnyLength(c: Config, n: nat)
    requires c.Valid()
    ensures exists s, units :: Reachable(c, s) && HeadersOfAll(units, s.coded) && |units| == n
  {
    var s := SessionOfLength(c, n);
    SessionSetsWritable(c, s);
    var units := SomeHeaders(s.coded);
  }
}
