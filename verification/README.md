# A verified model of parts of gnome-remote-desktop

This project models four stateful parts of gnome-remote-desktop, a remote desktop server, and proves what they
promise. `dafny verify dfyconfig.toml` checks all of it.

**H.264 headers.** The encoder writes its own parameter sets and slice headers, bit by bit, into an array of 32-bit
words. `Words`, `BitStream`, `BitWriter` and `BitFields` show that the shifting, or-ing and byte swapping of words
refines "append bits", down to the bytes in memory. `H264Syntax` holds the syntax tables of Rec. ITU-T H.264 (08/2021) as a
parser and proves that it undoes what `NalWriter` writes. A value that does not fit its field is or-ed onto the bits
before it; the model keeps that, and `AppendIsCleanIff` and `SliceHeaderDecodesIff` say exactly when it does harm.

**The VA-API encode session.** `EncodeRuns` is the machine of encode, lock and unlock calls, with every driver call
free to fail, and `EncodeSession` is the object, whose calls are steps of that machine. `EncodedStream` puts both
parts together: over any run, the parameter sets of the first frame let a decoder read every later slice header.
The frame counter wraps at 257 although MaxFrameNum is 256 (src/grd-encode-session-vaapi.c:1275-1278). The model
counts as the code does; `DecodedNumbersFollowIff` and `FrameNumCountsIff` say for which frames a decoder reads what
section 7.4.3 of H.264 asks for.

**The RDP clipboard.** `ClientRequests` models the requests for the client's clipboard content: one on the wire, a
queue, a cache, timeouts, and format lists that abort everything. `FormatClassification` and `FormatListSender`
model which types either side offers. `ClipDataLocks` models the locks on the local clipboard's data, and
`FormatDataGate` the client's requests for local content, with the read operation behind them. Each is a machine
whose steps are taken by a channel thread, the main loop or a worker, in any order, and an object whose methods
are those steps. `ClientOutcomes`, `ListOutcomes` and `GateOutcomes` say what each step, and each request from its
arrival to its answer, comes to. A response on the wire carries no request id, so "the response to a request" means one that was
stored while that request was current.

**EGL slots and damage.** `EglSlots` models the replaceable tasks of the EGL thread, of which only the newest one
waits, and `EglOutcomes` what becomes of each. `Damage` models the comparison of frames by tiles, over arrays of bytes.

In each machine a run is a list of steps, each enabled where it is taken; a theorem about `Run` and `After` is about
every run. Choices of the driver, the channel, the session and the other threads are parameters of steps and of
methods. Identities (surfaces, bitstreams, WinPR clipboards, entries, tasks) are numbers.

## Model

| member | source | states |
|---|---|---|
| BitStream.U | src/grd-nal-writer.c:125-162 | a fixed width field whose value fits is read back by u(n), and exactly its bits are consumed, whatever follows |
| BitStream.Ue | src/grd-nal-writer.c:164-189 | every number laid out as an unsigned Exp-Golomb code is read back by ue(v) of section 9.1 of Rec. ITU-T H.264, whatever follows, so that sequences of codes are uniquely decodable |
| BitStream.Se | src/grd-nal-writer.c:191-203 | every integer laid out as a signed Exp-Golomb code is read back by se(v) of section 9.1.1 |
| BitStream.ReadPutLowBits | src/grd-nal-writer.c:125-162 | a field of a value that does not fit is read as the value modulo 2^n |
| BitStream.ReadUeCanonical | src/grd-nal-writer.c:164-189 | conversely, whatever bits are read as a code are the layout of the value read: the code is canonical |
| BitWriter.BitOfSwap | src/grd-nal-writer.c:77-83 | the byte swap reverses the bytes of a word and keeps the order of bits in each |
| BitWriter.SwappedWordInMemory | src/grd-nal-writer.c:77-83 | a swapped word lies in memory most significant bit first |
| BitWriter.AppendIsCleanIff | src/grd-nal-writer.c:125-162 | a write leaves the earlier bits alone if and only if the excess of its value over the field falls on bits that are set already, or outside the current word |
| BitWriter.FittingValueIsAppended | src/grd-nal-writer.c:125-162 | a value below 2^n always appends exactly its n digits |
| BitFields.WritesConcatenate | src/grd-nal-writer.c:125-162 | any sequence of fields whose values fit leaves exactly the concatenation of their encodings |
| BitWriter.FieldFits | src/grd-nal-writer.c:138-153 | the shift and or of a field that leaves room in the current word refines appending to the bits |
| BitWriter.FieldSpills | src/grd-nal-writer.c:138-162 | completing and swapping the current word and storing the whole value in the next refines appending to the bits |
| BitWriter.LastWordFlushed | src/grd-nal-writer.c:93-100 | shifting the last word up and swapping it puts the remaining bits in memory order |
| BitWriter.UeWrittenIsReadBackIff | src/grd-nal-writer.c:164-189 | the unsigned code is decodable if and only if the value is below 2^32 - 1; the largest value writes nothing |
| BitWriter.CodeAppended | src/grd-nal-writer.c:164-189 | the zeros and the digits that the code writes mean ue(v) to a decoder |
| BitWriter.NalBitstream.constructor | src/grd-nal-writer.c:69-75 | an empty bit stream without a buffer |
| BitWriter.NalBitstream.EnsureRemainingCapacity | src/grd-nal-writer.c:108-123 | growing by one step if the bits exceed the capacity keeps the bits written so far |
| BitWriter.NalBitstream.StoreField | src/grd-nal-writer.c:138-162 | the word stores of one write represent the bits with the field appended; every index is in range, also the one past the current word |
| BitWriter.WriteStaysInRangeIff | src/grd-nal-writer.c:108-161 | a write that passes the assertion on the capacity stores within the buffer if and only if the bits do not end exactly at the capacity |
| BitWriter.NalBitstream.WriteField | src/grd-nal-writer.c:125-162 | write_u for any value, within the buffer: the bits afterwards, including the excess of a value that does not fit |
| BitFields.WriteStream | src/grd-nal-writer.c:85-162 | any sequence of writes of fitting values that never fills the buffer exactly, and the end of the stream: the memory returned holds exactly the concatenation of the encodings, and the length is their sum |
| BitFields.FieldsAreReadBack | src/grd-nal-writer.c:125-162 | a decoder that knows the widths recovers every value of a sequence of writes, and is left with what follows |
| BitWriter.NalBitstream.WriteU | src/grd-nal-writer.c:125-162 | write_u of a fitting value, as a decoder reads it |
| BitWriter.NalBitstream.WriteUe | src/grd-nal-writer.c:164-189 | the counted zeros and the digits append the code of the value |
| BitWriter.NalBitstream.CountBits | src/grd-nal-writer.c:169-180 | the loop counts the binary digits |
| BitWriter.NalBitstream.WriteSe | src/grd-nal-writer.c:191-203 | the mapping to the unsigned code appends the signed code of the value |
| BitWriter.NalBitstream.ByteAlign | src/grd-nal-writer.c:225-240 | 1 to 8 zeros up to a byte boundary; an aligned stream gets a whole zero byte |
| BitWriter.NalBitstream.WriteTrailingBits | src/grd-nal-writer.c:242-248 | one stop bit and 1 to 8 zeros, so that the length is a multiple of 8 |
| BitWriter.NalBitstream.EndBitstream | src/grd-nal-writer.c:85-106 | the bytes of the returned memory, most significant bit first, are exactly the bits written, and the length is their number |
| H264Syntax.NalHeaderRoundTrip | src/grd-nal-writer.c:205-223 | the start code and the NAL unit header are recovered |
| H264Syntax.VuiRoundTrip | src/grd-nal-writer.c:278-407 | every VUI parameter set is recovered by the syntax of section E.1.1 |
| H264Syntax.SpsRoundTrip | src/grd-nal-writer.c:409-543 | every sequence parameter set that passes the assertions is recovered field for field by the syntax of section 7.3.2.1.1, and exactly its bits are consumed |
| H264Syntax.PpsRoundTrip | src/grd-nal-writer.c:564-649 | every picture parameter set that passes the assertions is recovered by the syntax of section 7.3.2.2, before any tail that holds a set bit |
| H264Syntax.SliceHeadRoundTrip | src/grd-nal-writer.c:716-767 | the slice header up to frame_num is recovered, frame_num modulo its field width |
| H264Syntax.SliceTailRoundTrip | src/grd-nal-writer.c:767-811 | the slice header after frame_num is recovered by the syntax of section 7.3.3 |
| H264Syntax.AudDecodes | src/grd-nal-writer.c:250-276 | the access unit delimiter decodes, and only the stop bit and zeros are left |
| H264Syntax.SpsDecodes | src/grd-nal-writer.c:545-562 | the whole sequence parameter set NAL unit decodes, and only the stop bit and zeros are left |
| H264Syntax.PpsDecodes | src/grd-nal-writer.c:651-668 | the whole picture parameter set NAL unit decodes, and only the stop bit and zeros are left |
| H264Syntax.SliceDecodes | src/grd-nal-writer.c:716-811 | a decoder that holds the two parameter sets recovers the NAL unit header and all slice header parameters, whatever slice data follows |
| H264Syntax.NalHeaderCanonical | src/grd-nal-writer.c:205-223 | bits that read as a NAL unit header are the layout of that header |
| NalWriter.WriteStartCodePrefix | src/grd-nal-writer.c:205-209 | the writer allocates its one buffer and writes the 32 bit start code |
| NalWriter.WriteNalHeader | src/grd-nal-writer.c:205-223 | the writer lays out the start code and the header |
| NalWriter.WriteVuiParameters | src/grd-nal-writer.c:278-407 | the writer lays out the VUI parameters, in at most 530 bits |
| NalWriter.WriteSpsData | src/grd-nal-writer.c:409-543 | the writer lays out the sequence parameter set, in at most 1160 bits |
| NalWriter.WritePpsData | src/grd-nal-writer.c:564-649 | the writer lays out the picture parameter set, in at most 590 bits |
| NalWriter.WriteSliceHead | src/grd-nal-writer.c:716-758 | the writer lays out the slice header up to frame_num |
| NalWriter.WriteSliceEnd | src/grd-nal-writer.c:767-811 | the reference picture marking, the CABAC index and the quantiser difference are laid out |
| NalWriter.WriteSliceTail | src/grd-nal-writer.c:767-811 | the writer lays out the slice header after frame_num |
| NalWriter.FinishNalUnit | src/grd-nal-writer.c:85-106 | the finished memory is the data, one stop bit and 1 to 8 zeros |
| NalWriter.GetAudBitstream | src/grd-nal-writer.c:260-276 | the memory returned is the access unit delimiter; the length is a multiple of 8 and within one allocation |
| NalWriter.GetSpsBitstream | src/grd-nal-writer.c:545-562 | the memory returned is the sequence parameter set NAL unit of the parameters, with the same length facts |
| NalWriter.GetPpsBitstream | src/grd-nal-writer.c:651-668 | the memory returned is the picture parameter set NAL unit of the parameters, with the same length facts |
| NalWriter.GetSliceHeaderBitstream | src/grd-nal-writer.c:837-858 | the memory returned is the slice header, for any frame_num, with the excess of frame_num spelled out |
| NalWriter.CleanSliceHeader | src/grd-nal-writer.c:758-767 | with its excess hidden, frame_num is a field like any other |
| NalWriter.SliceHeaderDecodesIff | src/grd-nal-writer.c:716-811 | a decoder recovers the slice header, frame_num modulo its width, if and only if the excess of frame_num falls on set bits or outside the current word |
| NalWriter.SecondSetDoesNotDecode | src/grd-nal-writer.c:758-767 | slice headers that do not decode: picture parameter set id 1 before frame_num 256 in 8 bits |
| EncodeRuns.FrameNumAdvances | src/grd-encode-session-vaapi.c:1275-1278 | the 16 bit counter with its wrap counts modulo 257 |
| EncodeRuns.RunKeepsInvariant | src/grd-encode-session-vaapi.c:1220-1473 | over every run, whichever driver calls fail and however locks and unlocks interleave: the acquired buffers are those of the live frames, one each; coded buffers fit; reconstruction surfaces exist only for the reference and the frame being encoded; the reference chain, the counter and the IDR flag follow from the number of coded frames |
| EncodeRuns.StepKeepsBuffers | src/grd-encode-session-vaapi.c:222-325 | acquiring, passing on and freeing a frame keep the acquired buffers equal to those of the live frames, all distinct |
| EncodeRuns.StepKeepsSurfaces | src/grd-encode-session-vaapi.c:176-220 | on success the old reference surface goes, on failure the new one, and never one in use |
| EncodeRuns.StepKeepsChain | src/grd-encode-session-vaapi.c:1265-1281 | the reference is the last coded picture, none before the first; the counter is the number of coded frames modulo 257; sequence parameters are those of the surface once a frame was coded |
| EncodeRuns.StepKeepsCoded | src/grd-encode-session-vaapi.c:1220-1319 | exactly the first coded frame is IDR, and each other one refers to its predecessor |
| EncodeRuns.OneBufferEach | src/grd-encode-session-vaapi.c:222-256 | as many buffers are acquired as frames are live |
| EncodeRuns.AcquireSucceedsIff | src/grd-encode-session-vaapi.c:222-244 | at every reachable state acquiring finds a buffer if and only if fewer than four frames are live |
| EncodeRuns.ReferenceIsThere | src/grd-encode-session-vaapi.c:898-910 | at every reachable state a frame that is not IDR has a reference picture whose surface still exists and is not its own, so the assertions on the reference hold |
| EncodeRuns.FailedEncode | src/grd-encode-session-vaapi.c:1220-1263 | an encode call that fails changes nothing but refilled parameters |
| EncodeRuns.SucceededEncode | src/grd-encode-session-vaapi.c:1283-1319 | an encode call that succeeds makes the frame pending and its picture the reference |
| EncodeRuns.BufferSizes | src/grd-encode-session-vaapi.c:1088-1117 | the coded buffer is the smallest that holds 400 bytes for each 16 by 16 block and the headers |
| EncodeRuns.PendingFrameHolds | src/grd-encode-session-vaapi.c:1088-1117 | the buffer of a frame that was accepted holds its headers and the blocks, and fits the dedicated buffer |
| EncodeRuns.LockRunsOn | src/grd-encode-session-vaapi.c:1410-1439 | a lock call moves the pending frame to the locked ones, or frees it |
| EncodeRuns.UnlockRunsOn | src/grd-encode-session-vaapi.c:1441-1473 | an unlock call frees the frame whether or not the driver unmaps the buffer |
| EncodeRuns.UnlockReturnsBuffer | src/grd-encode-session-vaapi.c:1410-1473 | encoding, locking and unlocking a frame gives its buffer back: live frames and acquired buffers are as before, and only the reference chain has moved on |
| EncodeRuns.FrameNumFollowsIff | src/grd-encode-session-vaapi.c:1275-1278 | the frame_num a decoder reads follows its predecessor as section 7.4.3 demands if and only if the frame is not a multiple of 257 after the IDR frame |
| EncodeRuns.FrameNumCountsIff | src/grd-encode-session-vaapi.c:1275-1278 | the frame_num a decoder reads is the frame count modulo MaxFrameNum if and only if the counter is in a round that is a multiple of 256; so it is for the first 257 frames |
| EncodeRuns.SessionOfLength | src/grd-encode-session-vaapi.c:1220-1473 | for every number there is a run that codes that many frames |
| EncodedStream.StreamOfAnyLength | src/grd-encode-session-vaapi.c:1220-1473 | and a stream of the headers of as many frames |
| EncodedStream.DecodedNumbersFollowIff | src/grd-encode-session-vaapi.c:1275-1278 | in the stream of any session the frame_num decoded from a frame follows that of the frame before if and only if the frame is not a multiple of 257 after the first |
| EncodedStream.DecodedNumberRepeats | src/grd-encode-session-vaapi.c:1275-1278 | in every stream of more than 257 frames, a decoder reads frame_num 0 from both frame 256 and frame 257 |
| EncodedStream.SliceDataFollows | src/grd-nal-writer.c:837-858 | slice data appended to the returned header bits follows the header |
| EncodedStream.FrameNumExcessHidden | src/grd-nal-writer.c:758-767 | the bit before frame_num is the set bit of ue(0), so that the value 256 in its 8 bit field disturbs nothing |
| EncodedStream.FirstSetsDecode | src/grd-encode-session-vaapi.c:700-731 | the parameter sets handed out with an IDR frame decode to those of the session |
| EncodedStream.FirstSequenceMeans | src/grd-encode-session-vaapi.c:628-671 | the sequence parameter set tells a decoder the surface size, one reference frame, 8 bit frame numbers, the level, and the refresh rate, and every other value is the intended one |
| EncodedStream.SetsAreIntended | src/grd-encode-session-vaapi.c:628-731 | the parameter sets of the session, value by value |
| EncodedStream.FirstUnitCarriesSets | src/grd-encode-session-vaapi.c:628-731 | in the stream of any session exactly the first access unit carries parameter sets, and a decoder reads from them: High profile, 4:2:0, 8 bits, picture order count type 2, one reference frame, square pixels, the tick; and CABAC, 8 by 8 transforms, an initial quantiser of 22, no weights and no offsets |
| EncodedStream.HeaderBitsCountAll | src/grd-encode-session-vaapi.c:1109-1114 | the header bits that the coded buffer is sized for are those of all headers of the frame |
| EncodedStream.EverySliceHeaderDecodes | src/grd-encode-session-vaapi.c:1058-1086 | over any run, a decoder that keeps only the parameter sets of the first coded frame parses the slice header of the k-th coded frame back, before any slice data, and reads the frame_num (k mod 257) mod 256 |
| EncodeSession.TablesSize | src/grd-encode-session-vaapi.c:1410-1473 | the live frames between calls are those of the two tables |
| EncodeSession.CombineBitstreamSegments | src/grd-encode-session-vaapi.c:1321-1341 | the segments are concatenated exactly, and the assertion on the size holds throughout if and only if all segments fit together |
| EncodeSession.FlatJoins | src/grd-encode-session-vaapi.c:1321-1341 | segments lie one after another, each in whole |
| EncodeSession.EncodeSession.constructor | src/grd-encode-session-vaapi.c:1870-1892 | a session starts at the start of a run, with four dedicated buffers of the maximal size |
| EncodeSession.EncodeSession.AcquireDedicatedBitstreamBuffer | src/grd-encode-session-vaapi.c:222-244 | the first buffer that is not acquired is acquired |
| EncodeSession.EncodeSession.MaybeEnsureSequence | src/grd-encode-session-vaapi.c:700-731 | only for an IDR frame the sequence parameters are refilled and their NAL unit is handed out |
| EncodeSession.EncodeSession.PreparePicture | src/grd-encode-session-vaapi.c:939-967 | the picture parameters are refilled for every frame, their NAL unit is handed out for an IDR frame |
| EncodeSession.EncodeSession.EnsureSlice | src/grd-encode-session-vaapi.c:1058-1086 | the slice header of the picture is handed out |
| EncodeSession.EncodeSession.WriteHeaders | src/grd-encode-session-vaapi.c:1220-1263 | the headers of a frame, their total length within the reserved size, and what was refilled when a driver call fails |
| EncodeSession.EncodeSession.EncodeAndSubmit | src/grd-encode-session-vaapi.c:1283-1319 | the state after a call of encode, whichever driver calls fail |
| EncodeSession.EncodeSession.EncodeFrame | src/grd-encode-session-vaapi.c:1283-1319 | encode continues the run by two steps, succeeds if and only if no driver call it makes fails, and hands out one more set of headers exactly then |
| EncodeSession.EncodeSession.SucceedsIff | src/grd-encode-session-vaapi.c:1220-1263 | which driver calls must succeed for a frame, and for its parameters to be refilled |
| EncodeSession.EncodeSession.PrepareNextFrame | src/grd-encode-session-vaapi.c:1265-1281 | the reconstruction replaces the reference picture, whose surface is destroyed, and the counter advances |
| EncodeSession.EncodeSession.GetBitstream | src/grd-encode-session-vaapi.c:1343-1369 | one segment is passed on, several are combined in the frame's own dedicated buffer |
| EncodeSession.EncodeSession.LockBitstream | src/grd-encode-session-vaapi.c:1410-1439 | lock returns exactly what the driver wrote, or frees the frame, and leaves every other locked bitstream readable as before |
| EncodeSession.EncodeSession.UnlockBitstream | src/grd-encode-session-vaapi.c:1441-1473 | unlock frees the frame also when the driver fails, and leaves every other locked bitstream readable as before |
| EncodeSession.EncodeSession.HeadersDecode | src/grd-encode-session-vaapi.c:1283-1319 | for every session object, all headers handed out so far decode with the first parameter sets |
| ClientRequests.AnsweredAll | src/grd-clipboard-rdp.c:542-557 | submitting for a list of serials answers each of them once |
| ClientRequests.AnswerTypeOwes | src/grd-clipboard-rdp.c:559-571 | aborting or serving a type moves its serials from pending to answered |
| ClientRequests.AbortAllOwes | src/grd-clipboard-rdp.c:956-986 | aborting all requests answers everything that is pending, in whatever order the table is walked |
| ClientRequests.AskOwes | src/grd-clipboard-rdp.c:705-758 | a request is answered at once or tracked, never both, on the cache hit, the pending list update, the queue and the refused send alike |
| ClientRequests.ConversionOwes | src/grd-clipboard-rdp.c:2062-2140 | serving both file list types, or aborting after a failed conversion, loses and repeats nothing |
| ClientRequests.ConversionSettlesBoth | src/grd-clipboard-rdp.c:2062-2140 | a converted response leaves nothing pending for its type or the paired one, caches it for both, and submits nothing else |
| ClientRequests.FailureSettlesType | src/grd-clipboard-rdp.c:559-646 | a failed conversion and a timeout leave nothing pending for the type, cache nothing, and submit no content |
| ClientRequests.StepOwes | src/grd-clipboard-rdp.c:508-758 | no step of either thread loses a serial, answers one twice, or answers one that stays pending |
| ClientRequests.StepKeepsHandlerShape | src/grd-clipboard-rdp.c:2145-2179 | in every interleaving: the response handler is scheduled only with a current request and a response stored after it was sent; the abort timer is armed exactly while a request is current; without one nothing is queued |
| ClientRequests.StepKeepsPendingQueued | src/grd-clipboard-rdp.c:508-539 | every pending type is the current one or queued |
| ClientRequests.ConversionFresh | src/grd-clipboard-rdp.c:1974-2060 | content cached for a type and for its paired type comes from a response stored after the request was sent |
| ClientRequests.NamingFresh | src/grd-clipboard-rdp.c:988-1022 | applying a format list leaves nothing cached for the types it names |
| ClientRequests.StepKeepsFresh | src/grd-clipboard-rdp.c:1974-2140 | every step keeps cached and submitted content newer than the last list that named its type |
| ClientRequests.RunKeepsShapeAndFresh | src/grd-clipboard-rdp.c:508-758 | all of these hold over every run |
| ClientRequests.EverySerialAnsweredOrPending | src/grd-clipboard-rdp.c:705-758 | at every reachable state each serial has been answered or is pending exactly as often as it was asked for |
| ClientRequests.NothingIsStranded | src/grd-clipboard-rdp.c:591-646 | at every reachable state between callbacks nothing waits without a request on the wire and an armed timer |
| ClientRequests.SendAssertionsHold | src/grd-clipboard-rdp.c:648-662 | the assertions before a request is sent hold whenever the next one is looked for |
| ClientRequests.SettlingEnds | src/grd-clipboard-rdp.c:591-646 | from every state of that shape, as long as nothing new is asked for or offered, the main loop takes a bounded number of steps, however the client responds and whichever sends fail; so the search for the next request terminates |
| ClientRequests.PendingMeansWork | src/grd-clipboard-rdp.c:624-662 | at every reachable state with a serial pending, the main loop has a step to take |
| ClientRequests.RestMeansAnswered | src/grd-clipboard-rdp.c:508-758 | at every reachable state where the main loop has nothing to do, each serial has been answered exactly as often as it was asked for |
| ClientRequests.AnswersAreFresh | src/grd-clipboard-rdp.c:722-730 | whatever was submitted with content comes from a response stored while a request for the type, or its paired type, was current, sent after the last list that named the type |
| ClientOutcomes.CachedIsServed | src/grd-clipboard-rdp.c:722-730 | a type that is cached is answered at once with the cached content, and nothing else happens |
| ClientOutcomes.ClientIsAsked | src/grd-clipboard-rdp.c:749-757 | with nothing on the wire, no cached content and no list to apply, the client is asked by the id it offered the type under, the timer is armed and the serial waits |
| ClientOutcomes.RequestIsQueued | src/grd-clipboard-rdp.c:743-747 | with a request on the wire the new one goes to the tail of the queue and its serial waits |
| ClientOutcomes.RefusedAtOnceIff | src/grd-clipboard-rdp.c:705-758 | a request is answered at once without content if and only if the client does not offer the type, or it is not cached and a list is about to be applied, or the request would have to be sent now and cannot be |
| ClientOutcomes.LatestResponseIsKept | src/grd-clipboard-rdp.c:2145-2179 | with a request on the wire the payload of the latest response is kept for the handler, otherwise it is ignored |
| ClientOutcomes.ResponseIsTaken | src/grd-clipboard-rdp.c:2092-2126 | the handler takes the request off the wire together with the response that is kept |
| ClientOutcomes.RequestIsAnswered | src/grd-clipboard-rdp.c:2062-2140 | a request that is sent and the response to it: the serial is answered with just that payload, which is cached for the type and the paired one |
| ClientOutcomes.EveryRequestCanBeAnswered | src/grd-clipboard-rdp.c:705-758 | from every reachable state between callbacks with nothing on the wire, asking for a type that must be fetched and its response answer the serial with the content of that response |
| ClientOutcomes.FileListServesBoth | src/grd-clipboard-rdp.c:2092-2140 | a converted file list is cached for both types made from it and serves both |
| ClientOutcomes.OtherContentServesOne | src/grd-clipboard-rdp.c:2092-2140 | any other content is cached for, and serves, its own type only |
| ClientOutcomes.TimeoutGivesUp | src/grd-clipboard-rdp.c:624-646 | the timeout answers the serials of the request on the wire without content, and touches nothing else |
| ClientOutcomes.NextIsSent | src/grd-clipboard-rdp.c:591-622 | the head of the queue is sent if its type is still pending and the channel accepts it |
| ClientOutcomes.NextIsRefused | src/grd-clipboard-rdp.c:591-622 | if the channel refuses it, its serials are answered without content and the search goes on |
| ClientOutcomes.NextIsSkipped | src/grd-clipboard-rdp.c:591-622 | a type that is not pending any more is passed over, and the search ends with the queue |
| ClientOutcomes.ListDropsNamed | src/grd-clipboard-rdp.c:1000-1024 | a format list takes exactly the types it names from the cache, and the request from the wire |
| ClientOutcomes.ListIsApplied | src/grd-clipboard-rdp.c:956-986 | then everything that is pending is answered without content, and the types named get the ids of the list |
| ClientOutcomes.InsertedTables | src/grd-clipboard.c:120-138 | of several tables for a type the last one counts, and types that are not named keep theirs |
| ClientOutcomes.OfferedListWaits | src/grd-clipboard-rdp.c:732-741 | until a list that was offered is applied, nothing is fetched |
| ClientOutcomes.SelectionForgetsClient | src/grd-clipboard.c:373-396 | after a new local selection a request for any type is answered without content |
| ClientOutcomes.LateListDropsCache | src/grd-clipboard-rdp.c:358-359 | the types of a list that was sent late must be fetched again |
| ClientRequests.RdpClipboardRequests.constructor | src/grd-clipboard-rdp.c:2600-2658 | the clipboard starts at the start of a run |
| ClientRequests.RdpClipboardRequests.ClientFormatDataResponse | src/grd-clipboard-rdp.c:2145-2179 | a response is stored and its handler scheduled, or ignored without a current request |
| ClientRequests.RdpClipboardRequests.SubmitClientContent | src/grd-clipboard.c:398-413 | each serial of a list is submitted once, with the content given |
| ClientRequests.RdpClipboardRequests.AnswerPending | src/grd-clipboard-rdp.c:559-571 | the pending serials of a type are taken and submitted |
| ClientRequests.RdpClipboardRequests.TrackSerial | src/grd-clipboard-rdp.c:508-521 | a serial is appended to those pending for its type |
| ClientRequests.RdpClipboardRequests.SendMimeTypeContentRequest | src/grd-clipboard-rdp.c:648-702 | under the assertions of the source a request becomes current and its timer is armed, unless the channel refuses it |
| ClientRequests.RdpClipboardRequests.AskClientFor | src/grd-clipboard-rdp.c:705-758 | the branches of a content request, with the assertion on the queue |
| ClientRequests.RdpClipboardRequests.RequestClientContent | src/grd-clipboard.c:416-443 | a content request takes one step of the machine |
| ClientRequests.RdpClipboardRequests.SendNextOnce | src/grd-clipboard-rdp.c:591-622 | one attempt to send the next request; it shortens the queue or ends the search |
| ClientRequests.RdpClipboardRequests.MaybeSendNext | src/grd-clipboard-rdp.c:591-622 | the search for the next request ends, and takes only steps of that kind |
| ClientRequests.RdpClipboardRequests.ServeConverted | src/grd-clipboard-rdp.c:2015-2060 | converted content is cached for its type and the paired one and both are served; a failed conversion aborts |
| ClientRequests.RdpClipboardRequests.HandleFormatDataResponse | src/grd-clipboard-rdp.c:2092-2140 | the response handler is two steps and the search for the next request |
| ClientRequests.RdpClipboardRequests.AbortCurrentClientRequest | src/grd-clipboard-rdp.c:624-646 | the timeout callback is two steps and the search for the next request |
| ClientRequests.RdpClipboardRequests.ForgetNamed | src/grd-clipboard-rdp.c:1002-1019 | exactly the named types leave the cache |
| ClientRequests.RdpClipboardRequests.AbortAllRequests | src/grd-clipboard-rdp.c:956-986 | walking the table aborts every pending type |
| ClientRequests.RdpClipboardRequests.UpdateServerFormatList | src/grd-clipboard-rdp.c:988-1048 | applying a format list is two steps of the machine |
| ClientRequests.RdpClipboardRequests.UpdateClientMimeTypeList | src/grd-clipboard.c:373-396 | a new local selection forgets the client's types and the cache of the types it sends |
| ClientRequests.RdpClipboardRequests.SendQueuedMimeTypeList | src/grd-clipboard-rdp.c:376-392 | a list that waited takes its types from the cache when it is sent, and the client's types stay known |
| ClientRequests.RdpClipboardRequests.NoSerialLost | src/grd-clipboard-rdp.c:705-758 | for every object and any history of calls: answered or pending, as often as asked |
| ClientRequests.RdpClipboardRequests.AnswersStayFresh | src/grd-clipboard-rdp.c:722-730 | for every object and any history of calls: submitted content is fresh |
| FormatClassification.FirstOfIffFirst | src/grd-clipboard-rdp.c:1114-1229 | the id of a kind is that of the first format of the kind, and there is none only if no format is of the kind |
| FormatClassification.IdForNext | src/grd-clipboard-rdp.c:1114-1229 | a further format adds only types that were not found before |
| FormatClassification.FoundTogether | src/grd-clipboard-rdp.c:1076-1229 | both text types are found together, and so are both file list types; CF_UNICODETEXT anywhere makes the text types found from the start |
| FormatClassification.ForceUnicodeText | src/grd-clipboard-rdp.c:1076-1112 | the first loop finds CF_UNICODETEXT for both text types if and only if it is in the list |
| FormatClassification.ClassifyFormat | src/grd-clipboard-rdp.c:1114-1229 | a round of the second loop adds what its format provides and was not found; the assertion on the text type holds |
| FormatClassification.ClassifyFormats | src/grd-clipboard-rdp.c:1063-1229 | the two loops list each mime type at most once, exactly if the client offers it, and with the id it must have |
| FormatClassification.TypesComeTogether | src/grd-clipboard-rdp.c:1076-1229 | text types share one id, CF_UNICODETEXT if present anywhere; file list types share one id |
| FormatClassification.KindIff | src/grd-clipboard-rdp.c:1114-1195 | a format is of a kind if and only if its name says so, or no name is known and its id says so, with the names and ids spelled out |
| FormatClassification.ListedWithFirst | src/grd-clipboard-rdp.c:1114-1229 | a type is listed with the id of the first format of its kind |
| FormatClassification.NotListedWithoutFormat | src/grd-clipboard-rdp.c:1114-1229 | a type that no format provides is not listed |
| FormatListSender.DeduplicatedKeeps | src/grd-clipboard-rdp.c:233-261 | everything offered is advertised but the second file list type and all but one Unicode text type |
| FormatListSender.AdvertisedIdMeansType | src/grd-clipboard-rdp.c:1599-1653 | every advertised type has an id of its own, and a request for that id means that type |
| FormatListSender.StandardIds | src/grd-clipboard-rdp.c:304-326 | text, bitmaps and TIFF images have the ids of the standard clipboard formats |
| FormatListSender.RemoveFirstCuts | src/grd-clipboard-rdp.c:233-261 | removing a type leaves the others in their order |
| FormatListSender.StepKeepsInv | src/grd-clipboard-rdp.c:169-424 | every step keeps: one list unacknowledged at most; a list waits only behind a pending one and exactly while the drop timer is armed; the newest list offered waits or was the last sent; pending and allowed types are disjoint |
| FormatListSender.EveryRun | src/grd-clipboard-rdp.c:169-424 | over every run from the start: at most one list is unacknowledged; one waits exactly while the drop timer is armed, behind a pending one; the newest list offered waits or was sent last; pending and allowed types are disjoint |
| FormatListSender.ResponseDecides | src/grd-clipboard-rdp.c:169-213 | with no list waiting, a handled response settles the pending list: accepted, its types are allowed, otherwise nothing is |
| FormatListSender.AnswersMatchIff | src/grd-clipboard-rdp.c:376-392 | over every run with a client that responds once to each list, in order: every list that a response settled was settled by its own response, if and only if none was settled by a response after one had been given up |
| FormatListSender.LateResponseSettlesNext | src/grd-clipboard-rdp.c:376-392 | where a list is given up for one that waits, the late response to it settles that one |
| FormatListSender.SecondOfferWaits | src/grd-clipboard-rdp.c:395-424 | two offers from the start lead there |
| ListOutcomes.OfferIsSentOrWaits | src/grd-clipboard-rdp.c:395-424 | an offer is sent if nothing is pending, and otherwise takes the place of what waits |
| ListOutcomes.FirstResponseIsKept | src/grd-clipboard-rdp.c:1296-1318 | the first response is kept with the flags of the client, later ones only count |
| ListOutcomes.FlagsDecide | src/grd-clipboard-rdp.c:178-213 | a response to the pending list makes its types allowed if and only if the client sets CB_RESPONSE_OK, and otherwise nothing is allowed any more |
| ListOutcomes.OnlyFirstFlagsDecide | src/grd-clipboard-rdp.c:1302-1309 | any number of further responses before the first is handled changes nothing of that |
| ListOutcomes.HandlingSettles | src/grd-clipboard-rdp.c:1270-1291 | a handled response settles the pending list and sends the list that waits |
| ListOutcomes.StrayResponseIsDropped | src/grd-clipboard-rdp.c:1276-1277 | a response that finds nothing pending changes nothing |
| ListOutcomes.TimeoutRefuses | src/grd-clipboard-rdp.c:376-392 | the timeout settles the pending list as refused and sends the list that waits |
| ListOutcomes.ClientListReplaces | src/grd-clipboard-rdp.c:1015-1017 | a new client list takes its types from what the client may request |
| ListOutcomes.RequestsAreUnderstood | src/grd-clipboard-rdp.c:1599-1653 | over every run, a request of the client for a type of the list sent last means that type |
| ListOutcomes.AdvertisedIsFound | src/grd-clipboard-rdp.c:302-356 | a peer that classifies formats as this server does finds exactly what an advertised list offers, under the ids it was advertised with |
| FormatListSender.RdpFormatListSender.SendMimeTypeList | src/grd-clipboard-rdp.c:274-374 | the loop advertises the list in its order under the ids, makes it pending and no longer allowed, and never reaches the impossible type |
| FormatListSender.RdpFormatListSender.UpdateAllowedServerFormats | src/grd-clipboard-rdp.c:169-213 | an accepted list becomes allowed, a refused or dropped one leaves nothing allowed |
| FormatListSender.RdpFormatListSender.UpdateClientMimeTypeList | src/grd-clipboard-rdp.c:395-424 | an offer is sent, or replaces what waits behind the pending list |
| FormatListSender.RdpFormatListSender.ClientFormatListResponse | src/grd-clipboard-rdp.c:1296-1318 | a response is kept until it is handled, further ones are ignored |
| FormatListSender.RdpFormatListSender.HandleFormatListResponse | src/grd-clipboard-rdp.c:1270-1291 | a response settles the pending list and sends the one that waits |
| FormatListSender.RdpFormatListSender.DropPendingServerFormats | src/grd-clipboard-rdp.c:376-392 | the timeout gives up the pending list and sends the one that waits |
| ClipDataLocks.NextSerial | src/grd-clipboard-rdp.c:263-272 | the next serial is the least one above the current that is not in use |
| ClipDataLocks.FreeKeepsOwners | src/grd-clipboard-rdp.c:2585-2598 | freeing an entry destroys its clipboard exactly if the entry owns it |
| ClipDataLocks.RetrieveKeepsTables | src/grd-clipboard-rdp.c:1320-1366 | the main loop's part of a lock keeps serials and owners, also when an entry is replaced or the serial is taken |
| ClipDataLocks.LockEndKeepsInv | src/grd-clipboard-rdp.c:1420-1456 | the end of a lock that finds an entry that exists keeps everything, also on a double lock |
| ClipDataLocks.DestroyKeepsTables | src/grd-clipboard-rdp.c:1458-1480 | the main loop's part of an unlock keeps serials and owners |
| ClipDataLocks.SendListKeepsOwners | src/grd-clipboard-rdp.c:286-298 | a new selection makes the entry of the current clipboard its owner |
| ClipDataLocks.StepKeepsInvIff | src/grd-clipboard-rdp.c:1320-1534 | a step of either thread keeps both tables in step up to the slot being worked on, an entry independent exactly if its serial is not the current one, one owner for every clipboard, and none destroyed twice, if and only if it is not the end of a double lock that finds a freed entry |
| ClipDataLocks.LockTouchesLiveIff | src/grd-clipboard-rdp.c:1334-1351 | a lock only ever looks at entries that exist, in whatever order the id table is walked, if and only if the id is not locked already, or no other entry has the current serial when the main loop gets to it |
| ClipDataLocks.SearchTouchesLiveIff | src/grd-clipboard-rdp.c:1435-1447 | the search of a double lock looks at existing entries only, in every order, if and only if the id was not locked |
| ClipDataLocks.SearchFindsLiveIff | src/grd-clipboard-rdp.c:1435-1447 | and it finds an existing entry, whatever freed memory reads as, under the same condition |
| ClipDataLocks.ClashReached | src/grd-clipboard-rdp.c:1334-1447 | a run from the start of three locks and one selection change that leads to a search that meets a freed entry, and an end of that lock that leaves an id without an entry |
| ClipDataLocks.RunKeepsInvIff | src/grd-clipboard-rdp.c:1320-1534 | along a run everything is kept at every state if and only if no double lock finds a freed entry |
| ClipDataLocks.EveryRun | src/grd-clipboard-rdp.c:1320-1534 | over every run from the start in which no lock replaces an id while another entry has the current serial, through replaced ids, double locks, unlocks and selection changes in the middle: at every state the tables hold entries under their own serial and id, every WinPR clipboard that exists has one owner, and none is destroyed twice |
| ClipDataLocks.LockAddsEntry | src/grd-clipboard-rdp.c:1382-1456 | a lock under a new id of a clipboard that is not locked adds one entry to both tables, and changes nothing else |
| ClipDataLocks.UnlockRemovesEntry | src/grd-clipboard-rdp.c:1458-1534 | an unlock takes its entry from both tables and destroys the clipboard exactly if the entry owns it |
| ClipDataLocks.UnlockUndoesLock | src/grd-clipboard-rdp.c:1382-1534 | a lock followed by an unlock restores the whole state |
| ClipDataLocks.UnlockAfterChangeDestroys | src/grd-clipboard-rdp.c:286-298 | if the selection changes between lock and unlock, the unlock destroys exactly the old clipboard, once, and restores both tables |
| ClipDataLocks.DoubleLockRenames | src/grd-clipboard-rdp.c:1435-1456 | a lock of a clipboard that is locked already: its entry goes from its old id to the new one and nothing else changes, in whatever order the id table is walked |
| ClipDataLocks.UnlockAfterDoubleLock | src/grd-clipboard-rdp.c:1435-1534 | the unlock of the new id then takes that entry from both tables, and the old id is unknown |
| ClipDataLocks.LockReplacesEntry | src/grd-clipboard-rdp.c:1334-1351 | a lock under a locked id replaces its entry |
| ClipDataLocks.ReplacingIsUnlockAndLock | src/grd-clipboard-rdp.c:1382-1456 | and leads to the same state as an unlock of that id and then the lock |
| ClipDataLocks.UnknownUnlockIgnored | src/grd-clipboard-rdp.c:1499-1506 | an unlock of an id that is not locked does nothing |
| ClipDataLocks.ChangeKeepsUnlocked | src/grd-clipboard-rdp.c:286-298 | a selection change keeps a clipboard that is not locked, and moves on to an unused serial |
| ClipDataLocks.TablesInStep | src/grd-clipboard-rdp.c:1320-1534 | between locks and unlocks the two tables hold the same entries, each keyed by its own id and serial |
| ClipDataLocks.NeverStuck | src/grd-clipboard-rdp.c:1382-1534 | what the channel thread waits for can be done, and what it does next finds an entry |
| ClipDataLocks.DoubleLockFinds | src/grd-clipboard-rdp.c:1368-1377 | the search of a double lock finds the one entry with the serial; or the freed one, only if its slot is left and its memory reads as the serial |
| ClipDataLocks.DisposalDestroysAll | src/grd-clipboard-rdp.c:2585-2598 | tearing the serial table down in any order leaves only the current clipboard, and none was destroyed twice |
| ClipDataLocks.RdpClipDataLocks.constructor | src/grd-clipboard-rdp.c:2600-2658 | no locks, and one clipboard |
| ClipDataLocks.RdpClipDataLocks.BeginLock | src/grd-clipboard-rdp.c:1382-1418 | the channel thread's part of a lock up to its wait |
| ClipDataLocks.RdpClipDataLocks.RetrieveCurrentClipboard | src/grd-clipboard-rdp.c:1320-1366 | the main loop's part of a lock |
| ClipDataLocks.RdpClipDataLocks.FindUserOfSerial | src/grd-clipboard-rdp.c:1441-1443 | the walk over the id table stops at the first entry that reads as the serial, freed or not |
| ClipDataLocks.RdpClipDataLocks.EndLock | src/grd-clipboard-rdp.c:1420-1456 | the channel thread's part of a lock after its wait, one step of the machine; everything is kept if the entry found exists, and so always if the id was not locked |
| ClipDataLocks.RdpClipDataLocks.BeginUnlock | src/grd-clipboard-rdp.c:1486-1519 | the channel thread's part of an unlock up to its wait |
| ClipDataLocks.RdpClipDataLocks.HandleClipDataEntryDestruction | src/grd-clipboard-rdp.c:1458-1480 | the main loop's part of an unlock |
| ClipDataLocks.RdpClipDataLocks.EndUnlock | src/grd-clipboard-rdp.c:1528-1534 | the channel thread's part of an unlock after its wait |
| ClipDataLocks.RdpClipDataLocks.UpdateClipboardSerial | src/grd-clipboard-rdp.c:263-272 | the loop finds the next serial that is not in use |
| ClipDataLocks.RdpClipDataLocks.PrepareNewSelection | src/grd-clipboard-rdp.c:286-298 | the start of sending a format list |
| FormatDataGate.PassKeepsInv | src/grd-clipboard-rdp.c:1656-1703 | the gate lets a request in only while it is empty, and refuses an unknown format at once and in order |
| FormatDataGate.RunRequestKeepsInv | src/grd-clipboard-rdp.c:1536-1581 | a request is refused, or its read is started, with no read pending and no result left |
| FormatDataGate.CompleteKeepsInv | src/grd-clipboard.c:162-186 | a completion submits the pending read, or is ignored after a cancellation |
| FormatDataGate.AbortKeepsInv | src/grd-clipboard.c:102-117 | the timeout and a new selection cancel the pending read |
| FormatDataGate.FlushKeepsInv | src/grd-clipboard.c:85-100 | the flush submits the cancelled read |
| FormatDataGate.StepKeepsInv | src/grd-clipboard-rdp.c:1536-1703 | every step of the channel thread, the main loop and the worker keeps requests answered in order, reads submitted in order and once each, and data matched to its request |
| FormatDataGate.RespondedOnceInOrder | src/grd-clipboard-rdp.c:806-906 | the i-th response is to the i-th request received, and at most two requests are unanswered |
| FormatDataGate.AssertionsHold | src/grd-clipboard.c:162-304 | the assertions on the context, the pending operation, its result and the timer hold wherever they are made |
| FormatDataGate.NothingIsStranded | src/grd-clipboard.c:62-117 | while the clipboard is enabled a request in the gate always has a step due that leads to its response, and a waiting main loop has a worker to wait for |
| FormatDataGate.StepWorks | src/grd-clipboard-rdp.c:1536-1703 | every step but a new request and disabling brings the gate closer to rest, also completions of reads given up long ago |
| FormatDataGate.RunsOnItsOwnEnd | src/grd-clipboard-rdp.c:1536-1703 | without new requests every run ends, within a bound, in whatever order completion, timeout, abort and worker come |
| FormatDataGate.NoRestBeforeAnswered | src/grd-clipboard-rdp.c:806-906 | while the clipboard is enabled and a received request has no response, some such step can be taken; so every request gets its response |
| GateOutcomes.ArrivalWaits | src/grd-clipboard-rdp.c:1586-1667 | a request waits at the gate for the type that its id means |
| GateOutcomes.PassRefusesUnknown | src/grd-clipboard-rdp.c:1656-1703 | a request for an unknown format is refused, every other one enters the gate with its callback scheduled |
| GateOutcomes.ReadIffAllowed | src/grd-clipboard-rdp.c:1536-1581 | a request is read, by a new operation with its timeout armed, if and only if it is allowed and can be read; otherwise it is refused |
| GateOutcomes.CompletionResponds | src/grd-clipboard.c:162-186 | the completion of a read responds with its data, unless it was given up or the clipboard is disabled |
| GateOutcomes.GivingUpCancels | src/grd-clipboard.c:102-117 | the timeout and a new selection cancel just the pending read |
| GateOutcomes.FlushResponds | src/grd-clipboard.c:85-100 | the flush responds with what the worker has stored |
| GateOutcomes.DisabledRespondsNothing | src/grd-clipboard.c:63-83 | once the clipboard is disabled no read is responded to and none is started |
| GateOutcomes.ReadResponds | src/grd-clipboard.c:279-304 | from every state of the invariant, an allowed request, its worker and its completion respond to it with its data |
| GateOutcomes.GivenUpReadResponds | src/grd-clipboard.c:62-117 | a read that is given up is responded to all the same, once its worker has stored a result |
| GateOutcomes.ResponseIsDatalessIff | src/grd-clipboard-rdp.c:806-906 | over every run, the i-th response is without data if and only if the i-th request was for an unknown format, or was not allowed or not readable when its turn came |
| FormatDataGate.RdpFormatDataGate.ClientFormatDataRequest | src/grd-clipboard-rdp.c:1586-1667 | a request arrives at the gate |
| FormatDataGate.RdpFormatDataGate.PassGate | src/grd-clipboard-rdp.c:1668-1703 | the channel thread passes the gate, under its assertions |
| FormatDataGate.RdpFormatDataGate.SubmitRequestedServerContent | src/grd-clipboard-rdp.c:806-906 | the context is taken, its request responded to, the gate opened |
| FormatDataGate.RdpFormatDataGate.HandleReadResult | src/grd-clipboard.c:63-83 | a result is submitted, or discarded once the clipboard is disabled |
| FormatDataGate.RdpFormatDataGate.ReadMimeTypeContentAsync | src/grd-clipboard.c:279-304 | a read starts with its timeout armed |
| FormatDataGate.RdpFormatDataGate.RequestServerFormatData | src/grd-clipboard-rdp.c:1536-1581 | the scheduled callback of a request |
| FormatDataGate.RdpFormatDataGate.StoreReadResult | src/grd-clipboard.c:251-257 | the worker stores its result |
| FormatDataGate.RdpFormatDataGate.AsyncReadOperationComplete | src/grd-clipboard.c:162-186 | the completion callback, under its assertion |
| FormatDataGate.RdpFormatDataGate.AbortCurrentReadOperation | src/grd-clipboard.c:102-117 | the abort up to its wait |
| FormatDataGate.RdpFormatDataGate.FlushPendingReadResult | src/grd-clipboard.c:85-100 | the abort after its wait |
| EglSlots.ReplaceCallsOnce | src/grd-egl-thread.c:209-228 | a displaced task has its callback called and is destroyed once |
| EglSlots.ReplaceKeepsNewest | src/grd-egl-thread.c:1219-1236 | a push makes the new task the newest and displaces only an older one |
| EglSlots.PopKeepsInv | src/grd-egl-thread.c:600-611 | the thread takes markers one at a time |
| EglSlots.StealKeepsQueue | src/grd-egl-thread.c:170-188 | the thread takes the newest task of the slot; a marker without a task does nothing |
| EglSlots.StepKeepsInv | src/grd-egl-thread.c:162-238 | every step of pushers and thread keeps: each task in one place; callback and destruction once each for a finished task and not before; a slot with a task has a marker queued or on its way while the thread runs; the newest task is never displaced |
| EglSlots.EveryRun | src/grd-egl-thread.c:162-238 | over every run from the start: each task has its callback called and is destroyed at most once, both exactly if it is done; a waiting task is in the slot its place names; no slot is stranded; the newest task of a slot is never displaced |
| EglSlots.DisplacedIsNotNewest | src/grd-egl-thread.c:209-228 | a displaced task is not the newest of any slot |
| EglSlots.NewestIsReached | src/grd-egl-thread.c:600-611 | when all markers of a slot have been dispatched the slot is empty and its newest task runs or has run |
| EglSlots.ServeStepWorks | src/grd-egl-thread.c:170-188 | while the thread has work left, it can take a step that brings it closer to an empty queue |
| EglSlots.NewestIsServed | src/grd-egl-thread.c:600-611 | from every reachable state between two pushes the thread on its own reaches a point where the newest task of every slot has run, whether tasks succeed or fail |
| EglOutcomes.FinishReportsRun | src/grd-egl-thread.c:170-188 | a run ends with the callback of its task, called with how the run went, and the destruction of the task |
| EglOutcomes.PushDisplaces | src/grd-egl-thread.c:209-228 | a push puts the task into the slot and calls the displaced one with FALSE |
| EglOutcomes.ReleaseGivesUp | src/grd-egl-thread.c:821-828 | a released slot is gone, and its task is called with FALSE |
| EglOutcomes.QueueIsFirstInFirstOut | src/grd-egl-thread.c:600-611 | markers and plain tasks enter the queue at its tail and leave it at its head |
| EglOutcomes.StealTakesNewest | src/grd-egl-thread.c:170-188 | the thread takes the task of the slot, or goes on if there is none |
| EglOutcomes.QuitStopsThread | src/grd-egl-thread.c:706-720 | a thread that quits empties its queue and stops, and what the slots hold stays |
| EglOutcomes.PushedTaskRuns | src/grd-egl-thread.c:1219-1236 | with the queue empty, a task that is pushed runs, and its callback tells how |
| EglOutcomes.SecondPushWins | src/grd-egl-thread.c:1219-1236 | of two tasks pushed before the thread gets to the slot only the second runs, the first is called with FALSE, and the second marker does nothing |
| EglSlots.NothingLeaks | src/grd-egl-thread.c:821-828 | when all slots are released every task has had its callback called once and is destroyed once |
| EglSlots.EglThread.ReplaceTask | src/grd-egl-thread.c:209-228 | the held task is called with FALSE and destroyed, the new one held |
| EglSlots.EglThread.AcquireSlot | src/grd-egl-thread.c:807-819 | a new slot is empty |
| EglSlots.EglThread.ReleaseSlot | src/grd-egl-thread.c:821-828 | a released slot gives up its task |
| EglSlots.EglThread.PushReplaceableTask | src/grd-egl-thread.c:1219-1236 | a push replaces the task and queues a marker |
| EglSlots.EglThread.StealTask | src/grd-egl-thread.c:170-183 | the task of a slot is taken |
| EglSlots.EglThread.Dispatch | src/grd-egl-thread.c:600-611 | after a marker is dispatched its slot is empty |
| EglSlots.EglThread.DrainQueue | src/grd-egl-thread.c:717-726 | at the end of the thread the queue is emptied, and no task of a slot is touched |
| Damage.IsTileDirty | src/grd-damage-utils.c:26-44 | a tile is dirty if and only if some byte of it differs |
| Damage.TileDiffersIff | src/grd-damage-utils.c:26-44 | a tile differs if and only if the frames differ at y * stride + c for some byte c of a row y of it |
| Damage.TilesPartition | src/grd-damage-utils.c:70-84 | every pixel of the surface is in exactly one of the clipped tiles |
| Damage.GetDamageRegion | src/grd-damage-utils.c:46-92 | the region is exactly the pixels of the tiles that differ, or the whole surface without a frame |
| Damage.DamageDetectorSw.constructor | src/grd-damage-detector-sw.c:132-153 | the buffer has one flag for each tile |
| Damage.DamageDetectorSw.InvalidateSurface | src/grd-damage-detector-sw.c:60-67 | every tile is marked |
| Damage.DamageDetectorSw.ComputeFrameDamage | src/grd-damage-detector-sw.c:69-114 | exactly the tiles that differ are marked |
| Damage.DamageDetectorSw.ComputeDamage | src/grd-damage-detector-sw.c:116-129 | without an old frame everything is marked, otherwise exactly the tiles that differ |
| Damage.PatchReproducesIff | src/grd-damage-detector-sw.c:69-114 | copying marked tiles over the old frame reproduces the new one if and only if every tile that differs is marked |
| Damage.ComputedFlagsReproduce | src/grd-damage-detector-sw.c:116-129 | the computed flags reproduce the new frame, for every size, stride and pair of frames, with or without an old one |
| Damage.MarkedTilesAreTheRegion | src/grd-damage-utils.c:46-92 | the marked tiles together are the damage region for the same tile size |
| Damage.FlagLiesAt | src/grd-damage-detector-sw.c:69-114 | the flag of a tile lies at row * columns + column |

## Findings

Where the code does not do what its design asks for, the model keeps the code, and says exactly when it does:

- A lock that replaces an id frees the old entry while the id table still leads to it
  (src/grd-clipboard-rdp.c:1334-1338). If another entry has the current serial, that table is then searched
  (1435-1447), and the search reads the freed entry. `ClashReached` is such a run. `LockTouchesLiveIff` is the exact
  condition, `StepKeepsInvIff` and `RunKeepsInvIff` say what is kept without it, and the claim of `EveryRun` about
  double locks stands under it.
- The frame counter reaches 256 before it wraps (src/grd-encode-session-vaapi.c:1275-1278), so that the decoded
  frame_num repeats once every 257 frames: `DecodedNumbersFollowIff`, `DecodedNumberRepeats`, `StreamOfAnyLength`.
- A value wider than its field is or-ed onto the bits before it (src/grd-nal-writer.c:138-153). `SliceHeaderDecodesIff`
  says when a slice header survives that, `FrameNumExcessHidden` that those of the session do, and
  `SecondSetDoesNotDecode` shows headers that would not.
- The capacity check is not strict, although the word after a completed one is stored to
  (src/grd-nal-writer.c:114, 161): `WriteStaysInRangeIff`. The headers of this encoder are far shorter.
- The largest 32 bit number has no unsigned code, nothing is written for it: `UeWrittenIsReadBackIff`.
- A format list response carries no id, so the late response to a list that was given up settles the next one
  (src/grd-clipboard-rdp.c:376-392, 1270-1291): `AnswersMatchIff`, `LateResponseSettlesNext`.

## Left out

- BitWriter.NalBitstream.EndBitstream: presumes a little-endian host, as the byte swap of the source does.
- BitWriter.NalBitstream.WriteField: a write that ends exactly at the capacity is not modelled, as it stores past the buffer (see Findings); the header writers stay below one allocation by the proved length bounds.
- BitWriter.NalBitstream.WriteUe: presumes room in the buffer, or in the first allocation; growing from one allocation to the next is modelled for WriteField and BitFields.WriteStream.
- BitWriter.NalBitstream.WriteSe: takes values below 2^30 in magnitude, where the C expressions on signed integers do not overflow.
- BitWriter.NalBitstream.constructor: GrdNalWriter and its NalBitstream are one object here; each header writer makes a new one, as start_bitstream and end_bitstream do.
- H264Syntax.SpsRoundTrip: the parser fails in branches of the syntax tables that the writer asserts away (scaling lists, cropping, field coding, HRD parameters, picture order count types 0 and 1); field widths of the VA-API structures come from a header that is not part of this model.
- Emulation prevention bytes, slice data and everything else the driver adds; they follow the header bits.
- EncodeRuns.RunKeepsInvariant: inserting a frame into the pending table and preparing the next frame are one step, as callers lock a frame only after encode has returned.
- EncodeRuns.AcquireSucceedsIff: surface sizes are below 2^20 and their size products below 2^32, so that the 16 bit parameters and 32 bit sizes hold them.
- Source surfaces, Vulkan images, misc parameter buffers, timing output and the level table of the encode session.
- Session disposal, and the software CA encode session.
- ClientRequests.RunKeepsShapeAndFresh: conversion by WinPR is success or failure of a parameter; clip data ids of the FUSE clipboard and the data itself are opaque. Requests end with disposal, which is not a step.
- FormatListSender.EveryRun: offered lists hold no type twice. The cache entries and file list flags that sending a list clears belong to the machine of ClientRequests, or are left out.
- ClipDataLocks.NextSerial: serials are unbounded; wrap-around at 64 bits and the cast to a pointer are not modelled.
- ClipDataLocks.LockTouchesLiveIff: an entry that was freed reads as arbitrary values that stay the same throughout the end of that lock, and its reference is not given to a new entry while the id table holds it; what a write to it does to other memory is not modelled.
- ClipDataLocks.RdpClipDataLocks.BeginLock: entries are values under explicit references that both tables share, not heap objects; file list flags of entries are left out.
- ClipDataLocks.DisposalDestroysAll: disposal between calls only, not while the channel thread waits in the middle of a lock or unlock.
- FormatDataGate.RespondedOnceInOrder: taking the context, responding and opening the gate are one step; the id of the scheduled callback, which serves a debug message and disposal, is the flag whether it is due.
- FormatDataGate.StepKeepsInv: what is read and how it is converted are opaque; once the clipboard is disabled results are discarded, and requests then stay in the gate.
- EglSlots.EglThread.ReleaseSlot: a slot is released only when no marker of it is queued or dispatched; the source leaves this to its callers.
- EglSlots.EglThread.Dispatch: the work of a task is one step that calls its callback once, as the task functions do; plain tasks are followed only as far as the queue.
- Damage.GetDamageRegion: the region is its set of pixels, not a list of rectangles; sizes do not overflow 32 bits.
- The VNC clipboard, the FUSE file system, file contents requests, D-Bus, settings, credentials, daemons and the handover flow.
