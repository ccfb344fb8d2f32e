# Pupbox: a verified model of its algorithmic cores

Pupbox is a voice companion: firmware on an ESP32 board records speech, a Go server sends it to recognition, chat and
synthesis providers and streams the spoken answer back. Most of it is plumbing around those services. This project models
the parts with an algorithm of their own, in Dafny 4.11, and proves what they are for:

- **Ogg/Opus framing** (`OggCrc`, `OggRemainder`, `OggParser`, `OggWriter`): the incremental page parser gives the same
  packets however the bytes are cut into chunks and the packets into pages; the writer's pages carry consecutive numbers,
  the right granule positions and the right checksum; a whole session parses back exactly. The checksum is the remainder of
  a long division by the generator polynomial of RFC 3533, and a page damaged within 32 consecutive bits is never taken for
  sound. One page gives back its packet if and only if the packet is an audio packet of at most 65024 bytes.
- **Utterance capture in the firmware** (`Capture`): one array serves first as a ring and, after an in-place rotation, as
  a recording. Every speech result is a gap-free stretch of the microphone stream, has enough sound in it, and the loop
  ends within a fixed number of frames whatever the sound. The threshold adapts: steady noise is never taken for speech,
  and five frames clearly above the noise heard so far always start a recording.
- **Streaming structured reply** (`Utf8`, `JsonField`, `ReplyStream`): the decoder of a JSON string in a truncated document
  never takes anything back, reads exactly the escapes of RFC 8259 and returns every legally escaped string; the sentences
  spoken do not depend on how the document is cut into deltas, and none is empty or has white space at either end.
- **Edit distance** (`EditDistance`): the two-row loop computes the least cost over all edit scripts, which is a metric;
  the similarity score built on it is in [0, 1], 1 exactly on equal normalised text and 0 exactly at the greatest
  possible distance; normalising picks out exactly the letters and digits.
- **WAV files and silence trimming** (`Wav`, `AudioTrim`, `TrimMargins`): two independent readers agree, the writer and the
  reader are inverse exactly on representable audio, trimming keeps all speech with its margins, and trimming twice trims
  once, under the root mean square and up to 1.2 GHz, at exactly the sample rates whose margins are whole windows, all
  multiples of 50 among them.
- **Single-flight speech cache** (`DiskCache`, `SpeechCache`): a lock, a table of calls in flight, a bounded memory cache
  and a disk cache, under every interleaving of requests. Nothing wrong is ever served, nobody waits for ever on a call
  without an owner, and a recording once made is served from memory until it is evicted or replaced.
- **Device packet pipeline** (`PacketPipeline`): a producer, a 64-slot channel and a prebuffered, paced consumer, under
  every schedule.
- **Idle and standby machine** (`IdleMachine`): five fields under a mutex, characterised over whole runs by the history of
  calls alone.
- **Bounded logs** (`LineLog`, `EventLog`, `TelemetryLog`): files pruned by shift-in-place windows refine "the last
  records of the history", the telemetry log with an exact bound on how often it is rewritten.
- **Percentiles** (`Percentiles`): the nearest-rank values are the unique percentiles of the samples.

Where the source changes state, the model does: classes with the source's fields, arrays updated in place, loops with
their invariants. Each such method is proved against a specification function or predicate, and the properties are lemmas
about those. The concurrent parts are state machines over atomic steps whose locked sections are the classes' methods.
`Arithmetic`, `Bytes`, `Trimming`, `Picking` and `Wrappers` hold shared helpers; `Picking` defines what it means to select
the wanted elements of a sequence in order, and `Trimming` is `strings.TrimSpace` over any alphabet.

Three points where a plausible reading of the source is not what it does:

- `DiskCache`: `Put` prunes before it encodes, so a recording that cannot be stored (an empty or over-long MIME type, or
  audio over 12 MB) still costs old files, exactly when its key has no file and the directory is full (`RefusedPutCosts`;
  `EmptyMimeTypeCosts` is such a case).
- `AudioTrim`: trimming is not idempotent at every sample rate. A window is 20 ms rounded down to whole frames, so at rates
  such as 11025 Hz the margins are not whole windows, and a second pass measures other windows. `UnfitMarginsCutTwice`
  gives for each such rate, up to 1.2 GHz, a file that is cut twice: a click across a window boundary that the shifted
  windows take in whole, a burst that the second pass finds in a shorter and so louder window or, below 5 Hz, a sound
  that loses the neighbour that held it up.
- `JsonField`: the field is looked up at the first occurrence of its quoted name anywhere in the document. The value behind
  a given key is the one that is read exactly when that name does not occur earlier (`FoundExactlyWhenFirst`). An earlier
  value of that text hides the field for good (`ReplyHiddenByValue`); an earlier or nested key of that name is read in its
  place (`ReplyHiddenByNestedKey`).

## Model

| member | source | states |
|---|---|---|
| OggParser.OggPacketParser.Feed | internal/dashscopeapi/realtime.go:328-372 | one call delivers, keeps and rejects exactly what draining the buffered bytes and the chunk page by page does |
| OggParser.OggPacketParser.TakeSegments | internal/dashscopeapi/realtime.go:351-369 | the segment loop of a page completes exactly the packets its lacing values delimit, carries the unfinished one over, and drops header and empty packets |
| OggParser.SumSegments | internal/dashscopeapi/realtime.go:342-345 | the body size is the sum of the lacing values |
| OggParser.NextPageIsStable | internal/dashscopeapi/realtime.go:331-349 | once the front of the buffer is a page or an error, more bytes do not change which |
| OggParser.AssembleAppend | internal/dashscopeapi/realtime.go:351-369 | running the segment loop over two pages equals running it over their joined lacing values and bodies |
| OggParser.DrainTwice | internal/dashscopeapi/realtime.go:328-372 | feeding two pieces one after the other equals feeding them joined, the first error included |
| OggParser.ChunkIndependence | internal/dashscopeapi/realtime.go:328-372 | for every byte stream and every split into chunks: same packets, same verdict and, without an error, the same retained buffer and packet as one feed of everything |
| OggParser.DrainStops | internal/dashscopeapi/realtime.go:331-349 | what is retained is a suffix of the input holding no whole page; an error is reported exactly when it starts with something that is not a page |
| OggParser.PageBoundaryIndependence | internal/dashscopeapi/realtime.go:328-372 | two conforming streams with the same lacing values and bodies, paged and chunked in any two ways, give the same packets and final state |
| OggParser.AnyPaginationAnyChunking | internal/dashscopeapi/realtime.go:328-372 | packets carried by any conforming pages (several to a page, or one over many) in any chunks arrive in order, complete, with nothing left over |
| OggParser.AcceptedIsPages | internal/dashscopeapi/realtime.go:328-372 | the converse: every accepted stream is the wire form of conforming pages plus what is retained, and delivers what their lacing values say |
| OggParser.AudioOfAudio | internal/dashscopeapi/realtime.go:359-363 | filtering delivers all packets unchanged exactly when none is empty or an Opus header |
| OggParser.AudioPicks | internal/dashscopeapi/realtime.go:359-363 | delivered are, in order, exactly the packets at the positions that hold neither nothing nor a packet starting with OpusHead or OpusTags |
| OggParser.RejectedExactlyWhenNoPage | internal/dashscopeapi/realtime.go:331-349 | an error means that at least 27 bytes are left that do not start with OggS and version 0; without one, what is left and has 27 bytes is a proper beginning of some conforming page |
| OggParser.Names | internal/dashscopeapi/realtime.go:335-361 | the capture pattern and the two header names are the texts of the source |
| OggWriter.OggOpusWriter.constructor | internal/dashscopeapi/ogg_opus.go:22-29 | a new writer's numbers start at zero; its frame length is 48 samples a millisecond where that does not overflow, and the truncated, wrapped product of the source's conversions elsewhere |
| OggWriter.OggOpusWriter.Headers | internal/dashscopeapi/ogg_opus.go:31-48 | writes the identification page (flagged first) and the comment page of RFC 7845 and takes two sequence numbers |
| OggWriter.HeaderPageFields | internal/dashscopeapi/ogg_opus.go:31-48 | the two header pages of every writer read back their flag, granule zero and consecutive sequence numbers, and parse as whole pages that deliver no audio |
| OggWriter.HeadFields | internal/dashscopeapi/ogg_opus.go:32-36 | the identification packet is 19 bytes: its name, version 1, the channels, the sample rate, zeros elsewhere |
| OggWriter.TagsFields | internal/dashscopeapi/ogg_opus.go:38-42 | the comment packet is its name, the length of the vendor text, pupbox, and no comments |
| OggWriter.OggOpusWriter.WritePacket | internal/dashscopeapi/ogg_opus.go:50-56 | an empty packet is an error that changes nothing; any other advances the granule before it is written and takes one sequence number |
| OggWriter.OggOpusWriter.WritePage | internal/dashscopeapi/ogg_opus.go:58-79 | the page is the image section 6 of RFC 3533 defines for the writer's state, and the sequence number advances with wrap-around |
| OggWriter.RenderPage | internal/dashscopeapi/ogg_opus.go:59-78 | filling the zeroed buffer field by field and stamping the checksum last gives that page image |
| OggWriter.FillHead | internal/dashscopeapi/ogg_opus.go:61-68 | the fixed header is laid out at its offsets, the checksum field stays zero and the rest of the page untouched |
| OggWriter.FillLacing | internal/dashscopeapi/ogg_opus.go:70-75 | the segment table is the lacing of the packet's length, final zero included for multiples of 255 |
| OggWriter.StampChecksum | internal/dashscopeapi/ogg_opus.go:77-78 | the checksum of the page with its checksum field zeroed lands in that field and changes nothing else |
| OggWriter.LacingAt | internal/dashscopeapi/ogg_opus.go:70-75 | segment i holds 255 bytes or, at the end, what remains |
| OggWriter.PageFields | internal/dashscopeapi/ogg_opus.go:58-79 | every written page, of any size, reads back its granule, serial and sequence numbers and the register value of itself with the checksum field zeroed |
| OggWriter.SessionNumbering | internal/dashscopeapi/ogg_opus.go:50-68 | in a session page k carries sequence number start + k and granule start + (k + 1) frames, each modulo its width |
| OggWriter.SessionPages | internal/dashscopeapi/ogg_opus.go:50-56 | page k of a session is the page of packet k at the writer's k-th position |
| OggWriter.SessionRoundTrip | internal/dashscopeapi/ogg_opus.go:31-79 | for all packets of 1 to 65024 bytes and every chunking, parsing the headers and packets gives exactly the packets, all of them if and only if none looks like an Opus header |
| OggWriter.PageRoundTripExactly | internal/dashscopeapi/ogg_opus.go:58-79 | one page gives back its packet if and only if the packet has 1 to 65024 bytes and starts with neither OpusHead nor OpusTags |
| OggWriter.WrittenIsSound | internal/dashscopeapi/ogg_opus.go:58-79 | every written page is sound: its checksum field holds, low byte first, the checksum of the page with that field zeroed |
| OggWriter.DamageIsDetected | internal/dashscopeapi/ogg_opus.go:77-78 | a sound page changed anywhere within 32 consecutive bits, all inside its checksum field or all outside it, is not sound any more |
| OggWriter.DeliveryNeedsRoom | internal/dashscopeapi/realtime.go:351-369 | a delivered packet is paid for by its own bytes and lacing values, so an over-long page cannot deliver it |
| OggCrc.OggCRC | internal/dashscopeapi/ogg_opus.go:81-94 | the nested loops, started at zero, compute the register function; CrcIsRemainder says what that is |
| OggRemainder.CrcIsRemainder | internal/dashscopeapi/ogg_opus.go:81-94 | the checksum of any bytes is the remainder of long division, modulo 2, of their bits (most significant first, 32 zeros behind) by the generator of RFC 3533, whose terms are listed |
| OggRemainder.CrcOfCheckedIsZero | internal/dashscopeapi/ogg_opus.go:81-94 | any bytes followed by their own checksum, high byte first, have checksum zero |
| OggRemainder.CrcOfXor | internal/dashscopeapi/ogg_opus.go:81-94 | the checksum of the bytewise exclusive or of two messages of one length is the exclusive or of their checksums |
| OggRemainder.BurstChangesCrc | internal/dashscopeapi/ogg_opus.go:81-94 | two messages of one length that differ, and only within 32 consecutive bits, have different checksums |
| OggRemainder.OctetsAreBits | internal/dashscopeapi/ogg_opus.go:84-85 | bit j of byte i is data[i] / 2^(7-j) % 2 |
| OggRemainder.DivisionIsRegister | internal/dashscopeapi/ogg_opus.go:85-91 | dividing the bits step by step leaves the register after the shifts |
| OggCrc.ShiftByte | internal/dashscopeapi/ogg_opus.go:85-91 | the inner loop is eight shifts of the register |
| OggCrc.ShiftLinear | internal/dashscopeapi/ogg_opus.go:86-90 | one bit step distributes over exclusive or |
| OggCrc.ShiftInjective | internal/dashscopeapi/ogg_opus.go:86-90 | one bit step is a bijection on 32-bit registers |
| OggCrc.CrcLinear | internal/dashscopeapi/ogg_opus.go:81-94 | the register after a bytewise exclusive or is the exclusive or of the registers, for all start values |
| OggCrc.BytesAreBits | internal/dashscopeapi/ogg_opus.go:81-94 | the byte-at-a-time register equals the bit-at-a-time definition |
| OggCrc.BurstDetected | internal/dashscopeapi/ogg_opus.go:81-94 | from any start value, any change confined to 32 consecutive bits changes the register |
| OggCrc.FourBytesDetected | internal/dashscopeapi/ogg_opus.go:81-94 | from any start value, any change confined to four consecutive bytes changes the register |
| Capture.MeanAbsoluteLevel | firmware/esp32-s3-audio-board/main/main.cc:90-98 | the loop computes the floored mean magnitude, zero for no samples |
| Capture.LevelIsMean | firmware/esp32-s3-audio-board/main/main.cc:90-98 | the level times the number of samples is the sum of their distances from zero, less a remainder smaller than that number |
| Capture.LevelBetween | firmware/esp32-s3-audio-board/main/main.cc:90-98 | the level lies between the least and the greatest distance of a sample from zero |
| Capture.CaptureAutomaticUtterance | firmware/esp32-s3-audio-board/main/main.cc:257-397 | the whole promise: frame bound, which exit was taken and why, result and length as the detector says, and for speech a gap-free stretch of the microphone stream |
| Capture.BufferFrame | firmware/esp32-s3-audio-board/main/main.cc:301-306 | a frame goes into the ring in order, overwriting the oldest samples |
| Capture.StoreSample | firmware/esp32-s3-audio-board/main/main.cc:302-305 | one sample moves the ring's window on by one |
| Capture.StartRecording | firmware/esp32-s3-audio-board/main/main.cc:316-321 | after the optional rotation the front of the buffer is the latest pre-roll in chronological order |
| Capture.Rotate | firmware/esp32-s3-audio-board/main/main.cc:318-319 | the two parts of the ring change places |
| Capture.RotatedRingIsWindow | firmware/esp32-s3-audio-board/main/main.cc:316-320 | a full ring read from its write position is a contiguous window of the stream |
| Capture.UnwrappedRingIsWindow | firmware/esp32-s3-audio-board/main/main.cc:316-320 | without wrap-around no rotation is needed |
| Capture.AppendFrame | firmware/esp32-s3-audio-board/main/main.cc:345-347 | appending keeps the recording contiguous |
| Capture.RecordFrame | firmware/esp32-s3-audio-board/main/main.cc:345-383 | the recording branch: goes on, drops a short sound and waits afresh, or ends with the right length |
| Capture.DropTrailingSilence | firmware/esp32-s3-audio-board/main/main.cc:371-375 | all but 20 quiet frames go, the clamp never takes effect, and what remains is contiguous |
| Capture.CountWhileWaiting | firmware/esp32-s3-audio-board/main/main.cc:307-315 | counters, noise floor and threshold follow the detector while waiting; FloorFollows and the lemmas after it say what the detector does |
| Capture.FloorFollows | firmware/esp32-s3-audio-board/main/main.cc:310-314 | a quiet waiting frame moves the floor towards its level by a thirty-second of the difference, rounded down and never past it, and the threshold is 80 above three times the floor, at least 180 |
| Capture.FloorStays | firmware/esp32-s3-audio-board/main/main.cc:308-315 | active frames and frames of a recording move neither |
| Capture.NoiseTimesOut | firmware/esp32-s3-audio-board/main/main.cc:281-340 | when every level stays in [m, M], the first is below 180 and M below max(180, 3 * min(60, m) + 80), an undisturbed capture ends as a timeout without samples after exactly 100 frames a second |
| Capture.FloorIsBounded | firmware/esp32-s3-audio-board/main/main.cc:310-314 | on every run floor and threshold stay within what the loudest quiet frame so far allows |
| Capture.ClearSoundIsHeard | firmware/esp32-s3-audio-board/main/main.cc:299-314 | when the quiet frames so far had levels of at most M, a frame of at least max(180, 3 * max(60, M) + 80) is active |
| Capture.FiveClearFramesStart | firmware/esp32-s3-audio-board/main/main.cc:307-324 | five such frames in a row while waiting start a recording |
| Capture.StartNeedsFive | firmware/esp32-s3-audio-board/main/main.cc:307-316 | and a recording only starts with five active frames in a row |
| Capture.PreRollIsKept | firmware/esp32-s3-audio-board/main/main.cc:301-324 | a recording starts with everything heard since the wait began or the last sound was ignored, at most 300 ms |
| Capture.CountWhileRecording | firmware/esp32-s3-audio-board/main/main.cc:349-370 | counters follow the detector while recording, the reset of a short sound included |
| Capture.RecordingCounts | firmware/esp32-s3-audio-board/main/main.cc:349-354 | in a recording the active counter is five plus the active frames since its start, and the quiet one the frames since the last active one |
| Capture.RecordingEndsExactly | firmware/esp32-s3-audio-board/main/main.cc:342-370 | a recording fills the buffer, ends as speech, or is forgotten exactly when 800 frames are exceeded, or 110 quiet frames have passed with at least, or fewer than, 20 active ones |
| Capture.CaptureEndsExactly | firmware/esp32-s3-audio-board/main/main.cc:325-410 | the result and the number of samples of every undisturbed capture, from the frames at which its recording started and ended alone |
| Capture.CountersAreSound | firmware/esp32-s3-audio-board/main/main.cc:281-384 | at every frame of every run the counters mean what they say: active runs, quiet runs, frames kept, time spent |
| Capture.CaptureTerminates | firmware/esp32-s3-audio-board/main/main.cc:281-384 | for every stream, short sounds repeated at will, the loop runs at most 100 * seconds + 795 frames |
| Capture.SilenceEndIsAdequate | firmware/esp32-s3-audio-board/main/main.cc:355-383 | a silence exit comes exactly 110 quiet frames after an active one, with at least 20 active frames in what is kept |
| Capture.FullIsAdequate | firmware/esp32-s3-audio-board/main/main.cc:342-344 | a full buffer holds exactly eight seconds |
| Capture.SpeechIsAdequate | firmware/esp32-s3-audio-board/main/main.cc:403-410 | every speech result has 20 active frames and at least the fifth of a second `RunVoiceTurn` asks for; the end is 20 frames after the last active frame or the buffer's end |
| Utf8.DecodeRune | internal/server/streaming_reply.go:211-214 | a decoded rune takes between one and all of the bytes |
| Utf8.DecodeEncoded | internal/server/streaming_reply.go:211-216 | every scalar's encoding decodes to it, whatever follows |
| Utf8.EncodeDecoded | internal/server/streaming_reply.go:211-216 | only the shortest form is accepted, so decoding loses nothing |
| Utf8.EncodingIsUtf8 | internal/server/streaming_reply.go:211-216 | the encoding of every scalar has the length, marker bits and free bits of RFC 3629, section 3 |
| Utf8.DecodeIsStable | internal/server/streaming_reply.go:211-214 | a complete sequence decodes the same whatever follows |
| Utf8.PrefixByBytesIsPrefixByRunes | internal/server/streaming_reply.go:140-143 | comparing and cutting decoded text by bytes is comparing and cutting it by runes |
| JsonField.PartialJSONStringField | internal/server/streaming_reply.go:182-254 | the loop computes value, started and complete of the specification |
| JsonField.DecodeFrom | internal/server/streaming_reply.go:205-253 | the decoding loop reads tokens up to the closing quote or the first incomplete or illegal one |
| JsonField.SkipBlanksFrom | internal/server/streaming_reply.go:189-191 | exactly the leading JSON blanks are skipped |
| JsonField.IndexOf | internal/server/streaming_reply.go:184-187 | the first occurrence of the marker, or none at all |
| JsonField.UnicodeEscapeIsUtf16 | internal/server/streaming_reply.go:256-281 | an escape decodes to a value of a size if and only if it is the UTF-16 form of that value: one unit outside the high surrogates in 6 bytes, or a surrogate pair in 12 |
| JsonField.TokenIsForm | internal/server/streaming_reply.go:206-281 | a character is read in n bytes if and only if those bytes are one of its forms in RFC 8259, section 7, written out in literal characters, or a control character as it is, or (for the replacement character) a lone low surrogate; the value closes exactly at a quote |
| JsonField.UnitIsRead | internal/server/streaming_reply.go:257-264 | four hexadecimal digits in either case are read as the number they write |
| JsonField.BlankMeans | internal/server/streaming_reply.go:189-191 | blanks are space, tab, carriage return and line feed |
| JsonField.TokenIsStable | internal/server/streaming_reply.go:206-252 | a complete character or closing quote is read the same whatever follows |
| JsonField.DecodeTextGrows | internal/server/streaming_reply.go:205-253 | more text only extends the decoded value and never changes a completed one |
| JsonField.PrefixMonotone | internal/server/streaming_reply.go:182-281 | for every document and continuation: started and complete stay, the value only grows, a complete one is final, wherever the cut falls |
| JsonField.EscapedTextDecodes | internal/server/streaming_reply.go:205-253 | any mix of legal escapings of any characters decodes to those characters |
| JsonField.StringRoundTrip | internal/server/streaming_reply.go:182-281 | for every string, every legal escaping and all surroundings in which the marker first occurs as the key: exactly that string, complete, and a prefix of it for every truncation |
| JsonField.CutBetweenCharacters | internal/server/streaming_reply.go:182-254 | cut after any number of characters the value is exactly those, not complete |
| JsonField.FoundExactlyWhenFirst | internal/server/streaming_reply.go:183-203 | the value behind a given key is the one read if and only if the quoted name does not occur before that key, whatever surrounds it |
| JsonField.FieldMarkers | internal/server/streaming_reply.go:135-139 | the names of both fields in use, in quotes |
| JsonField.ShadowedMarkerIsNeverFound | internal/server/streaming_reply.go:184-194 | the first kind of failure: the name first occurs with no colon behind it, and the field is never found |
| JsonField.ReplyHiddenByValue | internal/server/streaming_reply.go:184-194 | a document whose reply is hidden by an earlier value |
| JsonField.ReplyHiddenByNestedKey | internal/server/streaming_reply.go:184-210 | the second kind: a document whose nested key is read in place of the reply |
| ReplyStream.StructuredReplyStream.Append | internal/server/streaming_reply.go:132-146 | released before plus returned now is what the longer document releases; everything heard is delivered or pending |
| ReplyStream.StructuredReplyStream.TakeCompleteSentences | internal/server/streaming_reply.go:148-167 | the pending text is cut after each terminator, trimmed non-empty pieces come out, the rest stays; SpokenPicks and SpokenIsClear say what trimming leaves |
| ReplyStream.StructuredReplyStream.Flush | internal/server/streaming_reply.go:169-177 | the trimmed rest comes out unless empty, and nothing stays pending |
| ReplyStream.SpokenPicks | internal/server/streaming_reply.go:156-160 | spoken are, in order, exactly the pieces that are not all white space, each trimmed |
| ReplyStream.SpokenIsClear | internal/server/streaming_reply.go:156-160 | nothing spoken is empty or starts or ends with white space |
| Trimming.TrimMeans | internal/server/streaming_reply.go:156-170 | trimming leaves a stretch of the text with only white space before and after it and none at its ends |
| Trimming.TrimIsOnly | internal/server/streaming_reply.go:156-170 | every such stretch is what trimming leaves |
| ReplyStream.SpacesAre | internal/server/streaming_reply.go:156-170 | white space is the 25 code points of the Unicode property |
| ReplyStream.TerminatorsAre | internal/server/streaming_reply.go:152-152 | exactly five characters end a sentence |
| ReplyStream.ChatMeans | internal/server/streaming_reply.go:136-136 | a kind is chat if and only if it is those four letters, in either case, between white space |
| ReplyStream.CutInTwo | internal/server/streaming_reply.go:148-167 | cutting text in two steps cuts it like one |
| ReplyStream.CutIsExact | internal/server/streaming_reply.go:148-167 | pieces and rest joined are the text, each piece has exactly one terminator, at its end, and the rest has none |
| ReplyStream.HeardGrows | internal/server/streaming_reply.go:135-144 | what has been heard is a prefix of what will be, so the prefix guard never fails |
| ReplyStream.SpeakDeltas | internal/server/streaming_reply.go:132-177 | for every split into deltas, all appends and the flush speak exactly the trimmed non-empty sentences of the decoded reply; each is non-empty and has no white space at either end |
| ReplyStream.DocumentIsHeard | internal/server/streaming_reply.go:132-254 | from the document itself: whatever its escapes and order of keys, the reply of a chat document is heard as written, that of any other kind not at all |
| ReplyStream.ReleasedEarlyIsFinal | internal/server/streaming_reply.go:132-167 | sentences released early are a prefix of those finally spoken |
| EditDistance.ComputeDistance | internal/replay/run.go:411-429 | two rows suffice for the distance recurrence |
| EditDistance.NextRow | internal/replay/run.go:417-426 | the inner loop computes the next row of the table |
| EditDistance.ScriptsCostAtLeast | internal/replay/run.go:411-429 | no edit script between two prefixes costs less than their table entry |
| EditDistance.BestScript | internal/replay/run.go:411-429 | some edit script costs exactly the table entry |
| EditDistance.DistanceIsLeastCost | internal/replay/run.go:411-429 | the distance is the least cost over all insert, delete and substitute scripts |
| EditDistance.DistanceSymmetric | internal/replay/run.go:411-429 | the distance is symmetric |
| EditDistance.DistanceZeroExactlyOnEqual | internal/replay/run.go:411-429 | it is zero if and only if the sequences are equal |
| EditDistance.Compose | internal/replay/run.go:411-429 | two scripts compose into one that costs no more than both |
| EditDistance.DistanceTriangle | internal/replay/run.go:411-429 | the triangle inequality |
| EditDistance.PrefixBounds | internal/replay/run.go:411-429 | between the difference of the lengths and the longer length |
| EditDistance.NormalizedRunes | internal/replay/run.go:401-409 | the output is the runes of the folded text at exactly the positions that hold a letter or digit, in order |
| EditDistance.KeptPicks | internal/replay/run.go:401-409 | there are strictly rising positions, those of all letters and digits and no others, whose runes are the output |
| EditDistance.KeptCounts | internal/replay/run.go:401-409 | every letter and digit occurs as often as in the folded text, and nothing else occurs |
| EditDistance.WordsAreKept | internal/replay/run.go:401-409 | a text of letters and digits only comes back unchanged |
| EditDistance.TextSimilarity | internal/replay/run.go:388-399 | in [0, 1], and 1 if and only if the normalised texts agree |
| EditDistance.SimilarityInRange | internal/replay/run.go:388-399 | the score is in [0, 1], symmetric, and 1 exactly on equal texts |
| EditDistance.SimilarityZero | internal/replay/run.go:388-399 | the score is 0 if and only if the texts are not both empty and their distance is the longer length |
| EditDistance.SimilarityScales | internal/replay/run.go:394-398 | one less the score, times the longer length, is the distance |
| Wav.ParsePCMWAV | internal/server/audio_trim.go:107-143 | accepts and returns exactly what the chunk walk of the specification does |
| Wav.FindChunks | internal/server/audio_trim.go:113-134 | the loop visits the chunks in order, the last format and data chunks winning |
| Wav.DecodeWAV16KMono | internal/qwenrealtime/wav.go:9-51 | accepts and returns exactly what the strict walk does |
| Wav.FindStrict | internal/qwenrealtime/wav.go:15-43 | the strict loop stops at the first bad chunk |
| Wav.SameNextChunk | internal/qwenrealtime/wav.go:39-42 | padding by size and padding by position come to the same from an even position |
| Wav.WalksAgree | internal/qwenrealtime/wav.go:15-43 | the strict walk succeeds exactly when the lenient one does and every format chunk is 16 kHz mono, with the same findings |
| Wav.FoundNeedsRoom | internal/server/audio_trim.go:108-110 | a file with a format and audio is never under the 44 bytes the lenient reader asks for |
| Wav.ReadersAgree | internal/qwenrealtime/wav.go:9-51 | the strict reader returns some audio if and only if the lenient one returns the same audio as 16 kHz 16-bit mono and no format chunk says otherwise |
| Wav.EncodePCM16WAV | internal/server/audio_trim.go:145-163 | the filled buffer is the header image followed by the audio |
| Wav.HeaderFields | internal/server/audio_trim.go:145-163 | every header field reads back the value written, the RIFF size, byte rate and block align included, each modulo its width |
| Wav.ParsedFacts | internal/server/audio_trim.go:135-142 | an accepted file has whole frames, non-zero fields and less than 4 GB of audio |
| Wav.ChunkedFileIsRead | internal/server/audio_trim.go:107-143 | whatever chunks a file holds in whatever order, its last data chunk and last format chunk of at least 16 bytes decide: it is accepted with exactly their values if and only if the format is integer PCM with a positive rate and a frame of whole bytes that divides the audio |
| Wav.CutChunkIsRefused | internal/server/audio_trim.go:113-118 | a last chunk shorter than its size makes both readers refuse the file |
| Wav.EncodeRoundTripExactly | internal/server/audio_trim.go:107-163 | reading back what was written returns it if and only if it is non-empty, whole frames and within the size field |
| AudioTrim.TrimWAVSilence | internal/server/audio_trim.go:32-105 | the source's loops compute the trim specification, for any loudness measure |
| AudioTrim.TrimReadable | internal/server/audio_trim.go:37-104 | durations, the minimum saving and the byte offsets of the cut |
| AudioTrim.FindSpeech | internal/server/audio_trim.go:41-91 | the clip spans the first to the last stable window with its margins |
| AudioTrim.MeasureMeanSquare | internal/server/audio_trim.go:48-57 | the sample loop computes the mean of the squared signed 16-bit samples of a window, full scale being one |
| AudioTrim.MeasureWindows | internal/server/audio_trim.go:43-59 | every window is measured once and the peak is their maximum |
| AudioTrim.MarkActive | internal/server/audio_trim.go:61-65 | a window is active exactly at or above the adaptive threshold |
| AudioTrim.ActiveMeans | internal/server/audio_trim.go:61-65 | active is every window from 0.018 on, and from 0.0045 on each that reaches twelve percent of all others |
| AudioTrim.IsStable | internal/server/audio_trim.go:66-74 | the closure counts the active windows among a window and its neighbours, edges included |
| AudioTrim.StableMeans | internal/server/audio_trim.go:66-74 | stable means that two different windows at most one place away are active |
| AudioTrim.FindStable | internal/server/audio_trim.go:75-83 | the first and the last stable window, or none |
| AudioTrim.WindowExists | internal/server/audio_trim.go:41-48 | there is a window i exactly when its first frame is inside the audio |
| AudioTrim.WindowIs20MS | internal/server/audio_trim.go:41-41 | a window is a fiftieth of a second, rounded down to frames, at least one |
| AudioTrim.ThresholdIsMonotone | internal/server/audio_trim.go:61-61 | the threshold rises and falls with the peak |
| AudioTrim.ClipHoldsSpeech | internal/server/audio_trim.go:88-91 | the clip holds every stable window with 200 ms before and 300 ms after, up to the file's edges |
| AudioTrim.ClipIsTight | internal/server/audio_trim.go:75-91 | and no more: it starts 200 ms before the first stable window and ends 300 ms after the last, within the audio; there is no clip exactly when no window is stable |
| AudioTrim.CutExactlyWhenWorthIt | internal/server/audio_trim.go:32-104 | a file is cut if and only if it is 16-bit audio with a stable window and at least 300 ms less of it are kept; in every other case it is returned as it came |
| AudioTrim.PartReadsBack | internal/server/audio_trim.go:98-100 | the written clip parses to the same channels and rate with exactly the cut audio |
| AudioTrim.TrimPreservesSpeech | internal/server/audio_trim.go:75-105 | an applied trim parses back to one frame-aligned stretch holding all speech with its margins; the durations add up and the new one is what `wavAudioStats` finds |
| AudioTrim.DurationsAgree | internal/server/server.go:1408-1419 | bytes over bytes per second and frames over frame rate give the same milliseconds |
| AudioTrim.LevelsOfStretch | internal/server/audio_trim.go:43-59 | cutting on window boundaries keeps the levels in between |
| AudioTrim.ActiveStaysActive | internal/server/audio_trim.go:61-65 | a window active in the whole is active in a part of it |
| AudioTrim.StableStaysStable | internal/server/audio_trim.go:66-74 | a stable window whose neighbours are kept stays stable |
| AudioTrim.SecondClipIsWhole | internal/server/audio_trim.go:75-91 | detection on the kept part keeps all of it |
| AudioTrim.TrimIsIdempotent | internal/server/audio_trim.go:32-105 | trimming a trimmed file returns it unchanged, for every loudness measure, at every sample rate whose margins are whole windows |
| AudioTrim.MultiplesOf50Fit | internal/server/audio_trim.go:88-91 | every rate divisible by 50 is such a rate, with ten windows before and fifteen after |
| TrimMargins.IdempotentExactlyWhenMarginsFit | internal/server/audio_trim.go:32-105 | under the root mean square, all files of a rate are trimmed idempotently if and only if its margins are whole windows |
| TrimMargins.UnfitMarginsCutTwice | internal/server/audio_trim.go:32-105 | under the root mean square, at every rate whose margins are not whole windows one file is cut by the first pass and cut again by the second |
| TrimMargins.LevelOfPiece | internal/server/audio_trim.go:48-57 | how the root mean square of a stretch compares with a bound is how its sum of squares compares with the bound's |
| TrimMargins.FirstDetection | internal/server/audio_trim.go:43-65 | in the first pass both sounds of that file are active and no silent window is |
| TrimMargins.SecondOnset | internal/server/audio_trim.go:43-65 | in the second pass the first sound is reduced to at most one active window |
| TrimMargins.FirstPass | internal/server/audio_trim.go:41-104 | the first pass keeps that file from the pre-roll of the first sound to the post-roll of the second |
| TrimMargins.SecondPass | internal/server/audio_trim.go:41-104 | the second pass cuts strictly more |
| TrimMargins.LateSpeechIsCut | internal/server/audio_trim.go:75-97 | when speech, less its pre-roll, starts 300 ms or more into a file, the beginning is cut off |
| DiskCache.EncodeCachedSpeech | internal/server/speech_cache.go:197-214 | the buffer filled by moving the offset is the payload layout; the same inputs are refused |
| DiskCache.DecodeIsExact | internal/server/speech_cache.go:216-232 | a payload decodes to a recording if and only if it is the layout of that recording within the limits |
| DiskCache.LayoutFields | internal/server/speech_cache.go:197-214 | the payload is the 14 bytes of the version line, the length of the type in two bytes, high byte first, the type and the audio |
| DiskCache.EncodeRoundTrip | internal/server/speech_cache.go:197-232 | storable recordings come back, the MIME type trimmed, and no others are encoded |
| DiskCache.SpeechDiskCache.Get | internal/server/speech_cache.go:65-87 | a hit, a miss, or an error that removes the broken file and nothing else |
| DiskCache.SpeechDiskCache.Put | internal/server/speech_cache.go:89-128 | prunes, then replaces the file of the key; empty audio is ignored |
| DiskCache.SpeechDiskCache.Prune | internal/server/speech_cache.go:148-171 | removes just enough of the oldest files for one more, none when the key is present |
| DiskCache.GetAfterPut | internal/server/speech_cache.go:65-128 | what was put is read back, its file is as new as the call, and other files are unchanged or evicted |
| DiskCache.PutSucceedsExactly | internal/server/speech_cache.go:89-128 | storing succeeds if and only if there is no audio, or at most 12 MiB of it with a type that has 1 to 255 bytes when trimmed |
| DiskCache.PutRespectsLimit | internal/server/speech_cache.go:89-171 | the directory never outgrows its limit and ends at exactly the expected size |
| DiskCache.EvictedAreOldest | internal/server/speech_cache.go:162-169 | whatever is evicted is no newer than anything that stays |
| DiskCache.RefusedPutCosts | internal/server/speech_cache.go:98-105 | a refused recording leaves the directory alone if and only if its key has a file or there is room; else the directory ends one file below its limit |
| DiskCache.EmptyMimeTypeCosts | internal/server/speech_cache.go:98-105 | a full directory loses a file to a recording without a MIME type |
| SpeechCache.Server.LookUp | internal/server/server.go:972-989 | the first locked section: memory hit, join, or a new open call |
| SpeechCache.Server.Remember | internal/server/server.go:1040-1046 | an insertion that evicts one entry when the cache is full |
| SpeechCache.Server.CompleteSpeechCall | internal/server/server.go:1087-1104 | a success is in memory afterwards and a failure leaves memory alone; publishes the result, removes the call and closes its channel |
| SpeechCache.CompletionRemembers | internal/server/server.go:1089-1097 | after a success its key is in memory with its recording, every other entry is unchanged, and exactly one is gone if 128 were held |
| SpeechCache.StepKeeps | internal/server/server.go:967-1054 | every atomic step of every request keeps the invariant |
| SpeechCache.RemembersKeeps | internal/server/server.go:1089-1097 | the memory cache never exceeds 128 entries and stays genuine |
| SpeechCache.PutIsFaithful | internal/server/server.go:999-1002 | storing a provider's recording keeps the disk faithful |
| SpeechCache.AfterReadFaithful | internal/server/server.go:991-996 | reading a faithful disk gives only recordings of that key |
| SpeechCache.RunsKeepInv | internal/server/server.go:967-1104 | the invariant holds at every moment of every interleaving |
| SpeechCache.AtMostOneOwner | internal/server/server.go:978-998 | at most one request per key owns a call, hence at most one asks the provider |
| SpeechCache.WaitersHaveOwners | internal/server/server.go:978-986 | a waiter's call is closed or has a live owner that will close it |
| SpeechCache.WaiterGetsOwnersResult | internal/server/server.go:980-982 | a coalesced waiter returns exactly its owner's result for the same key |
| SpeechCache.SuccessesAreGenuine | internal/server/server.go:967-1054 | every success is a recording the provider gave for that key, up to MIME trimming; the memory bound holds |
| SpeechCache.EntryLasts | internal/server/server.go:1040-1097 | on every run an entry stays in memory with its recording until one is inserted for its key, or for any key while 128 are held |
| SpeechCache.SuccessIsServed | internal/server/server.go:967-1104 | on every run, after an owner has returned a success, every request that starts for its key is answered from memory with that recording until the entry is evicted or replaced |
| SpeechCache.NewRequestFares | internal/server/server.go:972-1036 | a starting request is answered from memory when its key is there, waits when somebody is at work on it, and becomes its owner when nobody is |
| SpeechCache.DiskIsRead | internal/server/server.go:991-998 | a recording on disk is used without asking the provider; otherwise the owner goes on to ask |
| SpeechCache.GivenIsStored | internal/server/server.go:999-1004 | what the provider gave is on disk afterwards if it can be stored |
| SpeechCache.OwnerCompletes | internal/server/server.go:1004-1005 | an owner returns the result it has, and a success is in memory in the same step |
| SpeechCache.ProviderIsHeard | internal/server/server.go:998-1004 | a recording of the provider goes on to the disk, an error straight to completion, and neither changes memory |
| SpeechCache.StreamIsRead | internal/server/server.go:1038-1053 | a stream is served from the disk if the recording is there and gives up if not, without the provider |
| SpeechCache.StreamIsRemembered | internal/server/server.go:1039-1048 | and what it was served is in memory in the same step |
| SpeechCache.ClosedOnce | internal/server/server.go:1098-1102 | no channel is ever closed twice, and a published result never changes |
| SpeechCache.FinishedOwnersHaveClosed | internal/server/server.go:987-1005 | a call's channel has been closed exactly once if its owner is no longer at it, and not at all while it is |
| PacketPipeline.Player.WritePacket | internal/server/xiaozhi_device.go:293-314 | waits until the packet is due, so it never leaves before its time; the callback fires on the first attempt only, and the clock advances one frame per success |
| PacketPipeline.StepConserves | internal/server/xiaozhi_device.go:252-333 | every step of producer, consumer, clock and context loses, duplicates and reorders nothing |
| PacketPipeline.StepKeeps | internal/server/xiaozhi_device.go:252-333 | every step keeps conservation, pacing and the channel bound |
| PacketPipeline.RunsKeepInv | internal/server/xiaozhi_device.go:252-333 | the invariant holds along every schedule |
| PacketPipeline.DeviceGetsPrefix | internal/server/xiaozhi_device.go:252-333 | the device always has an in-order prefix of what was produced, on success all of it |
| PacketPipeline.PacketsArePaced | internal/server/xiaozhi_device.go:291-313 | packet k is never written before start + k frames, and the next one is due at start plus a frame for each written; the callback fires at most once, and before any packet |
| PacketPipeline.CanceledOnlyWhileWaiting | internal/server/xiaozhi_device.go:293-305 | the context ends playback only while a timer runs, a timer is set only for a packet that is early, and a packet in hand goes out exactly once, when it is due |
| PacketPipeline.SuccessIsComplete | internal/server/xiaozhi_device.go:328-332 | success means a non-empty stream and a producer that ended without error |
| PacketPipeline.OutcomesAreTrue | internal/server/xiaozhi_device.go:252-333 | on every run, the device hears nothing before four packets are there or the stream has ended, no more than four are held back, and each failure is reported only for its own reason |
| PacketPipeline.NeverStuck | internal/server/xiaozhi_device.go:269-332 | once the producer is done and the next packet due, the consumer can always take a step |
| PacketPipeline.StepsDoWork | internal/server/xiaozhi_device.go:269-332 | once the channel is closed, every consumer step lowers what is left to do and no other step raises it |
| PacketPipeline.ConsumerFinishes | internal/server/xiaozhi_device.go:269-332 | so under every schedule the consumer takes no more steps from then on than it had work left |
| IdleMachine.Connection.TouchActivity | internal/server/xiaozhi.go:544-549 | the transition of the machine |
| IdleMachine.Connection.ResumeFromStandby | internal/server/xiaozhi.go:551-558 | the transition of the machine, a no-op outside standby |
| IdleMachine.Connection.BeginResponse | internal/server/xiaozhi.go:560-569 | the transition of the machine for either kind of turn |
| IdleMachine.Connection.EndResponse | internal/server/xiaozhi.go:571-579 | the transition of the machine, refreshing only after a refreshing turn |
| IdleMachine.Connection.ClaimVoiceStandby | internal/server/xiaozhi.go:614-622 | granted exactly under the guard, and only then a change |
| IdleMachine.Connection.ClaimIdleClose | internal/server/xiaozhi.go:635-644 | granted exactly under the guard, and only then a change |
| IdleMachine.FieldsMeanHistory | internal/server/xiaozhi.go:544-644 | after any run the five fields are exactly five readings of the call history, which does not consult the machine, and a claim is granted exactly when the history says so |
| IdleMachine.CloseIsFinal | internal/server/xiaozhi.go:614-644 | idle close is granted at most once and nothing is granted after it |
| IdleMachine.ClaimsNeedIdleness | internal/server/xiaozhi.go:614-644 | a grant comes with no turn open and at least the timeout since the last activity |
| IdleMachine.IdlenessSuffices | internal/server/xiaozhi.go:614-644 | and idleness for the timeout is enough for a grant, and needed |
| IdleMachine.ClaimsComeAfterQuiet | internal/server/xiaozhi.go:614-644 | with a clock that never goes back, a grant comes at least its timeout after every earlier activity |
| IdleMachine.StandbyGrantsAreSeparated | internal/server/xiaozhi.go:551-622 | between two standby grants some event woke the device |
| IdleMachine.QuietTurnsDoNotRefresh | internal/server/xiaozhi.go:560-579 | a turn begun without refresh moves the last activity neither at its start nor at its end |
| LineLog.ReadRecentLines | internal/server/device_telemetry.go:203-228 | the shift-in-place window ends up with the last records of the file |
| LineLog.ShiftLeft | internal/server/device_telemetry.go:221-221 | the overlapping copy moves every line one place down |
| LineLog.CountLines | internal/server/events.go:432-447 | counts exactly the non-blank lines |
| LineLog.DecodeNewest | internal/server/device_telemetry.go:107-114 | the decodable lines, newest first |
| LineLog.RecordsOfClean | internal/server/events.go:401-430 | writing records out as lines and reading them again gives the same records |
| LineLog.RecordsArePicked | internal/server/device_telemetry.go:211-226 | the records of a file are exactly its non-blank lines in order, each trimmed |
| LineLog.NewestOfEncoded | internal/server/events.go:190-199 | decoding the encoded values gives them back reversed |
| LineLog.NewestArePicked | internal/server/device_telemetry.go:107-114 | what is returned are the values of exactly the lines that decode, in the opposite order |
| LineLog.NewestOfKept | internal/server/events.go:156-200 | asking a log that keeps its last values for n gives the newest min(n, limit), reversed |
| EventLog.EventStore.constructor | internal/server/events.go:87-97 | a store over whatever file there is, with the default limit for non-positive ones |
| EventLog.EventStore.Ensure | internal/server/events.go:331-363 | afterwards the file holds exactly the last min(history, limit) records and the count is its length |
| EventLog.EventStore.Append | internal/server/events.go:120-154 | the history grows by one record and the file is again exactly its tail |
| EventLog.EventStore.Prune | internal/server/events.go:365-399 | keeps exactly the last records |
| EventLog.EventStore.Update | internal/server/events.go:276-329 | rewrites exactly the kept records of the trace in place, reports whether there were any, and touches nothing when there were none |
| EventLog.EventStore.RewriteFile | internal/server/events.go:289-312 | the scanning loop rewrites record by record |
| EventLog.EventStore.Recent | internal/server/events.go:156-200 | the newest records of the file, reversed and decoded |
| EventLog.UpdateIsOnEvents | internal/server/events.go:289-312 | on encoded events, an update applies to exactly the kept events of that trace and leaves the others and their order alone |
| EventLog.FoundMeansKept | internal/server/events.go:299-308 | an update reports success if and only if a kept event is of that trace |
| TelemetryLog.DeviceTelemetryStore.constructor | internal/server/device_telemetry.go:46-55 | a store over whatever file there is, with the default limit for non-positive ones |
| TelemetryLog.DeviceTelemetryStore.Ensure | internal/server/device_telemetry.go:140-161 | afterwards count, file and history agree |
| TelemetryLog.DeviceTelemetryStore.Prune | internal/server/device_telemetry.go:163-201 | leaves the file alone, corrects the count, or keeps exactly the last records, by case |
| TelemetryLog.DeviceTelemetryStore.Append | internal/server/device_telemetry.go:66-92 | the history grows by one stamped sample; file, count and spacing of rewrites stay in order |
| TelemetryLog.DeviceTelemetryStore.Recent | internal/server/device_telemetry.go:94-115 | the newest samples of the whole history, though the file may hold more than the limit |
| TelemetryLog.Extra | internal/server/device_telemetry.go:164-164 | the slack is a tenth of the limit, rounded down, but at least 1 and at most 128 |
| TelemetryLog.Asked | internal/server/device_telemetry.go:100-102 | a number from 1 to the limit is taken as it is, and any other as 120 or the limit, whichever is less |
| TelemetryLog.SizeBounds | internal/server/device_telemetry.go:163-201 | the file is a suffix of the history of at least min(history, limit) and fewer than limit + extra records |
| TelemetryLog.RewritesAreAmortised | internal/server/device_telemetry.go:163-201 | rewrites are exactly `extra` appends apart, so their number is 1 + the appends since the first divided by `extra` |
| Percentiles.PercentilesInPlace | internal/replay/run.go:373-386 | puts the values in ascending order in place and returns the 50th and 90th percentiles of what was there, zeros for nothing |
| Percentiles.PercentileStats | internal/server/events.go:260-274 | the same over a copy, with the sample count |
| Percentiles.AtIsPercentile | internal/replay/run.go:378-384 | at least p percent of the values are at most the nearest-rank entry, and fewer than p percent are below it |
| Percentiles.AtMostCounts | internal/replay/run.go:378-384 | the counting behind it is of the positions whose values are at most v |
| Percentiles.PercentileIsUnique | internal/replay/run.go:378-384 | no other value is a p-th percentile |

## Left out

- TrimMargins.UnfitMarginsCutTwice: stated up to 1206451499 Hz, the highest rate at which its file fits the 32-bit size field; so the equivalence in TrimMargins.IdempotentExactlyWhenMarginsFit stops there too.
- OggParser.OggPacketParser.Feed: errors returned by the packet callback and feeding after an error are not modelled; callers stop at the first error.
- EventLog.EventStore.Recent: asks for at least one record, as its HTTP handler makes sure; the source's window has no room to shift for a limit of zero.
- Capture.CaptureAutomaticUtterance: enabling and disabling the microphone is taken to succeed, and the wait limit to fit a 32-bit size (up to 178956 seconds; the callers use 8 and 30).
- Floating point: levels, thresholds and scores are real numbers, so rounding is not modelled; the root mean square is any measure whose square is the mean square, and results that hold for every measure do not fix it.
- Unicode tables: lower-casing and the letter and digit classes of the transcript score are parameters; MIME types and log lines are trimmed of ASCII white space only.
- SHA-256 file names and cache keys: a cached file is identified by its key, digests being taken as distinct.
- The stream cache for providers that stream PCM, and the early return when voice output is off or there is no cache directory.
- Clocks, the Ogg serial number and file modification times are parameters; file and directory operations of logs and caches are taken to succeed, and no other process to change the files meanwhile.
- JSON encoding of log records is a codec that is only required to decode what it encodes to a clean line; the scanner's maximum line length is not modelled.
- Chunk sizes and lengths use a 64-bit int, so the source's tests for negative sizes never apply.
- HTTP handlers, WebSocket and event-stream transport, provider clients, configuration, logging and file permissions: plumbing over libraries.
- Activity, safety and surprise routing, sessions and recordings: tables of fixed phrases and small bounded stores.
- Firmware tones, codec and network setup, the playback task and the browser code: hardware, FreeRTOS and DOM behaviour.
