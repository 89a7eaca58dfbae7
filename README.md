# midi-parser in Dafny

A model of the midi-parser library, a decoder for Standard MIDI Files
(the MMA "Standard MIDI Files 1.0" layout: an `MThd` header chunk
followed by `MTrk` track chunks of delta-timed events). The model covers
both parts of the library:

- **The byte cursor** `BytesParser` of `parser.ts`. It is modelled as the
  class `Parser.BytesParser`, with its two mutable fields `pos` and
  `checkSum` over an immutable buffer. Each read is a method, proved
  against a function of the buffer and the read position (`U8At`,
  `UintAt`, `IntAt`, `VlqAt`, `ChunkAt`, `Slice`). The class invariant
  `Valid()` is `checkSum == pos`.
- **The decoder** of `midi.ts`, with its pieces modelled as follows:
  - The event tables (`parseMetaEvent`, `parseMidiEvent`,
    `parseSysexEvent` and their helpers) are pure functions in module
    `Events`.
  - The `parseTrack` loop is the method `Track.ParseTrack`: a `while` loop
    over a `BytesParser` carrying running status, absolute time and tempo.
    It is proved to compute `Track.TrackSpec`, which is built from one step
    function `Track.Step` iterated by `Track.Run`.
  - The `parseMidi` loop is the method `Midi.ParseMidi` (with
    `Midi.ParseTracks`), proved to compute `Midi.MidiSpec`.

Bytes are `Byte` (0..255) and buffers are `seq<Byte>`. Every `throw` of the
original that an input can reach, and every `DataView` range error, is an
`Err` of the `Result` type carrying an `Error` kind. The one check left out
is the `p1 === null` throw of `parseMidiEvent` (see "Left out"). Integers are unbounded. Where the original
relies on JavaScript's 32-bit bit operators the model either writes them
out arithmetically or proves that the two agree (see "Left out").

Files: `bytes.dfy` (bytes, results, big-endian numbers, characters),
`vlq.dfy` (variable-length quantities), `parser.dfy` (the cursor),
`events.dfy` (the event tables), `track.dfy` (one track chunk), `midi.dfy`
(the file).

Where the MIDI standard and the code differ, the model follows the code:
- slices clamp at the end of the buffer, but the cursor still advances by
  the full requested length;
- a variable-length quantity cut off by the end of the buffer yields what
  had accumulated, without failing;
- meta and sysex events leave the running status unchanged;
- tracks are read until the buffer ends, whatever the header's track
  count says.

## Model

| member | source | states |
|---|---|---|
| Bytes.SliceClamps | parser.ts:68-85 | a slice read holds min(n, bytes left) bytes, those at pos, pos+1, …, and exactly buf[pos..pos+n] when nothing is missing |
| Bytes.BigEndianOfToBigEndian | parser.ts:44-66 | reading back the n-byte big-endian representation of a value below 256^n gives the value |
| Bytes.ToBigEndianOfBigEndian | parser.ts:44-66 | every byte string is the big-endian representation of the value read from it |
| Bytes.BigEndianBound | parser.ts:44-66 | an n-byte big-endian read is below 256^n |
| Bytes.SignedInRange | parser.ts:38-66 | a signed read is in the two's-complement range of its width, agrees with the unsigned read modulo 256^width, and is negative exactly when the top bit is set |
| Bytes.CharsOfIndex | parser.ts:80-85 | the i-th character of the decoded string has the i-th byte as its code |
| Bytes.CodesOfCharsOf | parser.ts:80-85 | taking the character codes of the decoded string gives the bytes back |
| Vlq.DecodeStops | parser.ts:87-97 | decoding consumes every byte up to and including the first with bit 7 clear and none after it; without one it consumes the whole input |
| Vlq.DecodeExamples | parser.ts:87-97 | [0x00] is 0, [0x81,0x00] is 128, [0xFF,0xFF,0xFF,0x7F] is 0x0FFFFFFF, and a quantity cut off by the end yields what accumulated |
| Vlq.EncodeWellFormed | parser.ts:87-97 | the standard encoding has bit 7 set on every byte but the last, which has it clear |
| Vlq.DecodeEncode | parser.ts:87-97 | decoding the standard encoding of any value, whatever follows it, gives the value back and consumes exactly the encoding |
| Vlq.EncodeLength | parser.ts:87-97 | values below 2^(7k) encode in at most k bytes |
| Vlq.Int32DecodeExact | parser.ts:92 | for quantities of at most four bytes the 32-bit shift-and-or loop computes the unbounded value, which is below 2^28 |
| Vlq.Int32DecodeWraps | parser.ts:92 | a five-byte quantity on which the 32-bit loop wraps to -1 while the unbounded value is 0xFFFFFFFF |
| Parser.VlqFromDecodes | parser.ts:87-97 | reading a quantity in place from the buffer agrees with decoding the bytes left after the position |
| Parser.VlqAtDecodes | parser.ts:87-97 | the quantity at a position is the one `Vlq.Decode` finds at the start of what is left |
| Parser.ChunkAt | parser.ts:99-104 | chunk framing succeeds exactly when eight bytes (id and size) are left |
| Parser.ChunkLayout | parser.ts:99-104 | a framed chunk's id has the four id bytes as its character codes, its size is the big-endian u32 after them, and its data is the clamped slice of that size after those |
| Parser.UintAtRepresents | parser.ts:44-60 | a successful unsigned read is below 256^width and its big-endian representation is exactly the bytes read |
| Parser.BytesParser.constructor | parser.ts:10-16 | a new cursor is at position 0 with counter 0 over the given buffer |
| Parser.BytesParser.LastByte | parser.ts:18 | a byte ends a quantity exactly when it is below 0x80 |
| Parser.BytesParser.Eof | parser.ts:20 | at the end exactly when no byte is left after the position |
| Parser.BytesParser.DecPos | parser.ts:22-25 | position and counter move back by the same amount |
| Parser.BytesParser.IncPos | parser.ts:27-30 | position and counter move forward by the same amount |
| Parser.BytesParser.ParseU8 | parser.ts:32-36 | returns the byte at the position and advances by 1, or fails with a range error at the end; keeps checkSum == pos |
| Parser.BytesParser.ParseI8 | parser.ts:38-42 | returns the byte at the position read as two's complement and advances by 1, or fails with a range error |
| Parser.BytesParser.ParseU16 | parser.ts:44-48 | returns the big-endian 16-bit value at the position and advances by 2, or fails when fewer than 2 bytes are left |
| Parser.BytesParser.ParseI16 | parser.ts:50-54 | the same two bytes read as two's complement, advancing by 2, or a range error |
| Parser.BytesParser.ParseU32 | parser.ts:56-60 | returns the big-endian 32-bit value at the position and advances by 4, or fails when fewer than 4 bytes are left |
| Parser.BytesParser.ParseI32 | parser.ts:62-66 | the same four bytes read as two's complement, advancing by 4, or a range error |
| Parser.BytesParser.ParseBytesAsArrayBuffer | parser.ts:68-72 | returns the clamped slice of the requested length and advances by the full length |
| Parser.BytesParser.ParseBytes | parser.ts:74-78 | returns the clamped slice of the requested length and advances by the full length |
| Parser.BytesParser.ParseStr | parser.ts:80-85 | returns the characters whose codes are the clamped slice and advances by the full length |
| Parser.BytesParser.ParseVLQ | parser.ts:87-97 | returns the quantity at the position and advances by exactly its length, never failing at the end of the buffer |
| Parser.BytesParser.ParseChunk | parser.ts:99-104 | returns the chunk framed at the position and advances by 8 + size, or fails after the 4 id bytes when the size cannot be read |
| Parser.RereadByte | parser.ts:22-36 | a byte read followed by a one-byte rewind leaves position and counter as they were, so the next read sees the same byte |
| Events.IsRunningStatus | midi.ts:382 | a status-position byte is a running-status data byte exactly when it is below 0x80 |
| Events.MidiChannelAndType | midi.ts:343-348 | splits a status byte into a type below 16 and a channel below 16 that recombine to the byte |
| Events.TwoParametersRequired | midi.ts:351-362 | defined exactly for types 8..E; true for all of them except C and D; any other type fails as an invalid event type |
| Events.ParseU24 | midi.ts:365-371 | a tempo value is below 2^24 |
| Events.ParseU24IsBigEndian | midi.ts:365-371 | on a payload of at least three bytes the tempo is the big-endian value of the first three |
| Events.PitchBendValue | midi.ts:374-379 | (msb << 7) \| lsb: with lsb below 128 it is msb*128 + lsb, below 16384 when both are data bytes, and its low seven bits are always lsb's |
| Events.NormalizedBendRange | midi.ts:385 | the normalised bend of a 14-bit value lies in [-1, 1), with the centre 8192 at 0 |
| Events.StrFromArr | midi.ts:391-399 | the string built byte by byte is the one whose character codes are the bytes |
| Events.ParseMetaEvent | midi.ts:102-236 | a meta event fails exactly when its type is fixed-length and the declared length is not the one that type requires, and a meta event is never a channel or sysex event; the full table is stated by `Events.MetaEventClassified` and `Events.MetaFieldsFromPayload` |
| Events.MetaEventClassified | midi.ts:102-236 | fixed-length meta types fail exactly when the declared length differs from the one they need (0x20:1, 0x2F:0, 0x51:3, 0x54:5, 0x58:4, 0x59:2), and with that length give a channel prefix, end of track, the 24-bit tempo, an SMPTE offset, a time signature and a key signature; text types give text of the payload's length with the payload as codes; sequencer-specific data is kept; any other type is unknown |
| Events.MetaFieldsFromPayload | midi.ts:160-220 | with the whole declared payload read, 0x20 is the channel prefix of its one byte, 0x2F the end of track with no payload, 0x51 the big-endian tempo of its three bytes, and 0x54, 0x58 and 0x59 the SMPTE offset, time signature and key signature whose fields are the payload bytes in order, all present |
| Events.SetTempoExample | midi.ts:177-185 | a set-tempo payload 07 A1 20 is 500000 microseconds per quarter note |
| Events.ParseMidiEvent | midi.ts:239-318 | a channel event decodes exactly when its type is 8..E and a second data byte is present for the two-byte types |
| Events.MidiEventClassified | midi.ts:239-318 | the error is a missing data byte for types 8..E and an invalid type otherwise; every event is a channel event on its channel; type 9 is note-on unless velocity is 0, when it is note-off, with note and velocity unchanged; type 8 is note-off; A is note aftertouch, B a controller, C a program change and D channel aftertouch with the data bytes in order; E is a pitch bend whose value is (p2 << 7) \| p1 normalised around 8192, in [-1, 1) for data bytes |
| Events.ParseSysexEvent | midi.ts:320-340 | a sysex event decodes exactly for the markers F0 and F7 |
| Events.SysexEventClassified | midi.ts:320-340 | F0 is a sysex message and F7 an escape sequence, both carrying the payload unchanged; other markers are unsupported |
| Track.SysexAt | midi.ts:48-55 | a sysex event is a sysex body and ends at or after its length field |
| Track.MetaAt | midi.ts:57-61 | a meta event is not a channel event and ends after its type byte |
| Track.MetaPayloadAt | midi.ts:59-61 | a meta payload is not a channel event and ends at or after its length field |
| Track.ChannelEventAt | midi.ts:82-88 | a channel event is a channel-voice body and ends after at least one data byte |
| Track.EventFrom | midi.ts:44-92 | the event a status byte starts ends after that byte |
| Track.StatusEventAt | midi.ts:42-92 | reading the status byte and its event moves the position forward |
| Track.Step | midi.ts:40-92 | one turn of the loop moves the position forward, so the loop ends |
| Track.ParseSysex | midi.ts:48-55 | the sysex branch computes `SysexAt` and leaves the cursor after the payload |
| Track.ParseMeta | midi.ts:57-61 | the meta branch computes `MetaAt` and leaves the cursor after the payload |
| Track.ParseMetaPayload | midi.ts:59-61 | the length and payload reads compute `MetaPayloadAt` |
| Track.ParseChannelEvent | midi.ts:82-88 | the data-byte reads compute `ChannelEventAt` |
| Track.ParseEventBody | midi.ts:46-92 | the dispatch on the status byte, with its running-status rewind, computes `StatusEventAt` |
| Track.ParseStatusEvent | midi.ts:42-92 | reading the status byte and dispatching computes `StatusEventAt` |
| Track.ParseEvent | midi.ts:40-93 | one turn of the loop on the cursor computes `Step` and leaves the cursor at the next state's position |
| Track.ParseTrack | midi.ts:29-100 | the track loop, the id check and the final size check compute `TrackSpec` |
| Track.StepTiming | midi.ts:41-63 | one step adds the delta to the running time, stamps the event with it, and changes the tempo only for a set-tempo event |
| Track.StepSummarises | midi.ts:40-93 | one step keeps the state in agreement with the events decoded so far (time = sum of deltas, tempo = last set-tempo, prefix sums) |
| Track.RunSummarises | midi.ts:40-93 | the whole loop keeps that agreement and only appends events |
| Track.TrackTiming | midi.ts:29-99 | a decoded track has id MTrk, duration equal to the sum of its deltas, each event's absolute time equal to the sum of the deltas up to it, and tempo equal to its last set-tempo (0 if none) |
| Track.RunReachesEnd | midi.ts:40 | the loop stops only with the position at or past the end of the payload |
| Track.TrackSizeChecked | midi.ts:95-97 | a track whose events decode is accepted exactly when they end at its declared size, and otherwise fails with the size error |
| Track.AbsoluteTimesOrdered | midi.ts:44 | absolute times never decrease along a decoded track |
| Track.ChannelDataBytes | midi.ts:82-86 | a channel event reads two data bytes for types 8, 9, A, B, E and one for C, D, fails on any other type, and carries the status byte's low nibble as channel |
| Track.EventStatusMemory | midi.ts:46-81 | sysex and meta events are not channel events and leave the remembered status unchanged; every other event is a channel event and remembers its status byte, or under running status the one it had |
| Track.RunningStatusNeedsStatus | midi.ts:74-75 | a track whose first status position holds a data byte fails for lack of a running status |
| Track.StepNeedsStatus | midi.ts:74-75 | at any point of the loop, a data byte where a status byte is due with no status remembered fails the event |
| Track.RunStatusMemory | midi.ts:46-81 | over the whole loop, no status is remembered exactly as long as no channel event has been decoded, so leading sysex and meta events leave a later data byte failing |
| Track.MetaThenRunningStatusFails | midi.ts:57-81 | a tempo change followed by a data byte where a status byte is due fails the track |
| Track.RunningStatusExample | midi.ts:74-81 | 90 3C 40 then 40 00 without a status byte decodes as a note-on and a note-off on channel 0 |
| Track.TempoTrackFirstStep | midi.ts:57-63 | the first event of the tempo example is set-tempo 500000 and ends at byte 7 |
| Track.TempoTrackSecondStep | midi.ts:57-67 | the second event of the tempo example is end-of-track and ends at byte 11 |
| Track.TempoTrackExample | midi.ts:29-99 | a track that sets tempo 07 A1 20 and ends has tempo 500000 and duration 0 |
| Midi.ParseFileHeader | midi.ts:18-27 | the header decoder computes `HeaderSpec` |
| Midi.ParseNextTrack | midi.ts:10-13 | one turn of the file loop either fails as the rest of the loop fails, or yields the track the loop appends before going on from the new position |
| Midi.ParseTracks | midi.ts:10-13 | the file loop computes `TracksFrom` from the position after the header chunk |
| Midi.ParseMidi | midi.ts:4-16 | the file decoder computes `MidiSpec` |
| Midi.HeaderFields | midi.ts:18-26 | a first chunk whose id is not MThd fails; an MThd chunk decodes exactly when its payload holds six bytes, and its fields are the three big-endian pairs in order |
| Midi.HeaderRoundTrip | midi.ts:21-26 | writing three 16-bit fields big-endian into an MThd payload and decoding gives them back |
| Midi.HeaderIdBytes | midi.ts:19 | a chunk with id MThd starts with the bytes 4D 54 68 64 |
| Midi.FileStartsWithHeaderId | midi.ts:4-16 | a file decodes only if it starts with the bytes 4D 54 68 64 |
| Midi.FileHeaderChecked | midi.ts:7 | a file shorter than eight bytes fails with a range error, and one whose first chunk id is not MThd fails with the header error |
| Midi.TracksFromCases | midi.ts:10-13 | the loop ends at the end of the buffer with the tracks so far, or at the first chunk that does not frame or decode, with that error |
| Midi.TracksFromStep | midi.ts:10-13 | a chunk that frames and decodes is appended and the loop goes on after it |
| Midi.TrackIdChecked | midi.ts:30 | a later chunk whose id is not MTrk fails the file with the track-header error |
| Midi.ChunkAtFromTail | parser.ts:99-104 | framing a chunk reads only bytes from its position on |
| Midi.TracksFromTail | midi.ts:10-13 | the tracks from a position on depend only on the bytes from there on |
| Midi.HeaderSizeBound | midi.ts:21-24 | a header that decodes declares at least six payload bytes, so the first track chunk starts no earlier than byte 14 |
| Midi.TrackAmountHeader | midi.ts:23 | rewriting the track-count bytes changes only the decoded header's trackAmount, or leaves its error as it was |
| Midi.TrackAmountIgnoredBy | midi.ts:10-13 | for any track decoder, rewriting the track-count bytes changes only header.trackAmount and the same tracks or the same error come out |
| Midi.TrackAmountIgnored | midi.ts:10-13 | tracks are read until the buffer ends, whatever the header's track count says |
| Midi.TracksFromDecoded | midi.ts:10-13 | the file loop only appends what the track decoder returns: tracks already read stay in front, and if the decoder's tracks all have the track properties, so does every track of the result |
| Midi.TrackSpecDecoded | midi.ts:29-99 | every track the track decoder returns has id MTrk, duration = sum of deltas, prefix-sum absolute times and its last tempo |
| Midi.FileTracksDecoded | midi.ts:4-16 | every track of a decoded file has those properties |
| Midi.TempoFileHeaderChunk | midi.ts:7 | the file example's first chunk frames as MThd with six payload bytes |
| Midi.TempoFileHeaderFields | midi.ts:18-26 | the example header decodes to format 0, one track, 96 ticks per quarter note |
| Midi.TempoFileTrackChunk | midi.ts:11 | the example's second chunk, right after the header, frames as MTrk with eleven payload bytes |
| Midi.TempoFileExample | midi.ts:4-16 | a file of that header and a track setting tempo 500000 decodes to the header and one track of tempo 500000 and duration 0 |

## Left out

- Events.NormalizedBendRange: `normalize` divides in IEEE floating point, and the model divides exactly over the reals. The two agree: `raw - 8192` is an integer below 2^15 in magnitude, and dividing it by 8192 = 2^13 is exact in binary64, so no rounding happens.
- Events.PitchBend: its `bend` is `NormalizedBend((msb << 7) \| lsb)` as an exact real, and the original's `value` is the same quotient as a double, which is exact as well. The field is named `bend` because `MidiController` already has an integer field `value`.
- Events.ChannelPrefix: its field is named `prefix`, where the original's `MetaChannelPrefixEvent` calls it `channel`. The channel-voice variants already have a field `channel` of type `Nibble`, and the prefix byte is an `Option<Byte>`.
- Parser.BytesParser.ParseVLQ: the accumulator is unbounded. The original's `(output << 7) | …` wraps at 32 bits for quantities longer than four bytes. `Vlq.Int32DecodeExact` proves the two agree up to four bytes, and `Vlq.Int32DecodeWraps` shows where they part. A wrapped quantity can be negative in the original. A negative delta makes `absoluteTime` go down, and a negative sysex or meta length moves the cursor backwards, so the loop may not end. `Track.Step` (the position moves forward), `Track.AbsoluteTimesOrdered` and `Track.TrackTiming` therefore hold for the original only when every quantity has at most four bytes.
- Parser.BytesParser.DecPos: requires `amount <= pos`, because the position is a natural number. Its only caller rewinds one byte right after a successful one-byte read.
- `u8ArrFromArrayBuffer` (midi.ts:388) is never called and is not part of this model.
- `types.d.ts` holds only type declarations. Its record shapes are the datatypes `Chunk`, `Events.EventBody`, `Events.Event`, `Track.Track`, `Midi.MidiHeader` and `Midi.MidiFile`. Field names are the original's except two: the pitch bend's `value` is `bend`, and the channel prefix's `channel` is `prefix` (see `Events.PitchBend` and `Events.ChannelPrefix` above). The record's `type` string is the variant of `Events.EventBody`, and the seven text types are one variant `MetaText` with a `TextKind`. Each event's `deltaTime` and `absoluteTime` sit in `Events.Event` around its body.
- Error message texts are not modelled. Each `throw` and each `DataView` range error becomes an `Err` carrying only its kind.
- `ArrayBuffer`, `DataView` and `Uint8Array` mechanics are not modelled: the buffer is a `seq<Byte>` and a slice is a subsequence.
- The bit operators `>>`, `&`, `<<` and `|` on bytes are written as division, remainder, multiplication and addition. This is exact because the operands never overlap; `PitchBendValue` writes out the one case where they do.
- JavaScript numbers are doubles. Delta and absolute times are unbounded here, so precision loss above 2^53 is not modelled.
- The `throw` of `parseSysexEvent` for other markers (midi.ts:339) is modelled by `Events.ParseSysexEvent`, but the track loop never reaches it: it passes only F0 and F7.
- `Events.ParseMidiEvent` keeps the original's null checks on the second data byte (midi.ts:244 and on). The track loop always reads that byte when the type needs it, so `MissingDataByte` cannot come out of a track.
- The `p1 === null` throw of `parseMidiEvent` (midi.ts:240) is not modelled: `p1` is a `Byte`, not an optional one. The track loop reads the first data byte (midi.ts:82) before it calls `parseMidiEvent`, and that read either gives a byte or fails first, so `p1` is never null.
- Each loop body is split into helper methods with their own contracts, with the same reads in the same order:
  - `Track.ParseEvent` and the methods it calls, for the `parseTrack` loop;
  - `Midi.ParseNextTrack`, for the `parseMidi` loop.
- Track.ParseEvent: receives the loop's carried variables as one `TrackState` value, instead of the separate local variables of `parseTrack`.
- Fields that meta events read by index from a payload cut short by the end of the buffer are `undefined` in JavaScript and `None` here. `parseU24` treats them as 0, as `undefined << n` does.
