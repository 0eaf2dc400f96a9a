# midi-svg-converter in Dafny

A model, with proofs, of the Standard MIDI File decoder of
midi-svg-converter (the `MIDIParser` class), of the note-gathering step of its
SVG renderer (`SVGGenerator.processNotes`, the empty-drawing guard in
`generate` and the time-scale branch of `calculateScales`), and of the
note-name helper of its user interface (`App.getNoteNameFromMIDI`).

The decoder reads a byte buffer: it checks the `MThd` tag, skips the 14
header bytes, and walks the `MTrk` chunks. Each chunk has a big-endian 32-bit
length, and its body is a stream of events. Each event is a variable-length
delta-time and a status byte. Channel events are decoded with running status.
Meta and system-exclusive events are skipped. Every channel event is pushed
with its status, the position after it and the accumulated time. Only a
note-on of positive velocity carries a note and a velocity.

The renderer keeps the events that carry a note from every track and sorts
them stably by time. When there are none it computes no scale and draws no
grid and no note, only the background. Otherwise it scales time by the last
(largest) time, or by 1 when that time is 0.

Files, one module each:

- `wrappers.dfy` (`Wrappers`): `Option` and `Result`.
- `midi_bytes.dfy` (`MidiBytes`): byte reads, ToInt32, the tag checks, `read32BitValue`.
- `variable_length.dfy` (`VariableLength`): `readVariableLengthValue`.
- `midi_events.dfy` (`MidiEvents`): `parseMidiEvent`, `skipMetaEvent`, `skipSysexEvent`, one iteration of the track loop.
- `midi_track.dfy` (`MidiTrack`): `parseTrackEvents`.
- `midi_parser.dfy` (`MidiParser`): `parse`, `parseTracks`.
- `svg_generator.dfy` (`SvgGenerator`): `processNotes`, `generate`, `calculateScales`, the vertical offset.
- `note_names.dfy` (`NoteNames`): `getNoteNameFromMIDI`.

Each loop of the source is a method with a `while` loop. The loops are
`parseTracks`, `parseTrackEvents`, `readVariableLengthValue` and the nested
`forEach` loops of `processNotes`. Each is proved equal to a recursive
function, and the properties are lemmas about those functions. The
straight-line helpers (`parseMidiEvent`, the two skips, `parse`) are methods
too, each equal to its function.

How JavaScript values are modelled:

- The buffer is a `seq<Byte>`.
- A read `midiArray[i]` is an `Option<Byte>`, where `None` is `undefined` and is also returned for a negative index.
- In bitwise operations `undefined` counts as 0. Comparisons with it (`=== 0xFF`, `< 0x80`) are false.
- A status that may be `null` or `undefined` is an `Option<Byte>`, and `null & 0xF0` is 0.
- The signed 32-bit `<<` is written out as ToInt32 (`Int32`), and `>>> 0` as a reduction modulo 2^32.
- A thrown `Error` is a `Failure` of a `Result`.

Behaviours of the code that a reader of the Standard MIDI File format might
not expect, all modelled as written:

- A data byte in status position before any status byte is accepted. The event is read with no status, as two data bytes, and pushed (`RunningStatusWithoutStatusExample`).
- A note-on of velocity 0 and a note-off are pushed, without a note. The test `if (event)` is always true. The renderer drops such events because they have no note.
- Meta and system-exclusive events skip as many bytes as the low seven bits of the last length byte say, not the decoded length (`SkipMetaWellFormed`, `SkipSysexWellFormed`, `LongMetaLengthIsTruncated`).
- Nothing checks reads against the end of the chunk. The walk simply resumes at the chunk's end.
- The time scale of 1 is chosen exactly when `maxTime` is 0 (falsy); a negative `maxTime` is used as it is.
- `parse` throws only two errors: a missing `MThd` and a missing `MTrk`. A truncated file is read with missing bytes as `undefined`.

## Model

| member | source | states |
|---|---|---|
| MidiBytes.Low7 | js/midiParser.js:89 | `byte & 0x7F` is below 128, is the byte itself for a byte below 0x80, and is 0 for `undefined` |
| MidiBytes.Int32 | js/midiParser.js:48 | ToInt32 lands in the signed 32-bit range and leaves values already there unchanged |
| MidiBytes.Int32Congruent | js/midiParser.js:48 | ToInt32 preserves the value modulo 2^32 |
| MidiBytes.Slice | js/midiParser.js:17 | `slice` is the in-range part, and is short only when it runs past the end |
| MidiBytes.SliceSpells | js/midiParser.js:16-18 | the sliced string equals a four-letter tag exactly when the four bytes are present and spell it |
| MidiBytes.ValidateHeader | js/midiParser.js:16-18 | true exactly when the buffer has at least 4 bytes and they are `M`,`T`,`h`,`d` |
| MidiBytes.ValidateTrackHeader | js/midiParser.js:42-44 | true exactly when the 4 bytes at the position exist and are `M`,`T`,`r`,`k` |
| MidiBytes.Read32BitValue | js/midiParser.js:46-53 | the result is `b0*2^24 + b1*2^16 + b2*2^8 + b3`, unsigned and below 2^32, with missing bytes read as 0 |
| MidiBytes.Read32RoundTrip | js/midiParser.js:46-53 | reading the four big-endian bytes of any unsigned 32-bit value gives that value back |
| VariableLength.ShiftIn | js/midiParser.js:89 | shifting in a byte (`value << 7` OR-ed with `byte & 0x7F`) is ToInt32 of `value*128 + low7`, and is exactly that sum while `value` is below 2^24 |
| VariableLength.VlqFrom | js/midiParser.js:87-90 | reading always consumes at least one position |
| VariableLength.ReadVariableLengthValue | js/midiParser.js:84-92 | the do-while loop returns the value and the position after the quantity, as `Vlq` defines them |
| VariableLength.VlqOneByte | js/midiParser.js:87-90 | a byte below 0x80 is a whole quantity by itself |
| VariableLength.VlqShape | js/midiParser.js:87-90 | every byte read but the last has its high bit set, and the last does not (or is missing) |
| VariableLength.VlqPastEnd | js/midiParser.js:88-91 | a read outside the buffer gives 0 and consumes one position |
| VariableLength.VlqFromAgree | js/midiParser.js:84-92 | a quantity depends only on the bytes from its start on, and ends as far from its start in any buffer that agrees there |
| VariableLength.VlqFromPrefix | js/midiParser.js:84-92 | a quantity that ends inside a prefix reads the same whatever follows |
| VariableLength.Base128 | js/midiParser.js:89 | the base-128 number of k groups is below 128^k |
| VariableLength.VlqWellFormed | js/midiParser.js:84-92 | a well-formed 1 to 4 byte quantity is the base-128 number of its groups, below 2^28, and the new position is exactly past it |
| VariableLength.VlqShortIsNonNegative | js/midiParser.js:89 | any quantity ending within four positions is in 0..2^28-1, so no 32-bit wrap-around occurs |
| VariableLength.LeadingGroupsDigits | js/midiParser.js:89-90 | the continuation groups of `m` all have the high bit set and spell `m` in base 128 |
| VariableLength.EncodeVlq | js/midiParser.js:84-92 | the encoding of a value below 2^28 is 1 to 4 bytes, well formed, and spells the value |
| VariableLength.VlqRoundTrip | js/midiParser.js:84-92 | decoding the encoding of any value below 2^28, wherever it sits, gives the value back and consumes exactly its bytes |
| VariableLength.VlqBoundaryEncodings | js/midiParser.js:84-92 | 0, 127, 128, 16383, 16384 and 2^28-1 encode to `00`, `7F`, `81 00`, `FF 7F`, `81 80 00`, `FF FF FF 7F` |
| VariableLength.VlqBoundaryDecodings | js/midiParser.js:84-92 | those byte strings decode to those values, consuming all their bytes |
| MidiEvents.HighNibble | js/midiParser.js:111 | `eventType & 0xF0` is a multiple of 16 no greater than the status and within 16 of it, and is 0 for `null` or `undefined` |
| MidiEvents.VoiceAt | js/midiParser.js:111-122 | the event keeps its status and ends after its data bytes; it carries a note exactly for high nibble 0x90 with a present positive velocity, and the note and velocity are the two data bytes |
| MidiEvents.DecodeVoice | js/midiParser.js:105-123 | a status byte below 0x80 rewinds one position and takes the previous status; the result carries a note only for a 0x90 event of velocity at least 1 |
| MidiEvents.ParseMidiEvent | js/midiParser.js:105-123 | the step-by-step cursor updates give exactly `DecodeVoice` |
| MidiEvents.SkipMeta | js/midiParser.js:94-98 | the skip ends 0 to 127 positions after the length quantity, and after exactly L data bytes for a one-byte length L |
| MidiEvents.SkipMetaEvent | js/midiParser.js:94-98 | the method returns `SkipMeta` |
| MidiEvents.SkipSysex | js/midiParser.js:100-103 | as SkipMeta, with no type byte |
| MidiEvents.SkipMetaWellFormed | js/midiParser.js:94-98 | for any well-formed length of 1 to 4 bytes, the length decodes to its base-128 value, yet the skip ends exactly as many positions after it as the low seven bits of its last byte say |
| MidiEvents.SkipSysexWellFormed | js/midiParser.js:100-103 | the same for a system-exclusive event, whose length follows the status byte |
| MidiEvents.SkipSysexEvent | js/midiParser.js:100-103 | the method returns `SkipSysex` |
| MidiEvents.LongMetaLengthIsTruncated | js/midiParser.js:97 | the length `81 00` decodes to 128, but the skip covers no data bytes |
| MidiEvents.StepAt | js/midiParser.js:61-78 | every iteration of the track loop advances the cursor by at least two positions |
| MidiEvents.StepFacts | js/midiParser.js:62-78 | an iteration adds the delta-time; meta and sysex events push nothing and keep the running status; a channel event is pushed, becomes the running status, and the walk resumes where it ends |
| MidiEvents.VoiceAgree | js/midiParser.js:105-123 | a channel event read where two buffers agree is the same event, its end moved by the shift |
| MidiEvents.SkipMetaAgree | js/midiParser.js:94-98 | a meta skip read where two buffers agree ends at the same distance |
| MidiEvents.SkipSysexAgree | js/midiParser.js:100-103 | a sysex skip read where two buffers agree ends at the same distance |
| MidiEvents.StepAgree | js/midiParser.js:61-78 | an iteration read where two buffers agree decodes the same event and status, with positions shifted |
| MidiTrack.ParseTrackEvents | js/midiParser.js:55-82 | the loop over cursor, time and running status returns `TrackEvents`, the events of the recursive walk |
| MidiTrack.LoopSkip | js/midiParser.js:67-70 | a meta or sysex iteration keeps the loop invariant without pushing |
| MidiTrack.LoopVoice | js/midiParser.js:71-78 | a channel iteration keeps the loop invariant after pushing the event stamped with the new time |
| MidiTrack.TrackFromIsTimedWalk | js/midiParser.js:61-78 | the pushed events are the events of the iterations, stamped with the time accumulated so far |
| MidiTrack.TimedIsPrefixSums | js/midiParser.js:57-64 | stamping by running accumulation equals stamping each event with the sum of the delta-times up to its own |
| MidiTrack.TrackTimesArePrefixSums | js/midiParser.js:57-75 | the time of each pushed event is the sum of all delta-times read in the track so far, from 0 |
| MidiTrack.TimedNondecreasing | js/midiParser.js:64-74 | with non-negative delta-times, stamped times never decrease and never drop below the start |
| MidiTrack.TrackTimesNondecreasing | js/midiParser.js:57-75 | within a track whose delta-times are non-negative, times start at 0 or later and never decrease |
| MidiTrack.ShortDeltasNonNegative | js/midiParser.js:57-64 | when every delta-time of a walk is at most four bytes long, every delta-time it reads is non-negative |
| MidiTrack.TrackShortDeltasNondecreasing | js/midiParser.js:57-75 | within a track whose delta-times are each at most four bytes long, times start at 0 or later and never decrease |
| MidiTrack.TrackFromNotesSound | js/midiParser.js:105-123 | every pushed event with a note has high nibble 0x90 and velocity at least 1 |
| MidiTrack.TrackNotesSound | js/midiParser.js:105-123 | the same for a whole track |
| MidiTrack.PushedMoved | js/midiParser.js:74 | an iteration found d positions later pushes the same event with its position moved |
| MidiTrack.WalkAgree | js/midiParser.js:61-78 | where two buffers agree from the loop's start on, the iterations are the same with positions shifted |
| MidiTrack.TimedMoved | js/midiParser.js:64-74 | shifted iterations push the same events, at the same times, with positions shifted |
| MidiTrack.TrackFromAgree | js/midiParser.js:55-82 | the events of a track depend only on the bytes from its start on; placed elsewhere, it gives the same events with positions shifted |
| MidiTrack.RunningStatusStep | js/midiParser.js:55-112 | an event with its status left out decodes like the same event with its status written out, one position earlier, and leaves the same running status |
| MidiTrack.RunningStatusOmission | js/midiParser.js:55-112 | from the event whose repeated status byte is omitted on, the walk gives the same events, statuses, notes, velocities and times; only the recorded positions move back by one |
| MidiTrack.RunningStatusExample | js/midiParser.js:55-123 | `00 90 3C 64 0A 3C 00` and `00 90 3C 64 0A 90 3C 00` both give a note-on of 60 at time 0 and a note-less 0x90 event at time 10 |
| MidiTrack.RunningStatusWithoutStatusExample | js/midiParser.js:105-122 | `00 3C 64` with no prior status pushes one event with no status and no note, after two data bytes |
| MidiParser.ChunkEnd | js/midiParser.js:28-36 | a chunk ends at least 8 positions after its start |
| MidiParser.ParseTracks | js/midiParser.js:20-40 | the loop over chunks returns `DecodeTracks`, the outcome of the recursive walk |
| MidiParser.TracksLoop | js/midiParser.js:28-36 | one chunk keeps the loop invariant: its events are appended and the walk resumes at the chunk end |
| MidiParser.Parse | js/midiParser.js:2-14 | `parse` returns `Decode`: the header check, then the chunk walk from position 14 |
| MidiParser.ChunkStartsChain | js/midiParser.js:23-37 | the walk visits positions starting at the first, each the end of the previous chunk, all inside the buffer, with the last chunk reaching the end |
| MidiParser.DecodeTracksByChunks | js/midiParser.js:20-40 | the walk succeeds exactly when every visited position holds `MTrk`, and then yields one list per chunk, in order, holding the events between that chunk's length field and its end |
| MidiParser.DecodeTracksError | js/midiParser.js:24-26 | the only error the walk throws is the track-header error |
| MidiParser.DecodeHeaderError | js/midiParser.js:6-26 | `parse` throws the header error exactly when the file does not start with `MThd`, and otherwise only the track-header error |
| MidiParser.HeaderOnlyHasNoTracks | js/midiParser.js:10-23 | a valid header of at most 14 bytes gives no tracks |
| MidiParser.ChunkFraming | js/midiParser.js:28-36 | a chunk written as `MTrk` plus the big-endian length n is accepted and ends exactly n bytes after its length field |
| MidiParser.TrackEventsAgree | js/midiParser.js:55-82 | a track's events depend only on the bytes from its body's start on |
| MidiParser.DecodeTracksAgree | js/midiParser.js:20-40 | buffers of the same length that agree from a position on give the same result for the walk from there |
| MidiParser.HeaderFieldsIgnored | js/midiParser.js:10-11 | changing header bytes 4 to 13 (length, format, track count, division) never changes the result |
| MidiParser.LastChunk | js/midiParser.js:23-39 | a chunk that reaches the end of the data is the last track |
| MidiParser.OneTrackBody | js/midiParser.js:55-82 | the example's body `00 90 3C 64 0A 80 3C 40` gives a note-on of 60 at velocity 100 at time 0, then a note-less 0x80 event at time 10 |
| MidiParser.OneTrackExample | js/midiParser.js:2-40 | `MThd`, 10 header bytes, `MTrk`, length 8 and that body give exactly one track with those two events |
| SvgGenerator.FlattenMembers | js/svgGenerator.js:52-53 | an event is in the flattened list exactly when some track holds it |
| SvgGenerator.SoundingCounts | js/svgGenerator.js:54-56 | the filter keeps each event with a note as often as it occurs and drops every other event |
| SvgGenerator.SoundingAppend | js/svgGenerator.js:52-58 | filtering a concatenation is concatenating the filtered parts, so order is kept |
| SvgGenerator.InsertByTime | js/svgGenerator.js:59 | inserting adds exactly one element |
| SvgGenerator.InsertSorted | js/svgGenerator.js:59 | inserting into a sorted list keeps it sorted |
| SvgGenerator.InsertPermutes | js/svgGenerator.js:59 | inserting adds exactly the inserted element |
| SvgGenerator.InsertAtTime | js/svgGenerator.js:59 | an inserted event goes before every event of its own time, and other times are untouched |
| SvgGenerator.SortByTimeSorts | js/svgGenerator.js:59 | the sort orders by ascending time and is a permutation |
| SvgGenerator.SortByTimeStable | js/svgGenerator.js:59 | the sort is stable: the events of each time keep their order |
| SvgGenerator.AtTimeBelowFirst | js/svgGenerator.js:59 | a sorted list has no events at times below its first |
| SvgGenerator.SortedUnique | js/svgGenerator.js:59 | two sorted lists with the same events of each time, in the same order, are equal |
| SvgGenerator.StableSortIsUnique | js/svgGenerator.js:59 | any sorted list whose events of each time are in input order is the sort's result, so the sort is the stable sort `Array.prototype.sort` must be |
| SvgGenerator.ProcessNotes | js/svgGenerator.js:50-60 | the nested loops and the sort return the sorted filtered events, which are sorted, a permutation of the events with a note, and in flattening order within each time |
| SvgGenerator.ProcessedNotesMembers | js/svgGenerator.js:50-58 | the notes are exactly the events with a note from any track, each as often as in the tracks |
| SvgGenerator.MaxTime | js/svgGenerator.js:63 | the maximum time is the time of some event and at least every event's time |
| SvgGenerator.CalculateScalesUsesMaximum | js/svgGenerator.js:62-65 | `CalculateScales` models `calculateScales`; on sorted notes the last time is the maximum; the unit scale is taken exactly when it is 0, and otherwise the width scale uses it |
| SvgGenerator.GenerateGuard | js/svgGenerator.js:33-39 | `Generate` models the guard of `generate`: it computes no scale and draws no grid and no note (only the background) exactly when no track has an event with a note; otherwise the unit scale is used exactly when the largest note time is 0 |
| SvgGenerator.VerticalOffset | js/svgGenerator.js:107 | `127 - note` lies in 0..127 for notes up to 127, and adding the note gives 127 |
| SvgGenerator.VerticalOffsetOrder | js/svgGenerator.js:107 | a higher note has a strictly smaller offset (is drawn higher), and the reverse |
| NoteNames.Octave | js/app.js:83 | the octave o satisfies `12(o+1) <= n < 12(o+2)` (floor division), is at least -1, and is at most 9 for n up to 127 |
| NoteNames.Digits | js/app.js:85 | the decimal rendering is a non-empty string of digits |
| NoteNames.Decimal | js/app.js:85 | the rendering of an integer starts with a minus sign or a digit |
| NoteNames.DigitsRoundTrip | js/app.js:85 | the digits of n read back as n |
| NoteNames.DecimalRoundTrip | js/app.js:85 | the rendering of any integer reads back as that integer |
| NoteNames.PitchIndex | js/app.js:82 | a recognised pitch name is the table entry at the index it returns |
| NoteNames.PitchIndexOfTable | js/app.js:82 | every table entry is found at its own index, so the twelve names are distinct |
| NoteNames.NoteNameRoundTrip | js/app.js:81-86 | `NoteName` models `getNoteNameFromMIDI`; the name of any note reads back as that note: pitch class `notes[n % 12]` then the octave `floor(n/12) - 1` |
| NoteNames.NoteNamesDistinct | js/app.js:81-86 | different notes have different names |
| NoteNames.OctaveUp | js/app.js:83-84 | n + 12 has the pitch class of n and an octave one higher |
| NoteNames.NoteNameExamples | js/app.js:81-86 | 60 is `C4`, 69 is `A4`, 0 is `C-1` and 127 is `G9` |

## Left out

- The user interface of `js/app.js` is not modelled: element lookup, listeners, the tooltip, the `FileReader` promise (asynchronous I/O) and the download. `getNoteNameFromMIDI` is the only part modelled.
- The DOM output of `js/svgGenerator.js` is not modelled: the elements, attributes, style, background and grid loops. `Generate` models only whether scales are computed and which time-scale branch is taken.
- Floating-point values are not modelled: the width-based time scale, `noteScale`, the x and y coordinates and the opacity `velocity / 127`. Only the integer factor `127 - note` is modelled.
- The header fields (format, track count, time division) are never read by the source, so they have no model. `HeaderFieldsIgnored` proves they do not matter.
- NoteNames.NoteName: only note numbers of 0 or more are modelled. The source passes `parseInt` of an attribute that always holds a byte, so a negative or non-integer argument cannot arise.
- SvgGenerator.SortByTime: `Array.prototype.sort` is a library call. It is modelled by what ECMAScript guarantees (a stable sort by the comparator's sign), as an insertion sort on values, not as an in-place algorithm. The comparator `a.time - b.time` is exact for integer times below 2^53. Precision loss for larger times is not modelled.
- SvgGenerator.ProcessNotes: the source accumulates into an array and sorts it in place. The model reassigns a `seq`, so aliasing of that array is not modelled.
- MidiTrack.TrackTimesNondecreasing: this needs non-negative delta-times as a precondition. A delta-time longer than four bytes wraps around in 32-bit arithmetic and can be negative. `ShortDeltasNonNegative` derives the precondition from every delta-time being at most four bytes long, and `TrackShortDeltasNondecreasing` states the result under that condition.
- VariableLength.VlqWellFormed: properties of quantities are proved for up to four bytes. Longer quantities are modelled, including the wrap-around. Their shape, their progress and their independence from position and from what follows are proved, but no property of their value is.
- The source's times are JavaScript numbers. The model uses unbounded integers, which agree with them for sums below 2^53.
