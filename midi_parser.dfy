/**
 * `MIDIParser.parse` and `parseTracks`: the header check, the fixed skip of
 * the 14 header bytes, and the walk over the track chunks, each an `MTrk`
 * tag, a big-endian 32-bit length and a body handed to the track loop.
 */
module MidiParser {
  import opened Wrappers
  import opened MidiBytes
  import opened MidiEvents
  import opened VariableLength
  import opened MidiTrack

  /** The two errors `parse` throws. */
  datatype ParseError = InvalidHeader | InvalidTrackHeader

  type Tracks = seq<seq<MidiEvent>>

  /** Bytes before the first track chunk: the `MThd` tag, its length field and the six bytes it announces. */
  const HEADER_SIZE: nat := 14

  /** Where the chunk starting at `p` ends: after its tag, its length field and as many bytes as the length says. */
  function ChunkEnd(buf: seq<Byte>, p: nat): (end: nat)
    ensures end >= p + 8
  {
    p + 8 + Read32BitValue(buf, p + 4)
  }

  /** The tracks `tracks`, put in front of the outcome `r` of the rest of the walk. */
  function Prepend(tracks: Tracks, r: Result<Tracks, ParseError>): Result<Tracks, ParseError>
  {
    match r
    case Failure(e) => Failure(e)
    case Success(rest) => Success(tracks + rest)
  }

  /** The tracks `parseTracks` returns from position `p` on, or the error it throws. */
  function DecodeTracks(buf: seq<Byte>, p: nat): Result<Tracks, ParseError>
    decreases |buf| - p
  {
    if p >= |buf| then Success([])
    else if !ValidateTrackHeader(buf, p) then Failure(InvalidTrackHeader)
    else
      var end := ChunkEnd(buf, p);
      Prepend([TrackEvents(buf, p + 8, end)], DecodeTracks(buf, end))
  }

  /** What `parse` returns, or the error it throws. */
  function Decode(buf: seq<Byte>): Result<Tracks, ParseError>
  {
    if !ValidateHeader(buf) then Failure(InvalidHeader) else DecodeTracks(buf, HEADER_SIZE)
  }

  // ---------------------------------------------------------------------
  // The loops

  lemma PrependPrepend(tracks: Tracks, more: Tracks, r: Result<Tracks, ParseError>)
    ensures Prepend(tracks, Prepend(more, r)) == Prepend(tracks + more, r)
  {
    if r.Success? {
      assert tracks + (more + r.value) == (tracks + more) + r.value;
    }
  }

  lemma PrependNothing(r: Result<Tracks, ParseError>)
    ensures Prepend([], r) == r
  {
    if r.Success? {
      assert [] + r.value == r.value;
    }
  }

  /** One chunk: its events are pushed and the walk resumes at its end. */
  lemma TracksLoop(tracks: Tracks, total: Result<Tracks, ParseError>, buf: seq<Byte>, p: nat,
                   end: nat, events: seq<MidiEvent>)
    requires Prepend(tracks, DecodeTracks(buf, p)) == total
    requires p < |buf| && ValidateTrackHeader(buf, p)
    requires end == ChunkEnd(buf, p) && events == TrackEvents(buf, p + 8, end)
    ensures Prepend(tracks + [events], DecodeTracks(buf, end)) == total
  {
    PrependPrepend(tracks, [events], DecodeTracks(buf, end));
  }

  method ParseTracks(buf: seq<Byte>, startPointer: nat) returns (r: Result<Tracks, ParseError>)
    ensures r == DecodeTracks(buf, startPointer)
  {
    var tracks: Tracks := [];
    var pointer := startPointer;
    PrependNothing(DecodeTracks(buf, startPointer));
    while pointer < |buf|
      invariant Prepend(tracks, DecodeTracks(buf, pointer)) == DecodeTracks(buf, startPointer)
      decreases |buf| - pointer
    {
      if !ValidateTrackHeader(buf, pointer) {
        return Failure(InvalidTrackHeader);
      }
      ghost var chunkStart := pointer;
      pointer := pointer + 4;
      var trackLength := Read32BitValue(buf, pointer);
      pointer := pointer + 4;
      var trackEnd := pointer + trackLength;
      var events := ParseTrackEvents(buf, pointer, trackEnd);
      TracksLoop(tracks, DecodeTracks(buf, startPointer), buf, chunkStart, trackEnd, events);
      tracks := tracks + [events];
      pointer := trackEnd;
    }
    assert tracks + [] == tracks;
    return Success(tracks);
  }

  method Parse(buf: seq<Byte>) returns (r: Result<Tracks, ParseError>)
    ensures r == Decode(buf)
  {
    if !ValidateHeader(buf) {
      return Failure(InvalidHeader);
    }
    var pointer := 0;
    pointer := pointer + 8;
    pointer := pointer + 6;
    r := ParseTracks(buf, pointer);
  }

  // ---------------------------------------------------------------------
  // Properties of the walk over the chunks

  /** The positions where the walk from `p` expects a chunk: each one the end of the one before, all below the buffer's length. */
  function ChunkStarts(buf: seq<Byte>, p: nat): (starts: seq<nat>)
    decreases |buf| - p
  {
    if p >= |buf| then [] else [p] + ChunkStarts(buf, ChunkEnd(buf, p))
  }

  /** `ChunkStarts` is the chain that begins at `p`, steps by `ChunkEnd` and stops at the first position past the data. */
  lemma {:induction false} ChunkStartsChain(buf: seq<Byte>, p: nat)
    ensures var starts := ChunkStarts(buf, p);
      (starts == [] <==> p >= |buf|)
      && (starts != [] ==> starts[0] == p && ChunkEnd(buf, starts[|starts| - 1]) >= |buf|)
      && (forall i :: 0 <= i < |starts| ==> p <= starts[i] < |buf|)
      && (forall i :: 0 <= i < |starts| - 1 ==> starts[i + 1] == ChunkEnd(buf, starts[i]))
    decreases |buf| - p
  {
    if p < |buf| {
      var rest := ChunkStarts(buf, ChunkEnd(buf, p));
      ChunkStartsChain(buf, ChunkEnd(buf, p));
      assert ChunkStarts(buf, p) == [p] + rest;
      forall i | 0 <= i < |rest| ensures ([p] + rest)[i + 1] == rest[i] { }
    }
  }

  /** Every expected chunk start carries the `MTrk` tag. */
  predicate AllTagged(buf: seq<Byte>, starts: seq<nat>)
  {
    forall i :: 0 <= i < |starts| ==> ValidateTrackHeader(buf, starts[i])
  }

  /** The events of the chunks at `starts`, one list per chunk. */
  function TracksAt(buf: seq<Byte>, starts: seq<nat>): (tracks: Tracks)
    ensures |tracks| == |starts|
  {
    seq(|starts|, i requires 0 <= i < |starts| => TrackEvents(buf, starts[i] + 8, ChunkEnd(buf, starts[i])))
  }

  lemma AllTaggedCons(buf: seq<Byte>, p: nat, rest: seq<nat>)
    ensures AllTagged(buf, [p] + rest) <==> ValidateTrackHeader(buf, p) && AllTagged(buf, rest)
  {
    if ValidateTrackHeader(buf, p) && AllTagged(buf, rest) {
      AllTaggedPrepend(buf, p, rest);
    }
    if AllTagged(buf, [p] + rest) {
      AllTaggedSplit(buf, p, rest);
    }
  }

  lemma AllTaggedPrepend(buf: seq<Byte>, p: nat, rest: seq<nat>)
    requires ValidateTrackHeader(buf, p) && AllTagged(buf, rest)
    ensures AllTagged(buf, [p] + rest)
  {
    forall i | 0 <= i < |rest| + 1 ensures ValidateTrackHeader(buf, ([p] + rest)[i]) {
      if i > 0 {
        assert ([p] + rest)[i] == rest[i - 1];
      }
    }
  }

  lemma AllTaggedSplit(buf: seq<Byte>, p: nat, rest: seq<nat>)
    requires AllTagged(buf, [p] + rest)
    ensures ValidateTrackHeader(buf, p) && AllTagged(buf, rest)
  {
    assert ([p] + rest)[0] == p;
    forall i | 0 <= i < |rest| ensures ValidateTrackHeader(buf, rest[i]) {
      assert ([p] + rest)[i + 1] == rest[i];
    }
  }

  lemma TracksAtCons(buf: seq<Byte>, p: nat, rest: seq<nat>)
    ensures TracksAt(buf, [p] + rest) == [TrackEvents(buf, p + 8, ChunkEnd(buf, p))] + TracksAt(buf, rest)
  {
    var all := [p] + rest;
    forall i | 0 <= i < |rest| ensures TracksAt(buf, all)[i + 1] == TracksAt(buf, rest)[i] {
      assert all[i + 1] == rest[i];
    }
  }

  /**
   * `parseTracks` from `p` succeeds exactly when every chunk start of the
   * chain carries the `MTrk` tag, and then returns one track per chunk,
   * holding the events between the chunk's length field and its end.
   */
  lemma {:induction false} DecodeTracksByChunks(buf: seq<Byte>, p: nat)
    ensures DecodeTracks(buf, p).Success? <==> AllTagged(buf, ChunkStarts(buf, p))
    ensures DecodeTracks(buf, p).Success? ==> DecodeTracks(buf, p).value == TracksAt(buf, ChunkStarts(buf, p))
    decreases |buf| - p
  {
    if p < |buf| {
      var end := ChunkEnd(buf, p);
      var rest := ChunkStarts(buf, end);
      assert ChunkStarts(buf, p) == [p] + rest;
      AllTaggedCons(buf, p, rest);
      TracksAtCons(buf, p, rest);
      DecodeTracksByChunks(buf, end);
    }
  }

  /** The only error the chunk walk throws is the track-header error. */
  lemma {:induction false} DecodeTracksError(buf: seq<Byte>, p: nat)
    ensures DecodeTracks(buf, p).Failure? ==> DecodeTracks(buf, p).error == InvalidTrackHeader
    decreases |buf| - p
  {
    if p < |buf| && ValidateTrackHeader(buf, p) {
      DecodeTracksError(buf, ChunkEnd(buf, p));
    }
  }

  /** `parse` throws the header error exactly when the file does not begin with `MThd`. */
  lemma DecodeHeaderError(buf: seq<Byte>)
    ensures Decode(buf) == Failure(InvalidHeader) <==> !ValidateHeader(buf)
    ensures Decode(buf).Failure? && ValidateHeader(buf) ==> Decode(buf).error == InvalidTrackHeader
  {
    DecodeTracksError(buf, HEADER_SIZE);
  }

  /** A file holding only its header (or less than the 14 header bytes after `MThd`) has no tracks. */
  lemma HeaderOnlyHasNoTracks(buf: seq<Byte>)
    requires ValidateHeader(buf) && |buf| <= HEADER_SIZE
    ensures Decode(buf) == Success([])
  {
  }

  /** A chunk whose tag is `MTrk` and whose length field encodes `n` ends `n` bytes after its length field. */
  lemma ChunkFraming(pre: seq<Byte>, n: nat, post: seq<Byte>)
    requires n < TWO_POW_32
    ensures var buf := pre + [0x4D, 0x54, 0x72, 0x6B] + BigEndian32(n) + post;
      ValidateTrackHeader(buf, |pre|) && ChunkEnd(buf, |pre|) == |pre| + 8 + n
  {
    var buf := pre + [0x4D, 0x54, 0x72, 0x6B] + BigEndian32(n) + post;
    assert buf == (pre + [0x4D, 0x54, 0x72, 0x6B]) + BigEndian32(n) + post;
    Read32RoundTrip(pre + [0x4D, 0x54, 0x72, 0x6B], n, post);
  }

  /** The events of a track body depend only on the bytes from the body's start on. */
  lemma TrackEventsAgree(b1: seq<Byte>, b2: seq<Byte>, start: nat, end: int)
    requires Agree(b1, start, b2, start)
    ensures TrackEvents(b1, start, end) == TrackEvents(b2, start, end)
  {
    TrackFromAgree(b1, end, start, b2, end, start, 0, None, 0);
    MovedZero(TrackFrom(b1, end, start, None, 0));
  }

  /** Two buffers of the same length that agree from `p` on give the same outcome of the chunk walk from `p`. */
  lemma {:induction false} DecodeTracksAgree(b1: seq<Byte>, b2: seq<Byte>, p: nat)
    requires |b1| == |b2| && Agree(b1, p, b2, p)
    ensures DecodeTracks(b1, p) == DecodeTracks(b2, p)
    decreases |b1| - p
  {
    if p < |b1| {
      assert ValidateTrackHeader(b1, p) == ValidateTrackHeader(b2, p) && ChunkEnd(b1, p) == ChunkEnd(b2, p) by {
        forall j | p <= j < |b1| ensures b1[j] == b2[j] {
          AgreeAt(b1, p, b2, p, j);
        }
      }
      if ValidateTrackHeader(b1, p) {
        var end := ChunkEnd(b1, p);
        AgreeLater(b1, p, b2, p, p + 8, p + 8);
        TrackEventsAgree(b1, b2, p + 8, end);
        AgreeLater(b1, p, b2, p, end, end);
        DecodeTracksAgree(b1, b2, end);
      }
    }
  }

  /**
   * `parse` skips the six header bytes after the length field without
   * reading them, and does not read the length field either: changing bytes
   * 4 to 13 never changes the outcome.
   */
  lemma HeaderFieldsIgnored(b1: seq<Byte>, b2: seq<Byte>)
    requires |b1| == |b2|
    requires forall j :: 0 <= j < |b1| && (j < 4 || HEADER_SIZE <= j) ==> b1[j] == b2[j]
    ensures Decode(b1) == Decode(b2)
  {
    forall j | HEADER_SIZE <= j ensures SameRead(b1, b2, 0, j) {
    }
    assert Agree(b1, HEADER_SIZE, b2, HEADER_SIZE);
    DecodeTracksAgree(b1, b2, HEADER_SIZE);
  }

  /** The track body of the one-track example file: a note-on of note 60 at time 0, then a note-off ten ticks later. */
  lemma {:induction false} OneTrackBody(buf: seq<Byte>)
    requires buf == [0x4D, 0x54, 0x68, 0x64, 0, 0, 0, 6, 0, 0, 0, 1, 0, 0x60,
                     0x4D, 0x54, 0x72, 0x6B, 0, 0, 0, 8,
                     0x00, 0x90, 0x3C, 0x64, 0x0A, 0x80, 0x3C, 0x40]
    ensures TrackEvents(buf, 22, 30)
         == [MidiEvent(Some(0x90), Some(NoteOn(60, 100)), 26, 0), MidiEvent(Some(0x80), None, 30, 10)]
  {
    VlqOneByte(buf, 22);
    StepVoice(buf, 22, None);
    assert StepAt(buf, 22, None) == Step(0, Some(Voice(Some(0x90), Some(NoteOn(60, 100)), 26)), 26, Some(0x90));
    VlqOneByte(buf, 26);
    StepVoice(buf, 26, Some(0x90));
    assert StepAt(buf, 26, Some(0x90)) == Step(10, Some(Voice(Some(0x80), None, 30)), 30, Some(0x80));
    TrackFromUnfold(buf, 30, 22, None, 0, 26, Some(0x90), 0);
    TrackFromUnfold(buf, 30, 26, Some(0x90), 0, 30, Some(0x80), 10);
  }

  /**
   * A one-track file: the header, an `MTrk` chunk of eight bytes holding a
   * note-on of note 60 and, ten ticks later, a note-off.
   */
  lemma OneTrackExample()
    ensures Decode([0x4D, 0x54, 0x68, 0x64, 0, 0, 0, 6, 0, 0, 0, 1, 0, 0x60,
                    0x4D, 0x54, 0x72, 0x6B, 0, 0, 0, 8,
                    0x00, 0x90, 0x3C, 0x64, 0x0A, 0x80, 0x3C, 0x40])
         == Success([[MidiEvent(Some(0x90), Some(NoteOn(60, 100)), 26, 0), MidiEvent(Some(0x80), None, 30, 10)]])
  {
    var buf: seq<Byte> := [0x4D, 0x54, 0x68, 0x64, 0, 0, 0, 6, 0, 0, 0, 1, 0, 0x60,
                           0x4D, 0x54, 0x72, 0x6B, 0, 0, 0, 8,
                           0x00, 0x90, 0x3C, 0x64, 0x0A, 0x80, 0x3C, 0x40];
    assert ValidateHeader(buf) && ValidateTrackHeader(buf, 14) && ChunkEnd(buf, 14) == |buf| == 30;
    OneTrackBody(buf);
    LastChunk(buf, 14);
  }

  /** A chunk that reaches the end of the data is the last track. */
  lemma LastChunk(buf: seq<Byte>, p: nat)
    requires p < |buf| && ValidateTrackHeader(buf, p) && ChunkEnd(buf, p) >= |buf|
    ensures DecodeTracks(buf, p) == Success([TrackEvents(buf, p + 8, ChunkEnd(buf, p))])
  {
    var events := TrackEvents(buf, p + 8, ChunkEnd(buf, p));
    assert [events] + [] == [events];
  }
}
