/**
 * One event of a track body: `parseMidiEvent`, `skipMetaEvent`,
 * `skipSysexEvent`, and one iteration of the track loop that dispatches
 * between them.
 */
module MidiEvents {
  import opened Wrappers
  import opened MidiBytes
  import opened VariableLength

  /** A sounding note-on: the `note` and `velocity` fields of a pushed event. */
  datatype NoteOn = NoteOn(note: Byte, velocity: Byte)

  /**
   * What `parseMidiEvent` returns: the effective status (`eventType`), the
   * note and velocity when the event is a sounding note-on, and the position
   * after the event.
   */
  datatype Voice = Voice(eventType: Option<Byte>, noteOn: Option<NoteOn>, newPointer: int)

  /** A byte in status position below 0x80 is a data byte: running status. `undefined < 0x80` is false. */
  predicate IsRunning(status: Option<Byte>)
  {
    status.Some? && status.value < 0x80
  }

  /** `eventType & 0xF0`; a `null` or `undefined` status gives 0. */
  function HighNibble(status: Option<Byte>): (h: int)
    ensures 0 <= h <= 0xF0 && h % 16 == 0
    ensures status.Some? ==> h <= status.value < h + 16
    ensures status.None? ==> h == 0
  {
    match status
    case Some(b) => b / 16 * 16
    case None => 0
  }

  /** Program change and channel pressure carry one data byte; every other channel status two. */
  function DataBytes(high: int): (n: nat)
    ensures n == 1 <==> high == 0xC0 || high == 0xD0
    ensures 1 <= n <= 2
  {
    if high == 0xC0 || high == 0xD0 then 1 else 2
  }

  /** The data bytes of a channel event with effective status `eventType`, from `start` on. */
  function VoiceAt(buf: seq<Byte>, start: nat, eventType: Option<Byte>): (v: Voice)
    ensures v.eventType == eventType
    ensures v.newPointer == start + DataBytes(HighNibble(eventType))
    ensures v.noteOn.Some? <==>
      HighNibble(eventType) == 0x90 && start + 1 < |buf| && buf[start + 1] > 0
    ensures v.noteOn.Some? ==> v.noteOn.value == NoteOn(buf[start], buf[start + 1])
  {
    var high := HighNibble(eventType);
    if high == 0x90 || high == 0x80 then
      var note := At(buf, start);
      var velocity := At(buf, start + 1);
      if high == 0x90 && velocity.Some? && velocity.value > 0 then
        Voice(eventType, Some(NoteOn(note.value, velocity.value)), start + 2)
      else
        Voice(eventType, None, start + 2)
    else
      Voice(eventType, None, start + DataBytes(high))
  }

  /**
   * `parseMidiEvent(midiArray, p, status, last)`, `p` being the position after
   * the status byte: a running-status byte is re-read as data under `last`;
   * any other status (also `undefined`) is the event's own.
   */
  function DecodeVoice(buf: seq<Byte>, p: nat, status: Option<Byte>, last: Option<Byte>): (v: Voice)
    requires p >= 1
    ensures v.eventType == if IsRunning(status) then last else status
    ensures v.newPointer == (if IsRunning(status) then p - 1 else p) + DataBytes(HighNibble(v.eventType))
    ensures v.noteOn.Some? ==> HighNibble(v.eventType) == 0x90 && v.noteOn.value.velocity >= 1
  {
    if IsRunning(status) then VoiceAt(buf, p - 1, last) else VoiceAt(buf, p, status)
  }

  method ParseMidiEvent(buf: seq<Byte>, pointer: int, eventType: Option<Byte>, lastEventType: Option<Byte>)
    returns (event: Voice)
    requires pointer >= 1
    ensures event == DecodeVoice(buf, pointer, eventType, lastEventType)
  {
    var p: nat := pointer;
    var status := eventType;
    if IsRunning(status) {
      p := p - 1;
      status := lastEventType;
    }
    var high := HighNibble(status);
    if high == 0x90 || high == 0x80 {
      var note := At(buf, p);
      p := p + 1;
      var velocity := At(buf, p);
      p := p + 1;
      if high == 0x90 && velocity.Some? && velocity.value > 0 {
        return Voice(status, Some(NoteOn(note.value, velocity.value)), p);
      }
    } else {
      p := p + if high == 0xC0 || high == 0xD0 then 1 else 2;
    }
    return Voice(status, None, p);
  }

  /**
   * `skipMetaEvent`, `p` being the position after the 0xFF: the meta type,
   * the length quantity, then as many data bytes as the low seven bits of the
   * length's last byte say.
   */
  function SkipMeta(buf: seq<Byte>, p: nat): (r: nat)
    ensures Vlq(buf, p + 1).1 <= r < Vlq(buf, p + 1).1 + 128
    ensures p + 1 < |buf| && buf[p + 1] < 0x80 ==> r == p + 2 + buf[p + 1]
  {
    var (_, q) := Vlq(buf, p + 1);
    q + Low7(At(buf, q - 1))
  }

  method SkipMetaEvent(buf: seq<Byte>, pointer: nat) returns (newPointer: nat)
    ensures newPointer == SkipMeta(buf, pointer)
  {
    var p := pointer + 1;  // the meta type, discarded
    var _, q := ReadVariableLengthValue(buf, p);
    newPointer := q + Low7(At(buf, q - 1));
  }

  /** `skipSysexEvent`, `p` being the position after the 0xF0 or 0xF7: as SkipMeta, without a type byte. */
  function SkipSysex(buf: seq<Byte>, p: nat): (r: nat)
    ensures Vlq(buf, p).1 <= r < Vlq(buf, p).1 + 128
    ensures p < |buf| && buf[p] < 0x80 ==> r == p + 1 + buf[p]
  {
    var (_, q) := Vlq(buf, p);
    q + Low7(At(buf, q - 1))
  }

  method SkipSysexEvent(buf: seq<Byte>, pointer: nat) returns (newPointer: nat)
    ensures newPointer == SkipSysex(buf, pointer)
  {
    var _, q := ReadVariableLengthValue(buf, pointer);
    newPointer := q + Low7(At(buf, q - 1));
  }

  /**
   * For a well-formed length quantity of `k` bytes, the meta skip covers the
   * low seven bits of the last length byte, not the decoded length.
   */
  lemma SkipMetaWellFormed(buf: seq<Byte>, p: nat, k: nat)
    requires WellFormedAt(buf, p + 1, k)
    ensures Vlq(buf, p + 1) == (Base128(buf[p + 1..p + 1 + k]), p + 1 + k)
    ensures SkipMeta(buf, p) == p + 1 + k + buf[p + k]
  {
    VlqWellFormed(buf, p + 1, k);
  }

  /** The same for the system-exclusive skip, whose length starts at `p`. */
  lemma SkipSysexWellFormed(buf: seq<Byte>, p: nat, k: nat)
    requires WellFormedAt(buf, p, k)
    ensures Vlq(buf, p) == (Base128(buf[p..p + k]), p + k)
    ensures SkipSysex(buf, p) == p + k + buf[p + k - 1]
  {
    VlqWellFormed(buf, p, k);
  }

  /**
   * A length written on two bytes is not honoured: `81 00` means 128, yet the
   * skip covers zero data bytes, because only the last length byte counts.
   */
  lemma LongMetaLengthIsTruncated(buf: seq<Byte>, p: nat)
    requires p + 2 < |buf| && buf[p + 1] == 0x81 && buf[p + 2] == 0x00
    ensures Vlq(buf, p + 1) == (128, p + 3)
    ensures SkipMeta(buf, p) == p + 3
  {
    assert WellFormedAt(buf, p + 1, 2);
    SkipMetaWellFormed(buf, p, 2);
    assert buf[p + 1..p + 3] == [0x81, 0x00];
  }

  /** A meta or system-exclusive status byte. */
  predicate IsSkipped(status: Option<Byte>)
  {
    status == Some(0xFF) || status == Some(0xF0) || status == Some(0xF7)
  }

  /**
   * One iteration of the track loop: the delta-time read, the event pushed
   * (if any), the position after it and the running status after it.
   */
  datatype Step = Step(delta: int, event: Option<Voice>, next: nat, last: Option<Byte>)

  /** `skipMetaEvent` after 0xFF, `skipSysexEvent` after 0xF0 or 0xF7, `p` being the position after the status byte. */
  function SkipEvent(buf: seq<Byte>, p: nat, status: Option<Byte>): (r: nat)
  {
    if status == Some(0xFF) then SkipMeta(buf, p) else SkipSysex(buf, p)
  }

  /** The iteration that starts at `p` with running status `last`. */
  function StepAt(buf: seq<Byte>, p: nat, last: Option<Byte>): (s: Step)
    ensures s.next >= p + 2
  {
    var (delta, q) := Vlq(buf, p);
    var status := At(buf, q);
    if IsSkipped(status) then
      Step(delta, None, SkipEvent(buf, q + 1, status), last)
    else
      var v := DecodeVoice(buf, q + 1, status, last);
      Step(delta, Some(v), v.newPointer, v.eventType)
  }

  /**
   * An iteration reads a delta-time; a meta or system-exclusive event pushes
   * nothing and keeps the running status; a channel event is pushed, becomes
   * the running status, and the loop continues where it ends.
   */
  lemma StepFacts(buf: seq<Byte>, p: nat, last: Option<Byte>)
    ensures var s := StepAt(buf, p, last);
      && s.delta == Vlq(buf, p).0
      && (s.event.None? <==> IsSkipped(At(buf, Vlq(buf, p).1)))
      && (s.event.None? ==> s.last == last)
      && (s.event.Some? ==> s.last == s.event.value.eventType && s.next == s.event.value.newPointer)
  {
  }

  /** An iteration that meets a meta or system-exclusive event skips it and keeps the running status. */
  lemma StepSkip(buf: seq<Byte>, p: nat, last: Option<Byte>)
    requires IsSkipped(At(buf, Vlq(buf, p).1))
    ensures var (delta, q) := Vlq(buf, p);
      StepAt(buf, p, last) == Step(delta, None, SkipEvent(buf, q + 1, At(buf, q)), last)
  {
  }

  /** Any other status byte (also a data byte, or none) starts a channel event, which is pushed. */
  lemma StepVoice(buf: seq<Byte>, p: nat, last: Option<Byte>)
    requires !IsSkipped(At(buf, Vlq(buf, p).1))
    ensures var (delta, q) := Vlq(buf, p);
      var v := DecodeVoice(buf, q + 1, At(buf, q), last);
      StepAt(buf, p, last) == Step(delta, Some(v), v.newPointer, v.eventType)
  {
  }

  /** The same voice event found `d` positions later. */
  function MoveVoice(v: Voice, d: int): Voice
  {
    v.(newPointer := v.newPointer + d)
  }

  lemma VoiceAgree(b1: seq<Byte>, st1: nat, b2: seq<Byte>, st2: nat, eventType: Option<Byte>)
    requires Agree(b1, st1, b2, st2)
    ensures VoiceAt(b2, st2, eventType) == MoveVoice(VoiceAt(b1, st1, eventType), st2 - st1)
  {
    AgreeAt(b1, st1, b2, st2, st1);
    AgreeAt(b1, st1, b2, st2, st1 + 1);
  }

  lemma SkipSysexAgree(b1: seq<Byte>, p1: nat, b2: seq<Byte>, p2: nat)
    requires Agree(b1, p1, b2, p2)
    ensures SkipSysex(b2, p2) == SkipSysex(b1, p1) + (p2 - p1)
  {
    VlqFromAgree(b1, p1, b2, p2, 0);
    var q1, q2 := Vlq(b1, p1).1, Vlq(b2, p2).1;
    assert q2 == q1 + (p2 - p1);
    AgreeAt(b1, p1, b2, p2, q1 - 1);
    assert At(b2, q2 - 1) == At(b1, q1 - 1);
  }

  lemma SkipMetaAgree(b1: seq<Byte>, p1: nat, b2: seq<Byte>, p2: nat)
    requires Agree(b1, p1, b2, p2)
    ensures SkipMeta(b2, p2) == SkipMeta(b1, p1) + (p2 - p1)
  {
    AgreeLater(b1, p1, b2, p2, p1 + 1, p2 + 1);
    VlqFromAgree(b1, p1 + 1, b2, p2 + 1, 0);
    var q1, q2 := Vlq(b1, p1 + 1).1, Vlq(b2, p2 + 1).1;
    assert q2 == q1 + (p2 - p1);
    AgreeAt(b1, p1, b2, p2, q1 - 1);
    assert At(b2, q2 - 1) == At(b1, q1 - 1);
  }

  /** `s2` is the iteration `s1` found `d` positions later. */
  predicate MovedStep(s1: Step, s2: Step, d: int)
  {
    && s2.delta == s1.delta && s2.last == s1.last && s2.next == s1.next + d
    && s2.event == (if s1.event.Some? then Some(MoveVoice(s1.event.value, d)) else None)
  }

  lemma StepAgreeSkip(b1: seq<Byte>, n1: nat, b2: seq<Byte>, n2: nat, last: Option<Byte>)
    requires Agree(b1, n1, b2, n2) && IsSkipped(At(b1, Vlq(b1, n1).1))
    ensures MovedStep(StepAt(b1, n1, last), StepAt(b2, n2, last), n2 - n1)
  {
    var d := n2 - n1;
    VlqFromAgree(b1, n1, b2, n2, 0);
    var (delta, q1) := Vlq(b1, n1);
    assert Vlq(b2, n2) == (delta, q1 + d);
    var status := At(b1, q1);
    AgreeAt(b1, n1, b2, n2, q1);
    AgreeLater(b1, n1, b2, n2, q1 + 1, q1 + 1 + d);
    if status == Some(0xFF) {
      SkipMetaAgree(b1, q1 + 1, b2, q1 + 1 + d);
    } else {
      SkipSysexAgree(b1, q1 + 1, b2, q1 + 1 + d);
    }
    StepSkip(b1, n1, last);
    StepSkip(b2, n2, last);
  }

  lemma StepAgreeRunning(b1: seq<Byte>, n1: nat, b2: seq<Byte>, n2: nat, last: Option<Byte>)
    requires Agree(b1, n1, b2, n2) && IsRunning(At(b1, Vlq(b1, n1).1))
    ensures MovedStep(StepAt(b1, n1, last), StepAt(b2, n2, last), n2 - n1)
  {
    var d := n2 - n1;
    VlqFromAgree(b1, n1, b2, n2, 0);
    var (delta, q1) := Vlq(b1, n1);
    assert Vlq(b2, n2) == (delta, q1 + d);
    var status := At(b1, q1);
    AgreeAt(b1, n1, b2, n2, q1);
    AgreeLater(b1, n1, b2, n2, q1, q1 + d);
    VoiceAgree(b1, q1, b2, q1 + d, last);
  }

  lemma StepAgreeStatus(b1: seq<Byte>, n1: nat, b2: seq<Byte>, n2: nat, last: Option<Byte>)
    requires Agree(b1, n1, b2, n2)
    requires !IsSkipped(At(b1, Vlq(b1, n1).1)) && !IsRunning(At(b1, Vlq(b1, n1).1))
    ensures MovedStep(StepAt(b1, n1, last), StepAt(b2, n2, last), n2 - n1)
  {
    var d := n2 - n1;
    VlqFromAgree(b1, n1, b2, n2, 0);
    var (delta, q1) := Vlq(b1, n1);
    assert Vlq(b2, n2) == (delta, q1 + d);
    var status := At(b1, q1);
    AgreeAt(b1, n1, b2, n2, q1);
    AgreeLater(b1, n1, b2, n2, q1 + 1, q1 + 1 + d);
    VoiceAgree(b1, q1 + 1, b2, q1 + 1 + d, status);
    var v1, v2 := VoiceAt(b1, q1 + 1, status), VoiceAt(b2, q1 + 1 + d, status);
    assert StepAt(b1, n1, last) == Step(delta, Some(v1), v1.newPointer, status);
    assert StepAt(b2, n2, last) == Step(delta, Some(v2), v2.newPointer, status);
  }

  /** Where two buffers agree, a loop iteration decodes the same event, `d` positions later. */
  lemma StepAgree(b1: seq<Byte>, n1: nat, b2: seq<Byte>, n2: nat, last: Option<Byte>)
    requires Agree(b1, n1, b2, n2)
    ensures MovedStep(StepAt(b1, n1, last), StepAt(b2, n2, last), n2 - n1)
  {
    var status := At(b1, Vlq(b1, n1).1);
    if IsSkipped(status) {
      StepAgreeSkip(b1, n1, b2, n2, last);
    } else if IsRunning(status) {
      StepAgreeRunning(b1, n1, b2, n2, last);
    } else {
      StepAgreeStatus(b1, n1, b2, n2, last);
    }
  }
}
