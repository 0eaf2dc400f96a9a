/**
 * `parseTrackEvents`: the loop over one track body that keeps a position,
 * an absolute-tick accumulator and the running status, and pushes every
 * channel event stamped with the accumulated time.
 */
module MidiTrack {
  import opened Wrappers
  import opened MidiBytes
  import opened VariableLength
  import opened MidiEvents

  /** A pushed event: `{ eventType, note?, velocity?, newPointer, time }`. */
  datatype MidiEvent = MidiEvent(eventType: Option<Byte>, noteOn: Option<NoteOn>, newPointer: int, time: int)

  /** `{ ...event, time }` */
  function Stamp(v: Voice, time: int): (e: MidiEvent)
  {
    MidiEvent(v.eventType, v.noteOn, v.newPointer, time)
  }

  /** The events one iteration pushes, stamped with the time after its delta. */
  function Pushed(s: Step, t: int): seq<MidiEvent>
  {
    if s.event.Some? then [Stamp(s.event.value, t + s.delta)] else []
  }

  /**
   * The events the track loop pushes from position `p` on, while the position
   * is below `end`, with running status `last` and accumulated time `t`.
   */
  function TrackFrom(buf: seq<Byte>, end: int, p: nat, last: Option<Byte>, t: int): seq<MidiEvent>
    decreases end - p
  {
    if p >= end then []
    else
      var s := StepAt(buf, p, last);
      Pushed(s, t) + TrackFrom(buf, end, s.next, s.last, t + s.delta)
  }

  lemma TrackFromUnfold(buf: seq<Byte>, end: int, p: nat, last: Option<Byte>, t: int, next: nat, last2: Option<Byte>, t2: int)
    requires p < end
    requires StepAt(buf, p, last).next == next && StepAt(buf, p, last).last == last2 && t + StepAt(buf, p, last).delta == t2
    ensures TrackFrom(buf, end, p, last, t) == Pushed(StepAt(buf, p, last), t) + TrackFrom(buf, end, next, last2, t2)
  {
  }

  /** The list `parseTrackEvents(midiArray, start, end)` returns. */
  function TrackEvents(buf: seq<Byte>, start: nat, end: int): seq<MidiEvent>
  {
    TrackFrom(buf, end, start, None, 0)
  }

  /**
   * An iteration over a meta or system-exclusive event pushes nothing and
   * keeps the running status: with `acc` pushed so far, the loop still ends
   * with `total` when it resumes after the skipped event.
   */
  lemma {:induction false} LoopSkip(acc: seq<MidiEvent>, total: seq<MidiEvent>, buf: seq<Byte>, end: int,
                                    p: nat, last: Option<Byte>, t: int, next: nat, t2: int)
    requires acc + TrackFrom(buf, end, p, last, t) == total
    requires p < end && IsSkipped(At(buf, Vlq(buf, p).1))
    requires next == SkipEvent(buf, Vlq(buf, p).1 + 1, At(buf, Vlq(buf, p).1)) && t2 == t + Vlq(buf, p).0
    ensures acc + TrackFrom(buf, end, next, last, t2) == total
  {
    StepSkip(buf, p, last);
    assert TrackFrom(buf, end, p, last, t) == TrackFrom(buf, end, next, last, t2);
  }

  /**
   * An iteration over a channel event pushes it, stamped with the time after
   * its delta, and the loop resumes after it with its status as the running
   * status.
   */
  lemma {:induction false} LoopVoice(acc: seq<MidiEvent>, total: seq<MidiEvent>, buf: seq<Byte>, end: int,
                                     p: nat, last: Option<Byte>, t: int, v: Voice, t2: int)
    requires acc + TrackFrom(buf, end, p, last, t) == total
    requires p < end && !IsSkipped(At(buf, Vlq(buf, p).1))
    requires v == DecodeVoice(buf, Vlq(buf, p).1 + 1, At(buf, Vlq(buf, p).1), last) && t2 == t + Vlq(buf, p).0
    ensures (acc + [Stamp(v, t2)]) + TrackFrom(buf, end, v.newPointer, v.eventType, t2) == total
  {
    var rest := TrackFrom(buf, end, v.newPointer, v.eventType, t2);
    assert TrackFrom(buf, end, p, last, t) == [Stamp(v, t2)] + rest by {
      StepVoice(buf, p, last);
      TrackFromUnfold(buf, end, p, last, t, v.newPointer, v.eventType, t2);
    }
    AppendRegroup(acc, [Stamp(v, t2)], rest, total);
  }

  lemma AppendRegroup(acc: seq<MidiEvent>, x: seq<MidiEvent>, rest: seq<MidiEvent>, total: seq<MidiEvent>)
    requires acc + (x + rest) == total
    ensures (acc + x) + rest == total
  {
  }

  method ParseTrackEvents(buf: seq<Byte>, startPointer: nat, endPointer: int) returns (events: seq<MidiEvent>)
    ensures events == TrackEvents(buf, startPointer, endPointer)
  {
    events := [];
    var pointer: nat := startPointer;
    var time := 0;
    var lastEventType: Option<Byte> := None;
    while pointer < endPointer
      invariant events + TrackFrom(buf, endPointer, pointer, lastEventType, time) == TrackEvents(buf, startPointer, endPointer)
      decreases endPointer - pointer
    {
      ghost var start, before := pointer, time;
      var deltaTime, newPointer := ReadVariableLengthValue(buf, pointer);
      pointer := newPointer;
      time := time + deltaTime;
      var eventType := At(buf, pointer);
      pointer := pointer + 1;
      if eventType == Some(0xFF) {
        pointer := SkipMetaEvent(buf, pointer);
        LoopSkip(events, TrackEvents(buf, startPointer, endPointer), buf, endPointer, start, lastEventType, before, pointer, time);
      } else if eventType == Some(0xF0) || eventType == Some(0xF7) {
        pointer := SkipSysexEvent(buf, pointer);
        LoopSkip(events, TrackEvents(buf, startPointer, endPointer), buf, endPointer, start, lastEventType, before, pointer, time);
      } else {
        var event := ParseMidiEvent(buf, pointer, eventType, lastEventType);
        LoopVoice(events, TrackEvents(buf, startPointer, endPointer), buf, endPointer, start, lastEventType, before, event, time);
        events := events + [Stamp(event, time)];
        pointer := event.newPointer;
        lastEventType := event.eventType;
      }
    }
  }

  // ---------------------------------------------------------------------
  // The iterations of the loop

  /** The iterations of the track loop from `p`, while the position is below `end`. */
  function Walk(buf: seq<Byte>, end: int, p: nat, last: Option<Byte>): (steps: seq<Step>)
    decreases end - p
  {
    if p >= end then []
    else
      var s := StepAt(buf, p, last);
      [s] + Walk(buf, end, s.next, s.last)
  }

  /** The events the iterations push, each stamped with the time accumulated from `t`. */
  function Timed(steps: seq<Step>, t: int): (events: seq<MidiEvent>)
    decreases |steps|
  {
    if steps == [] then []
    else Pushed(steps[0], t) + Timed(steps[1..], t + steps[0].delta)
  }

  /** The pushed events are those of the iterations, stamped in order. */
  lemma {:induction false} TrackFromIsTimedWalk(buf: seq<Byte>, end: int, p: nat, last: Option<Byte>, t: int)
    ensures TrackFrom(buf, end, p, last, t) == Timed(Walk(buf, end, p, last), t)
    decreases end - p
  {
    if p < end {
      var s := StepAt(buf, p, last);
      var rest := Walk(buf, end, s.next, s.last);
      TrackFromIsTimedWalk(buf, end, s.next, s.last, t + s.delta);
      assert Walk(buf, end, p, last) == [s] + rest;
      assert ([s] + rest)[0] == s && ([s] + rest)[1..] == rest;
    }
  }

  // ---------------------------------------------------------------------
  // Times are prefix sums of the delta-times

  /** The sum of the delta-times of `steps`. */
  function SumDeltas(steps: seq<Step>): int
    decreases |steps|
  {
    if steps == [] then 0 else SumDeltas(steps[..|steps| - 1]) + steps[|steps| - 1].delta
  }

  /**
   * A reference definition of the pushed events, built from the last
   * iteration backwards: the event of iteration `j` carries the sum of the
   * delta-times of iterations `0..j`.
   */
  function TimedByPrefix(steps: seq<Step>, t: int): seq<MidiEvent>
    decreases |steps|
  {
    if steps == [] then []
    else
      var n := |steps| - 1;
      TimedByPrefix(steps[..n], t)
      + (if steps[n].event.Some? then [Stamp(steps[n].event.value, t + SumDeltas(steps))] else [])
  }

  lemma {:induction false} SumDeltasCons(s: Step, rest: seq<Step>)
    ensures SumDeltas([s] + rest) == s.delta + SumDeltas(rest)
    decreases |rest|
  {
    if rest != [] {
      var n := |rest| - 1;
      assert ([s] + rest)[..n + 1] == [s] + rest[..n];
      SumDeltasCons(s, rest[..n]);
    } else {
      assert [s][..0] == [];
    }
  }

  lemma {:induction false} TimedByPrefixCons(s: Step, rest: seq<Step>, t: int)
    ensures TimedByPrefix([s] + rest, t)
         == (if s.event.Some? then [Stamp(s.event.value, t + s.delta)] else []) + TimedByPrefix(rest, t + s.delta)
    decreases |rest|
  {
    var head := if s.event.Some? then [Stamp(s.event.value, t + s.delta)] else [];
    if rest == [] {
      assert [s] + rest == [s];
      assert [s][..0] == [];
      assert SumDeltas([s]) == s.delta by { assert [s][..0] == []; }
    } else {
      var n := |rest| - 1;
      var all := [s] + rest;
      assert all[..n + 1] == [s] + rest[..n];
      assert all[n + 1] == rest[n];
      TimedByPrefixCons(s, rest[..n], t);
      SumDeltasCons(s, rest);
    }
  }

  /**
   * The time on every pushed event is the sum of all delta-times read so far
   * in the track, counted from the starting time.
   */
  lemma {:induction false} TimedIsPrefixSums(steps: seq<Step>, t: int)
    ensures Timed(steps, t) == TimedByPrefix(steps, t)
    decreases |steps|
  {
    if steps != [] {
      assert steps == [steps[0]] + steps[1..];
      TimedIsPrefixSums(steps[1..], t + steps[0].delta);
      TimedByPrefixCons(steps[0], steps[1..], t);
    }
  }

  // ---------------------------------------------------------------------
  // Monotone times

  predicate NonNegativeDeltas(steps: seq<Step>)
  {
    forall j :: 0 <= j < |steps| ==> steps[j].delta >= 0
  }

  predicate TimesNondecreasing(events: seq<MidiEvent>)
  {
    forall i, j :: 0 <= i <= j < |events| ==> events[i].time <= events[j].time
  }

  /** Events at time `t0`, followed by events at `t0` or later in nondecreasing order, are in nondecreasing order. */
  lemma PrependAtTime(head: seq<MidiEvent>, rest: seq<MidiEvent>, t0: int)
    requires forall e :: e in head ==> e.time == t0
    requires TimesNondecreasing(rest) && forall e :: e in rest ==> t0 <= e.time
    ensures TimesNondecreasing(head + rest)
  {
    var all := head + rest;
    forall i, j | 0 <= i <= j < |all| ensures all[i].time <= all[j].time {
      if j < |head| {
        assert all[i] in head && all[j] in head;
      } else if i < |head| {
        assert all[i] in head && all[j] == rest[j - |head|] && all[j] in rest;
      } else {
        assert all[i] == rest[i - |head|] && all[j] == rest[j - |head|];
      }
    }
  }

  /** With non-negative delta-times, pushed times never go below the start and never decrease. */
  lemma {:induction false} TimedNondecreasing(steps: seq<Step>, t: int)
    requires NonNegativeDeltas(steps)
    ensures TimesNondecreasing(Timed(steps, t))
    ensures forall e :: e in Timed(steps, t) ==> t <= e.time
    decreases |steps|
  {
    if steps != [] {
      var time := t + steps[0].delta;
      assert NonNegativeDeltas(steps[1..]) by {
        forall j | 0 <= j < |steps| - 1 ensures steps[1..][j].delta >= 0 {
          assert steps[1..][j] == steps[j + 1];
        }
      }
      assert steps[0].delta >= 0;
      var head, rest := Pushed(steps[0], t), Timed(steps[1..], time);
      TimedNondecreasing(steps[1..], time);
      assert Timed(steps, t) == head + rest;
      PrependAtTime(head, rest, time);
      forall e: MidiEvent | e in head + rest ensures t <= e.time {
        if e in rest {
        } else {
          assert e in head;
        }
      }
    }
  }

  /**
   * The time on every event of a track is the sum of all delta-times read so
   * far in the track.
   */
  lemma {:induction false} TrackTimesArePrefixSums(buf: seq<Byte>, start: nat, end: int)
    ensures TrackEvents(buf, start, end) == TimedByPrefix(Walk(buf, end, start, None), 0)
  {
    TrackFromIsTimedWalk(buf, end, start, None, 0);
    TimedIsPrefixSums(Walk(buf, end, start, None), 0);
  }

  /**
   * Within a track whose delta-times are all non-negative (for instance all
   * at most four bytes long, by ShortDeltasNonNegative), event times start at
   * 0 or later and never decrease.
   */
  lemma {:induction false} TrackTimesNondecreasing(buf: seq<Byte>, start: nat, end: int)
    requires NonNegativeDeltas(Walk(buf, end, start, None))
    ensures TimesNondecreasing(TrackEvents(buf, start, end))
    ensures forall e :: e in TrackEvents(buf, start, end) ==> 0 <= e.time
  {
    TrackFromIsTimedWalk(buf, end, start, None, 0);
    TimedNondecreasing(Walk(buf, end, start, None), 0);
  }

  /** Every iteration of the walk from `p` reads a delta-time of at most four bytes. */
  predicate ShortDeltas(buf: seq<Byte>, end: int, p: nat, last: Option<Byte>)
    decreases end - p
  {
    p >= end ||
      var s := StepAt(buf, p, last);
      Vlq(buf, p).1 <= p + 4 && ShortDeltas(buf, end, s.next, s.last)
  }

  /** Delta-times of at most four bytes are never negative, in every iteration. */
  lemma {:induction false} ShortDeltasNonNegative(buf: seq<Byte>, end: int, p: nat, last: Option<Byte>)
    requires ShortDeltas(buf, end, p, last)
    ensures NonNegativeDeltas(Walk(buf, end, p, last))
    decreases end - p
  {
    if p < end {
      var s := StepAt(buf, p, last);
      var rest := Walk(buf, end, s.next, s.last);
      VlqShortIsNonNegative(buf, p);
      ShortDeltasNonNegative(buf, end, s.next, s.last);
      assert Walk(buf, end, p, last) == [s] + rest;
      forall j | 0 <= j < |[s] + rest| ensures ([s] + rest)[j].delta >= 0 {
        if j > 0 {
          assert ([s] + rest)[j] == rest[j - 1];
        }
      }
    }
  }

  /** A track whose delta-times are each at most four bytes long has nondecreasing times from 0. */
  lemma TrackShortDeltasNondecreasing(buf: seq<Byte>, start: nat, end: int)
    requires ShortDeltas(buf, end, start, None)
    ensures TimesNondecreasing(TrackEvents(buf, start, end))
    ensures forall e :: e in TrackEvents(buf, start, end) ==> 0 <= e.time
  {
    ShortDeltasNonNegative(buf, end, start, None);
    TrackTimesNondecreasing(buf, start, end);
  }

  // ---------------------------------------------------------------------
  // Which events are pushed

  /**
   * Every event pushed with a note is a note-on (high nibble 0x90) with a
   * velocity of at least 1: a note-on of velocity 0 and a note-off are
   * pushed without a note.
   */
  lemma {:induction false} TrackFromNotesSound(buf: seq<Byte>, end: int, p: nat, last: Option<Byte>, t: int)
    ensures forall e :: e in TrackFrom(buf, end, p, last, t) && e.noteOn.Some? ==>
      HighNibble(e.eventType) == 0x90 && e.noteOn.value.velocity >= 1
    decreases end - p
  {
    if p < end {
      var s := StepAt(buf, p, last);
      if IsSkipped(At(buf, Vlq(buf, p).1)) {
        StepSkip(buf, p, last);
      } else {
        StepVoice(buf, p, last);
      }
      TrackFromNotesSound(buf, end, s.next, s.last, t + s.delta);
    }
  }

  lemma {:induction false} TrackNotesSound(buf: seq<Byte>, start: nat, end: int)
    ensures forall e :: e in TrackEvents(buf, start, end) && e.noteOn.Some? ==>
      HighNibble(e.eventType) == 0x90 && e.noteOn.value.velocity >= 1
  {
    TrackFromNotesSound(buf, end, start, None, 0);
  }

  // ---------------------------------------------------------------------
  // Position independence and running status

  /** The same events recorded `d` positions later. */
  function Moved(events: seq<MidiEvent>, d: int): (r: seq<MidiEvent>)
    ensures |r| == |events|
  {
    seq(|events|, i requires 0 <= i < |events| => events[i].(newPointer := events[i].newPointer + d))
  }

  lemma MovedZero(events: seq<MidiEvent>)
    ensures Moved(events, 0) == events
  {
  }

  lemma MovedAppend(x: seq<MidiEvent>, y: seq<MidiEvent>, d: int)
    ensures Moved(x + y, d) == Moved(x, d) + Moved(y, d)
  {
  }

  lemma MovedVia(x: seq<MidiEvent>, y: seq<MidiEvent>, tx: seq<MidiEvent>, ty: seq<MidiEvent>, d: int)
    requires x == tx && y == ty && ty == Moved(tx, d)
    ensures y == Moved(x, d)
  {
  }

  lemma {:induction false} PushedMoved(s1: Step, s2: Step, d: int, t: int)
    requires MovedStep(s1, s2, d)
    ensures Pushed(s2, t) == Moved(Pushed(s1, t), d)
  {
  }

  /** `w2` are the iterations `w1`, each found `d` positions later. */
  predicate StepsMoved(w1: seq<Step>, w2: seq<Step>, d: int)
  {
    |w1| == |w2| && forall i :: 0 <= i < |w1| ==> MovedStep(w1[i], w2[i], d)
  }

  lemma StepsMovedCons(s1: Step, w1: seq<Step>, s2: Step, w2: seq<Step>, d: int)
    requires MovedStep(s1, s2, d) && StepsMoved(w1, w2, d)
    ensures StepsMoved([s1] + w1, [s2] + w2, d)
  {
    forall i | 0 <= i < |w1| + 1 ensures MovedStep(([s1] + w1)[i], ([s2] + w2)[i], d) {
      if i > 0 {
        assert ([s1] + w1)[i] == w1[i - 1] && ([s2] + w2)[i] == w2[i - 1];
      }
    }
  }

  lemma {:induction false} WalkAgree(b1: seq<Byte>, e1: int, n1: nat, b2: seq<Byte>, e2: int, n2: nat, d: int, last: Option<Byte>)
    requires n2 == n1 + d && e2 == e1 + d && Agree(b1, n1, b2, n2)
    ensures StepsMoved(Walk(b1, e1, n1, last), Walk(b2, e2, n2, last), d)
    decreases e1 - n1
  {
    if n1 < e1 {
      var s1, s2 := StepAt(b1, n1, last), StepAt(b2, n2, last);
      StepAgree(b1, n1, b2, n2, last);
      AgreeLater(b1, n1, b2, n2, s1.next, s2.next);
      WalkAgree(b1, e1, s1.next, b2, e2, s2.next, d, s1.last);
      StepsMovedCons(s1, Walk(b1, e1, s1.next, s1.last), s2, Walk(b2, e2, s2.next, s2.last), d);
    }
  }

  /** Iterations found `d` positions later push the same events, recorded `d` positions later. */
  lemma {:induction false} TimedMoved(w1: seq<Step>, w2: seq<Step>, d: int, t: int)
    requires StepsMoved(w1, w2, d)
    ensures Timed(w2, t) == Moved(Timed(w1, t), d)
    decreases |w1|
  {
    if w1 != [] {
      assert StepsMoved(w1[1..], w2[1..], d) by {
        forall i | 0 <= i < |w1| - 1 ensures MovedStep(w1[1..][i], w2[1..][i], d) {
          assert MovedStep(w1[i + 1], w2[i + 1], d);
        }
      }
      assert MovedStep(w1[0], w2[0], d);
      TimedMoved(w1[1..], w2[1..], d, t + w1[0].delta);
      PushedMoved(w1[0], w2[0], d, t);
      MovedAppend(Pushed(w1[0], t), Timed(w1[1..], t + w1[0].delta), d);
    }
  }

  /**
   * Where two buffers agree from the loops' starting positions on (the
   * second `d` positions later), and the track ends lie equally far ahead,
   * the loops push the same events, recorded `d` positions later.
   */
  lemma TrackFromAgree(b1: seq<Byte>, e1: int, n1: nat, b2: seq<Byte>, e2: int, n2: nat, d: int, last: Option<Byte>, t: int)
    requires n2 == n1 + d && e2 == e1 + d && Agree(b1, n1, b2, n2)
    ensures TrackFrom(b2, e2, n2, last, t) == Moved(TrackFrom(b1, e1, n1, last, t), d)
  {
    var w1, w2 := Walk(b1, e1, n1, last), Walk(b2, e2, n2, last);
    assert Timed(w2, t) == Moved(Timed(w1, t), d) by {
      WalkAgree(b1, e1, n1, b2, e2, n2, d, last);
      TimedMoved(w1, w2, d, t);
    }
    assert TrackFrom(b1, e1, n1, last, t) == Timed(w1, t) by {
      TrackFromIsTimedWalk(b1, e1, n1, last, t);
    }
    assert TrackFrom(b2, e2, n2, last, t) == Timed(w2, t) by {
      TrackFromIsTimedWalk(b2, e2, n2, last, t);
    }
    MovedVia(TrackFrom(b1, e1, n1, last, t), TrackFrom(b2, e2, n2, last, t), Timed(w1, t), Timed(w2, t), d);
  }

  /**
   * The first iteration over a channel event whose status byte `s` is
   * written out, and over the same event with the status left out while
   * `s` is the running status: the same event, one position earlier.
   */
  lemma {:induction false} RunningStatusStep(a: seq<Byte>, s: Byte, b: seq<Byte>, p: nat, last: Option<Byte>)
    requires s >= 0x80 && !IsSkipped(Some(s))
    requires p <= |a| && Vlq(a, p).1 == |a|
    requires b != [] && b[0] < 0x80
    ensures var s1, s2 := StepAt(a + [s] + b, p, last), StepAt(a + b, p, Some(s));
      MovedStep(s1, s2, -1) && Agree(a + [s] + b, s1.next, a + b, s2.next)
  {
    var b1, b2 := a + [s] + b, a + b;
    assert b1 == a + ([s] + b);
    VlqFromPrefix(a, [s] + b, p, 0);
    VlqFromPrefix(a, b, p, 0);
    var q := |a|;
    assert At(b1, q) == Some(s) && At(b2, q) == Some(b[0]);
    assert Agree(b1, q + 1, b2, q) by {
      forall j | q + 1 <= j ensures SameRead(b1, b2, -1, j) {
        if j < |b1| {
          assert b1[j] == b[j - q - 1] == b2[j - 1];
        }
      }
    }
    VoiceAgree(b1, q + 1, b2, q, Some(s));
    StepVoice(b1, p, last);
    StepVoice(b2, p, Some(s));
    AgreeLater(b1, q + 1, b2, q, StepAt(b1, p, last).next, StepAt(b2, p, Some(s)).next);
  }

  /**
   * Running status: when the status byte `s` of a channel event is left out
   * and the previous event's status was `s`, the walk from that event on
   * yields the same events with the same times, each recorded one position
   * earlier.
   * `a` holds everything up to and including the event's delta-time.
   */
  lemma {:induction false} RunningStatusOmission(a: seq<Byte>, s: Byte, b: seq<Byte>, p: nat, end: int, t: int, last: Option<Byte>)
    requires s >= 0x80 && !IsSkipped(Some(s))
    requires p <= |a| && Vlq(a, p).1 == |a|
    requires b != [] && b[0] < 0x80
    requires p < end
    ensures TrackFrom(a + b, end, p, Some(s), t) == Moved(TrackFrom(a + [s] + b, end + 1, p, last, t), -1)
  {
    var b1, b2 := a + [s] + b, a + b;
    var w1, w2 := Walk(b1, end + 1, p, last), Walk(b2, end, p, Some(s));
    assert TrackFrom(b1, end + 1, p, last, t) == Timed(w1, t) by {
      TrackFromIsTimedWalk(b1, end + 1, p, last, t);
    }
    assert TrackFrom(b2, end, p, Some(s), t) == Timed(w2, t) by {
      TrackFromIsTimedWalk(b2, end, p, Some(s), t);
    }
    assert Timed(w2, t) == Moved(Timed(w1, t), -1) by {
      var s1, s2 := StepAt(b1, p, last), StepAt(b2, p, Some(s));
      RunningStatusStep(a, s, b, p, last);
      WalkAgree(b1, end + 1, s1.next, b2, end, s2.next, -1, s1.last);
      StepsMovedCons(s1, Walk(b1, end + 1, s1.next, s1.last), s2, Walk(b2, end, s2.next, s2.last), -1);
      TimedMoved(w1, w2, -1, t);
    }
    MovedVia(TrackFrom(b1, end + 1, p, last, t), TrackFrom(b2, end, p, Some(s), t), Timed(w1, t), Timed(w2, t), -1);
  }

  /**
   * The worked running-status example: a note-on, then ten ticks later a
   * second note-on of velocity 0 written without its status byte. Writing
   * the status out changes only the recorded positions.
   */
  lemma {:induction false} RunningStatusExample()
    ensures TrackEvents([0x00, 0x90, 0x3C, 0x64, 0x0A, 0x3C, 0x00], 0, 7)
         == [MidiEvent(Some(0x90), Some(NoteOn(60, 100)), 4, 0), MidiEvent(Some(0x90), None, 7, 10)]
    ensures TrackEvents([0x00, 0x90, 0x3C, 0x64, 0x0A, 0x90, 0x3C, 0x00], 0, 8)
         == [MidiEvent(Some(0x90), Some(NoteOn(60, 100)), 4, 0), MidiEvent(Some(0x90), None, 8, 10)]
  {
    var omitted: seq<Byte> := [0x00, 0x90, 0x3C, 0x64, 0x0A, 0x3C, 0x00];
    var written: seq<Byte> := [0x00, 0x90, 0x3C, 0x64, 0x0A, 0x90, 0x3C, 0x00];
    var first := Voice(Some(0x90), Some(NoteOn(60, 100)), 4);
    FirstNoteOn(omitted);
    FirstNoteOn(written);
    VlqOneByte(omitted, 4);
    VlqOneByte(written, 4);
    StepVoice(omitted, 4, Some(0x90));
    StepVoice(written, 4, Some(0x90));
    assert StepAt(omitted, 4, Some(0x90)) == Step(10, Some(Voice(Some(0x90), None, 7)), 7, Some(0x90));
    assert StepAt(written, 4, Some(0x90)) == Step(10, Some(Voice(Some(0x90), None, 8)), 8, Some(0x90));
    TrackFromUnfold(omitted, 7, 0, None, 0, 4, Some(0x90), 0);
    TrackFromUnfold(omitted, 7, 4, Some(0x90), 0, 7, Some(0x90), 10);
    TrackFromUnfold(written, 8, 0, None, 0, 4, Some(0x90), 0);
    TrackFromUnfold(written, 8, 4, Some(0x90), 0, 8, Some(0x90), 10);
  }

  /** The opening `00 90 3C 64` of both example tracks: a note-on of note 60 at velocity 100. */
  lemma FirstNoteOn(buf: seq<Byte>)
    requires |buf| >= 4 && buf[..4] == [0x00, 0x90, 0x3C, 0x64]
    ensures StepAt(buf, 0, None) == Step(0, Some(Voice(Some(0x90), Some(NoteOn(60, 100)), 4)), 4, Some(0x90))
  {
    assert buf[0] == 0x00 && buf[1] == 0x90 && buf[2] == 0x3C && buf[3] == 0x64;
    VlqOneByte(buf, 0);
    StepVoice(buf, 0, None);
  }

  /** A data byte in status position before any status: the event is pushed with no status and two data bytes. */
  lemma {:induction false} RunningStatusWithoutStatusExample()
    ensures TrackEvents([0x00, 0x3C, 0x64], 0, 3) == [MidiEvent(None, None, 3, 0)]
  {
    var buf: seq<Byte> := [0x00, 0x3C, 0x64];
    VlqOneByte(buf, 0);
    StepVoice(buf, 0, None);
    assert StepAt(buf, 0, None) == Step(0, Some(Voice(None, None, 3)), 3, None);
    TrackFromUnfold(buf, 3, 0, None, 0, 3, None, 0);
  }
}
