/**
 * The data side of `SVGGenerator`: `processNotes` gathers the events with a
 * defined `note` across all tracks and sorts them by time; `generate` stops
 * before computing any scale when there is none; `calculateScales` takes the
 * last note's time as the maximum and falls back to a unit time scale when
 * it is zero; `addNotes` places a note `127 - note` rows from the top.
 */
module SvgGenerator {
  import opened Wrappers
  import opened MidiBytes
  import opened MidiTrack
  import opened MidiParser

  /** `event.note !== undefined`: only note-ons of positive velocity carry a note. */
  predicate HasNote(e: MidiEvent)
  {
    e.noteOn.Some?
  }

  /** The events of all tracks, track after track, each in its own order. */
  function Flatten(tracks: Tracks): (events: seq<MidiEvent>)
    decreases |tracks|
  {
    if tracks == [] then [] else Flatten(tracks[..|tracks| - 1]) + tracks[|tracks| - 1]
  }

  /** The events of `events` that carry a note, in their order. */
  function Sounding(events: seq<MidiEvent>): (notes: seq<MidiEvent>)
    decreases |events|
  {
    if events == [] then []
    else
      var last := events[|events| - 1];
      Sounding(events[..|events| - 1]) + (if HasNote(last) then [last] else [])
  }

  // ---------------------------------------------------------------------
  // Flattening and filtering

  /** An event is flattened exactly when some track holds it. */
  lemma {:induction false} FlattenMembers(tracks: Tracks, e: MidiEvent)
    ensures e in Flatten(tracks) <==> exists i :: 0 <= i < |tracks| && e in tracks[i]
    decreases |tracks|
  {
    if tracks != [] {
      var init := tracks[..|tracks| - 1];
      FlattenMembers(init, e);
      if e in Flatten(init) {
        var i :| 0 <= i < |init| && e in init[i];
        assert e in tracks[i];
      }
      if exists i :: 0 <= i < |tracks| && e in tracks[i] {
        var i :| 0 <= i < |tracks| && e in tracks[i];
        if i < |init| {
          assert e in init[i];
        }
      }
    }
  }

  /** Filtering keeps each event with a note as often as it occurs and drops every other event. */
  lemma {:induction false} SoundingCounts(events: seq<MidiEvent>)
    ensures forall e :: multiset(Sounding(events))[e] == if HasNote(e) then multiset(events)[e] else 0
    decreases |events|
  {
    if events != [] {
      var init, last := events[..|events| - 1], events[|events| - 1];
      SoundingCounts(init);
      assert events == init + [last];
    }
  }

  /** Filtering keeps the order of the events it keeps. */
  lemma {:induction false} SoundingAppend(a: seq<MidiEvent>, b: seq<MidiEvent>)
    ensures Sounding(a + b) == Sounding(a) + Sounding(b)
    decreases |b|
  {
    if b != [] {
      var init, last := b[..|b| - 1], b[|b| - 1];
      assert (a + b)[..|a + b| - 1] == a + init && (a + b)[|a + b| - 1] == last;
      SoundingAppend(a, init);
    } else {
      assert a + b == a;
    }
  }

  // ---------------------------------------------------------------------
  // The stable sort by time

  /** `e` placed before the first event whose time is not below its own. */
  function InsertByTime(e: MidiEvent, s: seq<MidiEvent>): (r: seq<MidiEvent>)
    ensures |r| == |s| + 1
  {
    if s == [] || e.time <= s[0].time then [e] + s else [s[0]] + InsertByTime(e, s[1..])
  }

  /**
   * `notes.sort((a, b) => a.time - b.time)`: ECMAScript requires the sort to
   * be stable, so events of equal time keep their order. Inserting the
   * events from the last to the first is such a sort.
   */
  function SortByTime(s: seq<MidiEvent>): (r: seq<MidiEvent>)
    ensures |r| == |s|
  {
    if s == [] then [] else InsertByTime(s[0], SortByTime(s[1..]))
  }

  predicate SortedByTime(s: seq<MidiEvent>)
  {
    forall i, j :: 0 <= i < j < |s| ==> s[i].time <= s[j].time
  }

  /** The events of time `t`, in their order: what a stable sort must not reorder. */
  function AtTime(s: seq<MidiEvent>, t: int): (r: seq<MidiEvent>)
    ensures |r| <= |s|
  {
    if s == [] then [] else (if s[0].time == t then [s[0]] else []) + AtTime(s[1..], t)
  }

  lemma {:induction false} InsertSorted(e: MidiEvent, s: seq<MidiEvent>)
    requires SortedByTime(s)
    ensures SortedByTime(InsertByTime(e, s))
    ensures s != [] ==> InsertByTime(e, s)[0].time == if e.time <= s[0].time then e.time else s[0].time
  {
    if s != [] && e.time > s[0].time {
      var rest := InsertByTime(e, s[1..]);
      SortedTail(s);
      InsertSorted(e, s[1..]);
      assert s[0].time <= rest[0].time by {
        if s[1..] != [] {
          assert s[1..][0] == s[1];
        }
      }
      forall i, j | 0 <= i < j < |rest| + 1 ensures ([s[0]] + rest)[i].time <= ([s[0]] + rest)[j].time {
        if i == 0 && j > 1 {
          assert rest[0].time <= rest[j - 1].time;
        }
      }
    }
  }

  lemma {:induction false} InsertPermutes(e: MidiEvent, s: seq<MidiEvent>)
    ensures multiset(InsertByTime(e, s)) == multiset(s) + multiset{e}
  {
    if s != [] && e.time > s[0].time {
      InsertPermutes(e, s[1..]);
      assert s == [s[0]] + s[1..];
    }
  }

  lemma {:induction false} InsertAtTime(e: MidiEvent, s: seq<MidiEvent>, t: int)
    ensures AtTime(InsertByTime(e, s), t) == if e.time == t then [e] + AtTime(s, t) else AtTime(s, t)
  {
    if s != [] && e.time > s[0].time {
      InsertAtTime(e, s[1..], t);
      var r := InsertByTime(e, s);
      assert r[1..] == InsertByTime(e, s[1..]);
      if e.time == t {
        assert AtTime(r, t) == AtTime(r[1..], t);
      }
    }
  }

  /** The sort orders the events by time and keeps every event as often as it occurs. */
  lemma {:induction false} SortByTimeSorts(s: seq<MidiEvent>)
    ensures SortedByTime(SortByTime(s))
    ensures multiset(SortByTime(s)) == multiset(s)
  {
    if s != [] {
      SortByTimeSorts(s[1..]);
      InsertSorted(s[0], SortByTime(s[1..]));
      InsertPermutes(s[0], SortByTime(s[1..]));
      assert s == [s[0]] + s[1..];
    }
  }

  /** The sort is stable: the events of any one time keep their order. */
  lemma {:induction false} SortByTimeStable(s: seq<MidiEvent>, t: int)
    ensures AtTime(SortByTime(s), t) == AtTime(s, t)
  {
    if s != [] {
      SortByTimeStable(s[1..], t);
      InsertAtTime(s[0], SortByTime(s[1..]), t);
    }
  }

  lemma AtTimeHead(r: seq<MidiEvent>)
    requires r != []
    ensures AtTime(r, r[0].time) == [r[0]] + AtTime(r[1..], r[0].time)
  {
  }

  /** In a sorted sequence no event has a time below the first one's, so the earlier times have no events. */
  lemma {:induction false} AtTimeBelowFirst(r: seq<MidiEvent>, t: int)
    requires SortedByTime(r) && r != [] && t < r[0].time
    ensures AtTime(r, t) == []
    decreases |r|
  {
    if |r| > 1 {
      assert r[0].time <= r[1].time;
      assert SortedByTime(r[1..]) by {
        forall i, j | 0 <= i < j < |r| - 1 ensures r[1..][i].time <= r[1..][j].time {
          assert r[1..][i] == r[i + 1] && r[1..][j] == r[j + 1];
        }
      }
      AtTimeBelowFirst(r[1..], t);
    }
  }

  lemma SortedTail(r: seq<MidiEvent>)
    requires SortedByTime(r) && r != []
    ensures SortedByTime(r[1..])
  {
    forall i, j | 0 <= i < j < |r| - 1 ensures r[1..][i].time <= r[1..][j].time {
      assert r[1..][i] == r[i + 1] && r[1..][j] == r[j + 1];
    }
  }

  /**
   * A sorted sequence is determined by the order of the events within each
   * time: two sorted sequences that agree on it are equal.
   */
  lemma {:induction false} SortedUnique(r1: seq<MidiEvent>, r2: seq<MidiEvent>)
    requires SortedByTime(r1) && SortedByTime(r2)
    requires forall t :: AtTime(r1, t) == AtTime(r2, t)
    ensures r1 == r2
    decreases |r1|
  {
    if r1 == [] || r2 == [] {
      var r := if r1 == [] then r2 else r1;
      if r != [] {
        AtTimeHead(r);
      }
    } else {
      var m1, m2 := r1[0].time, r2[0].time;
      AtTimeHead(r1);
      AtTimeHead(r2);
      if m1 < m2 {
        AtTimeBelowFirst(r2, m1);
      } else if m2 < m1 {
        AtTimeBelowFirst(r1, m2);
      }
      assert AtTime(r1, m1) == AtTime(r2, m1) && AtTime(r1, m2) == AtTime(r2, m2);
      assert m1 == m2;
      assert r1[0] == AtTime(r1, m1)[0] == AtTime(r2, m1)[0] == r2[0];
      SortedTail(r1);
      SortedTail(r2);
      forall t ensures AtTime(r1[1..], t) == AtTime(r2[1..], t) {
        var head := if m1 == t then [r1[0]] else [];
        assert AtTime(r1, t) == head + AtTime(r1[1..], t);
        assert AtTime(r2, t) == head + AtTime(r2[1..], t);
        assert AtTime(r1[1..], t) == (head + AtTime(r1[1..], t))[|head|..];
        assert AtTime(r2[1..], t) == (head + AtTime(r2[1..], t))[|head|..];
      }
      SortedUnique(r1[1..], r2[1..]);
      assert r1 == [r1[0]] + r1[1..];
      assert r2 == [r2[0]] + r2[1..];
    }
  }

  /**
   * What ECMAScript promises for a stable sort by time characterises its
   * result: the only sorted sequence whose events of each time are in the
   * order of `s` is `SortByTime(s)`.
   */
  lemma StableSortIsUnique(s: seq<MidiEvent>, r: seq<MidiEvent>)
    requires SortedByTime(r) && forall t :: AtTime(r, t) == AtTime(s, t)
    ensures r == SortByTime(s)
  {
    SortByTimeSorts(s);
    forall t ensures AtTime(r, t) == AtTime(SortByTime(s), t) {
      SortByTimeStable(s, t);
    }
    SortedUnique(r, SortByTime(s));
  }

  // ---------------------------------------------------------------------
  // processNotes

  /** The list `processNotes(midiData)` returns. */
  function ProcessedNotes(midiData: Tracks): seq<MidiEvent>
  {
    SortByTime(Sounding(Flatten(midiData)))
  }

  /**
   * `processNotes`: the nested `forEach` loops push every event with a note,
   * track after track; the array is then sorted by time.
   */
  method ProcessNotes(midiData: Tracks) returns (notes: seq<MidiEvent>)
    ensures notes == ProcessedNotes(midiData)
    ensures SortedByTime(notes)
    ensures multiset(notes) == multiset(Sounding(Flatten(midiData)))
    ensures forall t :: AtTime(notes, t) == AtTime(Sounding(Flatten(midiData)), t)
  {
    notes := [];
    var i := 0;
    while i < |midiData|
      invariant 0 <= i <= |midiData|
      invariant notes == Sounding(Flatten(midiData[..i]))
    {
      var track := midiData[i];
      ghost var before := notes;
      var j := 0;
      while j < |track|
        invariant 0 <= j <= |track|
        invariant notes == before + Sounding(track[..j])
      {
        var event := track[j];
        assert track[..j + 1][..j] == track[..j];
        if HasNote(event) {
          notes := notes + [event];
        }
        j := j + 1;
      }
      assert track[..j] == track;
      assert midiData[..i + 1][..i] == midiData[..i];
      SoundingAppend(Flatten(midiData[..i]), track);
      i := i + 1;
    }
    assert midiData[..i] == midiData;
    var flat := notes;
    notes := SortByTime(notes);
    SortByTimeSorts(flat);
    forall t ensures AtTime(notes, t) == AtTime(flat, t) {
      SortByTimeStable(flat, t);
    }
  }

  /** `processNotes` keeps exactly the events with a note, from whichever track, as often as they occur. */
  lemma ProcessedNotesMembers(midiData: Tracks, e: MidiEvent)
    ensures multiset(ProcessedNotes(midiData))[e] == if HasNote(e) then multiset(Flatten(midiData))[e] else 0
    ensures e in ProcessedNotes(midiData) <==> HasNote(e) && exists i :: 0 <= i < |midiData| && e in midiData[i]
  {
    var flat := Flatten(midiData);
    SortByTimeSorts(Sounding(flat));
    SoundingCounts(flat);
    FlattenMembers(midiData, e);
    assert e in ProcessedNotes(midiData) <==> multiset(ProcessedNotes(midiData))[e] > 0;
    assert e in flat <==> multiset(flat)[e] > 0;
  }

  // ---------------------------------------------------------------------
  // generate and calculateScales

  /** The time scale `calculateScales` picks: the usable width over `maxTime`, or 1 when `maxTime` is 0. */
  datatype TimeScale = WidthOver(maxTime: int) | Unit

  /** `calculateScales`, for the time scale: `maxTime` is the time of the last note. */
  function CalculateScales(notes: seq<MidiEvent>): TimeScale
    requires notes != []
  {
    var maxTime := notes[|notes| - 1].time;
    if maxTime != 0 then WidthOver(maxTime) else Unit
  }

  /** The largest time among `events`. */
  function MaxTime(events: seq<MidiEvent>): (m: int)
    requires events != []
    ensures exists i :: 0 <= i < |events| && events[i].time == m
    ensures forall i :: 0 <= i < |events| ==> events[i].time <= m
  {
    if |events| == 1 then events[0].time
    else
      var m := MaxTime(events[1..]);
      assert forall i :: 1 <= i < |events| ==> events[i] == events[1..][i - 1];
      if events[0].time >= m then events[0].time else m
  }

  /**
   * On sorted notes the last time is the maximum time, so the fallback to a
   * unit scale is taken exactly when the latest note is at time 0.
   */
  lemma CalculateScalesUsesMaximum(notes: seq<MidiEvent>)
    requires notes != [] && SortedByTime(notes)
    ensures CalculateScales(notes) == Unit <==> MaxTime(notes) == 0
    ensures CalculateScales(notes).WidthOver? ==> CalculateScales(notes).maxTime == MaxTime(notes)
  {
    var i :| 0 <= i < |notes| && notes[i].time == MaxTime(notes);
    if i < |notes| - 1 {
      assert notes[i].time <= notes[|notes| - 1].time;
    }
  }

  /**
   * `generate`, for what decides the drawing: with no notes no scale is
   * computed and no grid and no note are drawn (only the background),
   * otherwise the time scale of the sorted notes.
   */
  function Generate(midiData: Tracks): (scale: Option<TimeScale>)
  {
    var notes := ProcessedNotes(midiData);
    if |notes| == 0 then None else Some(CalculateScales(notes))
  }

  /**
   * `generate` returns before `calculateScales` exactly when no track has an
   * event with a note, and otherwise scales by the largest time of any note.
   */
  lemma GenerateGuard(midiData: Tracks)
    ensures Generate(midiData).None? <==> forall i, e :: 0 <= i < |midiData| && e in midiData[i] ==> !HasNote(e)
    ensures Generate(midiData).Some? ==>
      (Generate(midiData).value == Unit <==> MaxTime(ProcessedNotes(midiData)) == 0)
  {
    var notes := ProcessedNotes(midiData);
    if notes != [] {
      ProcessedNotesMembers(midiData, notes[0]);
      SortByTimeSorts(Sounding(Flatten(midiData)));
      CalculateScalesUsesMaximum(notes);
    } else {
      forall i, e | 0 <= i < |midiData| && e in midiData[i] ensures !HasNote(e) {
        ProcessedNotesMembers(midiData, e);
      }
    }
  }

  /** The scaled vertical offset `127 - note` of a note's rectangle. */
  function VerticalOffset(note: Byte): (rows: int)
    ensures note <= 127 ==> 0 <= rows <= 127
    ensures rows + note == 127
  {
    127 - note
  }

  /** A higher note is drawn higher: the offset strictly decreases as the note rises. */
  lemma VerticalOffsetOrder(n1: Byte, n2: Byte)
    ensures n1 < n2 <==> VerticalOffset(n1) > VerticalOffset(n2)
  {
  }
}
