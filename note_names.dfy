/**
 * `App.getNoteNameFromMIDI`: a MIDI note number written as its pitch class
 * from a twelve-entry table followed by its octave, where note 60 is `C4`.
 */
module NoteNames {
  import opened Wrappers

  /** The table of pitch classes, indexed by `note % 12`. */
  const PITCH_CLASSES: seq<string> := ["C", "C#", "D", "D#", "E", "F", "F#", "G", "G#", "A", "A#", "B"]

  /** `Math.floor(midiNote / 12) - 1`: octave -1 holds notes 0 to 11. */
  function Octave(midiNote: nat): (octave: int)
    ensures -1 <= octave
    ensures (octave + 1) * 12 <= midiNote < (octave + 2) * 12
    ensures midiNote <= 127 ==> octave <= 9
  {
    midiNote / 12 - 1
  }

  function DigitChar(d: nat): (c: char)
    requires d < 10
    ensures '0' <= c <= '9'
  {
    ('0' as int + d) as char
  }

  predicate IsDigit(c: char)
  {
    '0' <= c <= '9'
  }

  /** The decimal digits of `n`, without leading zeros. */
  function Digits(n: nat): (s: string)
    ensures s != []
    ensures forall i :: 0 <= i < |s| ==> IsDigit(s[i])
    decreases n
  {
    if n < 10 then [DigitChar(n)] else Digits(n / 10) + [DigitChar(n % 10)]
  }

  /** How a template literal renders an integer: its digits, after a minus sign when negative. */
  function Decimal(i: int): (s: string)
    ensures s != [] && (s[0] == '-' || IsDigit(s[0]))
  {
    if i < 0 then "-" + Digits(-i) else Digits(i)
  }

  /** `getNoteNameFromMIDI(midiNote)` for a note number that is not negative. */
  function NoteName(midiNote: nat): string
  {
    PITCH_CLASSES[midiNote % 12] + Decimal(Octave(midiNote))
  }

  // ---------------------------------------------------------------------
  // Reading a name back

  /** The value of a string of decimal digits. */
  function DigitsValue(s: string): nat
    requires s != [] && forall i :: 0 <= i < |s| ==> IsDigit(s[i])
    decreases |s|
  {
    assert IsDigit(s[|s| - 1]);
    var d: nat := s[|s| - 1] as int - '0' as int;
    if |s| == 1 then d else DigitsValue(s[..|s| - 1]) * 10 + d
  }

  /** The integer a string of `Decimal`'s shape stands for. */
  function DecimalValue(s: string): Option<int>
  {
    if s != [] && s[0] == '-' && |s| > 1 && forall i :: 1 <= i < |s| ==> IsDigit(s[i]) then
      var magnitude: int := DigitsValue(s[1..]);
      Some(-magnitude)
    else if s != [] && forall i :: 0 <= i < |s| ==> IsDigit(s[i]) then
      Some(DigitsValue(s))
    else None
  }

  /** The position of a pitch class in the table. */
  function PitchIndex(pitch: string): (r: Option<nat>)
    ensures r.Some? ==> r.value < 12 && PITCH_CLASSES[r.value] == pitch
  {
    if pitch == "C" then Some(0) else if pitch == "C#" then Some(1)
    else if pitch == "D" then Some(2) else if pitch == "D#" then Some(3)
    else if pitch == "E" then Some(4) else if pitch == "F" then Some(5)
    else if pitch == "F#" then Some(6) else if pitch == "G" then Some(7)
    else if pitch == "G#" then Some(8) else if pitch == "A" then Some(9)
    else if pitch == "A#" then Some(10) else if pitch == "B" then Some(11)
    else None
  }

  /** The note a name stands for: its pitch class, one or two characters, then its octave. */
  function NoteFromName(name: string): Option<nat>
  {
    var k := if |name| >= 2 && name[1] == '#' then 2 else 1;
    if |name| < k then None
    else
      match (PitchIndex(name[..k]), DecimalValue(name[k..]))
      case (Some(pitch), Some(octave)) =>
        var n := (octave + 1) * 12 + pitch;
        if n >= 0 then Some(n) else None
      case _ => None
  }

  lemma {:induction false} DigitsRoundTrip(n: nat)
    ensures DigitsValue(Digits(n)) == n
    decreases n
  {
    if n >= 10 {
      var s := Digits(n);
      DigitsRoundTrip(n / 10);
      assert s[..|s| - 1] == Digits(n / 10);
    }
  }

  lemma DecimalRoundTrip(i: int)
    ensures DecimalValue(Decimal(i)) == Some(i)
  {
    var s := Decimal(i);
    if i < 0 {
      DigitsRoundTrip(-i);
      assert s[1..] == Digits(-i);
    } else {
      DigitsRoundTrip(i);
    }
  }

  lemma PitchIndexOfTable(k: nat)
    requires k < 12
    ensures PitchIndex(PITCH_CLASSES[k]) == Some(k)
  {
  }

  /** A name read back gives the note it was made from. */
  lemma NoteNameRoundTrip(midiNote: nat)
    ensures NoteFromName(NoteName(midiNote)) == Some(midiNote)
  {
    var pitch, octave := PITCH_CLASSES[midiNote % 12], Decimal(Octave(midiNote));
    var name := NoteName(midiNote);
    var k := |pitch|;
    assert name[..k] == pitch && name[k..] == octave;
    assert k == 2 <==> name[1] == '#';
    PitchIndexOfTable(midiNote % 12);
    DecimalRoundTrip(Octave(midiNote));
  }

  /** Different notes have different names. */
  lemma NoteNamesDistinct(n1: nat, n2: nat)
    requires n1 != n2
    ensures NoteName(n1) != NoteName(n2)
  {
    NoteNameRoundTrip(n1);
    NoteNameRoundTrip(n2);
  }

  /** Twelve semitones up is the same pitch class one octave higher. */
  lemma OctaveUp(midiNote: nat)
    ensures NoteName(midiNote + 12) == PITCH_CLASSES[midiNote % 12] + Decimal(Octave(midiNote) + 1)
  {
    assert (midiNote + 12) % 12 == midiNote % 12;
    assert Octave(midiNote + 12) == Octave(midiNote) + 1;
  }

  /** Middle C, concert A and both ends of the MIDI range. */
  lemma NoteNameExamples()
    ensures NoteName(60) == "C4"
    ensures NoteName(69) == "A4"
    ensures NoteName(0) == "C-1"
    ensures NoteName(127) == "G9"
  {
    assert Decimal(4) == "4";
    assert Decimal(-1) == "-1";
    assert Decimal(9) == "9";
  }
}
