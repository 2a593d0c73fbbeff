/** The pitch catalogue of src/lib/notes.ts: the fixed table of seventeen
    pitches per clef, note labels such as "C4", the numeric pitch value and
    the inclusive, clef-scoped range filter. */
module Notes {
  import opened Common
  import opened Types

  /** A table entry, and what a label parses to: a letter and an octave. */
  datatype Pitch = Pitch(name: NoteName, octave: int)

  /** The labels of a default range. */
  datatype Bounds = Bounds(start: string, end: string)

  /** C4 (two ledger lines below the treble staff) up to E6. */
  const TrebleNotes: seq<Pitch> := [
    Pitch(C, 4), Pitch(D, 4),
    Pitch(E, 4), Pitch(F, 4), Pitch(G, 4), Pitch(A, 4), Pitch(B, 4),
    Pitch(C, 5), Pitch(D, 5), Pitch(E, 5), Pitch(F, 5), Pitch(G, 5),
    Pitch(A, 5), Pitch(B, 5), Pitch(C, 6),
    Pitch(D, 6), Pitch(E, 6)]

  /** E2 (two ledger lines below the bass staff) up to G4. */
  const BassNotes: seq<Pitch> := [
    Pitch(E, 2), Pitch(F, 2),
    Pitch(G, 2), Pitch(A, 2), Pitch(B, 2), Pitch(C, 3), Pitch(D, 3),
    Pitch(E, 3), Pitch(F, 3), Pitch(G, 3), Pitch(A, 3), Pitch(B, 3),
    Pitch(C, 4), Pitch(D, 4), Pitch(E, 4),
    Pitch(F, 4), Pitch(G, 4)]

  function Table(clef: Clef): seq<Pitch> {
    if clef == Treble then TrebleNotes else BassNotes
  }

  /** The clef's table, each entry tagged with the clef. */
  function GetAllNotes(clef: Clef): (r: seq<Note>)
    ensures |r| == 17
    ensures forall i :: 0 <= i < |r| ==> r[i].clef == clef
    ensures forall i :: 0 <= i < |r| ==> r[i].name == Table(clef)[i].name && r[i].octave == Table(clef)[i].octave
  {
    var t := Table(clef);
    seq(|t|, i requires 0 <= i < |t| => Note(t[i].name, t[i].octave, clef))
  }

  // ----- Labels -----

  function Letter(n: NoteName): char {
    match n
    case C => 'C' case D => 'D' case E => 'E' case F => 'F'
    case G => 'G' case A => 'A' case B => 'B'
  }

  function LowerLetter(n: NoteName): char {
    match n
    case C => 'c' case D => 'd' case E => 'e' case F => 'f'
    case G => 'g' case A => 'a' case B => 'b'
  }

  /** The letter a character names, if it is one of A to G. */
  function NameOf(ch: char): (r: Option<NoteName>)
    ensures r.Some? <==> 'A' <= ch <= 'G'
    ensures r.Some? ==> Letter(r.value) == ch
  {
    match ch
    case 'C' => Some(C) case 'D' => Some(D) case 'E' => Some(E) case 'F' => Some(F)
    case 'G' => Some(G) case 'A' => Some(A) case 'B' => Some(B)
    case _ => None
  }

  lemma NameOfLetter(n: NoteName)
    ensures NameOf(Letter(n)) == Some(n)
  {
  }

  predicate IsDigit(ch: char) { '0' <= ch <= '9' }

  predicate AllDigits(s: string) { forall i :: 0 <= i < |s| ==> IsDigit(s[i]) }

  function DigitChar(d: nat): char
    requires d < 10
  {
    ['0', '1', '2', '3', '4', '5', '6', '7', '8', '9'][d]
  }

  function DigitValue(ch: char): nat
    requires IsDigit(ch)
  {
    (ch as int - '0' as int) as nat
  }

  /** The decimal numeral of a natural number, as a template string prints it. */
  function NatToString(n: nat): (r: string)
    ensures |r| > 0 && AllDigits(r)
    decreases n
  {
    if n < 10 then [DigitChar(n)] else NatToString(n / 10) + [DigitChar(n % 10)]
  }

  function IntToString(i: int): string {
    if i < 0 then "-" + NatToString(-i) else NatToString(i)
  }

  /** `parseInt(s, 10)` on a string of decimal digits. */
  function DigitsValue(s: string): nat
    requires AllDigits(s)
  {
    if s == [] then 0 else DigitsValue(s[..|s| - 1]) * 10 + DigitValue(s[|s| - 1])
  }

  lemma {:induction false} DigitsValueOfNatToString(n: nat)
    ensures DigitsValue(NatToString(n)) == n
    decreases n
  {
    if n >= 10 {
      var s := NatToString(n / 10);
      var t := s + [DigitChar(n % 10)];
      assert t[..|t| - 1] == s;
      DigitsValueOfNatToString(n / 10);
    }
  }

  /** `noteToString`: the letter followed by the octave, as in "C4". */
  function NoteToString(note: Note): string {
    [Letter(note.name)] + IntToString(note.octave)
  }

  /** `noteToVexFlowKey`: the lower-case letter, a slash, then the octave. */
  function NoteToVexFlowKey(note: Note): (r: string)
    ensures |r| >= 3 && r[0] == LowerLetter(note.name) && r[1] == '/'
    ensures r[2..] == IntToString(note.octave)
    ensures 'a' <= r[0] <= 'g' && r[0] as int - 'a' as int == Letter(note.name) as int - 'A' as int
    ensures r[2..] == NoteToString(note)[1..]
  {
    [LowerLetter(note.name)] + "/" + IntToString(note.octave)
  }

  /** `areNotesEqual`: name, octave and clef all agree. */
  function AreNotesEqual(n1: Note, n2: Note): (r: bool)
    ensures r <==> n1 == n2
  {
    n1.name == n2.name && n1.octave == n2.octave && n1.clef == n2.clef
  }

  lemma AreNotesEqualIsEquivalence(a: Note, b: Note, c: Note)
    ensures AreNotesEqual(a, a)
    ensures AreNotesEqual(a, b) == AreNotesEqual(b, a)
    ensures AreNotesEqual(a, b) && AreNotesEqual(b, c) ==> AreNotesEqual(a, c)
  {
  }

  /** `parseNoteString`: the label must match `^([A-G])(\d+)$`. */
  function ParseNoteString(s: string): (r: Option<Pitch>)
    ensures r.Some? <==> |s| >= 2 && 'A' <= s[0] <= 'G' && AllDigits(s[1..])
    ensures r.Some? ==> Letter(r.value.name) == s[0] && r.value.octave == DigitsValue(s[1..])
  {
    if |s| >= 2 && NameOf(s[0]).Some? && AllDigits(s[1..])
    then Some(Pitch(NameOf(s[0]).value, DigitsValue(s[1..])))
    else None
  }

  /** A label printed from a note with a non-negative octave parses back to it. */
  lemma ParseNoteToString(note: Note)
    requires note.octave >= 0
    ensures ParseNoteString(NoteToString(note)) == Some(Pitch(note.name, note.octave))
  {
    var s := NoteToString(note);
    assert s[1..] == NatToString(note.octave);
    DigitsValueOfNatToString(note.octave);
    NameOfLetter(note.name);
  }

  /** A negative octave prints with a minus sign, which the parser refuses. */
  lemma ParseRejectsNegativeOctave(note: Note)
    requires note.octave < 0
    ensures ParseNoteString(NoteToString(note)) == None
  {
    assert NoteToString(note)[1] == '-';
  }

  // ----- Pitch values -----

  /** Semitones above C within an octave. */
  function Offset(n: NoteName): (r: int)
    ensures 0 <= r <= 11
  {
    match n
    case C => 0 case D => 2 case E => 4 case F => 5
    case G => 7 case A => 9 case B => 11
  }

  /** Position of a letter in the scale C D E F G A B. */
  function ScaleIndex(n: NoteName): int {
    match n
    case C => 0 case D => 1 case E => 2 case F => 3
    case G => 4 case A => 5 case B => 6
  }

  /** `getNoteValue`: octave * 12 + semitone offset; the clef plays no part. */
  function GetNoteValue(note: Note): int {
    note.octave * 12 + Offset(note.name)
  }

  /** Pitch values order notes by octave first and by letter second. */
  lemma {:induction false} NoteValueOrder(a: Note, b: Note)
    ensures GetNoteValue(a) < GetNoteValue(b) <==>
      a.octave < b.octave || (a.octave == b.octave && ScaleIndex(a.name) < ScaleIndex(b.name))
    ensures GetNoteValue(a) == GetNoteValue(b) <==> a.octave == b.octave && a.name == b.name
  {
    var oa, ob := Offset(a.name), Offset(b.name);
    if a.octave < b.octave {
      assert a.octave * 12 + 12 <= b.octave * 12;
    } else if a.octave > b.octave {
      assert b.octave * 12 + 12 <= a.octave * 12;
    }
  }

  /** Each clef's table rises strictly in pitch. */
  lemma CatalogueStrictlyIncreasing(clef: Clef)
    ensures forall i, j :: 0 <= i < j < 17 ==> GetNoteValue(GetAllNotes(clef)[i]) < GetNoteValue(GetAllNotes(clef)[j])
  {
    var t := Table(clef);
    var v := seq(17, i requires 0 <= i < 17 => PitchValue(t[i]));
    if clef == Treble { TrebleSteps(); } else { BassSteps(); }
    StepsIncreasing(v);
    forall i | 0 <= i < 17 ensures GetNoteValue(GetAllNotes(clef)[i]) == v[i] {
    }
  }

  /** The pitch value of a table entry: `getNoteValue` of the entry under
      any clef, since the clef plays no part. */
  function PitchValue(p: Pitch): int {
    GetNoteValue(Note(p.name, p.octave, Treble))
  }

  lemma TrebleSteps()
    ensures forall k :: 0 <= k < 16 ==> PitchValue(TrebleNotes[k]) < PitchValue(TrebleNotes[k + 1])
  {
  }

  lemma BassSteps()
    ensures forall k :: 0 <= k < 16 ==> PitchValue(BassNotes[k]) < PitchValue(BassNotes[k + 1])
  {
  }

  /** A sequence that rises at every step rises between any two positions. */
  lemma {:induction false} StepsIncreasing(v: seq<int>)
    requires forall k :: 0 <= k < |v| - 1 ==> v[k] < v[k + 1]
    ensures forall i, j :: 0 <= i < j < |v| ==> v[i] < v[j]
  {
    if |v| > 1 {
      var rest := v[1..];
      assert forall k :: 0 <= k < |rest| - 1 ==> rest[k] < rest[k + 1] by {
        forall k | 0 <= k < |rest| - 1 ensures rest[k] < rest[k + 1] { assert rest[k] == v[k + 1] && rest[k + 1] == v[k + 2]; }
      }
      StepsIncreasing(rest);
      forall i, j | 0 <= i < j < |v| ensures v[i] < v[j] {
        if i > 0 {
          assert v[i] == rest[i - 1] && v[j] == rest[j - 1];
        } else {
          assert v[1] == rest[0];
          if j > 1 { assert v[j] == rest[j - 1]; }
        }
      }
    }
  }

  // ----- Ranges -----

  /** `isNoteInRange`: inclusive at both ends; a bound that does not parse
      lets every note in. */
  function IsNoteInRange(note: Note, startNote: string, endNote: string): bool {
    var start := ParseNoteString(startNote);
    var end := ParseNoteString(endNote);
    if start.None? || end.None? then true
    else
      var startValue := GetNoteValue(Note(start.value.name, start.value.octave, note.clef));
      var endValue := GetNoteValue(Note(end.value.name, end.value.octave, note.clef));
      startValue <= GetNoteValue(note) <= endValue
  }

  /** The value a well-formed label stands for. */
  function LabelValue(text: string): int
    requires ParseNoteString(text).Some?
  {
    PitchValue(ParseNoteString(text).value)
  }

  lemma InRangeUnparsable(note: Note, startNote: string, endNote: string)
    requires ParseNoteString(startNote).None? || ParseNoteString(endNote).None?
    ensures IsNoteInRange(note, startNote, endNote)
  {
  }

  lemma InRangeIff(note: Note, startNote: string, endNote: string)
    requires ParseNoteString(startNote).Some? && ParseNoteString(endNote).Some?
    ensures IsNoteInRange(note, startNote, endNote) <==>
      LabelValue(startNote) <= GetNoteValue(note) <= LabelValue(endNote)
  {
  }

  /** Between the labels of two notes (non-negative octaves), a note is in
      range exactly when its value lies between theirs, both ends included. */
  lemma InRangeBetweenNotes(note: Note, lo: Note, hi: Note)
    requires lo.octave >= 0 && hi.octave >= 0
    ensures IsNoteInRange(note, NoteToString(lo), NoteToString(hi)) <==>
      GetNoteValue(lo) <= GetNoteValue(note) <= GetNoteValue(hi)
  {
    ParseNoteToString(lo);
    ParseNoteToString(hi);
  }

  /** The filter predicate of `getNotesInRange`. */
  function InRange(startNote: string, endNote: string): Note -> bool {
    (n: Note) => IsNoteInRange(n, startNote, endNote)
  }

  /** `getNotesInRange`: the catalogue entries in range, in catalogue order. */
  function GetNotesInRange(clef: Clef, startNote: string, endNote: string): (r: seq<Note>)
    ensures IsSubsequence(r, GetAllNotes(clef))
    ensures forall n :: n in r <==> n in GetAllNotes(clef) && IsNoteInRange(n, startNote, endNote)
    ensures |r| <= 17
  {
    Filter(GetAllNotes(clef), InRange(startNote, endNote))
  }

  lemma NotesInRangeUnparsable(clef: Clef, startNote: string, endNote: string)
    requires ParseNoteString(startNote).None? || ParseNoteString(endNote).None?
    ensures GetNotesInRange(clef, startNote, endNote) == GetAllNotes(clef)
  {
    FilterKeepsAll(GetAllNotes(clef), InRange(startNote, endNote));
  }

  lemma NotesInRangeReversed(clef: Clef, startNote: string, endNote: string)
    requires ParseNoteString(startNote).Some? && ParseNoteString(endNote).Some?
    requires LabelValue(startNote) > LabelValue(endNote)
    ensures GetNotesInRange(clef, startNote, endNote) == []
  {
    FilterKeepsNone(GetAllNotes(clef), InRange(startNote, endNote));
  }

  /** `getDefaultRange`: the first and last catalogue entries. */
  function GetDefaultRange(clef: Clef): (r: Bounds)
    ensures r.start == NoteToString(GetAllNotes(clef)[0])
    ensures r.end == NoteToString(GetAllNotes(clef)[16])
  {
    if clef == Treble then Bounds("C4", "E6") else Bounds("E2", "G4")
  }

  /** The default range covers the whole catalogue. */
  lemma DefaultRangeIsWholeCatalogue(clef: Clef)
    ensures GetNotesInRange(clef, GetDefaultRange(clef).start, GetDefaultRange(clef).end) == GetAllNotes(clef)
  {
    var t := GetAllNotes(clef);
    var d := GetDefaultRange(clef);
    CatalogueStrictlyIncreasing(clef);
    forall i | 0 <= i < 17
      ensures IsNoteInRange(t[i], d.start, d.end)
    {
      InRangeBetweenNotes(t[i], t[0], t[16]);
    }
    FilterKeepsAll(t, InRange(d.start, d.end));
  }

  lemma TrebleC4ToG4Decisions(i: nat)
    requires i < 17
    ensures IsNoteInRange(GetAllNotes(Treble)[i], "C4", "G4") <==> i < 5
  {
    var t := GetAllNotes(Treble);
    assert NoteToString(t[0]) == "C4";
    assert NoteToString(t[4]) == "G4";
    CatalogueStrictlyIncreasing(Treble);
    InRangeBetweenNotes(t[i], t[0], t[4]);
  }

  lemma TreblePrefix()
    ensures GetAllNotes(Treble)[..5] ==
      [Note(C, 4, Treble), Note(D, 4, Treble), Note(E, 4, Treble), Note(F, 4, Treble), Note(G, 4, Treble)]
  {
  }

  /** Treble "C4".."G4" is exactly C4, D4, E4, F4, G4. */
  lemma TrebleC4ToG4()
    ensures GetNotesInRange(Treble, "C4", "G4") ==
      [Note(C, 4, Treble), Note(D, 4, Treble), Note(E, 4, Treble), Note(F, 4, Treble), Note(G, 4, Treble)]
  {
    var t := GetAllNotes(Treble);
    forall i | 0 <= i < 17
      ensures InRange("C4", "G4")(t[i]) <==> i < 5
    {
      TrebleC4ToG4Decisions(i);
    }
    FilterKeepsPrefix(t, InRange("C4", "G4"), 5);
    TreblePrefix();
  }
}
