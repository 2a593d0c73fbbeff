/** The range preview of src/components/NoteRangePreview.tsx: every
    catalogue note of a clef, labelled and marked in or out of the
    configured range, and the count of marked notes.

    The preview does not use the strict label parser of the deck builder.
    It reads the first character of a label as the letter and hands the
    rest to `parseInt` with no radix, then compares pitch values. A letter
    outside A to G, or a rest with no leading number, yields NaN, and every
    comparison with NaN is false. NaN is modelled as None. */
module RangePreview {
  import opened Common
  import opened Types
  import opened Notes

  // ----- `parseInt(s)` with no radix -----

  /** The characters `parseInt` skips before the number: the white space
      and line terminators of ECMAScript. */
  predicate IsJsSpace(ch: char) {
    || ch == '\t' || ch == '\n' || ch == '\U{000B}' || ch == '\U{000C}' || ch == '\r' || ch == ' '
    || ch == '\U{00A0}' || ch == '\U{1680}' || ('\U{2000}' <= ch <= '\U{200A}')
    || ch == '\U{2028}' || ch == '\U{2029}' || ch == '\U{202F}' || ch == '\U{205F}'
    || ch == '\U{3000}' || ch == '\U{FEFF}'
  }

  /** Every character of the string is white space. */
  predicate AllSpace(s: string) { forall i :: 0 <= i < |s| ==> IsJsSpace(s[i]) }

  /** The string with its leading white space removed. */
  function TrimStart(s: string): (r: string)
    ensures |r| <= |s| && r == s[|s| - |r|..]
    ensures AllSpace(s[..|s| - |r|])
    ensures r != [] ==> !IsJsSpace(r[0])
    ensures (forall i :: 0 <= i < |s| ==> !IsJsSpace(s[i])) ==> r == s
    decreases |s|
  {
    if s != [] && IsJsSpace(s[0]) then TrimStart(s[1..]) else s
  }

  /** The value of a digit character in base 10 or 16. */
  function DigitIn(ch: char, radix: nat): (r: Option<nat>)
    ensures r.Some? ==> r.value < radix
    ensures radix == 10 ==> (r.Some? <==> IsDigit(ch)) && (IsDigit(ch) ==> r == Some(DigitValue(ch)))
  {
    if '0' <= ch <= '9' && (ch as int - '0' as int) < radix then Some((ch as int - '0' as int) as nat)
    else if radix == 16 && 'a' <= ch <= 'f' then Some((ch as int - 'a' as int + 10) as nat)
    else if radix == 16 && 'A' <= ch <= 'F' then Some((ch as int - 'A' as int + 10) as nat)
    else None
  }

  /** The longest prefix made of digits of the radix. */
  function DigitPrefix(s: string, radix: nat): (r: string)
    ensures |r| <= |s| && r == s[..|r|]
    ensures forall i :: 0 <= i < |r| ==> DigitIn(r[i], radix).Some?
    ensures |r| < |s| ==> DigitIn(s[|r|], radix).None?
    decreases |s|
  {
    if s != [] && DigitIn(s[0], radix).Some? then [s[0]] + DigitPrefix(s[1..], radix) else []
  }

  /** The value of a digit of the radix, and 0 for any other character. */
  function DigitValueIn(ch: char, radix: nat): nat {
    match DigitIn(ch, radix)
    case Some(d) => d
    case None => 0
  }

  /** The number a string of digits of the radix denotes. */
  function DigitsIn(s: string, radix: nat): nat
    decreases |s|
  {
    if s == [] then 0 else DigitsIn(s[..|s| - 1], radix) * radix + DigitValueIn(s[|s| - 1], radix)
  }

  /** The digits after an optional sign, or, after "0x" or "0X", the
      hexadecimal digits. */
  function UnsignedPart(s: string): (r: Option<nat>)
    ensures r.None? <==>
      if |s| >= 2 && s[0] == '0' && (s[1] == 'x' || s[1] == 'X') then DigitPrefix(s[2..], 16) == []
      else DigitPrefix(s, 10) == []
  {
    var hex := |s| >= 2 && s[0] == '0' && (s[1] == 'x' || s[1] == 'X');
    var radix := if hex then 16 else 10;
    var digits := DigitPrefix(if hex then s[2..] else s, radix);
    if digits == [] then None else Some(DigitsIn(digits, radix))
  }

  /** `parseInt(s)`: skip white space, read an optional sign, then the
      longest run of digits; no digits at all is NaN. */
  function ParseIntJs(s: string): (r: Option<int>)
  {
    var t := TrimStart(s);
    var negative := t != [] && t[0] == '-';
    var rest := if t != [] && (t[0] == '-' || t[0] == '+') then t[1..] else t;
    match UnsignedPart(rest)
    case None => None
    case Some(n) =>
      var value: int := n;
      Some(if negative then -value else value)
  }

  lemma {:induction false} DigitsInDecimal(s: string)
    requires AllDigits(s)
    ensures forall i :: 0 <= i < |s| ==> DigitIn(s[i], 10).Some?
    ensures DigitsIn(s, 10) == DigitsValue(s)
    decreases |s|
  {
    if s != [] {
      DigitsInDecimal(s[..|s| - 1]);
    }
  }

  lemma {:induction false} DigitPrefixOfDigits(s: string)
    requires AllDigits(s)
    ensures DigitPrefix(s, 10) == s
    decreases |s|
  {
    if s != [] {
      DigitPrefixOfDigits(s[1..]);
    }
  }

  /** On a run of decimal digits `parseInt` agrees with the strict parser's
      octave. */
  lemma ParseIntOfDigits(s: string)
    requires s != [] && AllDigits(s)
    ensures ParseIntJs(s) == Some(DigitsValue(s))
  {
    DigitPrefixOfDigits(s);
    ParseIntOfDecimal(s, s);
    DigitsInDecimal(s);
  }

  /** Trailing characters after the digits are ignored, unless they turn a
      leading "0" into a "0x" prefix. */
  lemma ParseIntIgnoresTail(s: string, tail: string)
    requires s != [] && AllDigits(s)
    requires tail != [] ==> !IsDigit(tail[0]) && tail[0] != 'x' && tail[0] != 'X'
    ensures ParseIntJs(s + tail) == Some(DigitsValue(s))
  {
    var t := s + tail;
    assert t[0] == s[0];
    assert |t| >= 2 ==> t[1] != 'x' && t[1] != 'X' by {
      if |s| >= 2 { assert t[1] == s[1]; } else if |t| >= 2 { assert t[1] == tail[0]; }
    }
    DigitPrefixAppend(s, tail);
    ParseIntOfDecimal(t, s);
    DigitsInDecimal(s);
  }

  /** Text that starts with a decimal digit and no "0x" is read as the
      longest run of decimal digits at its front. */
  lemma ParseIntOfDecimal(t: string, d: string)
    requires t != [] && IsDigit(t[0])
    requires !(|t| >= 2 && t[0] == '0' && (t[1] == 'x' || t[1] == 'X'))
    requires DigitPrefix(t, 10) == d
    ensures d != [] && ParseIntJs(t) == Some(DigitsIn(d, 10))
  {
    assert !IsJsSpace(t[0]);
    assert TrimStart(t) == t;
  }

  lemma {:induction false} DigitPrefixAppend(s: string, tail: string)
    requires AllDigits(s) && (tail != [] ==> !IsDigit(tail[0]))
    ensures DigitPrefix(s + tail, 10) == s
    decreases |s|
  {
    if s == [] {
      assert s + tail == tail;
    } else {
      assert (s + tail)[1..] == s[1..] + tail;
      DigitPrefixAppend(s[1..], tail);
    }
  }

  // ----- The marking -----

  /** The pitch value the preview computes for a label, or None for NaN. */
  function PreviewValue(text: string): (r: Option<int>)
    ensures |text| == 0 ==> r.None?
    ensures |text| > 0 && NameOf(text[0]).None? ==> r.None?
    ensures |text| > 0 && ParseIntJs(text[1..]).None? ==> r.None?
  {
    if |text| == 0 then None
    else
      var name := NameOf(text[0]);
      var octave := ParseIntJs(text[1..]);
      if name.None? || octave.None? then None
      else Some(octave.value * 12 + Offset(name.value))
  }

  /** A label the strict parser accepts has the same value in the preview. */
  lemma PreviewValueOfWellFormed(text: string)
    requires ParseNoteString(text).Some?
    ensures PreviewValue(text) == Some(LabelValue(text))
  {
    var p := ParseNoteString(text).value;
    PreviewValueOfPitch(text, p);
  }

  /** The preview reads the letter and the digits of a well-formed label as
      the strict parser does. */
  lemma PreviewValueOfPitch(text: string, p: Pitch)
    requires ParseNoteString(text) == Some(p)
    ensures PreviewValue(text) == Some(p.octave * 12 + Offset(p.name))
  {
    NameOfLetter(p.name);
    var digits := text[1..];
    assert digits != [] && AllDigits(digits) && p.octave == DigitsValue(digits);
    ParseIntOfDigits(digits);
    PreviewValueOfParts(text, p.name, p.octave);
  }

  lemma PreviewValueOfParts(text: string, name: NoteName, octave: int)
    requires |text| > 0 && NameOf(text[0]) == Some(name) && ParseIntJs(text[1..]) == Some(octave)
    ensures PreviewValue(text) == Some(octave * 12 + Offset(name))
  {
  }

  /** `startValue <= noteValue <= endValue` with NaN making it false. */
  predicate Between(v: int, lo: Option<int>, hi: Option<int>) {
    lo.Some? && hi.Some? && lo.value <= v && v <= hi.value
  }

  /** One chip of the preview. */
  datatype PreviewEntry = PreviewEntry(note: string, inRange: bool)

  /** `noteInfo`: nothing without a range; otherwise one entry per catalogue
      note, labelled name and octave, marked by the range's values. */
  function NoteInfo(clef: Clef, range: Option<NoteRange>): (r: seq<PreviewEntry>)
    ensures range.None? ==> r == []
    ensures range.Some? ==> |r| == |GetAllNotes(clef)|
    ensures range.Some? ==> forall i :: 0 <= i < |r| ==>
      && r[i].note == NoteToString(GetAllNotes(clef)[i])
      && (r[i].inRange <==> Between(GetNoteValue(GetAllNotes(clef)[i]),
                                   PreviewValue(range.value.startNote), PreviewValue(range.value.endNote)))
  {
    match range
    case None => []
    case Some(rg) =>
      var allNotes := GetAllNotes(clef);
      var startValue := PreviewValue(rg.startNote);
      var endValue := PreviewValue(rg.endNote);
      seq(|allNotes|, i requires 0 <= i < |allNotes| =>
        PreviewEntry(NoteToString(allNotes[i]), Between(GetNoteValue(allNotes[i]), startValue, endValue)))
  }

  predicate IsMarked(e: PreviewEntry) { e.inRange }

  /** The positions of the entries marked in range. */
  function MarkedPositions(info: seq<PreviewEntry>): set<nat> {
    set i: nat | i < |info| && info[i].inRange
  }

  /** The count shown under the chips. */
  function InRangeCount(info: seq<PreviewEntry>): (r: nat)
    ensures r == |MarkedPositions(info)|
    ensures r <= |info|
    ensures forall i :: 0 <= i < |info| && info[i].inRange ==> r > 0
  {
    var marked := Filter(info, IsMarked);
    assert forall i :: 0 <= i < |info| && info[i].inRange ==> info[i] in marked;
    FilterCountsPositions(info, IsMarked, |info|);
    assert info[..|info|] == info;
    assert Passing(info, IsMarked, |info|) == MarkedPositions(info);
    |marked|
  }

  /** With labels the strict parser accepts, the preview marks exactly the
      notes the deck builder keeps, and counts as many. */
  lemma PreviewAgreesWithDeck(clef: Clef, range: NoteRange)
    requires ParseNoteString(range.startNote).Some? && ParseNoteString(range.endNote).Some?
    ensures forall i :: 0 <= i < 17 ==>
      NoteInfo(clef, Some(range))[i].inRange == IsNoteInRange(GetAllNotes(clef)[i], range.startNote, range.endNote)
    ensures InRangeCount(NoteInfo(clef, Some(range))) == |GetNotesInRange(clef, range.startNote, range.endNote)|
  {
    var info := NoteInfo(clef, Some(range));
    var notes := GetAllNotes(clef);
    PreviewValueOfWellFormed(range.startNote);
    PreviewValueOfWellFormed(range.endNote);
    forall i | 0 <= i < 17
      ensures info[i].inRange == IsNoteInRange(notes[i], range.startNote, range.endNote)
    {
      InRangeIff(notes[i], range.startNote, range.endNote);
    }
    FilterLengthsAgree(info, IsMarked, notes, InRange(range.startNote, range.endNote));
  }

  /** Labels printed from two notes of the catalogue, as the selects offer
      them: the count is the size of the deck the range yields. */
  lemma PreviewCountOfCatalogueLabels(clef: Clef, lo: nat, hi: nat)
    requires lo < 17 && hi < 17
    ensures var range := NoteRange(clef, NoteToString(GetAllNotes(clef)[lo]), NoteToString(GetAllNotes(clef)[hi]));
      InRangeCount(NoteInfo(clef, Some(range))) == |GetNotesInRange(clef, range.startNote, range.endNote)|
  {
    var notes := GetAllNotes(clef);
    assert notes[lo].octave >= 2 && notes[hi].octave >= 2;
    ParseNoteToString(notes[lo]);
    ParseNoteToString(notes[hi]);
    PreviewAgreesWithDeck(clef, NoteRange(clef, NoteToString(notes[lo]), NoteToString(notes[hi])));
  }

  /** The marking only depends on the values the labels stand for. */
  lemma NoteInfoByValue(clef: Clef, a: NoteRange, b: NoteRange)
    requires PreviewValue(a.startNote) == PreviewValue(b.startNote)
    requires PreviewValue(a.endNote) == PreviewValue(b.endNote)
    ensures InRangeCount(NoteInfo(clef, Some(a))) == InRangeCount(NoteInfo(clef, Some(b)))
  {
    FilterLengthsAgree(NoteInfo(clef, Some(a)), IsMarked, NoteInfo(clef, Some(b)), IsMarked);
  }

  /** A label NaN comes out of marks nothing. */
  lemma PreviewOfNaN(clef: Clef, range: NoteRange)
    requires PreviewValue(range.startNote).None? || PreviewValue(range.endNote).None?
    ensures InRangeCount(NoteInfo(clef, Some(range))) == 0
  {
    FilterKeepsNone(NoteInfo(clef, Some(range)), IsMarked);
  }

  // ----- Where the preview and the deck part ways -----

  /** A space after a well-formed label: the strict parser refuses it,
      `parseInt` does not notice it. */
  lemma TrailingSpaceLabel(text: string)
    requires ParseNoteString(text).Some?
    ensures ParseNoteString(text + " ").None?
    ensures PreviewValue(text + " ") == PreviewValue(text)
  {
    TrailingSpaceRefused(text);
    TrailingSpaceOctave(text);
    SameLetterSameOctave(text + " ", text);
  }

  lemma SameLetterSameOctave(a: string, b: string)
    requires |a| > 0 && |b| > 0 && a[0] == b[0] && ParseIntJs(a[1..]) == ParseIntJs(b[1..])
    ensures PreviewValue(a) == PreviewValue(b)
  {
  }

  lemma TrailingSpaceRefused(text: string)
    ensures ParseNoteString(text + " ").None?
  {
    var t := text + " ";
    assert !IsDigit(t[|t| - 1]);
  }

  lemma TrailingSpaceOctave(text: string)
    requires ParseNoteString(text).Some?
    ensures ParseIntJs((text + " ")[1..]) == ParseIntJs(text[1..])
  {
    assert (text + " ")[1..] == text[1..] + " ";
    ParseIntIgnoresTail(text[1..], " ");
    ParseIntOfDigits(text[1..]);
  }

  /** With a space after a well-formed end label the deck takes the whole
      catalogue while the preview still counts the range without the space. */
  lemma PreviewTrailingSpace(clef: Clef, startNote: string, endNote: string)
    requires ParseNoteString(startNote).Some? && ParseNoteString(endNote).Some?
    ensures GetNotesInRange(clef, startNote, endNote + " ") == GetAllNotes(clef)
    ensures InRangeCount(NoteInfo(clef, Some(NoteRange(clef, startNote, endNote + " "))))
      == |GetNotesInRange(clef, startNote, endNote)|
  {
    TrailingSpaceLabel(endNote);
    NotesInRangeUnparsable(clef, startNote, endNote + " ");
    NoteInfoByValue(clef, NoteRange(clef, startNote, endNote + " "), NoteRange(clef, startNote, endNote));
    PreviewAgreesWithDeck(clef, NoteRange(clef, startNote, endNote));
  }

  /** Treble "C4" to "G4 ": the deck takes all seventeen treble notes, the
      preview shows five. */
  lemma TrebleTrailingSpaceExample()
    ensures |GetNotesInRange(Treble, "C4", "G4" + " ")| == 17
    ensures InRangeCount(NoteInfo(Treble, Some(NoteRange(Treble, "C4", "G4" + " ")))) == 5
  {
    assert ParseNoteString("C4").Some? && ParseNoteString("G4").Some?;
    PreviewTrailingSpace(Treble, "C4", "G4");
    TrebleC4ToG4();
  }

  /** An empty end label: the deck takes the whole catalogue, the preview
      marks nothing. */
  lemma PreviewEmptyLabel(clef: Clef, startNote: string)
    ensures |GetNotesInRange(clef, startNote, "")| == 17
    ensures InRangeCount(NoteInfo(clef, Some(NoteRange(clef, startNote, "")))) == 0
  {
    NotesInRangeUnparsable(clef, startNote, "");
    PreviewOfNaN(clef, NoteRange(clef, startNote, ""));
  }

  /** The preview as it evidently should be, marking with the deck
      builder's own range test. */
  function IntendedNoteInfo(clef: Clef, range: Option<NoteRange>): (r: seq<PreviewEntry>)
    ensures range.None? ==> r == []
    ensures range.Some? ==> |r| == |GetAllNotes(clef)|
    ensures range.Some? ==> forall i :: 0 <= i < |r| ==>
      && r[i].note == NoteToString(GetAllNotes(clef)[i])
      && r[i].inRange == IsNoteInRange(GetAllNotes(clef)[i], range.value.startNote, range.value.endNote)
  {
    match range
    case None => []
    case Some(rg) =>
      var allNotes := GetAllNotes(clef);
      seq(|allNotes|, i requires 0 <= i < |allNotes| =>
        PreviewEntry(NoteToString(allNotes[i]), IsNoteInRange(allNotes[i], rg.startNote, rg.endNote)))
  }

  /** Whatever the labels, the intended preview counts the cards a rebuilt
      deck gets for the clef, and where the strict parser accepts both
      labels it agrees with the preview as written. */
  lemma IntendedPreviewMatchesDeck(clef: Clef, range: NoteRange)
    ensures InRangeCount(IntendedNoteInfo(clef, Some(range))) == |GetNotesInRange(clef, range.startNote, range.endNote)|
    ensures ParseNoteString(range.startNote).Some? && ParseNoteString(range.endNote).Some? ==>
      IntendedNoteInfo(clef, Some(range)) == NoteInfo(clef, Some(range))
  {
    var intended := IntendedNoteInfo(clef, Some(range));
    FilterLengthsAgree(intended, IsMarked, GetAllNotes(clef), InRange(range.startNote, range.endNote));
    if ParseNoteString(range.startNote).Some? && ParseNoteString(range.endNote).Some? {
      PreviewAgreesWithDeck(clef, range);
    }
  }
}
