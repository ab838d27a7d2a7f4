/**
 * Splicing a regenerated section into the existing Rust subjects file.
 *
 * The generated section is any list of lines that starts with the start marker, ends
 * with the end marker and has no marker in between; `RustSection.GeneratedIsSection`
 * proves that the section generator produces such lists.
 */
module RustSplice {
  import opened Collections
  import opened Lines

  const START_MARKER := "// <generated-subjects>"
  const END_MARKER := "// </generated-subjects>"

  datatype SpliceError = MissingMarkers | UnexpectedMarker

  datatype Result<+T, +E> = Ok(value: T) | Err(error: E)

  function StripAll(lines: seq<string>): (r: seq<string>)
    ensures |r| == |lines|
    ensures forall i | 0 <= i < |r| :: r[i] == StripCr(lines[i])
  {
    seq(|lines|, i requires 0 <= i < |lines| => StripCr(lines[i]))
  }

  /** Line index of the end marker of the generated section. */
  function SectionEnd(bare: seq<string>): (r: Result<nat, SpliceError>)
    ensures r.Ok? ==> r.value < |bare|
    ensures r.Ok? ==> forall i | r.value < i < |bare| :: bare[i] != START_MARKER
  {
    var start := FirstIndex(bare, START_MARKER, 0);
    if start == |bare| then Err(MissingMarkers)
    else
      var end := FirstIndex(bare, END_MARKER, start + 1);
      if end == |bare| then Err(MissingMarkers)
      else if FirstIndex(bare, START_MARKER, end + 1) != |bare| then Err(UnexpectedMarker)
      else Ok(end)
  }

  /** `extractHandAuthoredSection`. */
  function ExtractHandAuthored(content: string): Result<string, SpliceError> {
    var lines := Split(content);
    match SectionEnd(StripAll(lines))
    case Err(e) => Err(e)
    case Ok(end) => Ok(Join(lines[end + 1..]))
  }

  /** The generated text in front of the hand-authored text of `existing`, in its line-ending style. */
  function Splice(section: seq<string>, existing: string): Result<string, SpliceError> {
    match ExtractHandAuthored(existing)
    case Err(e) => Err(e)
    case Ok(handAuthored) =>
      var ending := DetectLineEnding(existing);
      Ok(Normalize(Join(section) + "\n", ending) + Normalize(handAuthored, ending))
  }

  /** Neither a marker nor anything that could become one by losing a carriage return. */
  predicate Inert(line: string) {
    IsLine(line) && !EndsWithCr(line) && !(|line| >= 3 && line[..3] == "// ")
  }

  predicate IsSection(section: seq<string>) {
    && |section| >= 2
    && section[0] == START_MARKER
    && section[|section| - 1] == END_MARKER
    && forall i | 0 < i < |section| - 1 :: Inert(section[i])
  }

  function TerminateAll(lines: seq<string>, ending: LineEnding): (r: seq<string>)
    ensures |r| == |lines|
    ensures forall i | 0 <= i < |r| :: r[i] == Terminated(lines[i], ending)
  {
    seq(|lines|, i requires 0 <= i < |lines| => Terminated(lines[i], ending))
  }

  lemma {:induction false} MarkersAreMarkers()
    ensures IsLine(START_MARKER) && IsLine(END_MARKER)
    ensures !EndsWithCr(START_MARKER) && !EndsWithCr(END_MARKER)
    ensures START_MARKER != END_MARKER
    ensures |START_MARKER| >= 3 && START_MARKER[..3] == "// " && |END_MARKER| >= 3 && END_MARKER[..3] == "// "
  {
    assert START_MARKER[4] == 'g' && END_MARKER[4] == '/';
  }

  lemma {:induction false} SectionLinesArePlain(section: seq<string>)
    requires IsSection(section)
    ensures AreLines(section)
    ensures forall i | 0 <= i < |section| :: !EndsWithCr(section[i])
    ensures forall i | 0 < i < |section| - 1 :: section[i] != START_MARKER && section[i] != END_MARKER
  {
    MarkersAreMarkers();
  }

  /** The generated text, normalised, is its terminated lines. */
  lemma {:induction false} SectionText(section: seq<string>, ending: LineEnding)
    requires IsSection(section)
    ensures Normalize(Join(section) + "\n", ending) == Join(TerminateAll(section, ending)) + "\n"
  {
    SectionLinesArePlain(section);
    var head, open := TerminateAll(section, ending), section + [""];
    JoinContinues(section, [""]);
    JoinContinues(head, [""]);
    SplitOfJoin(open);
    NormalizeByLines(Join(open), ending);
    assert NormalizeLines(open, ending) == head + [""];
  }

  /** The lines of a spliced file: the section, then the hand-authored lines, terminated anew. */
  lemma {:induction false} SpliceByLines(section: seq<string>, handAuthored: string, ending: LineEnding)
    requires IsSection(section)
    ensures var out := Normalize(Join(section) + "\n", ending) + Normalize(handAuthored, ending);
            Split(out) == TerminateAll(section, ending) + NormalizeLines(Split(handAuthored), ending)
  {
    SectionText(section, ending);
    NormalizeByLines(handAuthored, ending);
    var head, hand := TerminateAll(section, ending), NormalizeLines(Split(handAuthored), ending);
    JoinContinues(head, hand);
    SectionLinesArePlain(section);
    SplitGivesLines(handAuthored);
    TerminatedAreLines(section, ending);
    NormalizedAreLines(Split(handAuthored), ending);
    SplitOfJoin(head + hand);
  }

  lemma {:induction false} TerminatedAreLines(lines: seq<string>, ending: LineEnding)
    requires AreLines(lines)
    ensures AreLines(TerminateAll(lines, ending))
  {
  }

  lemma {:induction false} NormalizedAreLines(lines: seq<string>, ending: LineEnding)
    requires AreLines(lines)
    ensures AreLines(NormalizeLines(lines, ending))
  {
    forall i | 0 <= i < |lines|
      ensures IsLine(NormalizeLines(lines, ending)[i])
    {
      assert IsLine(lines[i]);
    }
  }

  lemma {:induction false} StripTerminated(line: string, ending: LineEnding)
    requires ending == LF ==> !EndsWithCr(line)
    ensures StripCr(Terminated(line, ending)) == StripCr(line)
    ensures EndsWithCr(Terminated(line, ending)) <==> ending == CRLF
  {
  }

  /** What the hand-authored part inherits from the file it was cut from. */
  ghost predicate FitsEnding(handAuthored: string, ending: LineEnding) {
    && (ending == LF ==> !HasCrLf(handAuthored))
    && (forall i | 0 <= i < |Split(handAuthored)| :: StripCr(Split(handAuthored)[i]) != START_MARKER)
  }

  /** The lines after the section are lines of the file, the last one included. */
  lemma {:induction false} SuffixFits(existing: string, from: nat)
    requires from < |Split(existing)|
    requires forall i | from <= i < |Split(existing)| :: StripCr(Split(existing)[i]) != START_MARKER
    ensures FitsEnding(Join(Split(existing)[from..]), DetectLineEnding(existing))
  {
    var lines := Split(existing);
    var hand := Join(lines[from..]);
    SplitGivesLines(existing);
    HasCrLfByLines(existing);
    HasCrLfByLines(hand);
    SplitOfJoin(lines[from..]);
    assert forall i | 0 <= i < |Split(hand)| :: Split(hand)[i] == lines[from + i];
  }

  lemma {:induction false} NoMarkerAfter(lines: seq<string>)
    requires SectionEnd(StripAll(lines)).Ok?
    ensures forall i | SectionEnd(StripAll(lines)).value < i < |lines| :: StripCr(lines[i]) != START_MARKER
  {
    forall i | SectionEnd(StripAll(lines)).value < i < |lines|
      ensures StripCr(lines[i]) != START_MARKER
    {
      assert StripAll(lines)[i] != START_MARKER;
    }
  }

  lemma {:induction false} EmptyFits(ending: LineEnding)
    ensures FitsEnding("", ending)
  {
    assert Split("") == [""];
  }

  lemma {:induction false} ExtractedFits(existing: string)
    requires ExtractHandAuthored(existing).Ok?
    ensures FitsEnding(ExtractHandAuthored(existing).value, DetectLineEnding(existing))
  {
    var lines := Split(existing);
    var end := SectionEnd(StripAll(lines)).value;
    NoMarkerAfter(lines);
    if end + 1 < |lines| {
      SuffixFits(existing, end + 1);
    } else {
      assert lines[end + 1..] == [];
      EmptyFits(DetectLineEnding(existing));
    }
  }

  lemma {:induction false} HandLinesSurvive(handAuthored: string, ending: LineEnding)
    requires FitsEnding(handAuthored, ending)
    ensures StripAll(NormalizeLines(Split(handAuthored), ending)) == StripAll(Split(handAuthored))
    ensures forall i | 0 <= i < |Split(handAuthored)| - 1 ::
              EndsWithCr(NormalizeLines(Split(handAuthored), ending)[i]) <==> ending == CRLF
  {
    var lines := Split(handAuthored);
    HasCrLfByLines(handAuthored);
    forall i | 0 <= i < |lines| - 1
      ensures StripCr(Terminated(lines[i], ending)) == StripCr(lines[i])
      ensures EndsWithCr(Terminated(lines[i], ending)) <==> ending == CRLF
    {
      assert ending == LF ==> !EndsWithCr(Split(handAuthored)[i]);
      StripTerminated(lines[i], ending);
    }
  }

  lemma {:induction false} SectionLinesSurvive(section: seq<string>, ending: LineEnding)
    requires IsSection(section)
    ensures StripAll(TerminateAll(section, ending)) == section
    ensures forall i | 0 <= i < |section| :: EndsWithCr(TerminateAll(section, ending)[i]) <==> ending == CRLF
  {
    SectionLinesArePlain(section);
    forall i | 0 <= i < |section|
      ensures StripCr(Terminated(section[i], ending)) == section[i]
      ensures EndsWithCr(Terminated(section[i], ending)) <==> ending == CRLF
    {
      StripTerminated(section[i], ending);
    }
  }

  /** The end marker of the section is found again in the spliced file. */
  lemma {:induction false} SectionIsFound(section: seq<string>, hand: seq<string>)
    requires IsSection(section)
    requires forall i | 0 <= i < |hand| :: hand[i] != START_MARKER
    ensures SectionEnd(section + hand) == Ok(|section| - 1)
  {
    SectionLinesArePlain(section);
    MarkersAreMarkers();
    var all := section + hand;
    assert forall i | 0 <= i < |section| :: all[i] == section[i];
    assert forall i | |section| <= i < |all| :: all[i] == hand[i - |section|];
    assert all[|section| - 1] == END_MARKER;
    assert FirstIndex(all, START_MARKER, 0) == 0;
    assert FirstIndex(all, END_MARKER, 1) == |section| - 1;
    assert FirstIndex(all, START_MARKER, |section|) == |all|;
  }

  lemma {:induction false} SplicedEnding(out: string, head: seq<string>, hand: seq<string>, ending: LineEnding)
    requires Split(out) == head + hand && head != [] && hand != []
    requires forall i | 0 <= i < |head| :: EndsWithCr(head[i]) <==> ending == CRLF
    requires forall i | 0 <= i < |hand| - 1 :: EndsWithCr(hand[i]) <==> ending == CRLF
    ensures DetectLineEnding(out) == ending
  {
    HasCrLfByLines(out);
    assert Split(out)[0] == head[0];
  }

  lemma {:induction false} StripAppend(a: seq<string>, b: seq<string>)
    ensures StripAll(a + b) == StripAll(a) + StripAll(b)
  {
  }

  lemma {:induction false} SplicedExtract(out: string, section: seq<string>, head: seq<string>, hand: seq<string>)
    requires IsSection(section) && StripAll(head) == section
    requires Split(out) == head + hand
    requires forall i | 0 <= i < |hand| :: StripCr(hand[i]) != START_MARKER
    ensures ExtractHandAuthored(out) == Ok(Join(hand))
  {
    StripAppend(head, hand);
    SectionIsFound(section, StripAll(hand));
    assert (head + hand)[|section|..] == hand;
  }

  lemma {:induction false} SplicedFacts(section: seq<string>, handAuthored: string, ending: LineEnding)
    requires IsSection(section) && FitsEnding(handAuthored, ending)
    ensures var out := Normalize(Join(section) + "\n", ending) + Normalize(handAuthored, ending);
            && ExtractHandAuthored(out) == Ok(Normalize(handAuthored, ending))
            && DetectLineEnding(out) == ending
  {
    var out := Normalize(Join(section) + "\n", ending) + Normalize(handAuthored, ending);
    var head, hand := TerminateAll(section, ending), NormalizeLines(Split(handAuthored), ending);
    SpliceByLines(section, handAuthored, ending);
    HandLinesSurvive(handAuthored, ending);
    SectionLinesSurvive(section, ending);
    forall i | 0 <= i < |hand|
      ensures StripCr(hand[i]) != START_MARKER
    {
      assert StripAll(hand)[i] == StripAll(Split(handAuthored))[i];
    }
    SplicedExtract(out, section, head, hand);
    SplicedEnding(out, head, hand, ending);
    NormalizeByLines(handAuthored, ending);
  }

  /**
   * Regeneration keeps the hand-authored text, up to line-ending normalisation, and
   * the line-ending style of the file, whatever the generated section is.
   */
  lemma {:induction false} SpliceKeepsHandAuthored(section: seq<string>, existing: string)
    requires IsSection(section) && Splice(section, existing).Ok?
    ensures var out := Splice(section, existing).value;
            && ExtractHandAuthored(out) == Ok(Normalize(ExtractHandAuthored(existing).value, DetectLineEnding(existing)))
            && DetectLineEnding(out) == DetectLineEnding(existing)
  {
    ExtractedFits(existing);
    SplicedFacts(section, ExtractHandAuthored(existing).value, DetectLineEnding(existing));
  }

  lemma {:induction false} NormalizeIsIdempotent(s: string, ending: LineEnding)
    requires ending == LF ==> !HasCrLf(s)
    ensures Normalize(Normalize(s, ending), ending) == Normalize(s, ending)
  {
    var lines := Split(s);
    var once := NormalizeLines(lines, ending);
    SplitGivesLines(s);
    HasCrLfByLines(s);
    NormalizeByLines(s, ending);
    assert AreLines(once);
    SplitOfJoin(once);
    NormalizeByLines(Normalize(s, ending), ending);
    forall i | 0 <= i < |lines| - 1
      ensures Terminated(once[i], ending) == once[i]
    {
      StripTerminated(lines[i], ending);
    }
    assert NormalizeLines(once, ending) == once;
  }

  /**
   * Regenerating from its own output, with any section, gives what regenerating from
   * the original file gives; with the same section it changes nothing.
   */
  lemma {:induction false} SpliceIsStable(section: seq<string>, next: seq<string>, existing: string)
    requires IsSection(section) && IsSection(next) && Splice(section, existing).Ok?
    ensures Splice(next, Splice(section, existing).value) == Splice(next, existing)
  {
    SpliceKeepsHandAuthored(section, existing);
    ExtractedFits(existing);
    NormalizeIsIdempotent(ExtractHandAuthored(existing).value, DetectLineEnding(existing));
  }
}
