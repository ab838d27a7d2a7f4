/** Text as lines: splitting and joining at `\n`, and the two line-ending styles. */
module Lines {

  predicate IsLine(s: string) {
    '\n' !in s
  }

  predicate AreLines(lines: seq<string>) {
    forall i | 0 <= i < |lines| :: IsLine(lines[i])
  }

  /** `text.split('\n')`. */
  function Split(s: string): (r: seq<string>)
    ensures |r| >= 1
  {
    if s == "" then [""]
    else if s[0] == '\n' then [""] + Split(s[1..])
    else var r := Split(s[1..]); [[s[0]] + r[0]] + r[1..]
  }

  /** `lines.join('\n')`. */
  function Join(lines: seq<string>): string {
    if lines == [] then ""
    else if |lines| == 1 then lines[0]
    else lines[0] + "\n" + Join(lines[1..])
  }

  lemma {:induction false} SplitGivesLines(s: string)
    ensures AreLines(Split(s))
  {
    if s != "" {
      SplitGivesLines(s[1..]);
    }
  }

  lemma {:induction false} JoinOfSplit(s: string)
    ensures Join(Split(s)) == s
  {
    if s != "" {
      JoinOfSplit(s[1..]);
      var r := Split(s[1..]);
      assert s == [s[0]] + s[1..];
      if s[0] == '\n' {
        assert ([""] + r)[1..] == r;
      } else if |r| > 1 {
        assert Split(s)[1..] == r[1..];
      }
    }
  }

  lemma {:induction false} SplitOfLine(s: string)
    requires IsLine(s)
    ensures Split(s) == [s]
  {
    if s != "" {
      SplitOfLine(s[1..]);
      assert [s[0]] + s[1..] == s;
    }
  }

  lemma {:induction false} SplitConcat(a: string, b: string)
    requires IsLine(a)
    ensures Split(a + "\n" + b) == [a] + Split(b)
  {
    if a == "" {
      assert a + "\n" + b == "\n" + b;
    } else {
      assert (a + "\n" + b)[1..] == a[1..] + "\n" + b;
      SplitConcat(a[1..], b);
      assert [a[0]] + a[1..] == a;
    }
  }

  lemma {:induction false} SplitOfJoin(lines: seq<string>)
    requires AreLines(lines) && lines != []
    ensures Split(Join(lines)) == lines
  {
    if |lines| == 1 {
      SplitOfLine(lines[0]);
    } else {
      SplitOfJoin(lines[1..]);
      SplitConcat(lines[0], Join(lines[1..]));
    }
  }

  lemma {:induction false} JoinAppend(a: seq<string>, b: seq<string>)
    requires a != [] && b != []
    ensures Join(a + b) == Join(a) + "\n" + Join(b)
  {
    if |a| == 1 {
      assert (a + b)[1..] == b;
    } else {
      assert (a + b)[1..] == a[1..] + b;
      JoinAppend(a[1..], b);
    }
  }

  /** `lines.join('\n') + '\n'`, continued by `more.join('\n')`. */
  lemma {:induction false} JoinContinues(lines: seq<string>, more: seq<string>)
    requires lines != [] && more != []
    ensures Join(lines) + "\n" + Join(more) == Join(lines + more)
    ensures Join(lines) + "\n" == Join(lines + [""])
  {
    JoinAppend(lines, more);
    JoinAppend(lines, [""]);
  }

  function Flatten(groups: seq<seq<string>>): seq<string> {
    if groups == [] then [] else groups[0] + Flatten(groups[1..])
  }

  function JoinEach(groups: seq<seq<string>>): (r: seq<string>)
    ensures |r| == |groups|
  {
    if groups == [] then [] else [Join(groups[0])] + JoinEach(groups[1..])
  }

  /** Joining joined blocks is joining their lines. */
  lemma {:induction false} JoinOfJoins(groups: seq<seq<string>>)
    requires forall i | 0 <= i < |groups| :: groups[i] != []
    ensures Join(JoinEach(groups)) == Join(Flatten(groups))
    ensures groups != [] ==> Flatten(groups) != []
  {
    if |groups| == 1 {
      assert Flatten(groups) == groups[0];
    } else if |groups| > 1 {
      JoinOfJoins(groups[1..]);
      JoinAppend(groups[0], Flatten(groups[1..]));
      assert JoinEach(groups)[1..] == JoinEach(groups[1..]);
    }
  }

  lemma {:induction false} FlattenAppend(a: seq<seq<string>>, b: seq<seq<string>>)
    ensures Flatten(a + b) == Flatten(a) + Flatten(b)
    ensures JoinEach(a + b) == JoinEach(a) + JoinEach(b)
  {
    if a == [] {
      assert a + b == b;
    } else {
      assert (a + b)[1..] == a[1..] + b;
      FlattenAppend(a[1..], b);
    }
  }

  // ----- line endings -----------------------------------------------------------

  datatype LineEnding = LF | CRLF

  predicate EndsWithCr(line: string) {
    line != "" && line[|line| - 1] == '\r'
  }

  /** `line.replace(/\r$/, '')`. */
  function StripCr(line: string): string {
    if EndsWithCr(line) then line[..|line| - 1] else line
  }

  /** `content.includes('\r\n')`. */
  predicate HasCrLf(s: string) {
    |s| >= 2 && (s[..2] == "\r\n" || HasCrLf(s[1..]))
  }

  function DetectLineEnding(content: string): LineEnding {
    if HasCrLf(content) then CRLF else LF
  }

  function Eol(ending: LineEnding): string {
    if ending == LF then "\n" else "\r\n"
  }

  /** `replace(/\r\n/g, '\n')` or `replace(/\r?\n/g, '\r\n')`. */
  function Normalize(s: string, ending: LineEnding): string {
    if s == "" then ""
    else if |s| >= 2 && s[..2] == "\r\n" then Eol(ending) + Normalize(s[2..], ending)
    else if s[0] == '\n' then Eol(ending) + Normalize(s[1..], ending)
    else [s[0]] + Normalize(s[1..], ending)
  }

  function Terminated(line: string, ending: LineEnding): string {
    StripCr(line) + if ending == LF then "" else "\r"
  }

  /** Normalisation seen line by line: every line but the last is terminated anew. */
  function NormalizeLines(lines: seq<string>, ending: LineEnding): (r: seq<string>)
    ensures |r| == |lines|
    ensures forall i | 0 <= i < |lines| - 1 :: r[i] == Terminated(lines[i], ending)
    ensures lines != [] ==> r[|r| - 1] == lines[|lines| - 1]
  {
    seq(|lines|, i requires 0 <= i < |lines| => if i < |lines| - 1 then Terminated(lines[i], ending) else lines[i])
  }

  lemma {:induction false} NormalizeCons(line: string, rest: seq<string>, ending: LineEnding)
    ensures NormalizeLines([line] + rest, ending)
            == [if rest == [] then line else Terminated(line, ending)] + NormalizeLines(rest, ending)
  {
    var all, more := [line] + rest, NormalizeLines(rest, ending);
    var first := if rest == [] then line else Terminated(line, ending);
    forall i | 0 <= i < |all|
      ensures NormalizeLines(all, ending)[i] == ([first] + more)[i]
    {
      if i > 0 {
        assert all[i] == rest[i - 1];
      }
    }
  }

  lemma {:induction false} NormalizeNewLine(line: string, rest: seq<string>, ending: LineEnding)
    requires rest != []
    ensures Join(NormalizeLines([line] + rest, ending))
            == Terminated(line, ending) + "\n" + Join(NormalizeLines(rest, ending))
  {
    var n := NormalizeLines([line] + rest, ending);
    assert n[1..] == NormalizeLines(rest, ending);
  }

  lemma {:induction false} TerminatedLonger(c: char, line: string, ending: LineEnding)
    requires line == "" ==> c != '\r'
    ensures Terminated([c] + line, ending) == [c] + Terminated(line, ending)
  {
    assert StripCr([c] + line) == [c] + StripCr(line);
  }

  lemma {:induction false} JoinLonger(c: char, line: string, rest: seq<string>)
    ensures Join([[c] + line] + rest) == [c] + Join([line] + rest)
  {
    assert ([[c] + line] + rest)[1..] == rest && ([line] + rest)[1..] == rest;
  }

  lemma {:induction false} NormalizeLongerLine(c: char, lines: seq<string>, ending: LineEnding)
    requires lines != []
    requires |lines| > 1 && lines[0] == "" ==> c != '\r'
    ensures Join(NormalizeLines([[c] + lines[0]] + lines[1..], ending)) == [c] + Join(NormalizeLines(lines, ending))
  {
    var line, rest := lines[0], lines[1..];
    assert lines == [line] + rest;
    NormalizeCons([c] + line, rest, ending);
    NormalizeCons(line, rest, ending);
    if rest != [] {
      TerminatedLonger(c, line, ending);
      JoinLonger(c, Terminated(line, ending), NormalizeLines(rest, ending));
    } else {
      JoinLonger(c, line, NormalizeLines(rest, ending));
    }
  }

  lemma {:induction false} TerminatedBlank(line: string, ending: LineEnding)
    requires StripCr(line) == ""
    ensures Terminated(line, ending) + "\n" == Eol(ending)
  {
    assert "\r" + "\n" == "\r\n";
  }

  lemma {:induction false} SplitStartsEmpty(s: string)
    requires |Split(s)| > 1 && Split(s)[0] == ""
    ensures s != "" && s[0] == '\n'
  {
  }

  lemma {:induction false} NormalizeAfterCrLf(s: string, ending: LineEnding)
    requires |s| >= 2 && s[..2] == "\r\n"
    requires Normalize(s[2..], ending) == Join(NormalizeLines(Split(s[2..]), ending))
    ensures Normalize(s, ending) == Join(NormalizeLines(Split(s), ending))
  {
    CrLfSplits(s);
    NormalizeNewLine("\r", Split(s[2..]), ending);
    TerminatedBlank("\r", ending);
    assert Normalize(s, ending) == Eol(ending) + Normalize(s[2..], ending);
  }

  lemma {:induction false} CrLfSplits(s: string)
    requires |s| >= 2 && s[..2] == "\r\n"
    ensures Split(s) == ["\r"] + Split(s[2..])
  {
    assert s == "\r" + "\n" + s[2..];
    SplitConcat("\r", s[2..]);
  }

  lemma {:induction false} NormalizeAfterPlain(s: string, ending: LineEnding)
    requires s != "" && s[0] != '\n' && !(|s| >= 2 && s[..2] == "\r\n")
    requires Normalize(s[1..], ending) == Join(NormalizeLines(Split(s[1..]), ending))
    ensures Normalize(s, ending) == Join(NormalizeLines(Split(s), ending))
  {
    var rest := s[1..];
    if |Split(rest)| > 1 && Split(rest)[0] == "" {
      SplitStartsEmpty(rest);
      assert s[..2] == [s[0], '\n'];
    }
    NormalizeLongerLine(s[0], Split(rest), ending);
  }

  lemma {:induction false} NormalizeByLines(s: string, ending: LineEnding)
    ensures Normalize(s, ending) == Join(NormalizeLines(Split(s), ending))
    decreases |s|
  {
    if s == "" {
    } else if |s| >= 2 && s[..2] == "\r\n" {
      NormalizeByLines(s[2..], ending);
      NormalizeAfterCrLf(s, ending);
    } else {
      NormalizeByLines(s[1..], ending);
      if s[0] == '\n' {
        NormalizeNewLine("", Split(s[1..]), ending);
        TerminatedBlank("", ending);
      } else {
        NormalizeAfterPlain(s, ending);
      }
    }
  }

  /** Some terminated line ends in a carriage return. */
  ghost predicate HasCrLine(lines: seq<string>) {
    exists i | 0 <= i < |lines| - 1 :: EndsWithCr(lines[i])
  }

  lemma {:induction false} CrLineCons(first: string, rest: seq<string>)
    requires rest != []
    ensures HasCrLine([first] + rest) <==> EndsWithCr(first) || HasCrLine(rest)
  {
    var all := [first] + rest;
    if i :| 0 <= i < |rest| - 1 && EndsWithCr(rest[i]) {
      assert EndsWithCr(all[i + 1]);
    }
    if EndsWithCr(first) {
      assert EndsWithCr(all[0]);
    }
    if i :| 0 <= i < |all| - 1 && EndsWithCr(all[i]) && i > 0 {
      assert EndsWithCr(rest[i - 1]);
    }
  }

  lemma {:induction false} CrLfAtStart(s: string)
    requires s != "" && s[0] != '\n'
    ensures Split(s) == [[s[0]] + Split(s[1..])[0]] + Split(s[1..])[1..]
    ensures |s| >= 2 && s[..2] == "\r\n" <==>
            s[0] == '\r' && |Split(s[1..])| > 1 && Split(s[1..])[0] == ""
  {
    if |s| >= 2 {
      assert s[..2] == [s[0], s[1]];
      if s[1] == '\n' {
        assert Split(s[1..])[0] == "" && |Split(s[1..])| > 1;
      } else {
        assert Split(s[1..])[0] != "";
      }
    }
  }

  /** A text has CRLF exactly when some line other than the last ends in a carriage return. */
  lemma {:induction false} HasCrLfByLines(s: string)
    ensures HasCrLf(s) <==> exists i | 0 <= i < |Split(s)| - 1 :: EndsWithCr(Split(s)[i])
  {
    CrLfIsCrLine(s);
  }

  lemma {:induction false} CrLfIsCrLine(s: string)
    ensures HasCrLf(s) <==> HasCrLine(Split(s))
  {
    if s != "" {
      CrLfIsCrLine(s[1..]);
      var r := Split(s[1..]);
      if s[0] == '\n' {
        CrLineCons("", r);
      } else {
        CrLfAtStart(s);
        assert r == [r[0]] + r[1..];
        if |r| > 1 {
          CrLineCons(r[0], r[1..]);
          CrLineCons([s[0]] + r[0], r[1..]);
        }
      }
    }
  }
}
