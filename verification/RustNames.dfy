/** What the three name conversions of the Rust generator do to the characters of a name. */
module RustNames {
  import opened Collections
  import opened Characters
  import opened RustSubjects

  function UpperAll(s: string): string {
    if s == "" then "" else [ToUpper(s[0])] + UpperAll(s[1..])
  }

  function LowerAll(s: string): string {
    if s == "" then "" else [ToLower(s[0])] + LowerAll(s[1..])
  }

  lemma {:induction false} UpperCons(c: char, rest: string)
    ensures UpperAll([c] + rest) == [ToUpper(c)] + UpperAll(rest)
    ensures LowerAll([c] + rest) == [ToLower(c)] + LowerAll(rest)
  {
    assert ([c] + rest)[1..] == rest;
  }

  // ----- constants -----------------------------------------------------------------

  /** One character of a subject in a constant. */
  function ConstantPart(c: char): string {
    if c == '.' then "_" else if 'A' <= c <= 'Z' then "_" + [c] else [ToUpper(c)]
  }

  /** A dot becomes an underscore, a capital gets one in front, any other letter becomes a capital. */
  lemma {:induction false} ScreamingByParts(a: string, c: char, b: string)
    ensures ScreamingSnake(a + [c] + b) == ScreamingSnake(a) + ConstantPart(c) + ScreamingSnake(b)
  {
    var s := a + [c] + b;
    if a == "" {
      assert s == [c] + b && s[1..] == b;
    } else {
      assert s[0] == a[0] && s[1..] == a[1..] + [c] + b;
      ScreamingByParts(a[1..], c, b);
      ConcatAssoc(ConstantPart(a[0]), ScreamingSnake(a[1..]) + ConstantPart(c), ScreamingSnake(b));
      ConcatAssoc(ConstantPart(a[0]), ScreamingSnake(a[1..]), ConstantPart(c));
    }
  }

  lemma {:induction false} StripPart(c: char, rest: string)
    ensures Strip(ConstantPart(c) + rest, "_") == (if c in "._" then "" else [ToUpper(c)]) + Strip(rest, "_")
  {
    StripAppend(ConstantPart(c), rest, "_");
    PartLetters(c);
  }

  lemma {:induction false} UpperStep(s: string)
    requires s != ""
    ensures UpperAll(Strip(s, "._")) == (if s[0] in "._" then "" else [ToUpper(s[0])]) + UpperAll(Strip(s[1..], "._"))
  {
    if s[0] in "._" {
      assert Strip(s, "._") == Strip(s[1..], "._");
    } else {
      UpperCons(s[0], Strip(s[1..], "._"));
    }
  }

  /** Apart from separators the constant is the subject in capitals. */
  lemma {:induction false} ScreamingLetters(s: string)
    ensures Strip(ScreamingSnake(s), "_") == UpperAll(Strip(s, "._"))
  {
    if s != "" {
      ScreamingLetters(s[1..]);
      StripPart(s[0], ScreamingSnake(s[1..]));
      UpperStep(s);
    }
  }

  lemma {:induction false} ScreamingCase(s: string)
    ensures forall c | c in ScreamingSnake(s) :: c != '.' && !IsLower(c)
  {
    if s != "" {
      ScreamingCase(s[1..]);
      PartLetters(s[0]);
    }
  }

  lemma {:induction false} PartLetters(c: char)
    ensures Strip(ConstantPart(c), "_") == if c in "._" then "" else [ToUpper(c)]
    ensures forall d | d in ConstantPart(c) :: d != '.' && !IsLower(d)
  {
    var part := ConstantPart(c);
    if |part| == 2 {
      assert part[1..] == [c] && [c][1..] == "";
      assert Strip([c], "_") == [c];
    } else {
      assert part[1..] == "";
    }
  }

  /** `toRustConstantName` keeps the letters in order, in capitals, without dots and lower case. */
  lemma {:induction false} ConstantLetters(subject: string)
    ensures Strip(ConstantName(subject), "_") == UpperAll(Strip(subject, "._"))
    ensures forall c | c in ConstantName(subject) :: c != '.' && !IsLower(c)
  {
    var name := ScreamingSnake(subject);
    ScreamingLetters(subject);
    ScreamingCase(subject);
    if name != "" && name[0] == '_' {
      assert name == "_" + name[1..];
      StripAppend("_", name[1..], "_");
      assert "_"[1..] == "" && Strip("_", "_") == "";
      assert forall c | c in name[1..] :: c in name;
    }
  }

  // ----- types -----------------------------------------------------------------------

  /** A word with its first letter as a capital and the others in lower case. */
  function Capital(word: string): string {
    if word == "" then "" else [ToUpper(word[0])] + LowerAll(word[1..])
  }

  lemma {:induction false} PascalCons(c: char, rest: string, start: bool)
    requires c != '_'
    ensures PascalParts([c] + rest, start) == [if start then ToUpper(c) else ToLower(c)] + PascalParts(rest, false)
  {
    assert ([c] + rest)[1..] == rest;
  }

  lemma {:induction false} PascalSkip(rest: string, start: bool)
    ensures PascalParts("_" + rest, start) == PascalParts(rest, true)
  {
    assert ("_" + rest)[1..] == rest;
  }

  lemma {:induction false} ConsAppend(word: string, rest: string)
    requires word != ""
    ensures word + rest == [word[0]] + (word[1..] + rest)
  {
  }

  lemma {:induction false} LowerStep(word: string, rest: string)
    requires word != ""
    ensures LowerAll(word) + rest == [ToLower(word[0])] + (LowerAll(word[1..]) + rest)
  {
  }

  lemma {:induction false} PascalPlain(word: string)
    requires '_' !in word
    ensures PascalParts(word, false) == LowerAll(word)
  {
    if word != "" {
      PascalPlain(word[1..]);
    }
  }

  lemma {:induction false} PascalTail(word: string, rest: string)
    requires '_' !in word
    ensures PascalParts(word + ("_" + rest), false) == LowerAll(word) + PascalParts(rest, true)
  {
    if word == "" {
      PascalSkip(rest, false);
      assert word + ("_" + rest) == "_" + rest;
    } else {
      PascalTail(word[1..], rest);
      ConsAppend(word, "_" + rest);
      PascalCons(word[0], word[1..] + ("_" + rest), false);
      LowerStep(word, PascalParts(rest, true));
    }
  }

  /** Each word between underscores is capitalised. */
  lemma {:induction false} PascalByWords(word: string, rest: string)
    requires '_' !in word
    ensures PascalParts(word + ("_" + rest), true) == Capital(word) + PascalParts(rest, true)
    ensures PascalParts(word, true) == Capital(word)
  {
    if word == "" {
      PascalSkip(rest, true);
      assert word + ("_" + rest) == "_" + rest;
    } else {
      PascalTail(word[1..], rest);
      PascalPlain(word[1..]);
      ConsAppend(word, "_" + rest);
      PascalCons(word[0], word[1..] + ("_" + rest), true);
      ConcatAssoc([ToUpper(word[0])], LowerAll(word[1..]), PascalParts(rest, true));
    }
  }

  lemma {:induction false} PascalLetters(s: string, start: bool)
    ensures LowerAll(PascalParts(s, start)) == LowerAll(Strip(s, "_"))
    ensures '_' !in PascalParts(s, start)
  {
    if s != "" {
      if s[0] == '_' {
        PascalLetters(s[1..], true);
        assert Strip(s, "_") == Strip(s[1..], "_");
      } else {
        PascalLetters(s[1..], false);
        UpperCons(if start then ToUpper(s[0]) else ToLower(s[0]), PascalParts(s[1..], false));
        UpperCons(s[0], Strip(s[1..], "_"));
      }
    }
  }

  /** `toRustSubjectTypeName` keeps the letters of the constant, up to case, and drops its underscores. */
  lemma {:induction false} TypeLetters(subject: string)
    ensures LowerAll(TypeName(subject)) == LowerAll(Strip(ConstantName(subject), "_"))
    ensures '_' !in TypeName(subject)
  {
    PascalLetters(ConstantName(subject), true);
  }

  // ----- modules -----------------------------------------------------------------------

  /** One character of a namespace in a module name. */
  function ModulePart(c: char): string {
    if c == ':' || c == '.' then "__" else if c == '-' then "_"
    else if 'A' <= c <= 'Z' then "_" + [ToLower(c)] else [c]
  }

  lemma {:induction false} SnakeByParts(a: string, c: char, b: string)
    ensures Snake(a + [c] + b) == Snake(a) + ModulePart(c) + Snake(b)
  {
    var s := a + [c] + b;
    if a == "" {
      assert s == [c] + b && s[1..] == b;
    } else {
      assert s[0] == a[0] && s[1..] == a[1..] + [c] + b;
      SnakeByParts(a[1..], c, b);
      ConcatAssoc(ModulePart(a[0]), Snake(a[1..]) + ModulePart(c), Snake(b));
      ConcatAssoc(ModulePart(a[0]), Snake(a[1..]), ModulePart(c));
    }
  }

  /** A module name has no capitals and none of the separators of a namespace. */
  lemma {:induction false} SnakeCharacters(s: string)
    ensures forall c | c in Snake(s) :: !IsUpper(c) && c != ':' && c != '.' && c != '-'
  {
    if s != "" {
      SnakeCharacters(s[1..]);
      assert forall c | c in ModulePart(s[0]) :: !IsUpper(c) && c != ':' && c != '.' && c != '-';
    }
  }

  predicate IsPlainName(s: string) {
    forall i | 0 <= i < |s| :: !IsUpper(s[i]) && s[i] != ':' && s[i] != '.' && s[i] != '-'
  }

  /** A plain name is kept, except that a keyword is made raw. */
  lemma {:induction false} PlainNameIsKept(s: string)
    requires IsPlainName(s)
    ensures Snake(s) == s && ModuleName(s) == if IsRustKeyword(s) then "r#" + s else s
  {
    SnakeKeeps(s);
  }

  lemma {:induction false} SnakeKeeps(s: string)
    requires IsPlainName(s)
    ensures Snake(s) == s
  {
    if s != "" {
      SnakeKeeps(s[1..]);
      assert s == [s[0]] + s[1..];
    }
  }
}
