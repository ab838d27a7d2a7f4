/** What the name conversions of the Python generator do to the characters of a name. */
module PythonNames {
  import opened Collections
  import opened Characters
  import opened PythonPayloads

  lemma {:induction false} LowerCons(c: char, rest: string)
    ensures LowerAll([c] + rest) == [ToLower(c)] + LowerAll(rest)
    ensures LowerAll("") == ""
  {
  }

  lemma {:induction false} LowerAppend(a: string, b: string)
    ensures LowerAll(a + b) == LowerAll(a) + LowerAll(b)
  {
  }

  // ----- the letters are kept ----------------------------------------------------------

  lemma {:induction false} StripOne(c: char)
    ensures Strip([c], "_") == if c == '_' then "" else [c]
  {
    assert [c][1..] == "";
  }

  lemma {:induction false} StripThree(first: char, middle: string, rest: string)
    requires middle == "" || middle == "_"
    ensures Strip([first] + middle + rest, "_") == Strip([first], "_") + Strip(rest, "_")
  {
    StripAppend([first] + middle, rest, "_");
    StripAppend([first], middle, "_");
    StripOne('_');
    assert ['_'] == "_";
    assert Strip([first], "_") + "" == Strip([first], "_");
  }

  lemma {:induction false} SplitKeepsLetters(s: string)
    ensures Strip(SplitAtCapitals(s), "_") == Strip(s, "_")
    ensures Strip(SplitAfterAcronyms(s), "_") == Strip(s, "_")
  {
    if |s| >= 2 {
      SplitKeepsLetters(s[1..]);
      StripAppend([s[0]], s[1..], "_");
      assert s == [s[0]] + s[1..];
      StripThree(s[0], if (IsLower(s[0]) || IsDigit(s[0])) && IsUpper(s[1]) then "_" else "", SplitAtCapitals(s[1..]));
      if |s| >= 3 {
        StripThree(s[0], if IsUpper(s[0]) && IsUpper(s[1]) && IsLower(s[2]) then "_" else "", SplitAfterAcronyms(s[1..]));
      }
    }
  }

  lemma {:induction false} StripLower(s: string)
    ensures Strip(LowerAll(s), "_") == LowerAll(Strip(s, "_"))
  {
    if s != "" {
      assert s == [s[0]] + s[1..];
      StripLower(s[1..]);
      LowerCons(s[0], s[1..]);
      StripAppend([ToLower(s[0])], LowerAll(s[1..]), "_");
      StripOne(ToLower(s[0]));
      LowerCons(s[0], Strip(s[1..], "_"));
      assert "" + Strip(s[1..], "_") == Strip(s[1..], "_");
    }
  }

  /** `camelToSnake` lowers the case and adds underscores, and does nothing else. */
  lemma {:induction false} SnakeLetters(name: string)
    ensures Strip(CamelToSnake(name), "_") == LowerAll(Strip(name, "_"))
    ensures forall c | c in CamelToSnake(name) :: !IsUpper(c)
  {
    SplitKeepsLetters(name);
    SplitKeepsLetters(SplitAtCapitals(name));
    StripLower(SplitAfterAcronyms(SplitAtCapitals(name)));
  }

  lemma {:induction false} CapitalizedLetters(s: string, start: bool)
    ensures LowerAll(Capitalized(s, start)) == LowerAll(Strip(s, "_"))
    ensures '_' !in Capitalized(s, start)
  {
    if s != "" {
      LowerCons(s[0], Strip(s[1..], "_"));
      if s[0] == '_' {
        CapitalizedLetters(s[1..], true);
        assert Strip(s, "_") == Strip(s[1..], "_");
      } else {
        CapitalizedLetters(s[1..], false);
        LowerCons(if start then ToUpper(s[0]) else s[0], Capitalized(s[1..], false));
      }
    }
  }

  /** `toPascalWord` keeps the letters up to case and drops the underscores. */
  lemma {:induction false} PascalLetters(token: string)
    ensures LowerAll(PascalWord(token)) == LowerAll(LowerAll(Strip(token, "_")))
    ensures '_' !in PascalWord(token)
  {
    SnakeLetters(token);
    CapitalizedLetters(CamelToSnake(token), true);
  }

  lemma {:induction false} PascalOpen(token: string, word: string, rest: string)
    requires '.' !in word
    ensures PascalSubject(word + "." + rest, token) == PascalWord(token + word) + PascalSubject(rest, "")
    ensures PascalSubject(word, token) == PascalWord(token + word)
    decreases |word|
  {
    if word == "" {
      assert word + "." + rest == "." + rest && ("." + rest)[1..] == rest && token + word == token;
    } else {
      assert (word + "." + rest)[0] == word[0] && (word + "." + rest)[1..] == word[1..] + "." + rest;
      assert token + [word[0]] + word[1..] == token + word;
      PascalOpen(token + [word[0]], word[1..], rest);
    }
  }

  /** `fullSubjectToPascalClass`: the words between the dots, each in Pascal case, in order. */
  lemma {:induction false} SubjectByWords(word: string, rest: string)
    requires '.' !in word
    ensures PascalSubject(word + "." + rest, "") == PascalWord(word) + PascalSubject(rest, "")
    ensures PascalSubject(word, "") == PascalWord(word)
  {
    PascalOpen("", word, rest);
    assert "" + word == word;
  }

  lemma {:induction false} LowerTwice(s: string)
    ensures LowerAll(LowerAll(s)) == LowerAll(s)
  {
  }

  lemma {:induction false} StripUndotted(a: string)
    requires '.' !in a
    ensures Strip(a, "._") == Strip(a, "_")
  {
    if a != "" {
      StripUndotted(a[1..]);
    }
  }

  /** The class name of a subject keeps its letters, up to case, without dots and underscores. */
  lemma {:induction false} SubjectLetters(word: string, rest: string)
    requires '.' !in word
    ensures LowerAll(PascalSubject(word, "")) == LowerAll(Strip(word, "._"))
    ensures LowerAll(PascalSubject(word + "." + rest, "")) == LowerAll(Strip(word, "._")) + LowerAll(PascalSubject(rest, ""))
  {
    SubjectByWords(word, rest);
    PascalLetters(word);
    LowerTwice(Strip(word, "_"));
    StripUndotted(word);
    LowerAppend(PascalWord(word), PascalSubject(rest, ""));
  }

  /** The class of a property's object is called after its owner and its key. */
  lemma {:induction false} PropertyClassLetters(owner: string, key: string)
    ensures owner <= PropertyClass(owner, key)
    ensures LowerAll(PropertyClass(owner, key)) == LowerAll(owner) + LowerAll(Strip(key, "_"))
  {
    PascalLetters(key);
    LowerTwice(Strip(key, "_"));
    LowerAppend(owner, PascalWord(key));
  }

  // ----- the way back -------------------------------------------------------------------------

  /** Snake case back to camel case; `up` after an underscore. */
  function SnakeToCamel(s: string, up: bool): string {
    if s == "" then ""
    else if s[0] == '_' then SnakeToCamel(s[1..], true)
    else [if up then ToUpper(s[0]) else s[0]] + SnakeToCamel(s[1..], false)
  }

  /** Letters and digits without two capitals in a row. */
  predicate IsCamel(s: string) {
    && (forall i | 0 <= i < |s| :: IsLower(s[i]) || IsDigit(s[i]) || IsUpper(s[i]))
    && (forall i | 0 < i < |s| && IsUpper(s[i]) :: !IsUpper(s[i - 1]))
  }

  predicate HasNoAcronym(s: string) {
    forall i | 0 < i < |s| && IsUpper(s[i]) :: !IsUpper(s[i - 1])
  }

  lemma {:induction false} NoAcronymIsKept(s: string)
    requires HasNoAcronym(s)
    ensures SplitAfterAcronyms(s) == s
  {
    if |s| >= 3 {
      assert forall i | 0 <= i < |s[1..]| :: s[1..][i] == s[i + 1];
      NoAcronymIsKept(s[1..]);
      assert !(IsUpper(s[0]) && IsUpper(s[1]));
      assert [s[0]] + "" + s[1..] == s;
    }
  }

  lemma {:induction false} SplitHasNoAcronym(s: string)
    requires IsCamel(s)
    ensures HasNoAcronym(SplitAtCapitals(s))
    ensures s != "" ==> SplitAtCapitals(s) != "" && SplitAtCapitals(s)[0] == s[0]
  {
    if |s| >= 2 {
      assert forall i | 0 <= i < |s[1..]| :: s[1..][i] == s[i + 1];
      SplitHasNoAcronym(s[1..]);
      var rest := SplitAtCapitals(s[1..]);
      var middle := if (IsLower(s[0]) || IsDigit(s[0])) && IsUpper(s[1]) then "_" else "";
      NoAcronymCons(s[0], middle, rest);
    }
  }

  lemma {:induction false} NoAcronymCons(c: char, middle: string, rest: string)
    requires HasNoAcronym(rest) && rest != "" && (middle == "_" || (middle == "" && !(IsUpper(c) && IsUpper(rest[0]))))
    ensures HasNoAcronym([c] + middle + rest)
  {
    var s := [c] + middle + rest;
    forall i | 0 < i < |s| && IsUpper(s[i])
      ensures !IsUpper(s[i - 1])
    {
      var k := 1 + |middle|;
      if i > k {
        assert s[i] == rest[i - k] && s[i - 1] == rest[i - 1 - k];
      }
    }
  }

  lemma {:induction false} SplitRoundTrips(s: string, up: bool)
    requires IsCamel(s) && (s != "" ==> (up <==> IsUpper(s[0])))
    ensures SnakeToCamel(LowerAll(SplitAtCapitals(s)), up) == s
  {
    if |s| == 1 {
      LowerCons(s[0], "");
      assert s == [s[0]] + "" && LowerAll(s)[1..] == "";
      assert SnakeToCamel("", false) == "";
    } else if |s| >= 2 {
      assert forall i | 0 <= i < |s[1..]| :: s[1..][i] == s[i + 1];
      var next := IsUpper(s[1]);
      SplitRoundTrips(s[1..], next);
      StepRoundTrips(s, SplitAtCapitals(s[1..]), up);
      assert s == [s[0]] + s[1..];
    }
  }

  lemma {:induction false} StepRoundTrips(s: string, rest: string, up: bool)
    requires |s| >= 2 && IsCamel(s) && (up <==> IsUpper(s[0])) && rest == SplitAtCapitals(s[1..])
    ensures SnakeToCamel(LowerAll(SplitAtCapitals(s)), up) == [s[0]] + SnakeToCamel(LowerAll(rest), IsUpper(s[1]))
  {
    assert IsUpper(s[1]) ==> !IsUpper(s[0]);
    var lower := ToLower(s[0]);
    if IsUpper(s[1]) {
      assert SplitAtCapitals(s) == [s[0]] + ("_" + rest);
      LowerCons(s[0], "_" + rest);
      LowerAppend("_", rest);
      assert ([lower] + ("_" + LowerAll(rest)))[1..] == "_" + LowerAll(rest);
      assert ("_" + LowerAll(rest))[1..] == LowerAll(rest);
    } else {
      assert SplitAtCapitals(s) == [s[0]] + rest;
      LowerCons(s[0], rest);
      assert ([lower] + LowerAll(rest))[1..] == LowerAll(rest);
    }
  }

  /** A camel-case key without acronyms comes back from its field name. */
  lemma {:induction false} KeyRoundTrips(key: string)
    requires IsCamel(key) && (key != "" ==> !IsUpper(key[0]))
    ensures SnakeToCamel(CamelToSnake(key), false) == key
  {
    SplitHasNoAcronym(key);
    NoAcronymIsKept(SplitAtCapitals(key));
    SplitRoundTrips(key, false);
  }
}
