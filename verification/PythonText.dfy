/**
 * The text of an annotation, read back.
 *
 * A reader of the generated annotation language recovers the annotation from its text, so
 * the text says what the tree says.  Enumeration values are written between quotes as they
 * are: they can be read back exactly if they hold nothing that ends or escapes a literal.
 */
module PythonText {
  import opened Collections
  import opened Characters
  import opened VariantSuffix
  import opened PythonTypes
  import opened PythonPayloads

  predicate IsNameChar(c: char) {
    IsUpper(c) || IsLower(c) || IsDigit(c) || c == '_'
  }

  predicate IsName(s: string) {
    s != "" && forall i | 0 <= i < |s| :: IsNameChar(s[i])
  }

  // ----- the reader ---------------------------------------------------------------------------

  /** The end of the name at the start of `s`. */
  function NameEnd(s: string, from: nat): (r: nat)
    requires from <= |s|
    ensures from <= r <= |s| && (forall i | from <= i < r :: IsNameChar(s[i])) && (r < |s| ==> !IsNameChar(s[r]))
    decreases |s| - from
  {
    if from < |s| && IsNameChar(s[from]) then NameEnd(s, from + 1) else from
  }

  /** The first character at or after `from` that is one of `stops`. */
  function EndOf(s: string, stops: string, from: nat): (r: nat)
    requires from <= |s|
    ensures from <= r <= |s| && (forall i | from <= i < r :: s[i] !in stops) && (r < |s| ==> s[r] in stops)
    decreases |s| - from
  {
    if from < |s| && s[from] !in stops then EndOf(s, stops, from + 1) else from
  }

  /** What ends a quoted literal or changes its meaning. */
  const STOPS := "\"\\\n\r"

  function ReadLiteral(s: string): (r: Option<(Literal, string)>)
    ensures r.Some? ==> |r.value.1| <= |s|
  {
    if s != "" && s[0] == '"' then
      var end := EndOf(s, STOPS, 1);
      if end < |s| && s[end] == '"' then Some((Text(s[1..end]), s[end + 1..])) else None
    else
      var end := EndOf(s, ",]", 0);
      var token := s[..end];
      Some((if token == "True" then Truth(true) else if token == "False" then Truth(false)
            else if token == "None" then Null else Number(token), s[end..]))
  }

  function ReadLiterals(s: string): (r: Option<(seq<Literal>, string)>)
    ensures r.Some? ==> |r.value.1| <= |s|
    decreases |s|
  {
    if "]" <= s then Some(([], s[1..]))
    else
      match ReadLiteral(s)
      case None => None
      case Some((v, rest)) =>
        if "]" <= rest then Some(([v], rest[1..]))
        else if ", " <= rest then
          match ReadLiterals(rest[2..])
          case None => None
          case Some((more, after)) => Some(([v] + more, after))
        else None
  }

  function ReadNames(s: string): (r: Option<(seq<string>, string)>)
    ensures r.Some? ==> |r.value.1| <= |s|
    decreases |s|
  {
    if "]" <= s then Some(([], s[1..]))
    else
      var end := NameEnd(s, 0);
      var name, rest := s[..end], s[end..];
      if "]" <= rest then Some(([name], rest[1..]))
      else if ", " <= rest then
        match ReadNames(rest[2..])
        case None => None
        case Some((more, after)) => Some(([name] + more, after))
      else None
  }

  function NamedType(name: string): Annotation {
    if name == "Any" then AnyType
    else if name in ["str", "float", "int", "bool", "None"] then Primitive(name)
    else ClassRef(name)
  }

  /** Everything but the alternatives with `None`. */
  function ReadBase(s: string): (r: Option<(Annotation, string)>)
    ensures r.Some? ==> |r.value.1| < |s|
    decreases |s|, 0
  {
    var end := NameEnd(s, 0);
    var name, rest := s[..end], s[end..];
    if name == "" then None
    else if name == "dict" && "[str, Any]" <= rest then Some((DictAny, rest[10..]))
    else if name == "list" && "[" <= rest then
      match ReadType(rest[1..])
      case None => None
      case Some((item, after)) => if "]" <= after then Some((ListOf(item), after[1..])) else None
    else if name == "Literal" && "[" <= rest then
      match ReadLiterals(rest[1..])
      case None => None
      case Some((values, after)) => Some((LiteralOf(values), after))
    else if name == "Union" && "[" <= rest then
      match ReadNames(rest[1..])
      case None => None
      case Some((names, after)) => Some((UnionOf(names), after))
    else Some((NamedType(name), rest))
  }

  function ReadAlternatives(a: Annotation, s: string): (r: (Annotation, string))
    ensures |r.1| <= |s|
    decreases |s|
  {
    if " | None" <= s then ReadAlternatives(OrNone(a), s[7..]) else (a, s)
  }

  function ReadType(s: string): (r: Option<(Annotation, string)>)
    ensures r.Some? ==> |r.value.1| < |s|
    decreases |s|, 1
  {
    match ReadBase(s)
    case None => None
    case Some((a, rest)) => Some(ReadAlternatives(a, rest))
  }

  // ----- what can be read back ------------------------------------------------------------------

  predicate IsPlainText(t: string) {
    forall i | 0 <= i < |t| :: t[i] !in STOPS
  }

  predicate IsPlainLiteral(v: Literal) {
    match v
    case Text(t) => IsPlainText(t)
    case Number(d) => d != "" && d[0] != '"' && (forall i | 0 <= i < |d| :: d[i] !in ",]") && d !in ["True", "False", "None"]
    case _ => true
  }

  predicate IsReadable(a: Annotation) {
    match a
    case AnyType => true
    case DictAny => true
    case ListOf(item) => IsReadable(item)
    case LiteralOf(values) => forall i | 0 <= i < |values| :: IsPlainLiteral(values[i])
    case Primitive(name) => IsName(name) && NamedType(name) == a
    case ClassRef(name) => IsName(name) && NamedType(name) == a
    case UnionOf(names) => forall i | 0 <= i < |names| :: IsName(names[i])
    case OrNone(inner) => IsReadable(inner)
  }

  /** What may follow a type without running into it. */
  predicate IsOpen(rest: string) {
    rest == "" || (!IsNameChar(rest[0]) && rest[0] != '[')
  }

  // ----- literals ----------------------------------------------------------------------------------

  /** A quoted value is read back exactly if it holds no quote, no backslash and no line break. */
  lemma {:induction false} TextReadsBack(t: string, rest: string)
    ensures ReadLiteral(LiteralText(Text(t)) + rest) == Some((Text(t), rest)) <==>
            '"' !in t && '\\' !in t && '\n' !in t && '\r' !in t
  {
    var s, n := LiteralText(Text(t)) + rest, |t| + 1;
    var end := EndOf(s, STOPS, 1);
    assert s[0] == '"' && s[n] == '"' && s[n + 1..] == rest && s[1..n] == t;
    assert forall i | 0 <= i < |t| :: s[i + 1] == t[i];
    assert forall c :: c in STOPS <==> c == '"' || c == '\\' || c == '\n' || c == '\r';
    assert end <= n;
    if end < n {
      assert t[end - 1] == s[end] && t[end - 1] in t;
    }
    PlainTextHasNoStops(t);
  }

  lemma {:induction false} PlainTextHasNoStops(t: string)
    ensures IsPlainText(t) <==> '"' !in t && '\\' !in t && '\n' !in t && '\r' !in t
  {
    assert STOPS[0] == '"' && STOPS[1] == '\\' && STOPS[2] == '\n' && STOPS[3] == '\r' && |STOPS| == 4;
    assert forall c :: c in STOPS <==> c == '"' || c == '\\' || c == '\n' || c == '\r';
    if '"' in t || '\\' in t || '\n' in t || '\r' in t {
      var c :| c in t && c in STOPS;
      var i :| 0 <= i < |t| && t[i] == c;
    }
  }

  lemma {:induction false} TokenReadsBack(token: string, rest: string)
    requires token != "" && token[0] != '"' && (forall i | 0 <= i < |token| :: token[i] !in ",]")
    requires rest != "" && rest[0] in ",]"
    ensures EndOf(token + rest, ",]", 0) == |token| && (token + rest)[..|token|] == token && (token + rest)[|token|..] == rest
  {
    var s := token + rest;
    assert s[|token|] == rest[0];
  }

  lemma {:induction false} LiteralReadsBack(v: Literal, rest: string)
    requires IsPlainLiteral(v) && rest != "" && rest[0] in ",]"
    ensures ReadLiteral(LiteralText(v) + rest) == Some((v, rest))
  {
    if v.Text? {
      TextReadsBack(v.text, rest);
      PlainTextHasNoStops(v.text);
    } else {
      assert |"True"| == 4 && |"False"| == 5 && |"None"| == 4 && "True"[0] == 'T' && "None"[0] == 'N' && "False"[0] == 'F';
      TokenReadsBack(LiteralText(v), rest);
      assert (LiteralText(v) + rest)[0] == LiteralText(v)[0];
    }
  }

  lemma {:induction false} LiteralStarts(v: Literal, rest: string)
    requires IsPlainLiteral(v)
    ensures LiteralText(v) != "" && !("]" <= LiteralText(v) + rest)
  {
    var text := LiteralText(v);
    assert |"True"| == 4 && |"False"| == 5 && |"None"| == 4 && "True"[0] == 'T' && "None"[0] == 'N' && "False"[0] == 'F';
    assert (text + rest)[0] == text[0];
    assert v.Number? ==> text[0] !in ",]";
  }

  lemma {:induction false} LastLiteral(v: Literal, rest: string)
    requires IsPlainLiteral(v)
    ensures ReadLiterals(LiteralText(v) + ("]" + rest)) == Some(([v], rest))
  {
    var tail := "]" + rest;
    LiteralReadsBack(v, tail);
    LiteralStarts(v, tail);
    assert tail[1..] == rest;
  }

  lemma {:induction false} NextLiteral(v: Literal, more: string, values: seq<Literal>, rest: string)
    requires IsPlainLiteral(v) && ReadLiterals(more) == Some((values, rest))
    ensures ReadLiterals(LiteralText(v) + (", " + more)) == Some(([v] + values, rest))
  {
    var tail := ", " + more;
    LiteralReadsBack(v, tail);
    LiteralStarts(v, tail);
    assert tail[2..] == more && tail[0] == ',';
  }

  /** Joined parts, closed by a bracket: the first one, and what follows it. */
  lemma {:induction false} JoinedParts(parts: seq<string>, rest: string)
    requires parts != []
    ensures JoinWith(parts, ", ") + "]" + rest
            == parts[0] + if |parts| == 1 then "]" + rest else ", " + (JoinWith(parts[1..], ", ") + "]" + rest)
  {
  }

  lemma {:induction false} LiteralsReadBack(values: seq<Literal>, rest: string)
    requires forall i | 0 <= i < |values| :: IsPlainLiteral(values[i])
    ensures ReadLiterals(JoinWith(Texts(values), ", ") + "]" + rest) == Some((values, rest))
    decreases |values|
  {
    if values == [] {
      assert JoinWith(Texts(values), ", ") + "]" + rest == "]" + rest;
    } else {
      TextsLength(values);
      assert Texts(values)[1..] == Texts(values[1..]);
      JoinedParts(Texts(values), rest);
      if |values| == 1 {
        LastLiteral(values[0], rest);
        assert values == [values[0]];
      } else {
        LiteralsReadBack(values[1..], rest);
        NextLiteral(values[0], JoinWith(Texts(values[1..]), ", ") + "]" + rest, values[1..], rest);
        assert values == [values[0]] + values[1..];
      }
    }
  }

  lemma {:induction false} TextsLength(values: seq<Literal>)
    ensures |Texts(values)| == |values|
  {
    if values != [] {
      TextsLength(values[1..]);
    }
  }

  // ----- names -------------------------------------------------------------------------------------

  lemma {:induction false} NameReadsBack(name: string, rest: string)
    requires IsName(name) && (rest == "" || !IsNameChar(rest[0]))
    ensures NameEnd(name + rest, 0) == |name| && (name + rest)[..|name|] == name && (name + rest)[|name|..] == rest
  {
    var s := name + rest;
    assert rest != "" ==> s[|name|] == rest[0];
  }

  lemma {:induction false} LastName(name: string, rest: string)
    requires IsName(name)
    ensures ReadNames(name + ("]" + rest)) == Some(([name], rest))
  {
    var tail := "]" + rest;
    NameReadsBack(name, tail);
    assert (name + tail)[0] == name[0] && tail[1..] == rest;
  }

  lemma {:induction false} NextName(name: string, more: string, names: seq<string>, rest: string)
    requires IsName(name) && ReadNames(more) == Some((names, rest))
    ensures ReadNames(name + (", " + more)) == Some(([name] + names, rest))
  {
    var tail := ", " + more;
    NameReadsBack(name, tail);
    assert (name + tail)[0] == name[0] && tail[2..] == more && tail[0] == ',';
  }

  lemma {:induction false} NamesReadBack(names: seq<string>, rest: string)
    requires forall i | 0 <= i < |names| :: IsName(names[i])
    ensures ReadNames(JoinWith(names, ", ") + "]" + rest) == Some((names, rest))
    decreases |names|
  {
    if names == [] {
      assert JoinWith(names, ", ") + "]" + rest == "]" + rest;
    } else {
      JoinedParts(names, rest);
      if |names| == 1 {
        LastName(names[0], rest);
        assert names == [names[0]];
      } else {
        NamesReadBack(names[1..], rest);
        NextName(names[0], JoinWith(names[1..], ", ") + "]" + rest, names[1..], rest);
        assert names == [names[0]] + names[1..];
      }
    }
  }

  // ----- annotations ----------------------------------------------------------------------------------

  /** Reading a rendered type leaves the reader at the alternatives that follow it. */
  lemma {:induction false} TypeReadsOn(a: Annotation, rest: string)
    requires IsReadable(a) && IsOpen(rest)
    ensures ReadType(Render(a) + rest) == Some(ReadAlternatives(a, rest))
    decreases a, 1
  {
    if a.OrNone? {
      assert Render(a) + rest == Render(a.inner) + (" | None" + rest);
      assert (" | None" + rest)[7..] == rest && (" | None" + rest)[0] == ' ';
      TypeReadsOn(a.inner, " | None" + rest);
    } else {
      BaseReadsBack(a, rest);
    }
  }

  lemma {:induction false} BaseReadsBack(a: Annotation, rest: string)
    requires IsReadable(a) && IsOpen(rest) && !a.OrNone?
    ensures ReadBase(Render(a) + rest) == Some((a, rest))
    decreases a, 0
  {
    match a
    case AnyType =>
      NamedReadsBack("Any", rest);
    case Primitive(name) =>
      NamedReadsBack(name, rest);
    case ClassRef(name) =>
      NamedReadsBack(name, rest);
    case DictAny =>
      DictText(rest);
      DictStep(rest);
    case ListOf(item) =>
      TypeReadsOn(item, "]" + rest);
      assert ("]" + rest)[0] == ']' && !(" | None" <= "]" + rest);
      ListText(item, rest);
      ListStep(Render(item) + ("]" + rest), item, rest);
    case LiteralOf(values) =>
      LiteralTypeText(values, rest);
      LiteralsReadBack(values, rest);
      LiteralStep(JoinWith(Texts(values), ", ") + "]" + rest, values, rest);
    case UnionOf(names) =>
      UnionText(names, rest);
      NamesReadBack(names, rest);
      UnionStep(JoinWith(names, ", ") + "]" + rest, names, rest);
  }

  /** The texts of the bracketed types, opened at their bracket. */
  lemma {:induction false} ListText(item: Annotation, rest: string)
    ensures Render(ListOf(item)) + rest == "list" + ("[" + (Render(item) + ("]" + rest)))
  {
  }

  lemma {:induction false} LiteralTypeText(values: seq<Literal>, rest: string)
    ensures Render(LiteralOf(values)) + rest == "Literal" + ("[" + (JoinWith(Texts(values), ", ") + "]" + rest))
  {
  }

  lemma {:induction false} UnionText(names: seq<string>, rest: string)
    ensures Render(UnionOf(names)) + rest == "Union" + ("[" + (JoinWith(names, ", ") + "]" + rest))
  {
  }

  lemma {:induction false} DictText(rest: string)
    ensures Render(DictAny) + rest == "dict" + ("[" + ("str, Any]" + rest))
  {
  }

  lemma {:induction false} ListStep(inside: string, item: Annotation, rest: string)
    requires ReadType(inside) == Some((item, "]" + rest))
    ensures ReadBase("list" + ("[" + inside)) == Some((ListOf(item), rest))
  {
    OpenedBy("list", inside);
    assert ("]" + rest)[1..] == rest;
    assert |"list"| == 4 && |"dict"| == 4 && "list"[0] == 'l' && "dict"[0] == 'd';
  }

  lemma {:induction false} LiteralStep(inside: string, values: seq<Literal>, rest: string)
    requires ReadLiterals(inside) == Some((values, rest))
    ensures ReadBase("Literal" + ("[" + inside)) == Some((LiteralOf(values), rest))
  {
    OpenedBy("Literal", inside);
    assert |"Literal"| == 7 && |"list"| == 4 && |"dict"| == 4;
  }

  lemma {:induction false} UnionStep(inside: string, names: seq<string>, rest: string)
    requires ReadNames(inside) == Some((names, rest))
    ensures ReadBase("Union" + ("[" + inside)) == Some((UnionOf(names), rest))
  {
    OpenedBy("Union", inside);
    assert |"Union"| == 5 && |"Literal"| == 7 && |"list"| == 4 && |"dict"| == 4;
  }

  lemma {:induction false} DictStep(rest: string)
    ensures ReadBase("dict" + ("[" + ("str, Any]" + rest))) == Some((DictAny, rest))
  {
    OpenedBy("dict", "str, Any]" + rest);
    var head := "[str, Any]";
    assert |head| == 10 && head == "[" + "str, Any]";
    assert "[" + ("str, Any]" + rest) == head + rest && (head + rest)[|head|..] == rest;
  }

  lemma {:induction false} OpenedBy(keyword: string, inside: string)
    requires keyword in ["list", "Literal", "Union", "dict"]
    ensures var s := keyword + ("[" + inside);
            NameEnd(s, 0) == |keyword| && s[..|keyword|] == keyword && s[|keyword|..] == "[" + inside
    ensures ("[" + inside)[1..] == inside
  {
    assert IsName(keyword);
    NameReadsBack(keyword, "[" + inside);
  }

  lemma {:induction false} NamedReadsBack(name: string, rest: string)
    requires IsName(name) && IsOpen(rest)
    ensures ReadBase(name + rest) == Some((NamedType(name), rest))
  {
    NameReadsBack(name, rest);
  }

  /** The text of an annotation, with anything behind it that is no alternative, is read back as that annotation. */
  lemma {:induction false} AnnotationReadsBack(a: Annotation, rest: string)
    requires IsReadable(a) && IsOpen(rest) && !(" | None" <= rest)
    ensures ReadType(Render(a) + rest) == Some((a, rest))
  {
    TypeReadsOn(a, rest);
  }

  /** So different annotations have different texts. */
  lemma {:induction false} TextsDiffer(a: Annotation, b: Annotation)
    requires IsReadable(a) && IsReadable(b)
    ensures Render(a) == Render(b) <==> a == b
  {
    AnnotationReadsBack(a, "");
    AnnotationReadsBack(b, "");
    assert Render(a) + "" == Render(a) && Render(b) + "" == Render(b);
  }

  // ----- generated annotations -------------------------------------------------------------------------

  /** The enumerations that reach the annotation hold only values that can be written. */
  predicate HasPlainValues(s: Schema)
    decreases s
  {
    if s.NotAnObject? then true
    else if s.anyOf.Variants? then
      |NonNull(s.anyOf.list)| == 1 ==> assert NonNull(s.anyOf.list)[0] in s.anyOf.list; HasPlainValues(NonNull(s.anyOf.list)[0])
    else if s.oneOf.Variants? then true
    else if s.enumeration.Some? then forall i | 0 <= i < |s.enumeration.value| :: IsPlainLiteral(s.enumeration.value[i])
    else if s.constant.Some? then IsPlainLiteral(s.constant.value)
    else if s.typeName == Some("array") && s.items.Items? then HasPlainValues(s.items.schema)
    else true
  }

  /** A class name: a capital, then letters, digits and underscores, and none of the names with a meaning. */
  predicate IsClassName(s: string) {
    IsName(s) && NamedType(s) == ClassRef(s)
  }

  /** Every annotation the generator gives a schema with such values is read back from its text. */
  lemma {:induction false} GeneratedReadsBack(s: Schema, className: Option<string>)
    requires HasPlainValues(s) && (className.Some? ==> IsClassName(className.value))
    ensures IsReadable(Annotate(s, className))
    ensures ReadType(Render(Annotate(s, className))) == Some((Annotate(s, className), ""))
  {
    GeneratedIsReadable(s, className);
    AnnotationReadsBack(Annotate(s, className), "");
    assert Render(Annotate(s, className)) + "" == Render(Annotate(s, className));
  }

  lemma {:induction false} ItemNameIsClassName(name: string)
    requires IsClassName(name)
    ensures IsClassName(name + "Item")
  {
    var item := name + "Item";
    assert item[|item| - 1] == 'm' && |item| > 4;
    assert |"Any"| == 3 && |"str"| == 3 && |"float"| == 5 && |"int"| == 3 && |"bool"| == 4 && |"None"| == 4 && "float"[4] == 't';
    assert forall i | 0 <= i < |item| :: item[i] == if i < |name| then name[i] else "Item"[i - |name|];
  }

  lemma {:induction false} VariantNameIsName(className: string, i: nat)
    requires IsName(className)
    ensures IsName(VariantName(className, i))
  {
    var name, n := VariantName(className, i), |className|;
    assert name == className + "Variant" + Suffix(i);
    assert forall k | 0 <= k < |name| ::
        name[k] == if k < n then className[k] else if k < n + 7 then "Variant"[k - n] else Suffix(i)[k - n - 7];
  }

  lemma {:induction false} GeneratedIsReadable(s: Schema, className: Option<string>)
    requires HasPlainValues(s) && (className.Some? ==> IsClassName(className.value))
    ensures IsReadable(Annotate(s, className))
  {
    if s.NotAnObject? {
    } else if s.anyOf.Variants? {
      if |NonNull(s.anyOf.list)| == 1 {
        assert NonNull(s.anyOf.list)[0] in s.anyOf.list;
        GeneratedIsReadable(NonNull(s.anyOf.list)[0], className);
      }
    } else if s.oneOf.Variants? {
      if className.Some? {
        forall i | 0 <= i < |s.oneOf.list|
          ensures IsName(VariantName(className.value, i))
        {
          VariantNameIsName(className.value, i);
        }
      }
    } else if s.enumeration.Some? || s.constant.Some? {
    } else if s.typeName == Some("array") && s.items.Items? {
      if className.Some? {
        ItemNameIsClassName(className.value);
      }
      GeneratedIsReadable(s.items.schema, ItemName(className));
    } else if s.typeName.Some? {
      PrimitiveIsReadable(s.typeName.value);
    }
  }

  lemma {:induction false} PrimitiveIsReadable(name: string)
    ensures IsReadable(PrimitiveType(name))
  {
    assert |"str"| == 3 && |"float"| == 5 && |"int"| == 3 && |"bool"| == 4 && |"None"| == 4 && |"Any"| == 3;
    assert "str"[0] == 's' && "int"[0] == 'i' && "Any"[0] == 'A';
  }
}
