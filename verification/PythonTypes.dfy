/** Python annotations as trees, and the text the generator inspects. */
module PythonTypes {
  import opened Characters

  datatype Literal = Text(text: string) | Truth(value: bool) | Null | Number(digits: string)

  datatype Annotation =
    | AnyType
    | DictAny
    | ListOf(item: Annotation)
    | LiteralOf(values: seq<Literal>)
    | Primitive(name: string)
    | ClassRef(name: string)
    | UnionOf(names: seq<string>)
    | OrNone(inner: Annotation)

  function LiteralText(v: Literal): string {
    match v
    case Text(t) => "\"" + t + "\""
    case Truth(b) => if b then "True" else "False"
    case Null => "None"
    case Number(d) => d
  }

  function JoinWith(parts: seq<string>, separator: string): string {
    if parts == [] then ""
    else if |parts| == 1 then parts[0]
    else parts[0] + separator + JoinWith(parts[1..], separator)
  }

  function Texts(values: seq<Literal>): seq<string> {
    if values == [] then [] else [LiteralText(values[0])] + Texts(values[1..])
  }

  function Bracketed(parts: seq<string>): string {
    "[" + JoinWith(parts, ", ") + "]"
  }

  function Render(a: Annotation): string {
    match a
    case AnyType => "Any"
    case DictAny => "dict[str, " + "Any" + "]"
    case ListOf(item) => "list[" + Render(item) + "]"
    case LiteralOf(values) => "Literal" + Bracketed(Texts(values))
    case Primitive(name) => name
    case ClassRef(name) => name
    case UnionOf(names) => "Union" + Bracketed(names)
    case OrNone(inner) => Render(inner) + " | None"
  }

  lemma {:induction false} ContainsMiddle(before: string, part: string, after: string)
    ensures Contains(before + part + after, part)
  {
    assert OccursAt(before + part + after, part, |before|);
  }

  lemma {:induction false} ContainsPrefix(part: string, after: string)
    ensures Contains(part + after, part)
    ensures Contains(part, part)
  {
    assert OccursAt(part + after, part, 0);
    assert OccursAt(part, part, 0);
  }

  lemma {:induction false} ContainsLonger(before: string, text: string, after: string, part: string)
    requires Contains(text, part)
    ensures Contains(before + text + after, part)
  {
    var i :| 0 <= i <= |text| && OccursAt(text, part, i);
    var all, k := before + text + after, |before| + i;
    assert all[k..k + |part|] == text[i..i + |part|];
    assert OccursAt(all, part, k);
  }

  // ----- where the text `None` comes from -----------------------------------------------------

  lemma {:induction false} NoCapitalNoNone(text: string)
    requires 'N' !in text
    ensures !Contains(text, "None")
  {
    forall i | 0 <= i <= |text|
      ensures !OccursAt(text, "None", i)
    {
      if i + 4 <= |text| {
        assert text[i..i + 4][0] == text[i] && text[i] in text;
      }
    }
  }

  /** A separator that shares no letter with `None` keeps what stands on its two sides apart. */
  lemma {:induction false} AcrossSeparator(x: string, separator: string, y: string)
    requires separator != "" && forall c | c in separator :: c !in "None"
    ensures Contains(x + separator + y, "None") <==> Contains(x, "None") || Contains(y, "None")
  {
    var all := x + separator + y;
    if Contains(x, "None") {
      ContainsLonger("", x, separator + y, "None");
      assert "" + x + (separator + y) == all;
    }
    if Contains(y, "None") {
      ContainsLonger(x + separator, y, "", "None");
      assert x + separator + y + "" == all;
    }
    if Contains(all, "None") {
      var i :| 0 <= i <= |all| && OccursAt(all, "None", i);
      OccursOnOneSide(x, separator, y, i);
    }
  }

  lemma {:induction false} OccursOnOneSide(x: string, separator: string, y: string, i: nat)
    requires separator != "" && forall c | c in separator :: c !in "None"
    requires OccursAt(x + separator + y, "None", i)
    ensures Contains(x, "None") || Contains(y, "None")
  {
    var all, k := x + separator + y, |x| + |separator|;
    if i + 4 <= |x| {
      assert x[i..i + 4] == all[i..i + 4];
      assert OccursAt(x, "None", i);
    } else {
      SpanMissesNone(x, separator, y, i);
      assert y[i - k..i - k + 4] == all[i..i + 4];
      assert OccursAt(y, "None", i - k);
    }
  }

  lemma {:induction false} SpanMissesNone(x: string, separator: string, y: string, i: nat)
    requires separator != "" && forall c | c in separator :: c !in "None"
    ensures |x| < i + 4 && i < |x| + |separator| ==> !OccursAt(x + separator + y, "None", i)
  {
    var all, j := x + separator + y, if i < |x| then |x| else i;
    if |x| < i + 4 <= |all| && i < |x| + |separator| {
      assert all[j] == separator[j - |x|] && all[j] in separator;
      assert all[i..i + 4][j - i] == all[j] && "None"[j - i] in "None";
    }
  }

  predicate LiteralShowsNone(v: Literal) {
    match v
    case Text(text) => Contains(text, "None")
    case Truth(_) => false
    case Null => true
    case Number(digits) => Contains(digits, "None")
  }

  /** The annotation shows `None` somewhere, by its structure. */
  predicate ShowsNone(a: Annotation) {
    match a
    case AnyType => false
    case DictAny => false
    case ListOf(item) => ShowsNone(item)
    case LiteralOf(values) => exists i | 0 <= i < |values| :: LiteralShowsNone(values[i])
    case Primitive(name) => Contains(name, "None")
    case ClassRef(name) => Contains(name, "None")
    case UnionOf(names) => exists i | 0 <= i < |names| :: Contains(names[i], "None")
    case OrNone(_) => true
  }

  lemma {:induction false} LiteralTextShows(v: Literal)
    ensures Contains(LiteralText(v), "None") <==> LiteralShowsNone(v)
  {
    match v
    case Text(text) =>
      NoCapitalNoNone("");
      AcrossSeparator("", "\"", text + "\"");
      AcrossSeparator(text, "\"", "");
      assert text + "\"" + "" == text + "\"";
      assert "" + "\"" + (text + "\"") == "\"" + text + "\"";
    case Truth(value) => NoCapitalNoNone(if value then "True" else "False");
    case Null => ContainsPrefix("None", "");
    case Number(_) =>
  }

  lemma {:induction false} TextsAt(values: seq<Literal>)
    ensures |Texts(values)| == |values|
    ensures forall i | 0 <= i < |values| :: Texts(values)[i] == LiteralText(values[i])
  {
    if values != [] {
      TextsAt(values[1..]);
    }
  }

  lemma {:induction false} JoinShows(parts: seq<string>)
    ensures Contains(JoinWith(parts, ", "), "None") <==> exists i | 0 <= i < |parts| :: Contains(parts[i], "None")
  {
    if parts == [] {
      NoCapitalNoNone("");
    } else if |parts| > 1 {
      JoinShows(parts[1..]);
      AcrossSeparator(parts[0], ", ", JoinWith(parts[1..], ", "));
      assert forall i | 0 < i < |parts| :: parts[i] == parts[1..][i - 1];
    }
  }

  lemma {:induction false} BracketsShow(head: string, parts: seq<string>)
    requires 'N' !in head
    ensures Contains(head + Bracketed(parts), "None") <==> exists i | 0 <= i < |parts| :: Contains(parts[i], "None")
  {
    var inner := JoinWith(parts, ", ");
    JoinShows(parts);
    NoCapitalNoNone(head);
    NoCapitalNoNone("");
    AcrossSeparator(head, "[", inner + "]");
    AcrossSeparator(inner, "]", "");
    assert inner + "]" + "" == inner + "]";
    assert head + "[" + (inner + "]") == head + Bracketed(parts);
  }

  lemma {:induction false} ListShows(item: string)
    ensures Contains("list[" + item + "]", "None") <==> Contains(item, "None")
  {
    NoCapitalNoNone("");
    AcrossSeparator("", "list[", item + "]");
    AcrossSeparator(item, "]", "");
    assert "" + "list[" + (item + "]") == "list[" + item + "]";
    assert item + "]" + "" == item + "]";
  }

  lemma {:induction false} LiteralsShow(values: seq<Literal>)
    ensures Contains("Literal" + Bracketed(Texts(values)), "None") <==>
            exists i | 0 <= i < |values| :: LiteralShowsNone(values[i])
  {
    BracketsShow("Literal", Texts(values));
    TextsAt(values);
    forall i | 0 <= i < |values|
      ensures Contains(Texts(values)[i], "None") <==> LiteralShowsNone(values[i])
    {
      LiteralTextShows(values[i]);
    }
  }

  /** The test on the text is a test on the structure. */
  lemma {:induction false} RenderShowsNone(a: Annotation)
    ensures Contains(Render(a), "None") <==> ShowsNone(a)
  {
    match a
    case AnyType => NoCapitalNoNone("Any");
    case DictAny => NoCapitalNoNone(Render(DictAny));
    case ListOf(item) =>
      RenderShowsNone(item);
      ListShows(Render(item));
    case LiteralOf(values) => LiteralsShow(values);
    case Primitive(_) =>
    case ClassRef(_) =>
    case UnionOf(names) => BracketsShow("Union", names);
    case OrNone(inner) =>
      ContainsMiddle(Render(inner) + " | ", "None", "");
      assert Render(inner) + " | " + "None" + "" == Render(a);
  }

  /** The annotation itself admits `None`. */
  predicate AdmitsNone(a: Annotation) {
    match a
    case OrNone(_) => true
    case Primitive(name) => name == "None"
    case LiteralOf(values) => Null in values
    case AnyType => true
    case _ => false
  }

  // ----- what an annotation refers to --------------------------------------------------------

  /** Generated classes named in the annotation. */
  function References(a: Annotation): set<string> {
    match a
    case ListOf(item) => References(item)
    case ClassRef(name) => {name}
    case UnionOf(names) => set n | n in names
    case OrNone(inner) => References(inner)
    case _ => {}
  }

  datatype TypingName = TypingAny | TypingLiteral | TypingUnion

  function TypingText(t: TypingName): string {
    match t
    case TypingAny => "Any"
    case TypingLiteral => "Literal"
    case TypingUnion => "Union"
  }

  /** The annotation needs the name from `typing`. */
  predicate Uses(a: Annotation, t: TypingName) {
    match a
    case AnyType => t == TypingAny
    case DictAny => t == TypingAny
    case ListOf(item) => Uses(item, t)
    case LiteralOf(_) => t == TypingLiteral
    case UnionOf(_) => t == TypingUnion
    case OrNone(inner) => Uses(inner, t)
    case _ => false
  }

  /** Scanning the text never misses a typing name that is used. */
  lemma {:induction false} UsesShow(a: Annotation, t: TypingName)
    requires Uses(a, t)
    ensures Contains(Render(a), TypingText(t))
  {
    var name := TypingText(t);
    match a
    case AnyType => ContainsPrefix(name, "");
    case DictAny => ContainsMiddle("dict[str, ", name, "]");
    case ListOf(item) =>
      UsesShow(item, t);
      ContainsLonger("list[", Render(item), "]", name);
    case LiteralOf(values) => ContainsPrefix(name, Bracketed(Texts(values)));
    case UnionOf(names) => ContainsPrefix(name, Bracketed(names));
    case OrNone(inner) =>
      UsesShow(inner, t);
      ContainsLonger("", Render(inner), " | None", name);
      assert "" + Render(inner) == Render(inner);
  }
}
