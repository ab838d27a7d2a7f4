/**
 * Compiling JSON Schemas to Python dataclasses.
 *
 * The generator walks a schema and pushes the classes of nested objects onto a shared
 * list before the class that needs them.  `Annotate`, `FieldsOf` and `Emitted` say what
 * a schema means: the annotation it gets, the fields of its class, and the classes it adds.
 */
module PythonPayloads {
  import opened Collections
  import opened Characters
  import opened PythonTypes
  import opened VariantSuffix
  import opened CodeUnitOrder

  /**
   * A schema node as the generator sees it: `properties` is absent unless it is a
   * property map, `typeName` unless it is a string.  `NotAnObject` is any other JSON
   * scalar in schema position.
   */
  datatype Schema =
    | NotAnObject
    | Node(anyOf: Variants,
           oneOf: Variants,
           enumeration: Option<seq<Literal>>,
           constant: Option<Literal>,
           typeName: Option<string>,
           properties: Properties,
           required: set<string>,
           items: Items)

  datatype Variants = NoVariants | Variants(list: seq<Schema>)

  datatype Properties = NoProperties | Properties(list: seq<Property>)

  datatype Items = NoItems | Items(schema: Schema)

  datatype Property = Property(key: string, schema: Schema)

  /** `key` is the property the field stands for; only `name` appears in the generated text. */
  datatype Field = Field(key: string, name: string, annotation: Annotation, optional: bool)

  datatype ClassDef = ClassDef(name: string, fields: seq<Field>)

  datatype Alias = Alias(name: string, annotation: Annotation)

  // ----- names ---------------------------------------------------------------------------------

  function LowerAll(s: string): string {
    seq(|s|, i requires 0 <= i < |s| => ToLower(s[i]))
  }

  /** `replace(/([a-z0-9])([A-Z])/g, '$1_$2')`. */
  function SplitAtCapitals(s: string): string {
    if |s| < 2 then s
    else [s[0]] + (if (IsLower(s[0]) || IsDigit(s[0])) && IsUpper(s[1]) then "_" else "") + SplitAtCapitals(s[1..])
  }

  /** `replace(/([A-Z]+)([A-Z][a-z])/g, '$1_$2')`. */
  function SplitAfterAcronyms(s: string): string {
    if |s| < 3 then s
    else [s[0]] + (if IsUpper(s[0]) && IsUpper(s[1]) && IsLower(s[2]) then "_" else "") + SplitAfterAcronyms(s[1..])
  }

  /** `camelToSnake`. */
  function CamelToSnake(name: string): string {
    LowerAll(SplitAfterAcronyms(SplitAtCapitals(name)))
  }

  /** The underscore-separated parts, each with a capital; `start` at the beginning of a part. */
  function Capitalized(s: string, start: bool): string {
    if s == "" then ""
    else if s[0] == '_' then Capitalized(s[1..], true)
    else [if start then ToUpper(s[0]) else s[0]] + Capitalized(s[1..], false)
  }

  /** `toPascalWord`. */
  function PascalWord(token: string): string {
    Capitalized(CamelToSnake(token), true)
  }

  /** `fullSubjectToPascalClass`: the dot-separated tokens, each in Pascal case; `token` is the open one. */
  function PascalSubject(subject: string, token: string): string
    decreases |subject|
  {
    if subject == "" then PascalWord(token)
    else if subject[0] == '.' then PascalWord(token) + PascalSubject(subject[1..], "")
    else PascalSubject(subject[1..], token + [subject[0]])
  }

  /** `/^[A-Za-z_][A-Za-z0-9_]*$/`. */
  predicate IsIdentifier(s: string) {
    && s != "" && !IsDigit(s[0])
    && forall i | 0 <= i < |s| :: IsUpper(s[i]) || IsLower(s[i]) || IsDigit(s[i]) || s[i] == '_'
  }

  function VariantName(className: string, index: nat): string {
    className + "Variant" + Suffix(index)
  }

  // ----- annotations -------------------------------------------------------------------------------

  predicate IsNullType(s: Schema) {
    s.Node? && s.typeName == Some("null")
  }

  function NonNull(variants: seq<Schema>): (r: seq<Schema>)
    ensures forall v | v in r :: v in variants
  {
    if variants == [] then []
    else (if IsNullType(variants[0]) then [] else [variants[0]]) + NonNull(variants[1..])
  }

  /** `isDataclassObjectSchema`. */
  predicate IsDataclass(s: Schema) {
    s.Node? && s.properties.Properties? && forall i | 0 <= i < |s.properties.list| :: IsIdentifier(s.properties.list[i].key)
  }

  predicate AreDataclassVariants(variants: seq<Schema>) {
    variants != [] && forall i | 0 <= i < |variants| :: IsDataclass(variants[i])
  }

  function VariantNames(className: string, n: nat): (r: seq<string>)
    ensures |r| == n && forall i | 0 <= i < n :: r[i] == VariantName(className, i)
  {
    seq(n, i requires 0 <= i < n => VariantName(className, i))
  }

  function PrimitiveType(name: string): Annotation {
    match name
    case "string" => Primitive("str")
    case "number" => Primitive("float")
    case "integer" => Primitive("int")
    case "boolean" => Primitive("bool")
    case "null" => Primitive("None")
    case _ => AnyType
  }

  function ItemName(className: Option<string>): Option<string> {
    if className.None? then None else Some(className.value + "Item")
  }

  /** The annotation of a schema whose class, if it needs one, is to be called `className`. */
  function Annotate(s: Schema, className: Option<string>): Annotation {
    if s.NotAnObject? then AnyType
    else if s.anyOf.Variants? then
      var nonNull := NonNull(s.anyOf.list);
      if |nonNull| != 1 then DictAny
      else
        assert nonNull[0] in s.anyOf.list;
        var inner := Annotate(nonNull[0], className);
        if exists v :: v in s.anyOf.list && IsNullType(v) then OrNone(inner) else inner
    else if s.oneOf.Variants? then
      if className.None? || !AreDataclassVariants(s.oneOf.list) then DictAny
      else UnionOf(VariantNames(className.value, |s.oneOf.list|))
    else if s.enumeration.Some? then LiteralOf(s.enumeration.value)
    else if s.constant.Some? then LiteralOf([s.constant.value])
    else if s.typeName == Some("object") then
      if className.Some? && IsDataclass(s) then ClassRef(className.value) else DictAny
    else if s.typeName == Some("array") then
      if s.items.Items? then ListOf(Annotate(s.items.schema, ItemName(className))) else ListOf(AnyType)
    else if s.typeName.Some? then PrimitiveType(s.typeName.value)
    else AnyType
  }

  // ----- fields ---------------------------------------------------------------------------------------

  function PropertyClass(owner: string, key: string): string {
    owner + PascalWord(key)
  }

  function FieldOf(p: Property, required: set<string>, owner: string): Field {
    var optional := p.key !in required;
    var a := Annotate(p.schema, Some(PropertyClass(owner, p.key)));
    Field(p.key, CamelToSnake(p.key), if optional && !Contains(Render(a), "None") then OrNone(a) else a, optional)
  }

  /** A stable sort by field name. */
  function SortFields(fields: seq<Field>): (r: seq<Field>)
    ensures multiset(r) == multiset(fields)
    ensures forall f :: f in r <==> f in fields
    ensures forall i, j | 0 <= i < j < |r| :: StringLe(r[i].name, r[j].name)
  {
    var key := (f: Field) => f.name;
    SortSorts(key, fields);
    var r := Sort(key, fields);
    assert forall i | 0 <= i < |r| :: key(r[i]) == r[i].name;
    r
  }

  /** The fields of the given optionality, in property order. */
  function Pick(properties: seq<Property>, required: set<string>, owner: string, optional: bool): (r: seq<Field>)
    ensures forall f | f in r :: f.optional == optional
  {
    if properties == [] then []
    else
      var f := FieldOf(properties[|properties| - 1], required, owner);
      Pick(properties[..|properties| - 1], required, owner, optional) + if f.optional == optional then [f] else []
  }

  /** `schemaToFields`: required fields, then optional ones. */
  function FieldsOf(s: Schema, owner: string): seq<Field> {
    if s.NotAnObject? || s.properties.NoProperties? then []
    else SortFields(Pick(s.properties.list, s.required, owner, false)) +
         SortFields(Pick(s.properties.list, s.required, owner, true))
  }

  // ----- emitted classes --------------------------------------------------------------------------------

  /** The classes that annotating `s` adds, in order. */
  function Emitted(s: Schema, className: Option<string>): seq<ClassDef>
    decreases s, 2
  {
    if s.NotAnObject? then []
    else if s.anyOf.Variants? then
      var nonNull := NonNull(s.anyOf.list);
      if |nonNull| != 1 then [] else assert nonNull[0] in s.anyOf.list; Emitted(nonNull[0], className)
    else if s.oneOf.Variants? then
      if className.None? || !AreDataclassVariants(s.oneOf.list) then []
      else EmittedByVariants(s.oneOf.list, className.value)
    else if s.enumeration.Some? || s.constant.Some? then []
    else if s.typeName == Some("object") then
      if className.Some? && IsDataclass(s) then EmittedClass(s, className.value) else []
    else if s.typeName == Some("array") && s.items.Items? then Emitted(s.items.schema, ItemName(className))
    else []
  }

  /** The class of an object schema, after the classes its fields need. */
  function EmittedClass(s: Schema, name: string): seq<ClassDef>
    decreases s, 1
  {
    EmittedByFields(s, name) + [ClassDef(name, FieldsOf(s, name))]
  }

  function EmittedByFields(s: Schema, owner: string): seq<ClassDef>
    decreases s, 0
  {
    if s.NotAnObject? || s.properties.NoProperties? then [] else EmittedByProperties(s.properties.list, owner)
  }

  function EmittedByProperties(properties: seq<Property>, owner: string): seq<ClassDef>
    decreases properties
  {
    if properties == [] then []
    else
      var last := properties[|properties| - 1];
      EmittedByProperties(properties[..|properties| - 1], owner) +
      Emitted(last.schema, Some(PropertyClass(owner, last.key)))
  }

  function EmittedByVariants(variants: seq<Schema>, className: string): seq<ClassDef>
    decreases variants
  {
    if variants == [] then []
    else
      var n := |variants| - 1;
      EmittedByVariants(variants[..n], className) + EmittedClass(variants[n], VariantName(className, n))
  }

  // ----- every class is defined before it is needed ---------------------------------------------------

  function ClassNames(classes: seq<ClassDef>): set<string> {
    set i | 0 <= i < |classes| :: classes[i].name
  }

  /** Each class named in a field is defined by a strictly earlier entry. */
  ghost predicate DefinedBeforeUse(classes: seq<ClassDef>) {
    forall i, f | 0 <= i < |classes| && f in classes[i].fields ::
      References(f.annotation) <= ClassNames(classes[..i])
  }

  lemma {:induction false} ClassNamesGrow(a: seq<ClassDef>, b: seq<ClassDef>)
    ensures ClassNames(a + b) == ClassNames(a) + ClassNames(b)
  {
    forall n | n in ClassNames(a) + ClassNames(b)
      ensures n in ClassNames(a + b)
    {
      if n in ClassNames(a) {
        var i :| 0 <= i < |a| && a[i].name == n;
        assert (a + b)[i].name == n;
      } else {
        var i :| 0 <= i < |b| && b[i].name == n;
        assert (a + b)[|a| + i].name == n;
      }
    }
  }

  lemma {:induction false} AppendClass(classes: seq<ClassDef>, c: ClassDef)
    requires DefinedBeforeUse(classes)
    requires forall f | f in c.fields :: References(f.annotation) <= ClassNames(classes)
    ensures DefinedBeforeUse(classes + [c])
  {
    var all := classes + [c];
    forall i, f | 0 <= i < |all| && f in all[i].fields
      ensures References(f.annotation) <= ClassNames(all[..i])
    {
      assert all[..i] == classes[..i];
      if i == |classes| {
        assert classes[..i] == classes;
      }
    }
  }

  /** The classes an annotation names are among those the same schema emits. */
  lemma {:induction false} AnnotationIsEmitted(s: Schema, className: Option<string>)
    ensures References(Annotate(s, className)) <= ClassNames(Emitted(s, className))
  {
    if s.NotAnObject? {
    } else if s.anyOf.Variants? {
      var nonNull := NonNull(s.anyOf.list);
      if |nonNull| == 1 {
        assert nonNull[0] in s.anyOf.list;
        AnnotationIsEmitted(nonNull[0], className);
      }
    } else if s.oneOf.Variants? {
      if className.Some? && AreDataclassVariants(s.oneOf.list) {
        VariantsAreEmitted(s.oneOf.list, className.value);
      }
    } else if s.enumeration.Some? || s.constant.Some? {
    } else if s.typeName == Some("object") {
      if className.Some? && IsDataclass(s) {
        ClassIsEmitted(s, className.value);
      }
    } else if s.typeName == Some("array") && s.items.Items? {
      AnnotationIsEmitted(s.items.schema, ItemName(className));
    }
  }

  lemma {:induction false} ClassIsEmitted(s: Schema, name: string)
    ensures name in ClassNames(EmittedClass(s, name))
  {
    var classes := EmittedClass(s, name);
    assert classes[|classes| - 1].name == name;
  }

  lemma {:induction false} NameInSum(a: seq<ClassDef>, b: seq<ClassDef>, sum: seq<ClassDef>, name: string)
    requires sum == a + b && (name in ClassNames(a) || name in ClassNames(b))
    ensures name in ClassNames(sum)
  {
    ClassNamesGrow(a, b);
  }

  lemma {:induction false} VariantIsEmitted(variants: seq<Schema>, className: string, i: nat)
    requires i < |variants|
    ensures VariantName(className, i) in ClassNames(EmittedByVariants(variants, className))
    decreases variants
  {
    var n := |variants| - 1;
    var before, last := EmittedByVariants(variants[..n], className), EmittedClass(variants[n], VariantName(className, n));
    if i < n {
      VariantIsEmitted(variants[..n], className, i);
    } else {
      ClassIsEmitted(variants[n], VariantName(className, n));
    }
    NameInSum(before, last, EmittedByVariants(variants, className), VariantName(className, i));
  }

  lemma {:induction false} VariantsAreEmitted(variants: seq<Schema>, className: string)
    ensures (set n | n in VariantNames(className, |variants|)) <= ClassNames(EmittedByVariants(variants, className))
  {
    forall i | 0 <= i < |variants|
      ensures VariantName(className, i) in ClassNames(EmittedByVariants(variants, className))
    {
      VariantIsEmitted(variants, className, i);
    }
  }

  ghost predicate HasField(properties: seq<Property>, required: set<string>, owner: string, f: Field) {
    exists i | 0 <= i < |properties| :: f == FieldOf(properties[i], required, owner)
  }

  lemma {:induction false} HasFieldSnoc(front: seq<Property>, last: Property, required: set<string>, owner: string, f: Field)
    ensures HasField(front + [last], required, owner, f) <==>
            HasField(front, required, owner, f) || f == FieldOf(last, required, owner)
  {
    var all := front + [last];
    if i :| 0 <= i < |front| && f == FieldOf(front[i], required, owner) {
      assert all[i] == front[i];
    }
    assert all[|front|] == last;
  }

  lemma {:induction false} PickMember(front: seq<Property>, last: Property, required: set<string>, owner: string, f: Field)
    ensures f in Pick(front + [last], required, owner, f.optional) <==>
            f in Pick(front, required, owner, f.optional) || f == FieldOf(last, required, owner)
  {
    assert (front + [last])[..|front|] == front;
  }

  lemma {:induction false} PickedHasField(properties: seq<Property>, required: set<string>, owner: string, f: Field)
    ensures f in Pick(properties, required, owner, f.optional) <==> HasField(properties, required, owner, f)
  {
    if properties != [] {
      var front, last := properties[..|properties| - 1], properties[|properties| - 1];
      assert properties == front + [last];
      PickedHasField(front, required, owner, f);
      HasFieldSnoc(front, last, required, owner, f);
      PickMember(front, last, required, owner, f);
    }
  }

  /** Every field stems from a property, and every property has its field. */
  lemma {:induction false} PickedFields(properties: seq<Property>, required: set<string>, owner: string, f: Field)
    ensures f in Pick(properties, required, owner, f.optional) <==>
            exists i | 0 <= i < |properties| :: f == FieldOf(properties[i], required, owner)
  {
    PickedHasField(properties, required, owner, f);
  }

  lemma {:induction false} FieldsAreProperties(s: Schema, owner: string, f: Field)
    ensures f in FieldsOf(s, owner) <==>
            s.Node? && s.properties.Properties? &&
            exists i | 0 <= i < |s.properties.list| :: f == FieldOf(s.properties.list[i], s.required, owner)
  {
    if s.Node? && s.properties.Properties? {
      PickedFields(s.properties.list, s.required, owner, f);
    }
  }

  /** What a field refers to is emitted with its property. */
  lemma {:induction false} PropertyIsEmitted(properties: seq<Property>, i: nat, required: set<string>, owner: string)
    requires i < |properties|
    ensures References(FieldOf(properties[i], required, owner).annotation)
            <= ClassNames(EmittedByProperties(properties, owner))
  {
    var n := |properties| - 1;
    var last := properties[n];
    var front, back := EmittedByProperties(properties[..n], owner), Emitted(last.schema, Some(PropertyClass(owner, last.key)));
    ClassNamesGrow(front, back);
    if i == n {
      AnnotationIsEmitted(last.schema, Some(PropertyClass(owner, last.key)));
    } else {
      PropertyIsEmitted(properties[..n], i, required, owner);
    }
  }

  lemma {:induction false} EmittedIsOrdered(s: Schema, className: Option<string>, before: seq<ClassDef>)
    requires DefinedBeforeUse(before)
    ensures DefinedBeforeUse(before + Emitted(s, className))
    decreases s, 2
  {
    assert before + [] == before;
    if s.NotAnObject? {
    } else if s.anyOf.Variants? {
      var nonNull := NonNull(s.anyOf.list);
      if |nonNull| == 1 {
        assert nonNull[0] in s.anyOf.list;
        EmittedIsOrdered(nonNull[0], className, before);
      }
    } else if s.oneOf.Variants? {
      if className.Some? && AreDataclassVariants(s.oneOf.list) {
        VariantsAreOrdered(s.oneOf.list, className.value, before);
      }
    } else if s.enumeration.Some? || s.constant.Some? {
    } else if s.typeName == Some("object") {
      if className.Some? && IsDataclass(s) {
        ClassIsOrdered(s, className.value, before);
      }
    } else if s.typeName == Some("array") && s.items.Items? {
      EmittedIsOrdered(s.items.schema, ItemName(className), before);
    }
  }

  lemma {:induction false} FieldIsEmitted(s: Schema, name: string, f: Field)
    requires f in FieldsOf(s, name)
    ensures References(f.annotation) <= ClassNames(EmittedByFields(s, name))
  {
    FieldsAreProperties(s, name, f);
    var i :| 0 <= i < |s.properties.list| && f == FieldOf(s.properties.list[i], s.required, name);
    PropertyIsEmitted(s.properties.list, i, s.required, name);
  }

  lemma {:induction false} ClassIsOrdered(s: Schema, name: string, before: seq<ClassDef>)
    requires DefinedBeforeUse(before)
    ensures DefinedBeforeUse(before + EmittedClass(s, name))
    decreases s, 1
  {
    var nested, fields := EmittedByFields(s, name), FieldsOf(s, name);
    assert DefinedBeforeUse(before + nested) by {
      if s.Node? && s.properties.Properties? {
        PropertiesAreOrdered(s.properties.list, name, before);
      } else {
        assert before + [] == before;
      }
    }
    forall f | f in fields
      ensures References(f.annotation) <= ClassNames(before + nested)
    {
      FieldIsEmitted(s, name, f);
      ClassNamesGrow(before, nested);
    }
    AppendClass(before + nested, ClassDef(name, fields));
    ConcatAssoc(before, nested, [ClassDef(name, fields)]);
  }

  lemma {:induction false} PropertiesAreOrdered(properties: seq<Property>, owner: string, before: seq<ClassDef>)
    requires DefinedBeforeUse(before)
    ensures DefinedBeforeUse(before + EmittedByProperties(properties, owner))
    decreases properties
  {
    if properties == [] {
      assert before + [] == before;
    } else {
      var n := |properties| - 1;
      var last := properties[n];
      var front := EmittedByProperties(properties[..n], owner);
      PropertiesAreOrdered(properties[..n], owner, before);
      EmittedIsOrdered(last.schema, Some(PropertyClass(owner, last.key)), before + front);
      ConcatAssoc(before, front, Emitted(last.schema, Some(PropertyClass(owner, last.key))));
    }
  }

  lemma {:induction false} VariantsAreOrdered(variants: seq<Schema>, className: string, before: seq<ClassDef>)
    requires DefinedBeforeUse(before)
    ensures DefinedBeforeUse(before + EmittedByVariants(variants, className))
    decreases variants
  {
    if variants == [] {
      assert before + [] == before;
    } else {
      var n := |variants| - 1;
      var front := EmittedByVariants(variants[..n], className);
      VariantsAreOrdered(variants[..n], className, before);
      ClassIsOrdered(variants[n], VariantName(className, n), before + front);
      ConcatAssoc(before, front, EmittedClass(variants[n], VariantName(className, n)));
    }
  }
}
