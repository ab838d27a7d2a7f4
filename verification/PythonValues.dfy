/**
 * What the generated annotations mean.
 *
 * `Validates` is the meaning of a schema and `Admits` that of an annotation, both as sets
 * of JSON values.  The generator is sound: a value of the schema is a value of its
 * annotation, except where the generator gives up on a union and writes a dictionary.  It
 * is exact on primitive types, enumerations, constants, lists and nullable types, and its
 * classes say neither more nor less than their properties.
 */
module PythonValues {
  import opened Collections
  import opened Characters
  import opened PythonTypes
  import opened PythonPayloads

  datatype Json = Scalar(value: Literal) | Array(items: seq<Json>) | Object(members: seq<Member>)

  datatype Member = Member(key: string, value: Json)

  const NULL := Scalar(Null)

  predicate HasMember(v: Json, key: string)
    requires v.Object?
  {
    exists i | 0 <= i < |v.members| :: v.members[i].key == key
  }

  /** The text of a whole number. */
  predicate IsWhole(digits: string) {
    var d := if digits != "" && digits[0] == '-' then digits[1..] else digits;
    d != "" && forall i | 0 <= i < |d| :: IsDigit(d[i])
  }

  // ----- schemas ---------------------------------------------------------------------------------

  /** The JSON type of a value; a type name outside the standard says nothing. */
  predicate HasType(name: string, v: Json) {
    match name
    case "string" => v.Scalar? && v.value.Text?
    case "number" => v.Scalar? && v.value.Number?
    case "integer" => v.Scalar? && v.value.Number? && IsWhole(v.value.digits)
    case "boolean" => v.Scalar? && v.value.Truth?
    case "null" => v == NULL
    case "object" => v.Object?
    case "array" => v.Array?
    case _ => true
  }

  /** The value satisfies every keyword of the schema. */
  ghost predicate Validates(s: Schema, v: Json)
    decreases s, 1
  {
    s.Node? ==>
      && HoldsKeywords(s, v)
      && HoldsAnyOf(s.anyOf, v)
      && HoldsOneOf(s.oneOf, v)
      && HoldsProperties(s.properties, v)
      && HoldsItems(s.items, v)
  }

  /** `enum`, `const`, `type` and `required`. */
  predicate HoldsKeywords(s: Schema, v: Json)
    requires s.Node?
  {
    && (s.enumeration.Some? ==> v.Scalar? && v.value in s.enumeration.value)
    && (s.constant.Some? ==> v == Scalar(s.constant.value))
    && (s.typeName.Some? ==> HasType(s.typeName.value, v))
    && (v.Object? ==> forall k | k in s.required :: HasMember(v, k))
  }

  ghost predicate HoldsAnyOf(variants: Variants, v: Json)
    decreases variants, 0
  {
    variants.Variants? ==> exists i | 0 <= i < |variants.list| :: Validates(variants.list[i], v)
  }

  /** Exactly one variant is met. */
  ghost predicate HoldsOneOf(variants: Variants, v: Json)
    decreases variants, 0
  {
    variants.Variants? ==>
      && (exists i | 0 <= i < |variants.list| :: Validates(variants.list[i], v))
      && (forall i, j | 0 <= i < j < |variants.list| :: !(Validates(variants.list[i], v) && Validates(variants.list[j], v)))
  }

  ghost predicate HoldsProperties(properties: Properties, v: Json)
    decreases properties, 0
  {
    properties.Properties? && v.Object? ==>
      forall i, j | 0 <= i < |properties.list| && 0 <= j < |v.members| && v.members[j].key == properties.list[i].key ::
        Validates(properties.list[i].schema, v.members[j].value)
  }

  ghost predicate HoldsItems(items: Items, v: Json)
    decreases items, 0
  {
    items.Items? && v.Array? ==> forall j | 0 <= j < |v.items| :: Validates(items.schema, v.items[j])
  }

  // ----- annotations ------------------------------------------------------------------------------

  predicate IsPrimitive(name: string, v: Json) {
    match name
    case "str" => v.Scalar? && v.value.Text?
    case "float" => v.Scalar? && v.value.Number?
    case "int" => v.Scalar? && v.value.Number? && IsWhole(v.value.digits)
    case "bool" => v.Scalar? && v.value.Truth?
    case "None" => v == NULL
    case _ => false
  }

  /**
   * The value is one of the annotation.  Python does not check the default of a field that
   * is left out; with `strict` it has to fit the annotation as well.
   */
  ghost predicate Admits(strict: bool, a: Annotation, classes: seq<ClassDef>, v: Json)
    decreases v, 1, a
  {
    match a
    case AnyType => true
    case DictAny => v.Object?
    case ListOf(item) => v.Array? && forall j | 0 <= j < |v.items| :: Admits(strict, item, classes, v.items[j])
    case LiteralOf(values) => v.Scalar? && v.value in values
    case Primitive(name) => IsPrimitive(name, v)
    case ClassRef(name) => IsInstance(strict, name, classes, v)
    case UnionOf(names) => exists i | 0 <= i < |names| :: IsInstance(strict, names[i], classes, v)
    case OrNone(inner) => v == NULL || Admits(strict, inner, classes, v)
  }

  /** The object is an instance of a class of that name. */
  ghost predicate IsInstance(strict: bool, name: string, classes: seq<ClassDef>, v: Json)
    decreases v, 0
  {
    v.Object? && exists k | 0 <= k < |classes| :: classes[k].name == name && HasFields(strict, classes[k].fields, classes, v)
  }

  ghost predicate HasFields(strict: bool, fields: seq<Field>, classes: seq<ClassDef>, v: Json)
    requires v.Object?
    decreases v, 0, 0
  {
    forall f | f in fields :: HoldsField(strict, f, classes, v)
  }

  ghost predicate HoldsField(strict: bool, f: Field, classes: seq<ClassDef>, v: Json)
    requires v.Object?
    decreases v, 0, 0, 0
  {
    && (forall j | 0 <= j < |v.members| && v.members[j].key == f.key :: Admits(strict, f.annotation, classes, v.members[j].value))
    && (!HasMember(v, f.key) ==> f.optional && (strict ==> AdmitsNone(f.annotation)))
  }

  /** What the generator regards as admitting `None` does admit it. */
  lemma {:induction false} AdmitsNoneIsNull(strict: bool, a: Annotation, classes: seq<ClassDef>)
    ensures AdmitsNone(a) <==> Admits(strict, a, classes, NULL)
  {
    if a.Primitive? {
      assert IsPrimitive(a.name, NULL) <==> a.name == "None";
    }
  }

  // ----- where the generator gives up ------------------------------------------------------------

  /** A union that becomes a dictionary. */
  predicate Collapses(s: Schema, className: Option<string>) {
    s.Node? &&
    if s.anyOf.Variants? then |NonNull(s.anyOf.list)| != 1
    else s.oneOf.Variants? && (className.None? || !AreDataclassVariants(s.oneOf.list))
  }

  /** A collapsed union admits exactly the objects, whatever its variants are. */
  lemma {:induction false} CollapsedAdmitsObjects(strict: bool, s: Schema, className: Option<string>, classes: seq<ClassDef>, v: Json)
    requires Collapses(s, className)
    ensures Admits(strict, Annotate(s, className), classes, v) <==> v.Object?
  {
  }

  predicate HasNull(variants: seq<Schema>) {
    exists v :: v in variants && IsNullType(v)
  }

  /**
   * Wherever the walk of the value meets a union that collapses or becomes classes, the
   * value there is an object.
   */
  ghost predicate Fits(s: Schema, className: Option<string>, v: Json)
    decreases s, 1
  {
    if s.NotAnObject? then true
    else if Collapses(s, className) then v.Object?
    else if s.anyOf.Variants? then
      assert NonNull(s.anyOf.list)[0] in s.anyOf.list;
      (v == NULL && HasNull(s.anyOf.list)) || Fits(NonNull(s.anyOf.list)[0], className, v)
    else if s.oneOf.Variants? then
      v.Object? && forall i | 0 <= i < |s.oneOf.list| && Validates(s.oneOf.list[i], v) ::
                     FitsFields(s.oneOf.list[i], VariantName(className.value, i), v)
    else if s.enumeration.Some? || s.constant.Some? then true
    else if s.typeName == Some("object") then
      className.Some? && IsDataclass(s) && v.Object? ==> FitsFields(s, className.value, v)
    else if s.typeName == Some("array") && s.items.Items? && v.Array? then
      forall j | 0 <= j < |v.items| :: Fits(s.items.schema, ItemName(className), v.items[j])
    else true
  }

  ghost predicate FitsFields(s: Schema, owner: string, v: Json)
    requires v.Object?
    decreases s, 0
  {
    s.Node? && s.properties.Properties? ==>
      forall i, j | 0 <= i < |s.properties.list| && 0 <= j < |v.members| && v.members[j].key == s.properties.list[i].key ::
        Fits(s.properties.list[i].schema, Some(PropertyClass(owner, s.properties.list[i].key)), v.members[j].value)
  }

  // ----- soundness -----------------------------------------------------------------------------------

  ghost predicate Includes(classes: seq<ClassDef>, some: seq<ClassDef>) {
    forall c | c in some :: c in classes
  }

  /** The defaults of all optional fields fit their annotations. */
  ghost predicate DefaultsFit(classes: seq<ClassDef>) {
    forall c, f | c in classes && f in c.fields && f.optional :: AdmitsNone(f.annotation)
  }

  lemma {:induction false} NonNullMember(variants: seq<Schema>, i: nat)
    requires i < |variants| && !IsNullType(variants[i])
    ensures variants[i] in NonNull(variants)
  {
    if i > 0 {
      NonNullMember(variants[1..], i - 1);
    }
  }

  lemma {:induction false} NullTypeIsNull(s: Schema, v: Json)
    requires IsNullType(s) && Validates(s, v)
    ensures v == NULL
  {
  }

  lemma {:induction false} PropertyIncluded(classes: seq<ClassDef>, properties: seq<Property>, owner: string, i: nat)
    requires i < |properties| && Includes(classes, EmittedByProperties(properties, owner))
    ensures Includes(classes, Emitted(properties[i].schema, Some(PropertyClass(owner, properties[i].key))))
  {
    var n := |properties| - 1;
    if i < n {
      PropertyIncluded(classes, properties[..n], owner, i);
    }
  }

  lemma {:induction false} VariantIncluded(classes: seq<ClassDef>, variants: seq<Schema>, className: string, i: nat)
    requires i < |variants| && Includes(classes, EmittedByVariants(variants, className))
    ensures Includes(classes, EmittedClass(variants[i], VariantName(className, i)))
  {
    var n := |variants| - 1;
    if i < n {
      VariantIncluded(classes, variants[..n], className, i);
    }
  }

  lemma {:induction false} ClassIncluded(classes: seq<ClassDef>, s: Schema, name: string)
    requires Includes(classes, EmittedClass(s, name))
    ensures Includes(classes, EmittedByFields(s, name)) && ClassDef(name, FieldsOf(s, name)) in classes
  {
    var emitted := EmittedClass(s, name);
    assert emitted[|emitted| - 1] in emitted;
    assert forall c | c in EmittedByFields(s, name) :: c in emitted;
  }

  lemma {:induction false} InstanceOf(strict: bool, name: string, fields: seq<Field>, classes: seq<ClassDef>, v: Json)
    requires v.Object? && ClassDef(name, fields) in classes && HasFields(strict, fields, classes, v)
    ensures IsInstance(strict, name, classes, v)
  {
    var k :| 0 <= k < |classes| && classes[k] == ClassDef(name, fields);
  }

  /** Every value of a schema that fits is a value of its annotation. */
  lemma {:induction false} AnnotationIsSound(strict: bool, s: Schema, className: Option<string>, classes: seq<ClassDef>, v: Json)
    requires Validates(s, v) && Fits(s, className, v)
    requires Includes(classes, Emitted(s, className)) && (strict ==> DefaultsFit(classes))
    ensures Admits(strict, Annotate(s, className), classes, v)
    decreases s, 2
  {
    if s.NotAnObject? || Collapses(s, className) {
    } else if s.anyOf.Variants? {
      NullableIsSound(strict, s, className, classes, v);
    } else if s.oneOf.Variants? {
      UnionIsSound(strict, s, className, classes, v);
    } else if s.enumeration.Some? || s.constant.Some? {
    } else if s.typeName == Some("object") {
      if className.Some? && IsDataclass(s) {
        ClassIsSound(strict, s, className.value, classes, v);
      }
    } else if s.typeName == Some("array") {
      ArrayIsSound(strict, s, className, classes, v);
    } else if s.typeName.Some? {
      PrimitiveIsExact(strict, s.typeName.value, classes, v);
    }
  }

  /** The primitive type of a type name has exactly its values. */
  lemma {:induction false} PrimitiveIsExact(strict: bool, name: string, classes: seq<ClassDef>, v: Json)
    ensures name in ["string", "number", "integer", "boolean", "null"] ==>
              (Admits(strict, PrimitiveType(name), classes, v) <==> HasType(name, v))
    ensures name !in ["string", "number", "integer", "boolean", "null"] ==> PrimitiveType(name) == AnyType
  {
    assert |"string"| == 6 && |"number"| == 6 && |"integer"| == 7 && |"boolean"| == 7 && |"null"| == 4;
    assert "string"[0] == 's' && "number"[0] == 'n' && "integer"[0] == 'i' && "boolean"[0] == 'b';
    assert |"str"| == 3 && |"float"| == 5 && |"int"| == 3 && |"bool"| == 4 && |"None"| == 4;
    assert "str"[0] == 's' && "int"[0] == 'i' && "bool"[0] == 'b' && "None"[0] == 'N';
  }

  lemma {:induction false} NullableIsSound(strict: bool, s: Schema, className: Option<string>, classes: seq<ClassDef>, v: Json)
    requires s.Node? && s.anyOf.Variants? && !Collapses(s, className)
    requires Validates(s, v) && Fits(s, className, v)
    requires Includes(classes, Emitted(s, className)) && (strict ==> DefaultsFit(classes))
    ensures Admits(strict, Annotate(s, className), classes, v)
    decreases s, 1
  {
    assert NonNull(s.anyOf.list)[0] in s.anyOf.list;
    NullableMember(s.anyOf.list, v);
    if !(v == NULL && HasNull(s.anyOf.list)) {
      AnnotationIsSound(strict, NonNull(s.anyOf.list)[0], className, classes, v);
    }
  }

  lemma {:induction false} NullableMember(list: seq<Schema>, v: Json)
    requires |NonNull(list)| == 1 && exists i | 0 <= i < |list| :: Validates(list[i], v)
    ensures Validates(NonNull(list)[0], v) || (v == NULL && HasNull(list))
  {
    var i :| 0 <= i < |list| && Validates(list[i], v);
    if IsNullType(list[i]) {
      NullTypeIsNull(list[i], v);
      assert list[i] in list;
    } else {
      NonNullMember(list, i);
    }
  }

  lemma {:induction false} ArrayIsSound(strict: bool, s: Schema, className: Option<string>, classes: seq<ClassDef>, v: Json)
    requires s.Node? && s.anyOf.NoVariants? && s.oneOf.NoVariants? && s.enumeration.None? && s.constant.None?
    requires s.typeName == Some("array")
    requires Validates(s, v) && Fits(s, className, v)
    requires Includes(classes, Emitted(s, className)) && (strict ==> DefaultsFit(classes))
    ensures Admits(strict, Annotate(s, className), classes, v)
    decreases s, 1
  {
    assert |"array"| == 5 && |"object"| == 6;
    assert HasType("array", v) && v.Array?;
    if s.items.Items? {
      forall j | 0 <= j < |v.items|
        ensures Admits(strict, Annotate(s.items.schema, ItemName(className)), classes, v.items[j])
      {
        AnnotationIsSound(strict, s.items.schema, ItemName(className), classes, v.items[j]);
      }
    }
  }

  lemma {:induction false} ClassIsSound(strict: bool, s: Schema, name: string, classes: seq<ClassDef>, v: Json)
    requires Validates(s, v) && v.Object? && FitsFields(s, name, v)
    requires Includes(classes, EmittedClass(s, name)) && (strict ==> DefaultsFit(classes))
    ensures IsInstance(strict, name, classes, v)
    decreases s, 1
  {
    ClassIncluded(classes, s, name);
    forall f | f in FieldsOf(s, name)
      ensures HoldsField(strict, f, classes, v)
    {
      FieldIsSound(strict, s, name, classes, v, f);
    }
    InstanceOf(strict, name, FieldsOf(s, name), classes, v);
  }

  lemma {:induction false} FieldIsSound(strict: bool, s: Schema, name: string, classes: seq<ClassDef>, v: Json, f: Field)
    requires Validates(s, v) && v.Object? && FitsFields(s, name, v)
    requires Includes(classes, EmittedByFields(s, name)) && ClassDef(name, FieldsOf(s, name)) in classes
    requires f in FieldsOf(s, name) && (strict ==> DefaultsFit(classes))
    ensures HoldsField(strict, f, classes, v)
    decreases s, 0
  {
    FieldsAreProperties(s, name, f);
    var i :| 0 <= i < |s.properties.list| && f == FieldOf(s.properties.list[i], s.required, name);
    var p := s.properties.list[i];
    PropertyIncluded(classes, s.properties.list, name, i);
    forall j | 0 <= j < |v.members| && v.members[j].key == f.key
      ensures Admits(strict, f.annotation, classes, v.members[j].value)
    {
      AnnotationIsSound(strict, p.schema, Some(PropertyClass(name, p.key)), classes, v.members[j].value);
    }
    if strict && f.optional {
      assert AdmitsNone(f.annotation);
    }
  }

  lemma {:induction false} UnionIsSound(strict: bool, s: Schema, className: Option<string>, classes: seq<ClassDef>, v: Json)
    requires s.Node? && s.anyOf.NoVariants? && s.oneOf.Variants? && !Collapses(s, className)
    requires Validates(s, v) && Fits(s, className, v)
    requires Includes(classes, Emitted(s, className)) && (strict ==> DefaultsFit(classes))
    ensures Admits(strict, Annotate(s, className), classes, v)
    decreases s, 1
  {
    var list := s.oneOf.list;
    var i :| 0 <= i < |list| && Validates(list[i], v);
    VariantIncluded(classes, list, className.value, i);
    ClassIsSound(strict, list[i], VariantName(className.value, i), classes, v);
    assert VariantNames(className.value, |list|)[i] == VariantName(className.value, i);
  }

  // ----- schemas without exceptions ----------------------------------------------------------------

  /** No union collapses, and unions that become classes have object variants. */
  ghost predicate IsRepresentable(s: Schema, className: Option<string>)
    decreases s, 1
  {
    if s.NotAnObject? then true
    else if Collapses(s, className) then false
    else if s.anyOf.Variants? then
      assert NonNull(s.anyOf.list)[0] in s.anyOf.list;
      IsRepresentable(NonNull(s.anyOf.list)[0], className)
    else if s.oneOf.Variants? then
      forall i | 0 <= i < |s.oneOf.list| ::
        s.oneOf.list[i].typeName == Some("object") && HasRepresentableFields(s.oneOf.list[i], VariantName(className.value, i))
    else if s.enumeration.Some? || s.constant.Some? then true
    else if s.typeName == Some("object") then
      className.Some? && IsDataclass(s) ==> HasRepresentableFields(s, className.value)
    else if s.typeName == Some("array") && s.items.Items? then IsRepresentable(s.items.schema, ItemName(className))
    else true
  }

  ghost predicate HasRepresentableFields(s: Schema, owner: string)
    decreases s, 0
  {
    s.Node? && s.properties.Properties? ==>
      forall i | 0 <= i < |s.properties.list| ::
        IsRepresentable(s.properties.list[i].schema, Some(PropertyClass(owner, s.properties.list[i].key)))
  }

  lemma {:induction false} RepresentableFits(s: Schema, className: Option<string>, v: Json)
    requires IsRepresentable(s, className) && Validates(s, v)
    ensures Fits(s, className, v)
    decreases s, 1
  {
    if s.NotAnObject? {
    } else if s.anyOf.Variants? {
      var list := s.anyOf.list;
      assert NonNull(list)[0] in list;
      var i :| 0 <= i < |list| && Validates(list[i], v);
      if IsNullType(list[i]) {
        NullTypeIsNull(list[i], v);
        assert list[i] in list;
      } else {
        NonNullMember(list, i);
        RepresentableFits(NonNull(list)[0], className, v);
      }
    } else if s.oneOf.Variants? {
      VariantsFit(s, className.value, v);
    } else if s.enumeration.Some? || s.constant.Some? {
    } else if s.typeName == Some("object") {
      if className.Some? && IsDataclass(s) {
        FieldsFit(s, className.value, v);
      }
    } else if s.typeName == Some("array") && s.items.Items? && v.Array? {
      forall j | 0 <= j < |v.items|
        ensures Fits(s.items.schema, ItemName(className), v.items[j])
      {
        RepresentableFits(s.items.schema, ItemName(className), v.items[j]);
      }
    }
  }

  lemma {:induction false} VariantsFit(s: Schema, className: string, v: Json)
    requires s.Node? && s.anyOf.NoVariants? && s.oneOf.Variants?
    requires IsRepresentable(s, Some(className)) && Validates(s, v)
    ensures Fits(s, Some(className), v)
    decreases s, 0
  {
    var list := s.oneOf.list;
    var i :| 0 <= i < |list| && Validates(list[i], v);
    assert list[i].typeName == Some("object") && HasType("object", v);
    forall k | 0 <= k < |list| && Validates(list[k], v)
      ensures FitsFields(list[k], VariantName(className, k), v)
    {
      FieldsFit(list[k], VariantName(className, k), v);
    }
  }

  lemma {:induction false} FieldsFit(s: Schema, owner: string, v: Json)
    requires HasRepresentableFields(s, owner) && Validates(s, v) && v.Object?
    ensures FitsFields(s, owner, v)
    decreases s, 0
  {
    if s.Node? && s.properties.Properties? {
      forall i, j | 0 <= i < |s.properties.list| && 0 <= j < |v.members| && v.members[j].key == s.properties.list[i].key
        ensures Fits(s.properties.list[i].schema, Some(PropertyClass(owner, s.properties.list[i].key)), v.members[j].value)
      {
        RepresentableFits(s.properties.list[i].schema, Some(PropertyClass(owner, s.properties.list[i].key)), v.members[j].value);
      }
    }
  }

  /** For a representable schema there are no exceptions: every value of it is one of its annotation. */
  lemma {:induction false} RepresentableIsSound(s: Schema, className: Option<string>, v: Json)
    requires IsRepresentable(s, className) && Validates(s, v)
    ensures Admits(false, Annotate(s, className), Emitted(s, className), v)
  {
    RepresentableFits(s, className, v);
    AnnotationIsSound(false, s, className, Emitted(s, className), v);
  }

  function TypeOnly(name: string): Schema {
    Node(NoVariants, NoVariants, None, None, Some(name), NoProperties, {}, NoItems)
  }

  lemma {:induction false} TwoNonNull(a: Schema, b: Schema)
    requires !IsNullType(a) && !IsNullType(b)
    ensures |NonNull([a, b])| == 2
  {
    assert [a, b][1..] == [b] && [b][1..] == [];
    assert NonNull([b]) == [b] + NonNull([]);
  }

  /** `anyOf` a string and an integer becomes a dictionary, which no string is. */
  lemma {:induction false} CollapsedUnionIsUnsound(className: Option<string>, text: string)
    ensures var union := Node(Variants([TypeOnly("string"), TypeOnly("integer")]), NoVariants, None, None, None, NoProperties, {}, NoItems);
            var v := Scalar(Text(text));
            Validates(union, v) && !Admits(false, Annotate(union, className), Emitted(union, className), v)
  {
    var list := [TypeOnly("string"), TypeOnly("integer")];
    var union := Node(Variants(list), NoVariants, None, None, None, NoProperties, {}, NoItems);
    var v := Scalar(Text(text));
    assert |"string"| == 6 && |"integer"| == 7 && |"null"| == 4;
    assert Validates(list[0], v);
    TwoNonNull(list[0], list[1]);
    CollapsedAdmitsObjects(false, union, className, Emitted(union, className), v);
  }

  // ----- exactness -------------------------------------------------------------------------------------

  /** Only the named keyword is there: no object part beside it. */
  predicate IsBare(s: Schema) {
    s.Node? && s.oneOf.NoVariants? && s.properties.NoProperties? && s.required == {}
  }

  /** Primitive types, enumerations, constants, lists and nullable types of such. */
  predicate IsExact(s: Schema)
    decreases s
  {
    && IsBare(s)
    && if s.anyOf.Variants? then
         && s.enumeration.None? && s.constant.None? && s.typeName.None? && s.items.NoItems?
         && |NonNull(s.anyOf.list)| == 1
         && (forall u | u in s.anyOf.list && IsNullType(u) :: u == TypeOnly("null"))
         && (assert NonNull(s.anyOf.list)[0] in s.anyOf.list; IsExact(NonNull(s.anyOf.list)[0]))
       else if s.enumeration.Some? then s.constant.None? && s.typeName.None? && s.items.NoItems?
       else if s.constant.Some? then s.typeName.None? && s.items.NoItems?
       else if s.typeName == Some("array") then s.items.Items? && IsExact(s.items.schema)
       else s.items.NoItems? && s.typeName.Some? && s.typeName.value in ["string", "number", "integer", "boolean", "null"]
  }

  /** On this fragment the annotation has exactly the values of the schema. */
  lemma {:induction false} ExactAnnotation(s: Schema, className: Option<string>, classes: seq<ClassDef>, v: Json)
    requires IsExact(s)
    ensures Admits(false, Annotate(s, className), classes, v) <==> Validates(s, v)
    decreases s, 1
  {
    if s.anyOf.Variants? {
      ExactNullable(s, className, classes, v);
    } else if s.enumeration.Some? || s.constant.Some? {
    } else if s.typeName == Some("array") {
      ExactArray(s, className, classes, v);
    } else {
      assert |"array"| == 5 && |"object"| == 6 && "object"[0] == 'o' && "string"[0] == 's' && "number"[0] == 'n';
      PrimitiveIsExact(false, s.typeName.value, classes, v);
    }
  }

  lemma {:induction false} ExactArray(s: Schema, className: Option<string>, classes: seq<ClassDef>, v: Json)
    requires IsExact(s) && s.anyOf.NoVariants? && s.enumeration.None? && s.constant.None? && s.typeName == Some("array")
    ensures Admits(false, Annotate(s, className), classes, v) <==> Validates(s, v)
    decreases s, 0
  {
    assert |"array"| == 5 && |"object"| == 6;
    assert HasType("array", v) <==> v.Array?;
    if v.Array? {
      forall j | 0 <= j < |v.items|
        ensures Admits(false, Annotate(s.items.schema, ItemName(className)), classes, v.items[j]) <==>
                Validates(s.items.schema, v.items[j])
      {
        ExactAnnotation(s.items.schema, ItemName(className), classes, v.items[j]);
      }
    }
  }

  lemma {:induction false} NullTypeExactly(v: Json)
    ensures Validates(TypeOnly("null"), v) <==> v == NULL
  {
  }

  /** Some variant of a nullable union validates exactly if the one that is not null does, or null is there and met. */
  lemma {:induction false} NullableExactly(list: seq<Schema>, v: Json)
    requires |NonNull(list)| == 1 && forall u | u in list && IsNullType(u) :: u == TypeOnly("null")
    ensures (exists i | 0 <= i < |list| :: Validates(list[i], v)) <==>
            Validates(NonNull(list)[0], v) || (v == NULL && HasNull(list))
  {
    var inner := NonNull(list)[0];
    assert inner in list;
    NullTypeExactly(v);
    if i :| 0 <= i < |list| && Validates(list[i], v) {
      if IsNullType(list[i]) {
        assert list[i] in list;
      } else {
        NonNullMember(list, i);
      }
    }
    if Validates(inner, v) {
      var k :| 0 <= k < |list| && list[k] == inner;
    }
    if v == NULL && HasNull(list) {
      var u :| u in list && IsNullType(u);
      var k :| 0 <= k < |list| && list[k] == u;
    }
  }

  lemma {:induction false} AnyOfOnly(s: Schema, v: Json)
    requires IsBare(s) && s.anyOf.Variants?
    requires s.enumeration.None? && s.constant.None? && s.typeName.None? && s.items.NoItems?
    ensures Validates(s, v) <==> exists i | 0 <= i < |s.anyOf.list| :: Validates(s.anyOf.list[i], v)
  {
  }

  lemma {:induction false} ExactNullable(s: Schema, className: Option<string>, classes: seq<ClassDef>, v: Json)
    requires IsExact(s) && s.anyOf.Variants?
    ensures Admits(false, Annotate(s, className), classes, v) <==> Validates(s, v)
    decreases s, 0
  {
    assert NonNull(s.anyOf.list)[0] in s.anyOf.list;
    ExactAnnotation(NonNull(s.anyOf.list)[0], className, classes, v);
    NullableExactly(s.anyOf.list, v);
    AnyOfOnly(s, v);
  }

  // ----- classes and fields ---------------------------------------------------------------------------

  /** The annotation of a field admits what its property's does, and `None` for an optional one unless the text shows it. */
  lemma {:induction false} FieldAdmits(strict: bool, p: Property, required: set<string>, owner: string, classes: seq<ClassDef>, v: Json)
    ensures var a := Annotate(p.schema, Some(PropertyClass(owner, p.key)));
            Admits(strict, FieldOf(p, required, owner).annotation, classes, v) <==>
            Admits(strict, a, classes, v) || (p.key !in required && !ShowsNone(a) && v == NULL)
  {
    RenderShowsNone(Annotate(p.schema, Some(PropertyClass(owner, p.key))));
  }

  /** The object satisfies the property as its field says: by its value, or by being left out. */
  ghost predicate HoldsProperty(p: Property, required: set<string>, owner: string, classes: seq<ClassDef>, v: Json)
    requires v.Object?
  {
    && (forall j | 0 <= j < |v.members| && v.members[j].key == p.key ::
          Admits(false, FieldOf(p, required, owner).annotation, classes, v.members[j].value))
    && (!HasMember(v, p.key) ==> p.key !in required)
  }

  /** Where class names are unique, an instance of a class is exactly an object that holds its properties. */
  lemma {:induction false} InstanceExactly(s: Schema, name: string, classes: seq<ClassDef>, v: Json)
    requires s.Node? && s.properties.Properties? && ClassDef(name, FieldsOf(s, name)) in classes
    requires forall c, d | c in classes && d in classes && c.name == d.name :: c == d
    ensures IsInstance(false, name, classes, v) <==>
            v.Object? && forall i | 0 <= i < |s.properties.list| :: HoldsProperty(s.properties.list[i], s.required, name, classes, v)
  {
    var fields, list := FieldsOf(s, name), s.properties.list;
    if v.Object? {
      forall i | 0 <= i < |list|
        ensures FieldOf(list[i], s.required, name) in fields
        ensures HoldsField(false, FieldOf(list[i], s.required, name), classes, v) <==>
                HoldsProperty(list[i], s.required, name, classes, v)
      {
        FieldsAreProperties(s, name, FieldOf(list[i], s.required, name));
      }
      forall f | f in fields
        ensures exists i | 0 <= i < |list| :: f == FieldOf(list[i], s.required, name)
      {
        FieldsAreProperties(s, name, f);
      }
      InstanceByFields(name, fields, classes, v);
    }
  }

  lemma {:induction false} InstanceByFields(name: string, fields: seq<Field>, classes: seq<ClassDef>, v: Json)
    requires v.Object? && ClassDef(name, fields) in classes
    requires forall c, d | c in classes && d in classes && c.name == d.name :: c == d
    ensures IsInstance(false, name, classes, v) <==> HasFields(false, fields, classes, v)
  {
    if HasFields(false, fields, classes, v) {
      InstanceOf(false, name, fields, classes, v);
    }
    if IsInstance(false, name, classes, v) {
      var k :| 0 <= k < |classes| && classes[k].name == name && HasFields(false, classes[k].fields, classes, v);
      assert classes[k] in classes && classes[k] == ClassDef(name, fields);
    }
  }
}
