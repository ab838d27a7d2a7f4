/** The schema walk with its shared class list, and a whole payload module. */
module PythonModule {
  import opened Collections
  import opened Characters
  import opened PythonTypes
  import opened VariantSuffix
  import opened CodeUnitOrder
  import opened PythonPayloads

  // ----- field order -----------------------------------------------------------------------------

  /** No required field stands after an optional one. */
  ghost predicate RequiredFirst(fields: seq<Field>) {
    forall i, j | 0 <= i < j < |fields| && fields[i].optional :: fields[j].optional
  }

  /** One field for each property. */
  function AllFields(properties: seq<Property>, required: set<string>, owner: string): (r: seq<Field>)
    ensures |r| == |properties|
  {
    seq(|properties|, i requires 0 <= i < |properties| => FieldOf(properties[i], required, owner))
  }

  lemma {:induction false} PickSnoc(properties: seq<Property>, required: set<string>, owner: string, f: Field)
    requires properties != [] && f == FieldOf(properties[|properties| - 1], required, owner)
    ensures var front := properties[..|properties| - 1];
            && AllFields(properties, required, owner) == AllFields(front, required, owner) + [f]
            && Pick(properties, required, owner, f.optional) == Pick(front, required, owner, f.optional) + [f]
            && Pick(properties, required, owner, !f.optional) == Pick(front, required, owner, !f.optional)
  {
  }

  lemma {:induction false} PartitionMore(required: seq<Field>, optional: seq<Field>, all: seq<Field>, f: Field)
    requires multiset(required) + multiset(optional) == multiset(all)
    ensures multiset(required + [f]) + multiset(optional) == multiset(all + [f])
    ensures multiset(required) + multiset(optional + [f]) == multiset(all + [f])
  {
  }

  lemma {:induction false} PicksPartition(properties: seq<Property>, required: set<string>, owner: string)
    ensures multiset(Pick(properties, required, owner, false)) + multiset(Pick(properties, required, owner, true))
            == multiset(AllFields(properties, required, owner))
  {
    if properties != [] {
      var front := properties[..|properties| - 1];
      var f := FieldOf(properties[|properties| - 1], required, owner);
      PicksPartition(front, required, owner);
      PickSnoc(properties, required, owner, f);
      PartitionMore(Pick(front, required, owner, false), Pick(front, required, owner, true), AllFields(front, required, owner), f);
    }
  }

  /** Two fields of the same optionality stand in name order. */
  ghost predicate GroupsSorted(fields: seq<Field>) {
    forall i, j | 0 <= i < j < |fields| && fields[i].optional == fields[j].optional ::
      StringLe(fields[i].name, fields[j].name)
  }

  lemma {:induction false} SortedGroup(fields: seq<Field>, optional: bool)
    requires forall f | f in fields :: f.optional == optional
    ensures forall i | 0 <= i < |SortFields(fields)| :: SortFields(fields)[i].optional == optional
  {
    forall i | 0 <= i < |SortFields(fields)|
      ensures SortFields(fields)[i].optional == optional
    {
      assert SortFields(fields)[i] in SortFields(fields);
    }
  }

  lemma {:induction false} GroupsInOrder(required: seq<Field>, optional: seq<Field>)
    requires forall i | 0 <= i < |required| :: !required[i].optional
    requires forall i | 0 <= i < |optional| :: optional[i].optional
    requires forall i, j | 0 <= i < j < |required| :: StringLe(required[i].name, required[j].name)
    requires forall i, j | 0 <= i < j < |optional| :: StringLe(optional[i].name, optional[j].name)
    ensures RequiredFirst(required + optional) && GroupsSorted(required + optional)
  {
  }

  /** The fields of a class are those of its properties, required ones first, each group by name. */
  lemma {:induction false} FieldsAreOrdered(s: Schema, owner: string)
    ensures RequiredFirst(FieldsOf(s, owner)) && GroupsSorted(FieldsOf(s, owner))
    ensures s.Node? && s.properties.Properties? ==>
              multiset(FieldsOf(s, owner)) == multiset(AllFields(s.properties.list, s.required, owner))
  {
    if s.Node? && s.properties.Properties? {
      var required := Pick(s.properties.list, s.required, owner, false);
      var optional := Pick(s.properties.list, s.required, owner, true);
      PicksPartition(s.properties.list, s.required, owner);
      SortedGroups(required, optional);
    }
  }

  lemma {:induction false} SortedGroups(required: seq<Field>, optional: seq<Field>)
    requires forall f | f in required :: !f.optional
    requires forall f | f in optional :: f.optional
    ensures var fields := SortFields(required) + SortFields(optional);
            && RequiredFirst(fields) && GroupsSorted(fields)
            && multiset(fields) == multiset(required) + multiset(optional)
  {
    SortedGroup(required, false);
    SortedGroup(optional, true);
    GroupsInOrder(SortFields(required), SortFields(optional));
  }

  ghost predicate AllRequiredFirst(classes: seq<ClassDef>) {
    forall c | c in classes :: RequiredFirst(c.fields)
  }

  lemma {:induction false} EmittedFieldsAreOrdered(s: Schema, className: Option<string>)
    ensures AllRequiredFirst(Emitted(s, className))
    decreases s, 2
  {
    if s.NotAnObject? {
    } else if s.anyOf.Variants? {
      var nonNull := NonNull(s.anyOf.list);
      if |nonNull| == 1 {
        assert nonNull[0] in s.anyOf.list;
        EmittedFieldsAreOrdered(nonNull[0], className);
      }
    } else if s.oneOf.Variants? {
      if className.Some? && AreDataclassVariants(s.oneOf.list) {
        VariantFieldsAreOrdered(s.oneOf.list, className.value);
      }
    } else if s.enumeration.Some? || s.constant.Some? {
    } else if s.typeName == Some("object") {
      if className.Some? && IsDataclass(s) {
        ClassFieldsAreOrdered(s, className.value);
      }
    } else if s.typeName == Some("array") && s.items.Items? {
      EmittedFieldsAreOrdered(s.items.schema, ItemName(className));
    }
  }

  lemma {:induction false} ClassFieldsAreOrdered(s: Schema, name: string)
    ensures AllRequiredFirst(EmittedClass(s, name))
    decreases s, 1
  {
    FieldsAreOrdered(s, name);
    if s.Node? && s.properties.Properties? {
      PropertyFieldsAreOrdered(s.properties.list, name);
    }
  }

  lemma {:induction false} PropertyFieldsAreOrdered(properties: seq<Property>, owner: string)
    ensures AllRequiredFirst(EmittedByProperties(properties, owner))
    decreases properties
  {
    if properties != [] {
      var n := |properties| - 1;
      PropertyFieldsAreOrdered(properties[..n], owner);
      EmittedFieldsAreOrdered(properties[n].schema, Some(PropertyClass(owner, properties[n].key)));
    }
  }

  lemma {:induction false} VariantFieldsAreOrdered(variants: seq<Schema>, className: string)
    ensures AllRequiredFirst(EmittedByVariants(variants, className))
    decreases variants
  {
    if variants != [] {
      var n := |variants| - 1;
      VariantFieldsAreOrdered(variants[..n], className);
      ClassFieldsAreOrdered(variants[n], VariantName(className, n));
    }
  }

  /** All fields stand for keys that are identifiers. */
  ghost predicate HasIdentifierKeys(classes: seq<ClassDef>) {
    forall c, f | c in classes && f in c.fields :: IsIdentifier(f.key)
  }

  lemma {:induction false} DataclassKeys(s: Schema, name: string, f: Field)
    requires IsDataclass(s) && f in FieldsOf(s, name)
    ensures IsIdentifier(f.key)
  {
    FieldsAreProperties(s, name, f);
  }

  /** No annotation emits a class for an object with a key that is no identifier. */
  lemma {:induction false} EmittedKeysAreIdentifiers(s: Schema, className: Option<string>)
    ensures HasIdentifierKeys(Emitted(s, className))
    decreases s, 2
  {
    if s.NotAnObject? {
    } else if s.anyOf.Variants? {
      var nonNull := NonNull(s.anyOf.list);
      if |nonNull| == 1 {
        assert nonNull[0] in s.anyOf.list;
        EmittedKeysAreIdentifiers(nonNull[0], className);
      }
    } else if s.oneOf.Variants? {
      if className.Some? && AreDataclassVariants(s.oneOf.list) {
        VariantKeysAreIdentifiers(s.oneOf.list, className.value);
      }
    } else if s.enumeration.Some? || s.constant.Some? {
    } else if s.typeName == Some("object") {
      if className.Some? && IsDataclass(s) {
        ClassKeysAreIdentifiers(s, className.value);
      }
    } else if s.typeName == Some("array") && s.items.Items? {
      EmittedKeysAreIdentifiers(s.items.schema, ItemName(className));
    }
  }

  lemma {:induction false} ClassKeysAreIdentifiers(s: Schema, name: string)
    requires IsDataclass(s)
    ensures HasIdentifierKeys(EmittedClass(s, name))
    decreases s, 1
  {
    PropertyKeysAreIdentifiers(s.properties.list, name);
    forall f | f in FieldsOf(s, name)
      ensures IsIdentifier(f.key)
    {
      DataclassKeys(s, name, f);
    }
  }

  lemma {:induction false} PropertyKeysAreIdentifiers(properties: seq<Property>, owner: string)
    ensures HasIdentifierKeys(EmittedByProperties(properties, owner))
    decreases properties
  {
    if properties != [] {
      var n := |properties| - 1;
      PropertyKeysAreIdentifiers(properties[..n], owner);
      EmittedKeysAreIdentifiers(properties[n].schema, Some(PropertyClass(owner, properties[n].key)));
    }
  }

  lemma {:induction false} VariantKeysAreIdentifiers(variants: seq<Schema>, className: string)
    requires forall i | 0 <= i < |variants| :: IsDataclass(variants[i])
    ensures HasIdentifierKeys(EmittedByVariants(variants, className))
    decreases variants
  {
    if variants != [] {
      var n := |variants| - 1;
      VariantKeysAreIdentifiers(variants[..n], className);
      ClassKeysAreIdentifiers(variants[n], VariantName(className, n));
    }
  }

  /** The variants of one `oneOf` get different class names. */
  lemma {:induction false} VariantNamesDiffer(className: string, i: nat, j: nat)
    requires i != j
    ensures VariantName(className, i) != VariantName(className, j)
  {
    SuffixesDiffer(i, j);
    var stem := className + "Variant";
    assert VariantName(className, i)[|stem|..] == Suffix(i) && VariantName(className, j)[|stem|..] == Suffix(j);
  }

  lemma {:induction false} VariantsSnoc(variants: seq<Schema>, i: nat, className: string)
    requires i < |variants|
    ensures EmittedByVariants(variants[..i + 1], className)
            == EmittedByVariants(variants[..i], className) + EmittedClass(variants[i], VariantName(className, i))
  {
    assert variants[..i + 1][..i] == variants[..i];
  }

  // ----- the walk over a shared class list -----------------------------------------------------------

  class Context {
    var classes: seq<ClassDef>

    constructor (classes: seq<ClassDef>)
      ensures this.classes == classes
    {
      this.classes := classes;
    }

    /** `schemaToTypeAnnotationInContext`. */
    method SchemaToTypeAnnotation(s: Schema, className: Option<string>) returns (a: Annotation)
      modifies this
      ensures a == Annotate(s, className)
      ensures classes == old(classes) + Emitted(s, className)
      decreases s, 2
    {
      if s.NotAnObject? {
        return AnyType;
      }
      if s.anyOf.Variants? {
        a := AnyOfToAnnotation(s, className);
        return;
      }
      if s.oneOf.Variants? {
        a := OneOfToAnnotation(s, className);
        return;
      }
      if s.enumeration.Some? {
        return LiteralOf(s.enumeration.value);
      }
      if s.constant.Some? {
        return LiteralOf([s.constant.value]);
      }
      if s.typeName == Some("object") {
        if className.Some? && IsDataclass(s) {
          PushClass(s, className.value);
          return ClassRef(className.value);
        }
        return DictAny;
      }
      if s.typeName == Some("array") {
        if s.items.Items? {
          var item := SchemaToTypeAnnotation(s.items.schema, ItemName(className));
          return ListOf(item);
        }
        return ListOf(AnyType);
      }
      if s.typeName.Some? {
        return PrimitiveType(s.typeName.value);
      }
      return AnyType;
    }

    method AnyOfToAnnotation(s: Schema, className: Option<string>) returns (a: Annotation)
      requires s.Node? && s.anyOf.Variants?
      modifies this
      ensures a == Annotate(s, className)
      ensures classes == old(classes) + Emitted(s, className)
      decreases s, 1
    {
      var nonNull := NonNull(s.anyOf.list);
      var hasNull := exists v :: v in s.anyOf.list && IsNullType(v);
      if |nonNull| == 1 {
        assert nonNull[0] in s.anyOf.list;
        var inner := SchemaToTypeAnnotation(nonNull[0], className);
        return if hasNull then OrNone(inner) else inner;
      }
      return DictAny;
    }

    method OneOfToAnnotation(s: Schema, className: Option<string>) returns (a: Annotation)
      requires s.Node? && s.anyOf.NoVariants? && s.oneOf.Variants?
      modifies this
      ensures a == Annotate(s, className)
      ensures classes == old(classes) + Emitted(s, className)
      decreases s, 1
    {
      var variants := s.oneOf.list;
      if className.None? || !AreDataclassVariants(variants) {
        return DictAny;
      }
      PushVariants(variants, className.value);
      return UnionOf(VariantNames(className.value, |variants|));
    }

    method PushVariants(variants: seq<Schema>, className: string)
      modifies this
      ensures classes == old(classes) + EmittedByVariants(variants, className)
      decreases variants
    {
      for i := 0 to |variants|
        invariant classes == old(classes) + EmittedByVariants(variants[..i], className)
      {
        var suffix := ComputeSuffix(i);
        PushClass(variants[i], className + "Variant" + suffix);
        VariantsSnoc(variants, i, className);
        ConcatAssoc(old(classes), EmittedByVariants(variants[..i], className),
                    EmittedClass(variants[i], VariantName(className, i)));
      }
      assert variants[..|variants|] == variants;
    }

    /** `classes.push({ name, fields: schemaToFields(...) })`: the fields come first. */
    method PushClass(s: Schema, name: string)
      modifies this
      ensures classes == old(classes) + EmittedClass(s, name)
      decreases s, 1
    {
      var fields := SchemaToFields(s, name);
      classes := classes + [ClassDef(name, fields)];
    }

    method SchemaToFields(s: Schema, owner: string) returns (fields: seq<Field>)
      modifies this
      ensures fields == FieldsOf(s, owner)
      ensures classes == old(classes) + EmittedByFields(s, owner)
      decreases s, 0
    {
      if s.NotAnObject? || s.properties.NoProperties? {
        return [];
      }
      var properties := s.properties.list;
      var requiredFields: seq<Field>, optionalFields: seq<Field> := [], [];
      for i := 0 to |properties|
        invariant classes == old(classes) + EmittedByProperties(properties[..i], owner)
        invariant requiredFields == Pick(properties[..i], s.required, owner, false)
        invariant optionalFields == Pick(properties[..i], s.required, owner, true)
      {
        assert properties[i] in properties;
        var field := PropertyToField(properties[i], s.required, owner);
        PropertiesSnoc(properties, i, s.required, owner, old(classes));
        if field.optional {
          optionalFields := optionalFields + [field];
        } else {
          requiredFields := requiredFields + [field];
        }
      }
      assert properties[..|properties|] == properties;
      fields := SortFields(requiredFields) + SortFields(optionalFields);
    }

    method PropertyToField(p: Property, required: set<string>, owner: string) returns (field: Field)
      modifies this
      ensures field == FieldOf(p, required, owner)
      ensures classes == old(classes) + Emitted(p.schema, Some(PropertyClass(owner, p.key)))
      decreases p.schema, 3
    {
      var optional := p.key !in required;
      var annotation := SchemaToTypeAnnotation(p.schema, Some(PropertyClass(owner, p.key)));
      if optional && !Contains(Render(annotation), "None") {
        annotation := OrNone(annotation);
      }
      field := Field(p.key, CamelToSnake(p.key), annotation, optional);
    }
  }

  lemma {:induction false} PropertiesSnoc(properties: seq<Property>, i: nat, required: set<string>, owner: string,
                                          before: seq<ClassDef>)
    requires i < |properties|
    ensures var f := FieldOf(properties[i], required, owner);
            && Pick(properties[..i + 1], required, owner, false)
               == Pick(properties[..i], required, owner, false) + (if f.optional then [] else [f])
            && Pick(properties[..i + 1], required, owner, true)
               == Pick(properties[..i], required, owner, true) + (if f.optional then [f] else [])
    ensures before + EmittedByProperties(properties[..i], owner)
            + Emitted(properties[i].schema, Some(PropertyClass(owner, properties[i].key)))
            == before + EmittedByProperties(properties[..i + 1], owner)
  {
    assert properties[..i + 1][..i] == properties[..i];
    ConcatAssoc(before, EmittedByProperties(properties[..i], owner),
                Emitted(properties[i].schema, Some(PropertyClass(owner, properties[i].key))));
  }

  // ----- a payload module -------------------------------------------------------------------------------

  datatype Subject =
    | Event(fullSubject: string, payload: Schema)
    | Request(fullSubject: string, request: Schema, response: Schema)

  function ClassFor(fullSubject: string, suffix: string): string {
    PascalSubject(fullSubject, "") + suffix
  }

  predicate HasVariants(s: Schema) {
    s.Node? && s.oneOf.Variants?
  }

  function ResponseClasses(response: Schema, name: string): seq<ClassDef> {
    if HasVariants(response) then Emitted(response, Some(name)) else EmittedClass(response, name)
  }

  function SubjectClasses(s: Subject): seq<ClassDef> {
    match s
    case Event(subject, payload) => EmittedClass(payload, ClassFor(subject, "Payload"))
    case Request(subject, request, response) =>
      EmittedClass(request, ClassFor(subject, "Request")) + ResponseClasses(response, ClassFor(subject, "Response"))
  }

  function ResponseAliases(response: Schema, name: string): seq<Alias> {
    if HasVariants(response) then [Alias(name, Annotate(response, Some(name)))] else []
  }

  function SubjectAliases(s: Subject): seq<Alias> {
    if s.Request? then ResponseAliases(s.response, ClassFor(s.fullSubject, "Response")) else []
  }

  function ModuleClasses(subjects: seq<Subject>): seq<ClassDef> {
    if subjects == [] then []
    else ModuleClasses(subjects[..|subjects| - 1]) + SubjectClasses(subjects[|subjects| - 1])
  }

  function ModuleAliases(subjects: seq<Subject>): seq<Alias> {
    if subjects == [] then []
    else ModuleAliases(subjects[..|subjects| - 1]) + SubjectAliases(subjects[|subjects| - 1])
  }

  lemma {:induction false} ResponseIsOrdered(response: Schema, name: string, before: seq<ClassDef>)
    requires DefinedBeforeUse(before)
    ensures DefinedBeforeUse(before + ResponseClasses(response, name))
    ensures AllRequiredFirst(ResponseClasses(response, name))
  {
    if HasVariants(response) {
      EmittedIsOrdered(response, Some(name), before);
      EmittedFieldsAreOrdered(response, Some(name));
    } else {
      ClassIsOrdered(response, name, before);
      ClassFieldsAreOrdered(response, name);
    }
  }

  lemma {:induction false} SubjectIsOrdered(s: Subject, before: seq<ClassDef>)
    requires DefinedBeforeUse(before)
    ensures DefinedBeforeUse(before + SubjectClasses(s))
    ensures AllRequiredFirst(SubjectClasses(s))
    ensures forall a | a in SubjectAliases(s) :: References(a.annotation) <= ClassNames(SubjectClasses(s))
  {
    match s
    case Event(subject, payload) =>
      ClassIsOrdered(payload, ClassFor(subject, "Payload"), before);
      ClassFieldsAreOrdered(payload, ClassFor(subject, "Payload"));
    case Request(subject, request, response) =>
      var name := ClassFor(subject, "Response");
      var first, second := EmittedClass(request, ClassFor(subject, "Request")), ResponseClasses(response, name);
      ClassIsOrdered(request, ClassFor(subject, "Request"), before);
      ClassFieldsAreOrdered(request, ClassFor(subject, "Request"));
      ResponseIsOrdered(response, name, before + first);
      ConcatAssoc(before, first, second);
      ClassNamesGrow(first, second);
      if HasVariants(response) {
        AnnotationIsEmitted(response, Some(name));
      }
  }

  /**
   * For every list of subjects: each class named in a field is defined by a strictly
   * earlier class, each class named in an alias by some class, and no class has a
   * required field after an optional one.
   */
  lemma {:induction false} ModuleIsOrdered(subjects: seq<Subject>)
    ensures DefinedBeforeUse(ModuleClasses(subjects))
    ensures AllRequiredFirst(ModuleClasses(subjects))
    ensures forall a | a in ModuleAliases(subjects) :: References(a.annotation) <= ClassNames(ModuleClasses(subjects))
  {
    if subjects != [] {
      var front, last := subjects[..|subjects| - 1], subjects[|subjects| - 1];
      ModuleIsOrdered(front);
      SubjectIsOrdered(last, ModuleClasses(front));
      ClassNamesGrow(ModuleClasses(front), SubjectClasses(last));
    }
  }

  // ----- typing imports -----------------------------------------------------------------------------------

  /** `ImportSet`. */
  datatype Imports = Imports(needsAny: bool, needsLiteral: bool, needsUnion: bool)

  predicate Needs(imports: Imports, t: TypingName) {
    match t
    case TypingAny => imports.needsAny
    case TypingLiteral => imports.needsLiteral
    case TypingUnion => imports.needsUnion
  }

  /** The text of some annotation shows the typing name. */
  ghost predicate Shows(classes: seq<ClassDef>, aliases: seq<Alias>, t: TypingName) {
    || (exists c, f :: c in classes && f in c.fields && Contains(Render(f.annotation), TypingText(t)))
    || (exists a :: a in aliases && Contains(Render(a.annotation), TypingText(t)))
  }

  /** Some annotation of the module refers to the typing name. */
  ghost predicate IsUsed(classes: seq<ClassDef>, aliases: seq<Alias>, t: TypingName) {
    || (exists c, f :: c in classes && f in c.fields && Uses(f.annotation, t))
    || (exists a :: a in aliases && Uses(a.annotation, t))
  }

  lemma {:induction false} UsedIsShown(classes: seq<ClassDef>, aliases: seq<Alias>, t: TypingName)
    requires IsUsed(classes, aliases, t)
    ensures Shows(classes, aliases, t)
  {
    if c, f :| c in classes && f in c.fields && Uses(f.annotation, t) {
      UsesShow(f.annotation, t);
    } else {
      var a :| a in aliases && Uses(a.annotation, t);
      UsesShow(a.annotation, t);
    }
  }

  /** `collectAnnotationImports`. */
  method CollectAnnotationImports(a: Annotation, imports: Imports) returns (r: Imports)
    ensures forall t :: Needs(r, t) <==> Needs(imports, t) || Contains(Render(a), TypingText(t))
  {
    var text := Render(a);
    r := Imports(imports.needsAny || Contains(text, "Any"),
                 imports.needsLiteral || Contains(text, "Literal"),
                 imports.needsUnion || Contains(text, "Union"));
  }

  method CollectImports(classes: seq<ClassDef>, aliases: seq<Alias>) returns (imports: Imports)
    ensures forall t :: Needs(imports, t) <==> Shows(classes, aliases, t)
  {
    imports := Imports(false, false, false);
    for i := 0 to |classes|
      invariant forall t :: Needs(imports, t) <==> Shows(classes[..i], [], t)
    {
      assert classes[..i + 1] == classes[..i] + [classes[i]];
      imports := CollectClassImports(classes[i], imports);
    }
    assert classes[..|classes|] == classes;
    for i := 0 to |aliases|
      invariant forall t :: Needs(imports, t) <==> Shows(classes, aliases[..i], t)
    {
      assert aliases[..i + 1] == aliases[..i] + [aliases[i]];
      imports := CollectAnnotationImports(aliases[i].annotation, imports);
    }
    assert aliases[..|aliases|] == aliases;
  }

  method CollectClassImports(c: ClassDef, before: Imports) returns (imports: Imports)
    ensures forall t :: Needs(imports, t) <==> Needs(before, t) || Shows([c], [], t)
  {
    imports := before;
    for i := 0 to |c.fields|
      invariant forall t :: Needs(imports, t) <==>
                  Needs(before, t) || exists f :: f in c.fields[..i] && Contains(Render(f.annotation), TypingText(t))
    {
      assert c.fields[..i + 1] == c.fields[..i] + [c.fields[i]];
      imports := CollectAnnotationImports(c.fields[i].annotation, imports);
    }
    assert c.fields[..|c.fields|] == c.fields;
  }

  datatype PayloadModule = PayloadModule(imports: Imports, classes: seq<ClassDef>, aliases: seq<Alias>)

  /**
   * `generatePythonPayloadsModule` up to laying out the text.  The imports gathered while
   * collecting subjects are gathered again from the finished lists, so only that is kept.
   */
  method GeneratePayloadModule(subjects: seq<Subject>) returns (m: PayloadModule)
    ensures m.classes == ModuleClasses(subjects) && m.aliases == ModuleAliases(subjects)
    ensures DefinedBeforeUse(m.classes) && AllRequiredFirst(m.classes)
    ensures forall a | a in m.aliases :: References(a.annotation) <= ClassNames(m.classes)
    ensures forall t :: Needs(m.imports, t) <==> Shows(m.classes, m.aliases, t)
    ensures forall t | IsUsed(m.classes, m.aliases, t) :: Needs(m.imports, t)
  {
    var context := new Context([]);
    var aliases: seq<Alias> := [];
    for i := 0 to |subjects|
      invariant context.classes == ModuleClasses(subjects[..i])
      invariant aliases == ModuleAliases(subjects[..i])
    {
      assert subjects[..i + 1][..i] == subjects[..i];
      var more := CollectSubject(context, subjects[i]);
      aliases := aliases + more;
    }
    assert subjects[..|subjects|] == subjects;
    ModuleIsOrdered(subjects);
    var imports := CollectImports(context.classes, aliases);
    forall t | IsUsed(context.classes, aliases, t)
      ensures Needs(imports, t)
    {
      UsedIsShown(context.classes, aliases, t);
    }
    m := PayloadModule(imports, context.classes, aliases);
  }

  /** `collectEventDataclasses` and `collectRequestDataclasses`. */
  method CollectSubject(context: Context, s: Subject) returns (aliases: seq<Alias>)
    modifies context
    ensures context.classes == old(context.classes) + SubjectClasses(s)
    ensures aliases == SubjectAliases(s)
  {
    match s
    case Event(subject, payload) =>
      context.PushClass(payload, ClassFor(subject, "Payload"));
      aliases := [];
    case Request(subject, request, response) =>
      aliases := CollectRequest(context, request, response, ClassFor(subject, "Request"), ClassFor(subject, "Response"));
  }

  method CollectRequest(context: Context, request: Schema, response: Schema, requestName: string, responseName: string)
    returns (aliases: seq<Alias>)
    modifies context
    ensures context.classes
            == old(context.classes) + (EmittedClass(request, requestName) + ResponseClasses(response, responseName))
    ensures aliases == ResponseAliases(response, responseName)
  {
    context.PushClass(request, requestName);
    ConcatAssoc(old(context.classes), EmittedClass(request, requestName), ResponseClasses(response, responseName));
    if HasVariants(response) {
      var annotation := context.SchemaToTypeAnnotation(response, Some(responseName));
      return [Alias(responseName, annotation)];
    }
    context.PushClass(response, responseName);
    return [];
  }

  // ----- optional fields and `None` -------------------------------------------------------------------------

  /**
   * An optional field defaults to `None`.  Its annotation admits that unless the schema's
   * own annotation does not and still shows the four letters somewhere: in the items of a
   * list, in a literal or in a class name.  The code's test is on the text.
   */
  lemma {:induction false} OptionalFieldAdmitsNone(p: Property, required: set<string>, owner: string)
    requires p.key !in required
    ensures var a := Annotate(p.schema, Some(PropertyClass(owner, p.key)));
            AdmitsNone(FieldOf(p, required, owner).annotation) <==> AdmitsNone(a) || !ShowsNone(a)
  {
    RenderShowsNone(Annotate(p.schema, Some(PropertyClass(owner, p.key))));
  }

  /** A plain array schema. */
  predicate IsArray(s: Schema) {
    && s.Node? && s.anyOf.NoVariants? && s.oneOf.NoVariants? && s.enumeration.None? && s.constant.None?
    && s.typeName == Some("array") && s.items.Items?
  }

  /** An optional array field admits `None` exactly if its item type does not show the letters. */
  lemma {:induction false} OptionalArrayAdmitsNone(p: Property, required: set<string>, owner: string)
    requires p.key !in required && IsArray(p.schema)
    ensures var item := Annotate(p.schema.items.schema, ItemName(Some(PropertyClass(owner, p.key))));
            AdmitsNone(FieldOf(p, required, owner).annotation) <==> !Contains(Render(item), "None")
  {
    var name := Some(PropertyClass(owner, p.key));
    ArrayIsList(p.schema, name);
    OptionalFieldAdmitsNone(p, required, owner);
    RenderShowsNone(Annotate(p.schema.items.schema, ItemName(name)));
  }

  lemma {:induction false} ArrayIsList(s: Schema, className: Option<string>)
    requires IsArray(s)
    ensures Annotate(s, className) == ListOf(Annotate(s.items.schema, ItemName(className)))
  {
    assert |"array"| == 5 && |"object"| == 6;
  }

  /** The schema `anyOf: [T, null]`, in any order and with the null repeated or not. */
  ghost predicate IsNullable(s: Schema) {
    s.Node? && s.anyOf.Variants? && |NonNull(s.anyOf.list)| == 1 && exists v :: v in s.anyOf.list && IsNullType(v)
  }

  /** An optional array of nullable items is never given `None`, whatever the item type. */
  lemma {:induction false} NullableItemsLackNone(p: Property, required: set<string>, owner: string)
    requires p.key !in required && IsArray(p.schema) && IsNullable(p.schema.items.schema)
    ensures !AdmitsNone(FieldOf(p, required, owner).annotation)
  {
    var item := Annotate(p.schema.items.schema, ItemName(Some(PropertyClass(owner, p.key))));
    OptionalArrayAdmitsNone(p, required, owner);
    RenderShowsNone(item);
  }

  /** An optional array of nulls: `list[None]`, without the alternative. */
  lemma {:induction false} OptionalNullListLacksNone(key: string, owner: string)
    ensures var nothing := Node(NoVariants, NoVariants, None, None, Some("null"), NoProperties, {}, NoItems);
            var list := Node(NoVariants, NoVariants, None, None, Some("array"), NoProperties, {}, Items(nothing));
            !AdmitsNone(FieldOf(Property(key, list), {}, owner).annotation)
  {
    var nothing := Node(NoVariants, NoVariants, None, None, Some("null"), NoProperties, {}, NoItems);
    var list := Node(NoVariants, NoVariants, None, None, Some("array"), NoProperties, {}, Items(nothing));
    var name := Some(PropertyClass(owner, key));
    assert |"null"| == 4 && |"array"| == 5 && |"object"| == 6 && |"string"| == 6;
    assert Annotate(nothing, ItemName(name)) == Primitive("None");
    assert Annotate(list, name) == ListOf(Primitive("None"));
    ContainsMiddle("list[", "None", "]");
  }
}
