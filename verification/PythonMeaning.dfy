/**
 * The exact meaning of a generated annotation, said about the schema alone.
 *
 * `Represents` reads the schema as the generator does: the first keyword that counts, the
 * properties of an object, any object for a union that is given up.  An annotation with its
 * emitted classes admits exactly these values, so this is also the exact condition under
 * which a value of the schema survives the translation.
 */
module PythonMeaning {
  import opened Collections
  import opened PythonTypes
  import opened PythonPayloads
  import opened PythonModule
  import opened PythonValues
  import opened PythonModuleValues

  ghost predicate Represents(s: Schema, className: Option<string>, v: Json)
    decreases s, 1
  {
    if s.NotAnObject? then true
    else if Collapses(s, className) then v.Object?
    else if s.anyOf.Variants? then
      assert NonNull(s.anyOf.list)[0] in s.anyOf.list;
      (v == NULL && HasNull(s.anyOf.list)) || Represents(NonNull(s.anyOf.list)[0], className, v)
    else if s.oneOf.Variants? then
      v.Object? && exists i | 0 <= i < |s.oneOf.list| :: HasParts(s.oneOf.list[i], VariantName(className.value, i), v)
    else if s.enumeration.Some? then v.Scalar? && v.value in s.enumeration.value
    else if s.constant.Some? then v == Scalar(s.constant.value)
    else if s.typeName == Some("object") then
      v.Object? && (className.Some? && IsDataclass(s) ==> HasParts(s, className.value, v))
    else if s.typeName == Some("array") then
      v.Array? && (s.items.Items? ==> forall j | 0 <= j < |v.items| :: Represents(s.items.schema, ItemName(className), v.items[j]))
    else s.typeName.Some? ==> HasType(s.typeName.value, v)
  }

  /** An optional property may also be null, unless the text of its type shows `None`. */
  predicate MayBeNull(p: Property, required: set<string>, owner: string) {
    p.key !in required && !ShowsNone(Annotate(p.schema, Some(PropertyClass(owner, p.key))))
  }

  /** Every property of the schema is met. */
  ghost predicate HasParts(s: Schema, owner: string, v: Json)
    requires v.Object?
    decreases s, 0
  {
    s.Node? && s.properties.Properties? ==>
      forall i | 0 <= i < |s.properties.list| :: HasPart(s.properties.list[i], s.required, owner, v)
  }

  /** The property is represented if it is there, and it is there if required. */
  ghost predicate HasPart(p: Property, required: set<string>, owner: string, v: Json)
    requires v.Object?
    decreases p, 0
  {
    && (p.key in required ==> HasMember(v, p.key))
    && forall j | 0 <= j < |v.members| && v.members[j].key == p.key ::
         || (MayBeNull(p, required, owner) && v.members[j].value == NULL)
         || Represents(p.schema, Some(PropertyClass(owner, p.key)), v.members[j].value)
  }

  /** No two classes share a name. */
  ghost predicate AreNamedApart(classes: seq<ClassDef>) {
    forall c, d | c in classes && d in classes && c.name == d.name :: c == d
  }

  /** An annotation admits exactly the values its schema represents. */
  lemma {:induction false} AnnotationMeans(s: Schema, className: Option<string>, classes: seq<ClassDef>, v: Json)
    requires Includes(classes, Emitted(s, className)) && AreNamedApart(classes)
    ensures Admits(false, Annotate(s, className), classes, v) <==> Represents(s, className, v)
    decreases s, 2
  {
    if s.NotAnObject? || Collapses(s, className) {
    } else if s.anyOf.Variants? {
      NullableMeans(s, className, classes, v);
    } else if s.oneOf.Variants? {
      UnionMeans(s, className.value, classes, v);
    } else if s.enumeration.Some? || s.constant.Some? {
    } else if s.typeName == Some("object") {
      if className.Some? && IsDataclass(s) {
        ObjectMeans(s, className.value, classes, v);
      }
    } else if s.typeName == Some("array") {
      ArrayMeans(s, className, classes, v);
    } else if s.typeName.Some? {
      PrimitiveMeans(s.typeName.value, classes, v);
    }
  }

  lemma {:induction false} NullableMeans(s: Schema, className: Option<string>, classes: seq<ClassDef>, v: Json)
    requires s.Node? && s.anyOf.Variants? && !Collapses(s, className)
    requires Includes(classes, Emitted(s, className)) && AreNamedApart(classes)
    ensures Admits(false, Annotate(s, className), classes, v) <==> Represents(s, className, v)
    decreases s, 1
  {
    var inner := NonNull(s.anyOf.list)[0];
    assert inner in s.anyOf.list;
    assert Annotate(s, className) == if HasNull(s.anyOf.list) then OrNone(Annotate(inner, className)) else Annotate(inner, className);
    AnnotationMeans(NonNull(s.anyOf.list)[0], className, classes, v);
  }

  /** An object schema that gets a class. */
  predicate IsClassSchema(s: Schema) {
    && s.Node? && s.anyOf.NoVariants? && s.oneOf.NoVariants? && s.enumeration.None? && s.constant.None?
    && s.typeName == Some("object") && IsDataclass(s)
  }

  lemma {:induction false} ClassSchemaMeans(s: Schema, name: string, v: Json)
    requires IsClassSchema(s)
    ensures Annotate(s, Some(name)) == ClassRef(name)
    ensures Represents(s, Some(name), v) <==> v.Object? && HasParts(s, name, v)
  {
  }

  lemma {:induction false} ClassSchemaEmits(s: Schema, name: string, classes: seq<ClassDef>)
    requires IsClassSchema(s) && Includes(classes, Emitted(s, Some(name)))
    ensures Includes(classes, EmittedClass(s, name))
  {
  }

  lemma {:induction false} ObjectMeans(s: Schema, name: string, classes: seq<ClassDef>, v: Json)
    requires IsClassSchema(s) && Includes(classes, Emitted(s, Some(name))) && AreNamedApart(classes)
    ensures Admits(false, Annotate(s, Some(name)), classes, v) <==> Represents(s, Some(name), v)
    decreases s, 1, 1
  {
    ClassSchemaEmits(s, name, classes);
    ClassMeans(s, name, classes, v);
    ClassSchemaMeans(s, name, v);
  }

  lemma {:induction false} PrimitiveMeans(name: string, classes: seq<ClassDef>, v: Json)
    requires name != "object" && name != "array"
    ensures Admits(false, PrimitiveType(name), classes, v) <==> HasType(name, v)
  {
    PrimitiveIsExact(false, name, classes, v);
  }

  lemma {:induction false} ArrayMeans(s: Schema, className: Option<string>, classes: seq<ClassDef>, v: Json)
    requires s.Node? && s.anyOf.NoVariants? && s.oneOf.NoVariants? && s.enumeration.None? && s.constant.None?
    requires s.typeName == Some("array")
    requires Includes(classes, Emitted(s, className)) && AreNamedApart(classes)
    ensures Admits(false, Annotate(s, className), classes, v) <==> Represents(s, className, v)
    decreases s, 1
  {
    assert |"array"| == 5 && |"object"| == 6;
    if s.items.Items? && v.Array? {
      forall j | 0 <= j < |v.items|
        ensures Admits(false, Annotate(s.items.schema, ItemName(className)), classes, v.items[j]) <==>
                Represents(s.items.schema, ItemName(className), v.items[j])
      {
        AnnotationMeans(s.items.schema, ItemName(className), classes, v.items[j]);
      }
    }
  }

  /** A union that becomes classes. */
  predicate IsClassUnion(s: Schema) {
    s.Node? && s.anyOf.NoVariants? && s.oneOf.Variants? && AreDataclassVariants(s.oneOf.list)
  }

  lemma {:induction false} ClassUnionMeans(s: Schema, className: string, v: Json)
    requires IsClassUnion(s)
    ensures Annotate(s, Some(className)) == UnionOf(VariantNames(className, |s.oneOf.list|))
    ensures Represents(s, Some(className), v) <==>
            v.Object? && exists i | 0 <= i < |s.oneOf.list| :: HasParts(s.oneOf.list[i], VariantName(className, i), v)
  {
  }

  lemma {:induction false} ClassUnionEmits(s: Schema, className: string, classes: seq<ClassDef>)
    requires IsClassUnion(s) && Includes(classes, Emitted(s, Some(className)))
    ensures Includes(classes, EmittedByVariants(s.oneOf.list, className))
  {
  }

  lemma {:induction false} UnionMeans(s: Schema, className: string, classes: seq<ClassDef>, v: Json)
    requires IsClassUnion(s) && Includes(classes, Emitted(s, Some(className))) && AreNamedApart(classes)
    ensures Admits(false, Annotate(s, Some(className)), classes, v) <==> Represents(s, Some(className), v)
    decreases s, 1, 1
  {
    ClassUnionEmits(s, className, classes);
    VariantsMean(s.oneOf.list, className, classes, v);
    ClassUnionMeans(s, className, v);
  }

  lemma {:induction false} VariantsMean(list: seq<Schema>, className: string, classes: seq<ClassDef>, v: Json)
    requires Includes(classes, EmittedByVariants(list, className)) && AreNamedApart(classes)
    ensures Admits(false, UnionOf(VariantNames(className, |list|)), classes, v) <==>
            v.Object? && exists i | 0 <= i < |list| :: HasParts(list[i], VariantName(className, i), v)
    decreases list, 1, 0
  {
    forall i | 0 <= i < |list|
      ensures IsInstance(false, VariantName(className, i), classes, v) <==> v.Object? && HasParts(list[i], VariantName(className, i), v)
    {
      VariantIncluded(classes, list, className, i);
      ClassMeans(list[i], VariantName(className, i), classes, v);
    }
  }

  /** The instances of a class are exactly the objects that have its parts. */
  lemma {:induction false} ClassMeans(s: Schema, name: string, classes: seq<ClassDef>, v: Json)
    requires Includes(classes, EmittedClass(s, name)) && AreNamedApart(classes)
    ensures IsInstance(false, name, classes, v) <==> v.Object? && HasParts(s, name, v)
    decreases s, 1, 0
  {
    ClassIncluded(classes, s, name);
    if v.Object? {
      InstanceByFields(name, FieldsOf(s, name), classes, v);
      if s.Node? && s.properties.Properties? {
        InstanceExactly(s, name, classes, v);
        PartsMean(s, name, classes, v);
      } else {
        assert FieldsOf(s, name) == [];
      }
    }
  }

  lemma {:induction false} PartsMean(s: Schema, name: string, classes: seq<ClassDef>, v: Json)
    requires s.Node? && s.properties.Properties? && v.Object?
    requires Includes(classes, EmittedByProperties(s.properties.list, name)) && AreNamedApart(classes)
    ensures (forall i | 0 <= i < |s.properties.list| :: HoldsProperty(s.properties.list[i], s.required, name, classes, v)) <==>
            HasParts(s, name, v)
    decreases s, 0, 1
  {
    forall i | 0 <= i < |s.properties.list|
      ensures HoldsProperty(s.properties.list[i], s.required, name, classes, v) <==>
              HasPart(s.properties.list[i], s.required, name, v)
    {
      PropertyIncluded(classes, s.properties.list, name, i);
      PartMeans(s.properties.list[i], s.required, name, classes, v);
    }
  }

  lemma {:induction false} PartMeans(p: Property, required: set<string>, owner: string, classes: seq<ClassDef>, v: Json)
    requires v.Object?
    requires Includes(classes, Emitted(p.schema, Some(PropertyClass(owner, p.key)))) && AreNamedApart(classes)
    ensures HoldsProperty(p, required, owner, classes, v) <==> HasPart(p, required, owner, v)
    decreases p, 0
  {
    forall j | 0 <= j < |v.members|
      ensures Admits(false, FieldOf(p, required, owner).annotation, classes, v.members[j].value) <==>
              || (MayBeNull(p, required, owner) && v.members[j].value == NULL)
              || Represents(p.schema, Some(PropertyClass(owner, p.key)), v.members[j].value)
    {
      AnnotationMeans(p.schema, Some(PropertyClass(owner, p.key)), classes, v.members[j].value);
      FieldAdmits(false, p, required, owner, classes, v.members[j].value);
    }
  }

  /** In a module without name clashes the class of an event is exactly its payload schema, as far as represented. */
  lemma {:induction false} EventMeans(subjects: seq<Subject>, i: nat, v: Json)
    requires i < |subjects| && subjects[i].Event? && AreNamedApart(ModuleClasses(subjects))
    ensures IsInstance(false, ClassFor(subjects[i].fullSubject, "Payload"), ModuleClasses(subjects), v) <==>
            v.Object? && HasParts(subjects[i].payload, ClassFor(subjects[i].fullSubject, "Payload"), v)
  {
    SubjectIncluded(subjects, i);
    ClassMeans(subjects[i].payload, ClassFor(subjects[i].fullSubject, "Payload"), ModuleClasses(subjects), v);
  }

  /** The same for the class of a request. */
  lemma {:induction false} RequestMeans(subjects: seq<Subject>, i: nat, v: Json)
    requires i < |subjects| && subjects[i].Request? && AreNamedApart(ModuleClasses(subjects))
    ensures IsInstance(false, ClassFor(subjects[i].fullSubject, "Request"), ModuleClasses(subjects), v) <==>
            v.Object? && HasParts(subjects[i].request, ClassFor(subjects[i].fullSubject, "Request"), v)
  {
    RequestIncluded(subjects, i);
    ClassMeans(subjects[i].request, ClassFor(subjects[i].fullSubject, "Request"), ModuleClasses(subjects), v);
  }
}
