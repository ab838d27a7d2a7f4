/** What the classes and aliases of a payload module mean: the payloads of their own subjects. */
module PythonModuleValues {
  import opened Collections
  import opened PythonTypes
  import opened PythonPayloads
  import opened PythonModule
  import opened PythonValues

  /** What `f` gives for each item, one after the other. */
  function Gather<T, U>(f: T -> seq<U>, items: seq<T>): seq<U> {
    if items == [] then [] else Gather(f, items[..|items| - 1]) + f(items[|items| - 1])
  }

  lemma {:induction false} Gathered<T, U>(f: T -> seq<U>, items: seq<T>, i: nat, x: U)
    requires i < |items| && x in f(items[i])
    ensures x in Gather(f, items)
    decreases |items|
  {
    if i < |items| - 1 {
      Gathered(f, items[..|items| - 1], i, x);
    }
  }

  lemma {:induction false} ModuleIsGathered(f: Subject -> seq<ClassDef>, subjects: seq<Subject>)
    requires forall s :: f(s) == SubjectClasses(s)
    ensures ModuleClasses(subjects) == Gather(f, subjects)
  {
    if subjects != [] {
      ModuleIsGathered(f, subjects[..|subjects| - 1]);
    }
  }

  lemma {:induction false} SubjectIncluded(subjects: seq<Subject>, i: nat)
    requires i < |subjects|
    ensures Includes(ModuleClasses(subjects), SubjectClasses(subjects[i]))
  {
    var f := (s: Subject) => SubjectClasses(s);
    ModuleIsGathered(f, subjects);
    forall c | c in f(subjects[i])
      ensures c in Gather(f, subjects)
    {
      Gathered(f, subjects, i, c);
    }
  }

  lemma {:induction false} AliasIncluded(subjects: seq<Subject>, i: nat, a: Alias)
    requires i < |subjects| && a in SubjectAliases(subjects[i])
    ensures a in ModuleAliases(subjects)
  {
    var n := |subjects| - 1;
    if i < n {
      AliasIncluded(subjects[..n], i, a);
    }
  }

  /** A payload that is an object of the schema and meets no union that loses it. */
  ghost predicate IsPayload(schema: Schema, name: string, v: Json) {
    Validates(schema, v) && v.Object? && FitsFields(schema, name, v)
  }

  /** Every payload of an event is an instance of the event's own class. */
  lemma {:induction false} EventIsTyped(subjects: seq<Subject>, i: nat, v: Json)
    requires i < |subjects| && subjects[i].Event?
    requires IsPayload(subjects[i].payload, ClassFor(subjects[i].fullSubject, "Payload"), v)
    ensures IsInstance(false, ClassFor(subjects[i].fullSubject, "Payload"), ModuleClasses(subjects), v)
  {
    SubjectIncluded(subjects, i);
    ClassIsSound(false, subjects[i].payload, ClassFor(subjects[i].fullSubject, "Payload"), ModuleClasses(subjects), v);
  }

  lemma {:induction false} RequestIncluded(subjects: seq<Subject>, i: nat)
    requires i < |subjects| && subjects[i].Request?
    ensures Includes(ModuleClasses(subjects), EmittedClass(subjects[i].request, ClassFor(subjects[i].fullSubject, "Request")))
    ensures Includes(ModuleClasses(subjects), ResponseClasses(subjects[i].response, ClassFor(subjects[i].fullSubject, "Response")))
  {
    SubjectIncluded(subjects, i);
    var s := subjects[i];
    var request := EmittedClass(s.request, ClassFor(s.fullSubject, "Request"));
    var response := ResponseClasses(s.response, ClassFor(s.fullSubject, "Response"));
    assert SubjectClasses(s) == request + response;
    assert forall c | c in request || c in response :: c in request + response;
  }

  /** Every request is an instance of its own request class. */
  lemma {:induction false} RequestIsTyped(subjects: seq<Subject>, i: nat, v: Json)
    requires i < |subjects| && subjects[i].Request?
    requires IsPayload(subjects[i].request, ClassFor(subjects[i].fullSubject, "Request"), v)
    ensures IsInstance(false, ClassFor(subjects[i].fullSubject, "Request"), ModuleClasses(subjects), v)
  {
    RequestIncluded(subjects, i);
    ClassIsSound(false, subjects[i].request, ClassFor(subjects[i].fullSubject, "Request"), ModuleClasses(subjects), v);
  }

  /** Every response without variants is an instance of its own response class. */
  lemma {:induction false} ResponseIsTyped(subjects: seq<Subject>, i: nat, v: Json)
    requires i < |subjects| && subjects[i].Request? && !HasVariants(subjects[i].response)
    requires IsPayload(subjects[i].response, ClassFor(subjects[i].fullSubject, "Response"), v)
    ensures IsInstance(false, ClassFor(subjects[i].fullSubject, "Response"), ModuleClasses(subjects), v)
  {
    RequestIncluded(subjects, i);
    ClassIsSound(false, subjects[i].response, ClassFor(subjects[i].fullSubject, "Response"), ModuleClasses(subjects), v);
  }

  /** A response with variants has an alias of its own name that admits it. */
  lemma {:induction false} VariantResponseIsTyped(subjects: seq<Subject>, i: nat, v: Json)
    requires i < |subjects| && subjects[i].Request? && HasVariants(subjects[i].response)
    requires Validates(subjects[i].response, v)
    requires Fits(subjects[i].response, Some(ClassFor(subjects[i].fullSubject, "Response")), v)
    ensures exists a :: && a in ModuleAliases(subjects) && a.name == ClassFor(subjects[i].fullSubject, "Response")
                        && Admits(false, a.annotation, ModuleClasses(subjects), v)
  {
    var name := ClassFor(subjects[i].fullSubject, "Response");
    var a := Alias(name, Annotate(subjects[i].response, Some(name)));
    RequestIncluded(subjects, i);
    AnnotationIsSound(false, subjects[i].response, Some(name), ModuleClasses(subjects), v);
    assert a in SubjectAliases(subjects[i]);
    AliasIncluded(subjects, i, a);
  }
}
