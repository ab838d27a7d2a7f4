/**
 * Reading the generated Rust section back.
 *
 * A reader for the shape of the generated file: modules of bindings, each with its
 * constant, full subject, type and payload types, and the list of all subjects.  Reading
 * what the generator writes gives back the manifest, entry by entry.
 */
module RustReader {
  import opened Collections
  import opened Lines
  import opened RustSplice
  import opened RustSubjects
  import opened RustSection

  datatype Payload = EventPayload(payload: string) | RequestPayload(request: string, response: string)

  /** One subject inside its module. */
  datatype Binding = Binding(constant: string, fullSubject: string, typeName: string, types: Payload)

  datatype ModuleText = ModuleText(name: string, uses: string, bindings: seq<Binding>)

  /** One entry of the `SUBJECTS` array. */
  datatype Listed = Listed(kind: string, namespace: string, subject: string, path: string)

  datatype Section = Section(modules: seq<ModuleText>, subjects: seq<Listed>)

  datatype Read<+T> = Failed | Parsed(value: T, rest: seq<string>)

  // ----- the reader ----------------------------------------------------------------

  /** What stands between `prefix` and `suffix`. */
  function Unwrap(prefix: string, suffix: string, line: string): Option<string> {
    if |prefix| + |suffix| <= |line| && line[..|prefix|] == prefix && line[|line| - |suffix|..] == suffix
    then Some(line[|prefix|..|line| - |suffix|]) else None
  }

  function ReadEvent(lines: seq<string>): (r: Read<(string, Payload)>)
    ensures r.Parsed? ==> |r.rest| < |lines|
  {
    if |lines| < 2 then Failed
    else
      var name := Unwrap("    impl EventSubject for ", " {", lines[0]);
      var payload := Unwrap("        type Payload = ", ";", lines[1]);
      if name.None? || payload.None? then Failed
      else Parsed((name.value, EventPayload(payload.value)), lines[2..])
  }

  function ReadRequest(lines: seq<string>): (r: Read<(string, Payload)>)
    ensures r.Parsed? ==> |r.rest| < |lines|
  {
    if |lines| < 3 then Failed
    else
      var name := Unwrap("    impl RequestSubject for ", " {", lines[0]);
      var request := Unwrap("        type Request = ", ";", lines[1]);
      var response := Unwrap("        type Response = ", ";", lines[2]);
      if name.None? || request.None? || response.None? then Failed
      else Parsed((name.value, RequestPayload(request.value, response.value)), lines[3..])
  }

  function ReadImplementation(lines: seq<string>): (r: Read<(string, Payload)>)
    ensures r.Parsed? ==> |r.rest| < |lines|
  {
    if ReadEvent(lines).Parsed? then ReadEvent(lines) else ReadRequest(lines)
  }

  /** The constant's name is read where it is used; with it the line that defines it splits uniquely. */
  function ReadBinding(lines: seq<string>): (r: Read<Binding>)
    ensures r.Parsed? ==> |r.rest| < |lines|
  {
    if |lines| < 4 || lines[1] != "" || lines[2] != DeriveLine("    ") then Failed
    else
      var ty, body := Unwrap("    pub struct ", ";", lines[3]), ReadImplementation(lines[4..]);
      if ty.None? || body.Failed? || |body.rest| < 2 || body.value.0 != ty.value || body.rest[1] != "    }" then Failed
      else ReadConstant(lines[0], body.rest, ty.value, body.value.1)
  }

  function ReadConstant(first: string, rest: seq<string>, ty: string, types: Payload): (r: Read<Binding>)
    requires |rest| >= 2
    ensures r.Parsed? ==> r.rest == rest[2..]
  {
    var constant := Unwrap("        const SUBJECT: " + "&'static str = ", ";", rest[0]);
    if constant.None? then Failed
    else
      var full := Unwrap("    pub const " + constant.value + ": &str = \"", "\";", first);
      if full.None? then Failed else Parsed(Binding(constant.value, full.value, ty, types), rest[2..])
  }

  /** Bindings separated by blank lines, up to the closing brace. */
  function ReadBindings(lines: seq<string>): (r: Read<seq<Binding>>)
    ensures r.Parsed? ==> |r.rest| < |lines|
    decreases |lines|
  {
    var first := ReadBinding(lines);
    if first.Failed? || first.rest == [] then Failed
    else if first.rest[0] == "}" then Parsed([first.value], first.rest[1..])
    else if first.rest[0] != "" then Failed
    else
      var more := ReadBindings(first.rest[1..]);
      if more.Failed? then Failed else Parsed([first.value] + more.value, more.rest)
  }

  function ReadModule(lines: seq<string>): (r: Read<ModuleText>)
    ensures r.Parsed? ==> |r.rest| < |lines|
  {
    if |lines| < 3 || lines[2] != "" then Failed
    else
      var name, uses := Unwrap("pub mod ", " {", lines[0]), Unwrap("    use super::{", "};", lines[1]);
      var bindings := ReadBindings(lines[3..]);
      if name.None? || uses.None? || bindings.Failed? then Failed
      else Parsed(ModuleText(name.value, uses.value, bindings.value), bindings.rest)
  }

  /** Modules, each followed by a blank line, up to a line that starts no module. */
  function ReadModules(lines: seq<string>): (r: Read<seq<ModuleText>>)
    decreases |lines|
  {
    if lines == [] || Unwrap("pub mod ", " {", lines[0]).None? then Parsed([], lines)
    else
      var first := ReadModule(lines);
      if first.Failed? || first.rest == [] || first.rest[0] != "" then Failed
      else
        var more := ReadModules(first.rest[1..]);
        if more.Failed? then Failed else Parsed([first.value] + more.value, more.rest)
  }

  function ReadEntry(lines: seq<string>): (r: Option<Listed>)
    requires |lines| >= 6
  {
    var kind := Unwrap("        kind: SubjectKind::", ",", lines[1]);
    var namespace := Unwrap("        namespace: \"", "\",", lines[2]);
    var subject := Unwrap("        subject: \"", "\",", lines[3]);
    var path := Unwrap("        full_subject: ", ",", lines[4]);
    if kind.None? || namespace.None? || subject.None? || path.None? then None
    else Some(Listed(kind.value, namespace.value, subject.value, path.value))
  }

  /** Entries up to the closing bracket. */
  function ReadEntries(lines: seq<string>): Read<seq<Listed>>
    decreases |lines|
  {
    if lines != [] && lines[0] == "];" then Parsed([], lines[1..])
    else if |lines| < 6 || ReadEntry(lines).None? then Failed
    else
      var more := ReadEntries(lines[6..]);
      if more.Failed? then Failed else Parsed([ReadEntry(lines).value] + more.value, more.rest)
  }

  function ReadSection(lines: seq<string>): Option<Section> {
    var header := HeaderLines();
    if !(header <= lines) then None
    else
      var modules := ReadModules(lines[|header|..]);
      if modules.Failed? || modules.rest == [] || modules.rest[0] != SubjectsLine() then None
      else
        var entries := ReadEntries(modules.rest[1..]);
        if entries.Failed? || entries.rest != [END_MARKER] then None
        else Some(Section(modules.value, entries.value))
  }

  // ----- what should be read -----------------------------------------------------------

  function KindName(kind: Kind): string {
    if kind == Event then "Event" else "Request"
  }

  /** The entry of a subject: its own full subject, and the types of its own slots. */
  function BindingOf(types: PayloadTypes, s: Subject): Binding {
    var at := slot => if (s.fullSubject, slot) in types then "super::" + types[(s.fullSubject, slot)] else "Value";
    Binding(ConstantName(s.subject), s.fullSubject, TypeName(s.subject),
            if s.kind == Event then EventPayload(at(EventSlot)) else RequestPayload(at(RequestSlot), at(ResponseSlot)))
  }

  function BindingsOf(types: PayloadTypes, subjects: seq<Subject>): (r: seq<Binding>)
    ensures |r| == |subjects| && forall i | 0 <= i < |r| :: r[i] == BindingOf(types, subjects[i])
  {
    seq(|subjects|, i requires 0 <= i < |subjects| => BindingOf(types, subjects[i]))
  }

  function ModuleOf(types: PayloadTypes, subjects: seq<Subject>, namespace: string): ModuleText {
    var group := InNamespace(subjects, namespace);
    ModuleText(ModuleName(namespace), Uses(group), BindingsOf(types, group))
  }

  function ModulesOf(types: PayloadTypes, subjects: seq<Subject>, order: seq<string>): (r: seq<ModuleText>)
    ensures |r| == |order| && forall i | 0 <= i < |r| :: r[i] == ModuleOf(types, subjects, order[i])
  {
    seq(|order|, i requires 0 <= i < |order| => ModuleOf(types, subjects, order[i]))
  }

  function ListedOf(s: Subject): Listed {
    Listed(KindName(s.kind), s.namespace, s.subject, ModuleName(s.namespace) + "::" + ConstantName(s.subject))
  }

  function ListingOf(subjects: seq<Subject>): (r: seq<Listed>)
    ensures |r| == |subjects| && forall i | 0 <= i < |r| :: r[i] == ListedOf(subjects[i])
  {
    seq(|subjects|, i requires 0 <= i < |subjects| => ListedOf(subjects[i]))
  }

  function SectionOf(types: PayloadTypes, subjects: seq<Subject>): Section {
    Section(ModulesOf(types, subjects, Namespaces(subjects)), ListingOf(subjects))
  }

  /** A module imports exactly the traits that its subjects implement. */
  lemma {:induction false} UsesByKinds(subjects: seq<Subject>)
    ensures (exists s :: s in subjects && s.kind == Event) && (exists s :: s in subjects && s.kind == Request) ==>
              Uses(subjects) == "EventSubject, " + "RequestSubject, " + "Value"
    ensures subjects != [] && (forall s | s in subjects :: s.kind == Event) ==> Uses(subjects) == "EventSubject, " + "Value"
    ensures subjects != [] && (forall s | s in subjects :: s.kind == Request) ==> Uses(subjects) == "RequestSubject, " + "Value"
  {
    if subjects != [] {
      assert subjects[0] in subjects;
    }
    assert "EventSubject, " + "" == "EventSubject, " && "" + "RequestSubject, " == "RequestSubject, ";
  }

  // ----- reading what was written -----------------------------------------------------------

  lemma {:induction false} UnwrapOf(prefix: string, middle: string, suffix: string, line: string)
    requires line == prefix + middle + suffix
    ensures Unwrap(prefix, suffix, line) == Some(middle)
  {
  }

  lemma {:induction false} RequestIsNoEvent(name: string, rest: seq<string>)
    ensures ReadEvent(["    impl RequestSubject" + " for " + (name + " {")] + rest).Failed?
  {
    var line := "    impl RequestSubject" + " for " + (name + " {");
    assert line[9] == 'R' && "    impl EventSubject for "[9] == 'E';
    assert line[..26][9] == line[9];
    assert ([line] + rest)[0] == line;
  }

  lemma {:induction false} ReadEventLines(name: string, payload: string, tail: seq<string>)
    ensures ReadImplementation(EventLines(name, payload) + tail) == Parsed((name, EventPayload(payload)), tail)
  {
    var lines := EventLines(name, payload) + tail;
    assert "    impl EventSubject" + " for " == "    impl EventSubject for ";
    UnwrapOf("    impl EventSubject for ", name, " {", lines[0]);
    UnwrapOf("        type Payload = ", payload, ";", lines[1]);
    assert lines[2..] == tail;
  }

  lemma {:induction false} ReadRequestLines(name: string, request: string, response: string, tail: seq<string>)
    ensures ReadImplementation(RequestLines(name, request, response) + tail)
            == Parsed((name, RequestPayload(request, response)), tail)
  {
    var lines := RequestLines(name, request, response) + tail;
    RequestIsNoEvent(name, lines[1..]);
    assert lines == [lines[0]] + lines[1..];
    assert "    impl RequestSubject" + " for " == "    impl RequestSubject for ";
    UnwrapOf("    impl RequestSubject for ", name, " {", lines[0]);
    UnwrapOf("        type Request = ", request, ";", lines[1]);
    UnwrapOf("        type Response = ", response, ";", lines[2]);
    assert lines[3..] == tail;
  }

  lemma {:induction false} ReadImplementationLines(types: PayloadTypes, s: Subject, tail: seq<string>)
    ensures ReadImplementation(ImplementationLines(types, s) + tail)
            == Parsed((TypeName(s.subject), BindingOf(types, s).types), tail)
  {
    if s.kind == Event {
      ReadEventLines(TypeName(s.subject), PayloadType(types, s.fullSubject, EventSlot), tail);
    } else {
      ReadRequestLines(TypeName(s.subject), PayloadType(types, s.fullSubject, RequestSlot),
                       PayloadType(types, s.fullSubject, ResponseSlot), tail);
    }
  }

  /** The lines of a subject without the blank line that separates it from the next. */
  function SubjectBody(types: PayloadTypes, s: Subject): seq<string> {
    DeclarationLines(ConstantName(s.subject), TypeName(s.subject), s.fullSubject) + ImplementationLines(types, s)
    + [ClosingLines(ConstantName(s.subject))[0], "    }"]
  }

  lemma {:induction false} SubjectBodyAndBlank(types: PayloadTypes, s: Subject)
    ensures SubjectLines(types, s) == SubjectBody(types, s) + [""]
  {
    var closing := ClosingLines(ConstantName(s.subject));
    assert closing == [closing[0], "    }"] + [""];
  }

  lemma {:induction false} ReadConstantLine(constant: string, full: string, ty: string, types: Payload, tail: seq<string>)
    ensures ReadConstant(DeclarationLines(constant, ty, full)[0], [ClosingLines(constant)[0], "    }"] + tail, ty, types)
            == Parsed(Binding(constant, full, ty, types), tail)
  {
    var rest := [ClosingLines(constant)[0], "    }"] + tail;
    var first := DeclarationLines(constant, ty, full)[0];
    UnwrapOf("        const SUBJECT: " + "&'static str = ", constant, ";", rest[0]);
    assert first == ("    pub const " + constant + ": &str = \"") + full + "\";";
    UnwrapOf("    pub const " + constant + ": &str = \"", full, "\";", first);
    assert rest[2..] == tail;
  }

  /** A binding in its parts: declaration, implementation, closing lines. */
  lemma {:induction false} ReadBindingParts(constant: string, full: string, ty: string, types: Payload,
                                            body: seq<string>, tail: seq<string>, lines: seq<string>)
    requires ReadImplementation(body + ([ClosingLines(constant)[0], "    }"] + tail))
             == Parsed((ty, types), [ClosingLines(constant)[0], "    }"] + tail)
    requires lines == DeclarationLines(constant, ty, full) + (body + ([ClosingLines(constant)[0], "    }"] + tail))
    ensures ReadBinding(lines) == Parsed(Binding(constant, full, ty, types), tail)
  {
    var declaration := DeclarationLines(constant, ty, full);
    assert |declaration| == 4 && lines[..4] == declaration;
    assert lines[0] == declaration[0] && lines[1] == "" && lines[2] == DeriveLine("    ") && lines[3] == declaration[3];
    assert lines[4..] == body + ([ClosingLines(constant)[0], "    }"] + tail);
    UnwrapOf("    pub struct ", ty, ";", lines[3]);
    ReadConstantLine(constant, full, ty, types, tail);
  }

  lemma {:induction false} ReadSubjectBody(types: PayloadTypes, s: Subject, tail: seq<string>)
    ensures ReadBinding(SubjectBody(types, s) + tail) == Parsed(BindingOf(types, s), tail)
  {
    var constant, ty := ConstantName(s.subject), TypeName(s.subject);
    var declaration, body := DeclarationLines(constant, ty, s.fullSubject), ImplementationLines(types, s);
    var closing := [ClosingLines(constant)[0], "    }"];
    ReadImplementationLines(types, s, closing + tail);
    ConcatAssoc(declaration + body, closing, tail);
    ConcatAssoc(declaration, body, closing + tail);
    ReadBindingParts(constant, s.fullSubject, ty, BindingOf(types, s).types, body, tail, SubjectBody(types, s) + tail);
  }

  /** All subjects of a module and its closing brace, where the last blank line has given way to it. */
  function ModuleBody(types: PayloadTypes, subjects: seq<Subject>): seq<string>
    requires subjects != []
  {
    if |subjects| == 1 then SubjectBody(types, subjects[0]) + ["}"]
    else SubjectLines(types, subjects[0]) + ModuleBody(types, subjects[1..])
  }

  lemma {:induction false} LastBinding(lines: seq<string>, b: Binding, tail: seq<string>)
    requires ReadBinding(lines) == Parsed(b, ["}"] + tail)
    ensures ReadBindings(lines) == Parsed([b], tail)
  {
    assert (["}"] + tail)[1..] == tail;
  }

  lemma {:induction false} NextBinding(lines: seq<string>, b: Binding, more: seq<string>, rest: seq<Binding>, tail: seq<string>)
    requires ReadBinding(lines) == Parsed(b, [""] + more) && ReadBindings(more) == Parsed(rest, tail)
    ensures ReadBindings(lines) == Parsed([b] + rest, tail)
  {
    assert ([""] + more)[1..] == more;
  }

  lemma {:induction false} BindingsCons(types: PayloadTypes, subjects: seq<Subject>)
    requires subjects != []
    ensures BindingsOf(types, subjects) == [BindingOf(types, subjects[0])] + BindingsOf(types, subjects[1..])
  {
  }

  lemma {:induction false} ReadModuleBody(types: PayloadTypes, subjects: seq<Subject>, tail: seq<string>)
    requires subjects != []
    ensures ReadBindings(ModuleBody(types, subjects) + tail) == Parsed(BindingsOf(types, subjects), tail)
  {
    BindingsCons(types, subjects);
    if |subjects| == 1 {
      ReadLastSubject(types, subjects[0], tail);
      assert BindingsOf(types, subjects) == [BindingOf(types, subjects[0])];
    } else {
      ReadModuleBody(types, subjects[1..], tail);
      ReadNextSubject(types, subjects[0], ModuleBody(types, subjects[1..]), BindingsOf(types, subjects[1..]), tail);
    }
  }

  lemma {:induction false} ReadLastSubject(types: PayloadTypes, s: Subject, tail: seq<string>)
    ensures ReadBindings(SubjectBody(types, s) + ["}"] + tail) == Parsed([BindingOf(types, s)], tail)
  {
    ConcatAssoc(SubjectBody(types, s), ["}"], tail);
    ReadSubjectBody(types, s, ["}"] + tail);
    LastBinding(SubjectBody(types, s) + ["}"] + tail, BindingOf(types, s), tail);
  }

  lemma {:induction false} ReadNextSubject(types: PayloadTypes, s: Subject, more: seq<string>, rest: seq<Binding>, tail: seq<string>)
    requires ReadBindings(more + tail) == Parsed(rest, tail)
    ensures ReadBindings(SubjectLines(types, s) + more + tail) == Parsed([BindingOf(types, s)] + rest, tail)
  {
    SubjectBodyAndBlank(types, s);
    var lines := SubjectLines(types, s) + more + tail;
    BlankBetween(SubjectBody(types, s), more, tail);
    ReadSubjectBody(types, s, [""] + (more + tail));
    NextBinding(lines, BindingOf(types, s), more + tail, rest, tail);
  }

  lemma {:induction false} BlankBetween(a: seq<string>, b: seq<string>, c: seq<string>)
    ensures a + [""] + b + c == a + ([""] + (b + c))
  {
  }

  lemma {:induction false} RenderCons<T>(render: T -> seq<string>, items: seq<T>)
    requires items != []
    ensures RenderAll(render, items) == render(items[0]) + RenderAll(render, items[1..])
    decreases |items|
  {
    if |items| == 1 {
      assert items[..0] == [] && items[1..] == [];
    } else {
      var front := items[..|items| - 1];
      RenderCons(render, front);
      assert items[1..][..|items| - 2] == front[1..];
      ConcatAssoc(render(items[0]), RenderAll(render, front[1..]), render(items[|items| - 1]));
    }
  }

  /** Dropping the last blank line and closing the module. */
  lemma {:induction false} BodyIsRendered(types: PayloadTypes, render: Subject -> seq<string>, subjects: seq<Subject>)
    requires subjects != [] && forall s :: render(s) == SubjectLines(types, s)
    ensures RenderAll(render, subjects) != []
    ensures DropLast(RenderAll(render, subjects)) + ["}"] == ModuleBody(types, subjects)
  {
    RenderCons(render, subjects);
    var first, rest := SubjectLines(types, subjects[0]), RenderAll(render, subjects[1..]);
    if |subjects| == 1 {
      SubjectBodyAndBlank(types, subjects[0]);
      assert rest == [] && first + rest == first;
      assert DropLast(first) == SubjectBody(types, subjects[0]);
    } else {
      BodyIsRendered(types, render, subjects[1..]);
      ClosedAfter(first, rest);
    }
  }

  lemma {:induction false} ModuleLinesByParts(types: PayloadTypes, namespace: string, subjects: seq<Subject>)
    requires subjects != []
    ensures ModuleLines(types, namespace, subjects)
            == OpeningLines(ModuleName(namespace), Uses(subjects)) + ModuleBody(types, subjects)
  {
    var open, render := OpeningLines(ModuleName(namespace), Uses(subjects)), (s: Subject) => SubjectLines(types, s);
    BodyIsRendered(types, render, subjects);
    ClosedAfter(open, RenderAll(render, subjects));
  }

  lemma {:induction false} ClosedAfter(open: seq<string>, body: seq<string>)
    requires body != []
    ensures DropLast(open + body) + ["}"] == open + (DropLast(body) + ["}"])
  {
  }

  lemma {:induction false} ReadOpening(name: string, uses: string, body: seq<string>, bindings: seq<Binding>, tail: seq<string>)
    requires ReadBindings(body) == Parsed(bindings, tail)
    ensures ReadModule(OpeningLines(name, uses) + body) == Parsed(ModuleText(name, uses, bindings), tail)
  {
    var lines := OpeningLines(name, uses) + body;
    UnwrapOf("pub mod ", name, " {", lines[0]);
    UnwrapOf("    use super::{", uses, "};", lines[1]);
    assert lines[3..] == body;
  }

  lemma {:induction false} ReadModuleLines(types: PayloadTypes, subjects: seq<Subject>, namespace: string, tail: seq<string>)
    requires namespace in Namespaces(subjects)
    ensures ReadModule(ModuleLines(types, namespace, InNamespace(subjects, namespace)) + tail)
            == Parsed(ModuleOf(types, subjects, namespace), tail)
  {
    var group := InNamespace(subjects, namespace);
    GroupsPartition(subjects, namespace);
    ModuleLinesByParts(types, namespace, group);
    ReadModuleBody(types, group, tail);
    ConcatAssoc(OpeningLines(ModuleName(namespace), Uses(group)), ModuleBody(types, group), tail);
    ReadOpening(ModuleName(namespace), Uses(group), ModuleBody(types, group) + tail, BindingsOf(types, group), tail);
  }

  // ----- modules, entries and the whole section -----------------------------------------------

  /** The modules of the namespaces in `order`, each followed by a blank line. */
  function AllModules(types: PayloadTypes, subjects: seq<Subject>, order: seq<string>): seq<string> {
    if order == [] then []
    else ModuleLines(types, order[0], InNamespace(subjects, order[0])) + [""] + AllModules(types, subjects, order[1..])
  }

  lemma {:induction false} NextModule(lines: seq<string>, m: ModuleText, more: seq<string>, rest: seq<ModuleText>, tail: seq<string>)
    requires ReadModule(lines) == Parsed(m, [""] + more) && ReadModules(more) == Parsed(rest, tail)
    ensures ReadModules(lines) == Parsed([m] + rest, tail)
  {
    assert ([""] + more)[1..] == more;
  }

  lemma {:induction false} ReadAllModules(types: PayloadTypes, subjects: seq<Subject>, order: seq<string>, tail: seq<string>)
    requires forall i | 0 <= i < |order| :: order[i] in Namespaces(subjects)
    requires tail != [] && Unwrap("pub mod ", " {", tail[0]).None?
    ensures ReadModules(AllModules(types, subjects, order) + tail) == Parsed(ModulesOf(types, subjects, order), tail)
  {
    if order == [] {
      assert AllModules(types, subjects, order) + tail == tail;
    } else {
      var first := ModuleLines(types, order[0], InNamespace(subjects, order[0]));
      var more := AllModules(types, subjects, order[1..]);
      ReadAllModules(types, subjects, order[1..], tail);
      ReadModuleLines(types, subjects, order[0], [""] + (more + tail));
      BlankBetween(first, more, tail);
      NextModule(AllModules(types, subjects, order) + tail, ModuleOf(types, subjects, order[0]), more + tail,
                 ModulesOf(types, subjects, order[1..]), tail);
      ModulesCons(types, subjects, order);
    }
  }

  lemma {:induction false} ModulesCons(types: PayloadTypes, subjects: seq<Subject>, order: seq<string>)
    requires order != []
    ensures ModulesOf(types, subjects, order) == [ModuleOf(types, subjects, order[0])] + ModulesOf(types, subjects, order[1..])
  {
  }

  lemma {:induction false} BlocksCons<T>(render: T -> seq<seq<string>>, items: seq<T>)
    requires items != []
    ensures BlocksOf(render, items) == render(items[0]) + BlocksOf(render, items[1..])
    decreases |items|
  {
    if |items| == 1 {
      assert items[..0] == [] && items[1..] == [];
    } else {
      var front := items[..|items| - 1];
      BlocksCons(render, front);
      assert items[1..][..|items| - 2] == front[1..];
      ConcatAssoc(render(items[0]), BlocksOf(render, front[1..]), render(items[|items| - 1]));
    }
  }

  lemma {:induction false} ModulesAreFlattened(types: PayloadTypes, subjects: seq<Subject>, render: string -> seq<seq<string>>, order: seq<string>)
    requires forall n :: render(n) == [ModuleLines(types, n, InNamespace(subjects, n)), [""]]
    ensures Flatten(BlocksOf(render, order)) == AllModules(types, subjects, order)
  {
    if order != [] {
      BlocksCons(render, order);
      ModulesAreFlattened(types, subjects, render, order[1..]);
      FlattenAppend(render(order[0]), BlocksOf(render, order[1..]));
      FlattenPair(ModuleLines(types, order[0], InNamespace(subjects, order[0])), [""]);
    }
  }

  lemma {:induction false} FlattenPair(a: seq<string>, b: seq<string>)
    ensures Flatten([a, b]) == a + b
  {
    assert [a, b][1..] == [b] && [b][1..] == [];
    assert Flatten([b]) == b;
  }

  function AllEntries(subjects: seq<Subject>): seq<string> {
    if subjects == [] then [] else EntryLines(subjects[0]) + AllEntries(subjects[1..])
  }

  lemma {:induction false} EntriesAreFlattened(render: Subject -> seq<seq<string>>, subjects: seq<Subject>)
    requires forall s :: render(s) == [EntryLines(s)]
    ensures Flatten(BlocksOf(render, subjects)) == AllEntries(subjects)
  {
    if subjects != [] {
      BlocksCons(render, subjects);
      EntriesAreFlattened(render, subjects[1..]);
      FlattenAppend(render(subjects[0]), BlocksOf(render, subjects[1..]));
      assert [EntryLines(subjects[0])][1..] == [];
      assert Flatten([EntryLines(subjects[0])]) == EntryLines(subjects[0]);
    }
  }

  lemma {:induction false} AssignKind(kind: string)
    ensures Unwrap("        kind: SubjectKind::", ",", AssignLine("kind", "SubjectKind::" + kind)) == Some(kind)
  {
    var line := AssignLine("kind", "SubjectKind::" + kind);
    assert line == "        kind: SubjectKind::" + kind + ",";
    UnwrapOf("        kind: SubjectKind::", kind, ",", line);
  }

  lemma {:induction false} AssignQuoted(namespace: string, subject: string)
    ensures Unwrap("        namespace: \"", "\",", AssignLine("namespace", Quoted(namespace))) == Some(namespace)
    ensures Unwrap("        subject: \"", "\",", AssignLine("subject", Quoted(subject))) == Some(subject)
  {
    var line, other := AssignLine("namespace", Quoted(namespace)), AssignLine("subject", Quoted(subject));
    assert line == "        namespace: \"" + namespace + "\",";
    UnwrapOf("        namespace: \"", namespace, "\",", line);
    assert other == "        subject: \"" + subject + "\",";
    UnwrapOf("        subject: \"", subject, "\",", other);
  }

  lemma {:induction false} AssignPath(path: string)
    ensures Unwrap("        full_subject: ", ",", AssignLine("full_subject", path)) == Some(path)
  {
    var line := AssignLine("full_subject", path);
    assert line == "        full_subject: " + path + ",";
    UnwrapOf("        full_subject: ", path, ",", line);
  }

  lemma {:induction false} ReadInitializer(kind: string, namespace: string, subject: string, path: string, tail: seq<string>)
    ensures ReadEntry(InitializerLines(kind, namespace, subject, path) + tail) == Some(Listed(kind, namespace, subject, path))
  {
    AssignKind(kind);
    AssignQuoted(namespace, subject);
    AssignPath(path);
  }

  lemma {:induction false} InitializerOpens(kind: string, namespace: string, subject: string, path: string, tail: seq<string>)
    ensures var lines := InitializerLines(kind, namespace, subject, path) + tail;
            |lines| >= 6 && lines[6..] == tail && lines[0] != "];"
  {
    var first := "    " + "ProtocolSubject" + " {";
    assert first[0] == ' ' && "];"[0] == ']';
  }

  lemma {:induction false} NextEntry(lines: seq<string>, entry: Listed, more: seq<string>, rest: seq<Listed>, tail: seq<string>)
    requires |lines| >= 6 && lines[6..] == more && lines[0] != "];"
    requires ReadEntry(lines) == Some(entry) && ReadEntries(more) == Parsed(rest, tail)
    ensures ReadEntries(lines) == Parsed([entry] + rest, tail)
  {
  }

  lemma {:induction false} ReadAllEntries(subjects: seq<Subject>, tail: seq<string>)
    ensures ReadEntries(AllEntries(subjects) + (["];"] + tail)) == Parsed(ListingOf(subjects), tail)
  {
    if subjects == [] {
      NoEntries(tail);
      assert AllEntries(subjects) + (["];"] + tail) == ["];"] + tail;
    } else {
      ReadAllEntries(subjects[1..], tail);
      ReadEntriesAgain(subjects[0], AllEntries(subjects[1..]), ListingOf(subjects[1..]), tail);
      ListingCons(subjects);
    }
  }

  lemma {:induction false} NoEntries(tail: seq<string>)
    ensures ReadEntries(["];"] + tail) == Parsed([], tail)
  {
    assert (["];"] + tail)[1..] == tail;
  }

  lemma {:induction false} ListingCons(subjects: seq<Subject>)
    requires subjects != []
    ensures ListingOf(subjects) == [ListedOf(subjects[0])] + ListingOf(subjects[1..])
  {
  }

  lemma {:induction false} ReadEntriesAgain(s: Subject, more: seq<string>, rest: seq<Listed>, tail: seq<string>)
    requires ReadEntries(more + (["];"] + tail)) == Parsed(rest, tail)
    ensures ReadEntries(EntryLines(s) + more + (["];"] + tail)) == Parsed([ListedOf(s)] + rest, tail)
  {
    ConcatAssoc(EntryLines(s), more, ["];"] + tail);
    ReadEntryLines(s, more + (["];"] + tail), rest, tail);
  }

  lemma {:induction false} ReadEntryLines(s: Subject, more: seq<string>, rest: seq<Listed>, tail: seq<string>)
    requires ReadEntries(more) == Parsed(rest, tail)
    ensures ReadEntries(EntryLines(s) + more) == Parsed([ListedOf(s)] + rest, tail)
  {
    var path := ModuleName(s.namespace) + "::" + ConstantName(s.subject);
    ReadInitializer(KindName(s.kind), s.namespace, s.subject, path, more);
    InitializerOpens(KindName(s.kind), s.namespace, s.subject, path, more);
    NextEntry(EntryLines(s) + more, ListedOf(s), more, rest, tail);
  }

  lemma {:induction false} SubjectsLineIsNoModule()
    ensures Unwrap("pub mod ", " {", SubjectsLine()).None?
  {
    var line := SubjectsLine();
    assert line[4] == 'c' && "pub mod "[4] == 'm';
    assert line[..8][4] == line[4];
  }

  lemma {:induction false} SectionByParts(types: PayloadTypes, subjects: seq<Subject>, header: seq<string>)
    requires header == HeaderLines()
    ensures SectionLines(types, subjects)
            == header + (AllModules(types, subjects, Namespaces(subjects))
                         + ([SubjectsLine()] + (AllEntries(subjects) + (["];"] + [END_MARKER]))))
  {
    var a, b := BlocksOf(ModuleBlocks(types, subjects), Namespaces(subjects)), BlocksOf(EntryBlocks(), subjects);
    FlattenParts(header, a, SubjectsLine(), b, "];", END_MARKER);
    ModulesAreFlattened(types, subjects, ModuleBlocks(types, subjects), Namespaces(subjects));
    EntriesAreFlattened(EntryBlocks(), subjects);
    PartsRegrouped(header, Flatten(a), SubjectsLine(), Flatten(b), "];", END_MARKER);
  }

  lemma {:induction false} PartsRegrouped(h: seq<string>, a: seq<string>, m: string, b: seq<string>, t: string, u: string)
    ensures h + (a + [m] + b + [t]) + [u] == h + (a + ([m] + (b + ([t] + [u]))))
  {
  }

  lemma {:induction false} ReadParts(header: seq<string>, a: seq<string>, modules: seq<ModuleText>,
                                     b: seq<string>, listing: seq<Listed>, lines: seq<string>)
    requires header == HeaderLines()
    requires ReadModules(a + ([SubjectsLine()] + b)) == Parsed(modules, [SubjectsLine()] + b)
    requires ReadEntries(b) == Parsed(listing, [END_MARKER])
    requires lines == header + (a + ([SubjectsLine()] + b))
    ensures ReadSection(lines) == Some(Section(modules, listing))
  {
    assert header <= lines && lines[|header|..] == a + ([SubjectsLine()] + b);
    assert ([SubjectsLine()] + b)[1..] == b;
  }

  /** Reading the generated section gives back the manifest: every subject once, with its own names and types. */
  lemma {:induction false} SectionReadsBack(types: PayloadTypes, subjects: seq<Subject>)
    ensures ReadSection(SectionLines(types, subjects)) == Some(SectionOf(types, subjects))
  {
    var header, order := HeaderLines(), Namespaces(subjects);
    var b := AllEntries(subjects) + (["];"] + [END_MARKER]);
    SectionByParts(types, subjects, header);
    SubjectsLineIsNoModule();
    ReadAllModules(types, subjects, order, [SubjectsLine()] + b);
    ReadAllEntries(subjects, [END_MARKER]);
    ReadParts(header, AllModules(types, subjects, order), ModulesOf(types, subjects, order), b, ListingOf(subjects),
              SectionLines(types, subjects));
  }

  /** The reader on text: lines that are each terminated. */
  function ReadText(text: string): Option<Section> {
    var lines := Split(text);
    if lines[|lines| - 1] != "" then None else ReadSection(lines[..|lines| - 1])
  }

  /** The same for the generated text, when no manifest string has a line break. */
  lemma {:induction false} TextReadsBack(types: PayloadTypes, subjects: seq<Subject>)
    requires IsPlain(types, subjects)
    ensures ReadText(Join(SectionLines(types, subjects)) + "\n") == Some(SectionOf(types, subjects))
  {
    var lines := SectionLines(types, subjects);
    GeneratedIsSection(types, subjects);
    SectionLinesArePlain(lines);
    TerminatedLines(lines);
    SectionReadsBack(types, subjects);
  }

  lemma {:induction false} TerminatedLines(lines: seq<string>)
    requires AreLines(lines) && lines != []
    ensures ReadText(Join(lines) + "\n") == ReadSection(lines)
  {
    JoinContinues(lines, [""]);
    SplitOfJoin(lines + [""]);
    assert (lines + [""])[..|lines|] == lines;
  }

  /**
   * In a collision-free manifest a module name and a constant name stand for one subject:
   * whichever binding of whichever module bears them is the binding of that subject.
   */
  lemma {:induction false} PathsAreUnambiguous(types: PayloadTypes, subjects: seq<Subject>, i: nat, j: nat, k: nat)
    requires CollisionFree(RUST_NAMING, subjects) && i < |subjects|
    requires var modules := SectionOf(types, subjects).modules;
             && j < |modules| && k < |modules[j].bindings|
             && modules[j].name == ModuleName(subjects[i].namespace)
             && modules[j].bindings[k].constant == ConstantName(subjects[i].subject)
    ensures SectionOf(types, subjects).modules[j].bindings[k] == BindingOf(types, subjects[i])
  {
    var namespace := Namespaces(subjects)[j];
    var group := InNamespace(subjects, namespace);
    var other := group[k];
    GroupsPartition(subjects, namespace);
    assert other in group && other in subjects && subjects[i] in subjects;
    SameNamesSameSubject(subjects, other, i);
  }

  lemma {:induction false} SameNamesSameSubject(subjects: seq<Subject>, other: Subject, i: nat)
    requires CollisionFree(RUST_NAMING, subjects) && i < |subjects| && other in subjects
    requires ModuleName(other.namespace) == ModuleName(subjects[i].namespace)
    requires ConstantName(other.subject) == ConstantName(subjects[i].subject)
    ensures other == subjects[i]
  {
    var p :| 0 <= p < |subjects| && subjects[p] == other;
    assert Collides(RUST_NAMING, subjects[p], subjects[i]) && Collides(RUST_NAMING, subjects[i], subjects[p]);
  }
}
