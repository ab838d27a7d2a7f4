/** The text of the generated Rust section, and regenerating a whole file. */
module RustSection {
  import opened Lines
  import opened RustSplice
  import opened RustSubjects

  // Fixed text is written as short literals: the verifier handles those best.

  function DeriveLine(indent: string): string {
    indent + "#[derive(Debug, Clone, " + "Copy, PartialEq, Eq)]"
  }

  function BindingsLine(): string {
    "//! Subject bindings " + "generated from `sdks/" + ("manifest/makaio-bus-" + "protocol.json`.")
  }

  function AllowLines(): seq<string> {
    [BindingsLine(), "#![allow(" + "non_snake_case" + ")]", ""]
  }

  function UseLine(path: string, items: string): string {
    "use " + path + ("::{" + items + "};")
  }

  function UseLines(): seq<string> {
    [UseLine("crate::bus", "EventSubject, " + "RequestSubject"),
     UseLine("serde", "Deserialize, Serialize"),
     UseLine("serde_json", "Map, Value"),
     ""]
  }

  function DocLine(start: string, end: string): string {
    "/// " + start + (end + ".")
  }

  /** The head of a documented public type. */
  function TypeHead(doc: string, kind: string, name: string): seq<string> {
    [doc, DeriveLine(""), "pub " + kind + (" " + name + " {")]
  }

  function StructLines(): seq<string> {
    TypeHead(DocLine("A manifest subject ", "exported into " + "the Rust SDK"), "struct", "ProtocolSubject")
  }

  function FieldLine(name: string, ty: string): string {
    "    pub " + name + (": " + ty + ",")
  }

  function FieldLines(): seq<string> {
    [FieldLine("kind", "SubjectKind"),
     FieldLine("namespace", "&'static str"),
     FieldLine("subject", "&'static str"),
     FieldLine("full_subject", "&'static str"),
     "}",
     ""]
  }

  function EnumLines(): seq<string> {
    TypeHead(DocLine("Runtime kind for ", "a protocol subject"), "enum", "SubjectKind")
  }

  function VariantLines(): seq<string> {
    ["    " + "Event" + ",", "    " + "Request" + ",", "}", ""]
  }

  function HeaderLines(): seq<string> {
    [START_MARKER] + AllowLines() + UseLines() + StructLines() + FieldLines() + EnumLines() + VariantLines()
  }

  function Uses(subjects: seq<Subject>): string {
    (if exists s :: s in subjects && s.kind == Event then "EventSubject, " else "") +
    (if exists s :: s in subjects && s.kind == Request then "RequestSubject, " else "") +
    "Value"
  }

  function DeclarationLines(constant: string, ty: string, fullSubject: string): seq<string> {
    ["    pub const " + constant + (": &str = \"" + fullSubject + "\";"),
     "",
     DeriveLine("    "),
     "    pub struct " + ty + ";"]
  }

  function EventLines(name: string, payload: string): seq<string> {
    ["    impl EventSubject" + " for " + (name + " {"),
     "        type Payload = " + payload + ";"]
  }

  function RequestLines(name: string, request: string, response: string): seq<string> {
    ["    impl RequestSubject" + " for " + (name + " {"),
     "        type Request = " + request + ";",
     "        type Response = " + response + ";"]
  }

  function ImplementationLines(types: PayloadTypes, s: Subject): seq<string> {
    if s.kind == Event then
      EventLines(TypeName(s.subject), PayloadType(types, s.fullSubject, EventSlot))
    else
      RequestLines(TypeName(s.subject), PayloadType(types, s.fullSubject, RequestSlot),
                   PayloadType(types, s.fullSubject, ResponseSlot))
  }

  function ClosingLines(constant: string): seq<string> {
    ["        const SUBJECT: " + "&'static str = " + (constant + ";"),
     "    }",
     ""]
  }

  function SubjectLines(types: PayloadTypes, s: Subject): seq<string> {
    DeclarationLines(ConstantName(s.subject), TypeName(s.subject), s.fullSubject)
    + ImplementationLines(types, s)
    + ClosingLines(ConstantName(s.subject))
  }

  /** The lines of all items, one item after the other. */
  function RenderAll<T>(render: T -> seq<string>, items: seq<T>): seq<string> {
    if items == [] then [] else RenderAll(render, items[..|items| - 1]) + render(items[|items| - 1])
  }

  function DropLast(lines: seq<string>): seq<string>
    requires lines != []
  {
    lines[..|lines| - 1]
  }

  function OpeningLines(name: string, uses: string): seq<string> {
    ["pub mod " + name + " {", "    use super::{" + uses + "};", ""]
  }

  /** The lines of one `pub mod` block; the blank line before the closing brace is dropped. */
  function ModuleLines(types: PayloadTypes, namespace: string, subjects: seq<Subject>): (r: seq<string>)
    ensures r != []
  {
    var open := OpeningLines(ModuleName(namespace), Uses(subjects));
    DropLast(open + RenderAll(s => SubjectLines(types, s), subjects)) + ["}"]
  }

  function AssignLine(field: string, value: string): string {
    "        " + field + (": " + value + ",")
  }

  function Quoted(s: string): string {
    "\"" + s + "\""
  }

  function InitializerLines(kind: string, namespace: string, subject: string, path: string): seq<string> {
    ["    " + "ProtocolSubject" + " {",
     AssignLine("kind", "SubjectKind::" + kind),
     AssignLine("namespace", Quoted(namespace)),
     AssignLine("subject", Quoted(subject)),
     AssignLine("full_subject", path),
     "    " + "}" + ","]
  }

  function EntryLines(s: Subject): seq<string> {
    InitializerLines(if s.kind == Event then "Event" else "Request", s.namespace, s.subject,
                     ModuleName(s.namespace) + "::" + ConstantName(s.subject))
  }

  /** One block a line, in the shape the generator collects them. */
  function Singles(lines: seq<string>): (r: seq<seq<string>>)
    ensures |r| == |lines|
    ensures forall i | 0 <= i < |r| :: r[i] == [lines[i]]
  {
    seq(|lines|, i requires 0 <= i < |lines| => [lines[i]])
  }

  /** The blocks of all items, one item after the other. */
  function BlocksOf<T>(render: T -> seq<seq<string>>, items: seq<T>): seq<seq<string>> {
    if items == [] then [] else BlocksOf(render, items[..|items| - 1]) + render(items[|items| - 1])
  }

  function ModuleBlocks(types: PayloadTypes, subjects: seq<Subject>): string -> seq<seq<string>> {
    namespace => [ModuleLines(types, namespace, InNamespace(subjects, namespace)), [""]]
  }

  function EntryBlocks(): Subject -> seq<seq<string>> {
    s => [EntryLines(s)]
  }

  function SubjectsLine(): string {
    "pub const SUBJECTS: " + "&[ProtocolSubject] " + "= &["
  }

  function InnerBlocks(types: PayloadTypes, subjects: seq<Subject>): seq<seq<string>> {
    BlocksOf(ModuleBlocks(types, subjects), Namespaces(subjects)) +
    [[SubjectsLine()]] + BlocksOf(EntryBlocks(), subjects) + [["];"], [END_MARKER]]
  }

  function SectionBlocks(types: PayloadTypes, subjects: seq<Subject>): seq<seq<string>> {
    Singles(HeaderLines()) + InnerBlocks(types, subjects)
  }

  /** The generated section, line by line. */
  function SectionLines(types: PayloadTypes, subjects: seq<Subject>): seq<string> {
    Flatten(SectionBlocks(types, subjects))
  }

  // ----- the generator ----------------------------------------------------------

  /** Pushing the lines of each item in turn. */
  method PushAll<T>(start: seq<string>, render: T -> seq<string>, items: seq<T>) returns (lines: seq<string>)
    ensures lines == start + RenderAll(render, items)
  {
    lines := start;
    for i := 0 to |items|
      invariant lines == start + RenderAll(render, items[..i])
    {
      assert items[..i + 1][..i] == items[..i];
      lines := lines + render(items[i]);
    }
    assert items[..|items|] == items;
  }

  predicate EndsBlank(lines: seq<string>) {
    lines != [] && lines[|lines| - 1] == ""
  }

  lemma {:induction false} RenderEndsBlank<T>(start: seq<string>, render: T -> seq<string>, items: seq<T>)
    requires EndsBlank(start) && forall t | t in items :: EndsBlank(render(t))
    ensures EndsBlank(start + RenderAll(render, items))
  {
    if items != [] {
      assert EndsBlank(render(items[|items| - 1]));
    }
  }

  lemma {:induction false} SubjectEndsBlank(types: PayloadTypes, s: Subject)
    ensures EndsBlank(SubjectLines(types, s))
  {
  }

  /** `generateNamespaceModule`. */
  method GenerateNamespaceModule(types: PayloadTypes, namespace: string, subjects: seq<Subject>) returns (block: string)
    ensures block == Join(ModuleLines(types, namespace, subjects))
  {
    var open := OpeningLines(ModuleName(namespace), Uses(subjects));
    var render := s => SubjectLines(types, s);
    var lines := PushAll(open, render, subjects);
    forall s | s in subjects
      ensures EndsBlank(render(s))
    {
      SubjectEndsBlank(types, s);
    }
    RenderEndsBlank(open, render, subjects);
    if lines[|lines| - 1] == "" {
      lines := lines[..|lines| - 1];
    }
    block := Join(lines + ["}"]);
  }

  lemma {:induction false} JoinSingles(lines: seq<string>)
    ensures JoinEach(Singles(lines)) == lines
    ensures Flatten(Singles(lines)) == lines
  {
    if lines != [] {
      JoinSingles(lines[1..]);
      assert Singles(lines)[1..] == Singles(lines[1..]);
    }
  }

  lemma {:induction false} PushedBlocks<T>(lines: seq<string>, start: seq<string>, render: T -> seq<seq<string>>, items: seq<T>, i: nat)
    requires i < |items|
    requires lines == start + JoinEach(BlocksOf(render, items[..i]))
    ensures lines + JoinEach(render(items[i])) == start + JoinEach(BlocksOf(render, items[..i + 1]))
  {
    BlocksSnoc(render, items, i);
    FlattenAppend(BlocksOf(render, items[..i]), render(items[i]));
  }

  lemma {:induction false} BlocksSnoc<T>(render: T -> seq<seq<string>>, items: seq<T>, i: nat)
    requires i < |items|
    ensures BlocksOf(render, items[..i + 1]) == BlocksOf(render, items[..i]) + render(items[i])
  {
    assert items[..i + 1][..i] == items[..i];
  }

  /** The two entries one namespace contributes. */
  method ModulePair(types: PayloadTypes, subjects: seq<Subject>, namespace: string, group: seq<Subject>)
    returns (pair: seq<string>)
    requires group == InNamespace(subjects, namespace)
    ensures pair == JoinEach(ModuleBlocks(types, subjects)(namespace))
  {
    var block := GenerateNamespaceModule(types, namespace, group);
    PairJoined(ModuleLines(types, namespace, group));
    pair := [block, ""];
  }

  method PushModule(types: PayloadTypes, subjects: seq<Subject>, start: seq<string>, lines: seq<string>,
                    order: seq<string>, i: nat, group: seq<Subject>, ghost render: string -> seq<seq<string>>)
    returns (more: seq<string>)
    requires i < |order| && group == InNamespace(subjects, order[i])
    requires render == ModuleBlocks(types, subjects)
    requires lines == start + JoinEach(BlocksOf(render, order[..i]))
    ensures more == start + JoinEach(BlocksOf(render, order[..i + 1]))
  {
    PushedBlocks(lines, start, render, order, i);
    var pair := ModulePair(types, subjects, order[i], group);
    more := lines + pair;
  }

  method PushModules(types: PayloadTypes, subjects: seq<Subject>, start: seq<string>) returns (lines: seq<string>)
    ensures lines == start + JoinEach(BlocksOf(ModuleBlocks(types, subjects), Namespaces(subjects)))
  {
    var order, groups := GroupByNamespace(subjects);
    lines := PushGroups(types, subjects, start, order, groups, ModuleBlocks(types, subjects));
  }

  method PushGroups(types: PayloadTypes, subjects: seq<Subject>, start: seq<string>,
                    order: seq<string>, groups: map<string, seq<Subject>>, ghost render: string -> seq<seq<string>>)
    returns (lines: seq<string>)
    requires render == ModuleBlocks(types, subjects)
    requires forall i | 0 <= i < |order| :: order[i] in groups && groups[order[i]] == InNamespace(subjects, order[i])
    ensures lines == start + JoinEach(BlocksOf(render, order))
  {
    lines := start;
    NoBlocks(start, render, order[..0]);
    for i := 0 to |order|
      invariant lines == start + JoinEach(BlocksOf(render, order[..i]))
    {
      lines := PushModule(types, subjects, start, lines, order, i, groups[order[i]], render);
    }
    assert order[..|order|] == order;
  }

  lemma {:induction false} NoBlocks<T>(start: seq<string>, render: T -> seq<seq<string>>, items: seq<T>)
    requires items == []
    ensures start + JoinEach(BlocksOf(render, items)) == start
  {
  }

  lemma {:induction false} PairJoined(block: seq<string>)
    ensures JoinEach([block, [""]]) == [Join(block), ""]
  {
    assert [block, [""]][1..] == [[""]];
    assert JoinEach([[""]]) == [""];
  }

  method PushEntries(subjects: seq<Subject>, start: seq<string>) returns (lines: seq<string>)
    ensures lines == start + JoinEach(BlocksOf(EntryBlocks(), subjects))
  {
    lines := start;
    for i := 0 to |subjects|
      invariant lines == start + JoinEach(BlocksOf(EntryBlocks(), subjects[..i]))
    {
      PushedBlocks(lines, start, EntryBlocks(), subjects, i);
      lines := lines + [Join(EntryLines(subjects[i]))];
    }
    assert subjects[..|subjects|] == subjects;
  }

  /** `generateRustSubjectsSection`: the section's lines, each terminated, or the collision found. */
  method GenerateRustSubjectsSection(types: PayloadTypes, subjects: seq<Subject>) returns (r: Result<string, Collision>)
    ensures r.Ok? <==> CollisionFree(RUST_NAMING, subjects)
    ensures r.Ok? ==> r.value == Join(SectionLines(types, subjects)) + "\n"
  {
    var outcome := AssertNoIdentifierCollisions(RUST_NAMING, subjects);
    if outcome.Fail? {
      return Err(outcome.collision);
    }
    var header := HeaderLines();
    var lines := PushModules(types, subjects, header);
    lines := lines + [SubjectsLine()];
    lines := PushEntries(subjects, lines);
    lines := lines + ["];"] + [END_MARKER];
    SectionJoined(types, subjects, header);
    r := Ok(Join(lines) + "\n");
  }

  ghost predicate AllBlocks(p: seq<string> -> bool, blocks: seq<seq<string>>) {
    forall b | b in blocks :: p(b)
  }

  lemma {:induction false} BlocksHave<T>(p: seq<string> -> bool, render: T -> seq<seq<string>>, items: seq<T>)
    requires forall t | t in items :: AllBlocks(p, render(t))
    ensures AllBlocks(p, BlocksOf(render, items))
  {
    if items != [] {
      BlocksHave(p, render, items[..|items| - 1]);
      assert AllBlocks(p, render(items[|items| - 1]));
    }
  }

  lemma {:induction false} AppendBlocks(p: seq<string> -> bool, a: seq<seq<string>>, b: seq<seq<string>>)
    requires AllBlocks(p, a) && AllBlocks(p, b)
    ensures AllBlocks(p, a + b)
  {
  }

  lemma {:induction false} JoinInnerParts(a: seq<seq<string>>, m: seq<seq<string>>, b: seq<seq<string>>, u: seq<seq<string>>)
    ensures JoinEach(a + m + b + u) == JoinEach(a) + JoinEach(m) + JoinEach(b) + JoinEach(u)
  {
    FlattenAppend(a + m + b, u);
    FlattenAppend(a + m, b);
    FlattenAppend(a, m);
  }

  lemma {:induction false} JoinEachParts(header: seq<string>, a: seq<seq<string>>, m: string, b: seq<seq<string>>, t: string, u: string)
    ensures JoinEach(Singles(header) + (a + Singles([m]) + b + Singles([t, u])))
            == header + JoinEach(a) + [m] + JoinEach(b) + [t] + [u]
  {
    JoinSingles(header);
    JoinSingles([m]);
    JoinSingles([t, u]);
    FlattenAppend(Singles(header), a + Singles([m]) + b + Singles([t, u]));
    JoinInnerParts(a, Singles([m]), b, Singles([t, u]));
    Regrouped(header, JoinEach(a), [m], JoinEach(b), t, u);
  }

  lemma {:induction false} Regrouped(header: seq<string>, a: seq<string>, m: seq<string>, b: seq<string>, t: string, u: string)
    ensures header + (a + m + b + [t, u]) == header + a + m + b + [t] + [u]
  {
  }

  /** Joining what the generator pushed is joining the lines of the section. */
  lemma {:induction false} AssembledLines(header: seq<string>, a: seq<seq<string>>, m: string, b: seq<seq<string>>, t: string, u: string)
    requires AllBlocks(x => x != [], a) && AllBlocks(x => x != [], b)
    ensures Join(Flatten(Singles(header) + (a + [[m]] + b + [[t], [u]])))
            == Join(header + JoinEach(a) + [m] + JoinEach(b) + [t] + [u])
  {
    var nonEmpty := (x: seq<string>) => x != [];
    var blocks := Singles(header) + (a + Singles([m]) + b + Singles([t, u]));
    AppendBlocks(nonEmpty, a, Singles([m]));
    AppendBlocks(nonEmpty, a + Singles([m]), b);
    AppendBlocks(nonEmpty, a + Singles([m]) + b, Singles([t, u]));
    AppendBlocks(nonEmpty, Singles(header), a + Singles([m]) + b + Singles([t, u]));
    assert forall i | 0 <= i < |blocks| :: nonEmpty(blocks[i]);
    JoinOfJoins(blocks);
    JoinEachParts(header, a, m, b, t, u);
    assert Singles([m]) == [[m]] && Singles([t, u]) == [[t], [u]];
  }

  lemma {:induction false} BlocksAreNonEmpty(types: PayloadTypes, subjects: seq<Subject>)
    ensures AllBlocks(x => x != [], BlocksOf(ModuleBlocks(types, subjects), Namespaces(subjects)))
    ensures AllBlocks(x => x != [], BlocksOf(EntryBlocks(), subjects))
  {
    BlocksHave(x => x != [], ModuleBlocks(types, subjects), Namespaces(subjects));
    BlocksHave(x => x != [], EntryBlocks(), subjects);
  }

  lemma {:induction false} SectionJoined(types: PayloadTypes, subjects: seq<Subject>, header: seq<string>)
    requires header == HeaderLines()
    ensures Join(SectionLines(types, subjects))
            == Join(header + JoinEach(BlocksOf(ModuleBlocks(types, subjects), Namespaces(subjects)))
                    + [SubjectsLine()]
                    + JoinEach(BlocksOf(EntryBlocks(), subjects)) + ["];"] + [END_MARKER])
  {
    BlocksAreNonEmpty(types, subjects);
    AssembledLines(header, BlocksOf(ModuleBlocks(types, subjects), Namespaces(subjects)),
                   SubjectsLine(), BlocksOf(EntryBlocks(), subjects), "];", END_MARKER);
  }

  // ----- the section is a section ---------------------------------------------------

  /** No manifest or payload-type string contains a line feed. */
  predicate IsPlain(types: PayloadTypes, subjects: seq<Subject>) {
    && (forall s | s in subjects :: IsLine(s.namespace) && IsLine(s.subject) && IsLine(s.fullSubject))
    && (forall k | k in types :: IsLine(types[k]))
  }

  predicate AllInert(lines: seq<string>) {
    forall i | 0 <= i < |lines| :: Inert(lines[i])
  }

  lemma {:induction false} NamesAreLines(s: string, start: bool)
    requires IsLine(s)
    ensures IsLine(ScreamingSnake(s)) && IsLine(Snake(s)) && IsLine(PascalParts(s, start))
    decreases s
  {
    if s != "" {
      NamesAreLines(s[1..], true);
      NamesAreLines(s[1..], false);
    }
  }

  lemma {:induction false} IdentifiersAreLines(s: string)
    requires IsLine(s)
    ensures IsLine(ConstantName(s)) && IsLine(TypeName(s)) && IsLine(ModuleName(s))
  {
    NamesAreLines(s, true);
    NamesAreLines(ConstantName(s), true);
  }

  lemma {:induction false} InertLine(prefix: string, middle: string, suffix: string)
    requires IsLine(prefix) && IsLine(middle) && IsLine(suffix)
    requires |prefix| >= 3 && (prefix[0] != '/' || prefix[2] != ' ')
    requires suffix != "" && !EndsWithCr(suffix)
    ensures Inert(prefix + middle + suffix)
  {
    var line := prefix + middle + suffix;
    assert line[|line| - 1] == suffix[|suffix| - 1];
    assert line[..3][0] == prefix[0] && line[..3][2] == prefix[2];
  }

  lemma {:induction false} DeriveLineInert()
    ensures Inert(DeriveLine("")) && Inert(DeriveLine("    "))
  {
    var head, tail := "#[derive(Debug, Clone, ", "Copy, PartialEq, Eq)]";
    InertLine("    ", head, tail);
    InertLine(head, "", tail);
    assert head + "" + tail == DeriveLine("");
  }

  lemma {:induction false} BindingsTailIsLine()
    ensures IsLine("manifest/makaio-bus-" + "protocol.json`.")
  {
  }

  lemma {:induction false} BindingsLineInert()
    ensures Inert(BindingsLine())
  {
    BindingsTailIsLine();
    InertLine("//! Subject bindings ", "generated from `sdks/", "manifest/makaio-bus-" + "protocol.json`.");
  }

  lemma {:induction false} AllowLinesInert()
    ensures AllInert(AllowLines())
  {
    BindingsLineInert();
    InertLine("#![allow(", "non_snake_case", ")]");
  }

  lemma {:induction false} UseLineInert(path: string, items: string)
    requires IsLine(path) && IsLine(items)
    ensures Inert(UseLine(path, items))
  {
    InertLine("use ", path, "::{" + items + "};");
  }

  lemma {:induction false} UseLinesInert()
    ensures AllInert(UseLines())
  {
    BusLineInert();
    UseLineInert("serde", "Deserialize, Serialize");
    UseLineInert("serde_json", "Map, Value");
  }

  lemma {:induction false} BusLineInert()
    ensures Inert(UseLine("crate::bus", "EventSubject, " + "RequestSubject"))
  {
    UseLineInert("crate::bus", "EventSubject, " + "RequestSubject");
  }

  lemma {:induction false} DocLineInert(start: string, end: string)
    requires IsLine(start) && IsLine(end)
    ensures Inert(DocLine(start, end))
  {
    InertLine("/// ", start, end + ".");
  }

  lemma {:induction false} TypeHeadInert(doc: string, kind: string, name: string)
    requires Inert(doc) && IsLine(kind) && IsLine(name)
    ensures AllInert(TypeHead(doc, kind, name))
  {
    DeriveLineInert();
    InertLine("pub ", kind, " " + name + " {");
  }

  lemma {:induction false} StructLinesInert()
    ensures AllInert(StructLines())
  {
    DocLineInert("A manifest subject ", "exported into " + "the Rust SDK");
    TypeHeadInert(DocLine("A manifest subject ", "exported into " + "the Rust SDK"), "struct", "ProtocolSubject");
  }

  lemma {:induction false} FieldLineInert(name: string, ty: string)
    requires IsLine(name) && IsLine(ty)
    ensures Inert(FieldLine(name, ty))
  {
    InertLine("    pub ", name, ": " + ty + ",");
  }

  lemma {:induction false} FieldLinesInert()
    ensures AllInert(FieldLines())
  {
    FieldLineInert("kind", "SubjectKind");
    FieldLineInert("namespace", "&'static str");
    FieldLineInert("subject", "&'static str");
    FieldLineInert("full_subject", "&'static str");
  }

  lemma {:induction false} EnumLinesInert()
    ensures AllInert(EnumLines())
  {
    DocLineInert("Runtime kind for ", "a protocol subject");
    TypeHeadInert(DocLine("Runtime kind for ", "a protocol subject"), "enum", "SubjectKind");
  }

  lemma {:induction false} VariantLinesInert()
    ensures AllInert(VariantLines())
  {
    InertLine("    ", "Event", ",");
    InertLine("    ", "Request", ",");
  }

  lemma {:induction false} AppendInert(a: seq<string>, b: seq<string>)
    requires AllInert(a) && AllInert(b)
    ensures AllInert(a + b)
  {
  }

  lemma {:induction false} HeaderIsSectionHead(header: seq<string>)
    requires header == HeaderLines()
    ensures header != [] && header[0] == START_MARKER && AllInert(header[1..])
  {
    AllowLinesInert();
    UseLinesInert();
    StructLinesInert();
    FieldLinesInert();
    EnumLinesInert();
    VariantLinesInert();
    HeaderAssembly(AllowLines(), UseLines(), StructLines(), FieldLines(), EnumLines(), VariantLines());
  }

  lemma {:induction false} HeaderAssembly(a: seq<string>, b: seq<string>, c: seq<string>, d: seq<string>, e: seq<string>,
                                          f: seq<string>)
    requires AllInert(a) && AllInert(b) && AllInert(c) && AllInert(d) && AllInert(e) && AllInert(f)
    ensures AllInert(([START_MARKER] + a + b + c + d + e + f)[1..])
  {
    assert ([START_MARKER] + a + b + c + d + e + f)[1..] == a + b + c + d + e + f;
    AppendInert(a, b);
    AppendInert(a + b, c);
    AppendInert(a + b + c, d);
    AppendInert(a + b + c + d, e);
    AppendInert(a + b + c + d + e, f);
  }

  lemma {:induction false} DeclarationLinesInert(constant: string, ty: string, fullSubject: string)
    requires IsLine(constant) && IsLine(ty) && IsLine(fullSubject)
    ensures AllInert(DeclarationLines(constant, ty, fullSubject))
  {
    InertLine("    pub const ", constant, ": &str = \"" + fullSubject + "\";");
    DeriveLineInert();
    InertLine("    pub struct ", ty, ";");
  }

  lemma {:induction false} PayloadTypeIsLine(types: PayloadTypes, fullSubject: string, slot: Slot)
    requires forall k | k in types :: IsLine(types[k])
    ensures IsLine(PayloadType(types, fullSubject, slot))
  {
  }

  lemma {:induction false} EventLinesInert(name: string, payload: string)
    requires IsLine(name) && IsLine(payload)
    ensures AllInert(EventLines(name, payload))
  {
    InertLine("    impl EventSubject", " for ", name + " {");
    InertLine("        type Payload = ", payload, ";");
  }

  lemma {:induction false} RequestLinesInert(name: string, request: string, response: string)
    requires IsLine(name) && IsLine(request) && IsLine(response)
    ensures AllInert(RequestLines(name, request, response))
  {
    InertLine("    impl RequestSubject", " for ", name + " {");
    InertLine("        type Request = ", request, ";");
    InertLine("        type Response = ", response, ";");
  }

  lemma {:induction false} ImplementationLinesInert(types: PayloadTypes, s: Subject)
    requires IsLine(s.subject) && forall k | k in types :: IsLine(types[k])
    ensures AllInert(ImplementationLines(types, s))
  {
    IdentifiersAreLines(s.subject);
    PayloadTypeIsLine(types, s.fullSubject, EventSlot);
    PayloadTypeIsLine(types, s.fullSubject, RequestSlot);
    PayloadTypeIsLine(types, s.fullSubject, ResponseSlot);
    if s.kind == Event {
      EventLinesInert(TypeName(s.subject), PayloadType(types, s.fullSubject, EventSlot));
    } else {
      RequestLinesInert(TypeName(s.subject), PayloadType(types, s.fullSubject, RequestSlot),
                        PayloadType(types, s.fullSubject, ResponseSlot));
    }
  }

  lemma {:induction false} ClosingLinesInert(constant: string)
    requires IsLine(constant)
    ensures AllInert(ClosingLines(constant))
  {
    InertLine("        const SUBJECT: ", "&'static str = ", constant + ";");
  }

  lemma {:induction false} SubjectLinesInert(types: PayloadTypes, s: Subject)
    requires IsPlain(types, [s])
    ensures AllInert(SubjectLines(types, s))
  {
    assert s in [s];
    var constant, ty := ConstantName(s.subject), TypeName(s.subject);
    IdentifiersAreLines(s.subject);
    DeclarationLinesInert(constant, ty, s.fullSubject);
    ImplementationLinesInert(types, s);
    ClosingLinesInert(constant);
    AppendInert(DeclarationLines(constant, ty, s.fullSubject), ImplementationLines(types, s));
    AppendInert(DeclarationLines(constant, ty, s.fullSubject) + ImplementationLines(types, s), ClosingLines(constant));
  }

  lemma {:induction false} InitializerLinesInert(kind: string, namespace: string, subject: string, path: string)
    requires IsLine(kind) && IsLine(namespace) && IsLine(subject) && IsLine(path)
    ensures AllInert(InitializerLines(kind, namespace, subject, path))
  {
    InertLine("    ", "ProtocolSubject", " {");
    AssignLineInert("kind", "SubjectKind::" + kind);
    InertLine("    ", "}", ",");
    QuotedLinesInert(namespace, subject);
    AssignLineInert("full_subject", path);
  }

  lemma {:induction false} QuotedLinesInert(namespace: string, subject: string)
    requires IsLine(namespace) && IsLine(subject)
    ensures Inert(AssignLine("namespace", Quoted(namespace))) && Inert(AssignLine("subject", Quoted(subject)))
  {
    AssignLineInert("namespace", Quoted(namespace));
    AssignLineInert("subject", Quoted(subject));
  }

  lemma {:induction false} AssignLineInert(field: string, value: string)
    requires IsLine(field) && IsLine(value)
    ensures Inert(AssignLine(field, value))
  {
    InertLine("        ", field, ": " + value + ",");
  }

  lemma {:induction false} EntryLinesInert(s: Subject)
    requires IsLine(s.subject) && IsLine(s.namespace)
    ensures AllInert(EntryLines(s))
  {
    IdentifiersAreLines(s.subject);
    IdentifiersAreLines(s.namespace);
    PathIsLine(ModuleName(s.namespace), ConstantName(s.subject));
    InitializerLinesInert(if s.kind == Event then "Event" else "Request", s.namespace, s.subject,
                          ModuleName(s.namespace) + "::" + ConstantName(s.subject));
  }

  lemma {:induction false} PathIsLine(name: string, constant: string)
    requires IsLine(name) && IsLine(constant)
    ensures IsLine(name + "::" + constant)
  {
  }

  lemma {:induction false} RenderInert<T>(render: T -> seq<string>, items: seq<T>)
    requires forall t | t in items :: AllInert(render(t))
    ensures AllInert(RenderAll(render, items))
  {
    if items != [] {
      RenderInert(render, items[..|items| - 1]);
      AppendInert(RenderAll(render, items[..|items| - 1]), render(items[|items| - 1]));
    }
  }

  lemma {:induction false} OpeningLinesInert(name: string, uses: string)
    requires IsLine(name) && IsLine(uses)
    ensures AllInert(OpeningLines(name, uses))
  {
    InertLine("pub mod ", name, " {");
    InertLine("    use super::{", uses, "};");
  }

  lemma {:induction false} ModuleLinesInert(types: PayloadTypes, namespace: string, subjects: seq<Subject>)
    requires IsLine(namespace) && IsPlain(types, subjects)
    ensures AllInert(ModuleLines(types, namespace, subjects))
  {
    var render := s => SubjectLines(types, s);
    IdentifiersAreLines(namespace);
    UsesIsLine(subjects);
    forall s | s in subjects
      ensures AllInert(render(s))
    {
      SubjectLinesInert(types, s);
    }
    ModuleShapeInert(render, ModuleName(namespace), Uses(subjects), subjects);
  }

  lemma {:induction false} UsesIsLine(subjects: seq<Subject>)
    ensures IsLine(Uses(subjects))
  {
  }

  lemma {:induction false} ModuleShapeInert(render: Subject -> seq<string>, name: string, uses: string, subjects: seq<Subject>)
    requires IsLine(name) && IsLine(uses) && forall s | s in subjects :: AllInert(render(s))
    ensures AllInert(DropLast(OpeningLines(name, uses) + RenderAll(render, subjects)) + ["}"])
  {
    OpeningLinesInert(name, uses);
    RenderInert(render, subjects);
    AppendInert(OpeningLines(name, uses), RenderAll(render, subjects));
    ClosedInert(OpeningLines(name, uses) + RenderAll(render, subjects));
  }

  lemma {:induction false} ClosedInert(lines: seq<string>)
    requires AllInert(lines) && lines != []
    ensures AllInert(DropLast(lines) + ["}"])
  {
  }

  lemma {:induction false} FlattenInert(blocks: seq<seq<string>>)
    requires forall i | 0 <= i < |blocks| :: AllInert(blocks[i])
    ensures AllInert(Flatten(blocks))
  {
    if blocks != [] {
      FlattenInert(blocks[1..]);
      AppendInert(blocks[0], Flatten(blocks[1..]));
    }
  }

  lemma {:induction false} BlocksInert<T>(render: T -> seq<seq<string>>, items: seq<T>)
    requires forall t, i | t in items && 0 <= i < |render(t)| :: AllInert(render(t)[i])
    ensures AllInert(Flatten(BlocksOf(render, items)))
  {
    if items != [] {
      var front, last := items[..|items| - 1], items[|items| - 1];
      BlocksInert(render, front);
      FlattenInert(render(last));
      FlattenAppend(BlocksOf(render, front), render(last));
      AppendInert(Flatten(BlocksOf(render, front)), Flatten(render(last)));
    }
  }

  lemma {:induction false} FlattenParts(header: seq<string>, a: seq<seq<string>>, m: string, b: seq<seq<string>>, t: string, u: string)
    ensures Flatten(Singles(header) + (a + [[m]] + b + [[t], [u]]))
            == header + (Flatten(a) + [m] + Flatten(b) + [t]) + [u]
  {
    JoinSingles(header);
    JoinSingles([m]);
    JoinSingles([t, u]);
    assert Singles([m]) == [[m]] && Singles([t, u]) == [[t], [u]];
    FlattenAppend(Singles(header), a + [[m]] + b + [[t], [u]]);
    FlattenAppend(a + [[m]] + b, [[t], [u]]);
    FlattenAppend(a + [[m]], b);
    FlattenAppend(a, [[m]]);
  }

  lemma {:induction false} SectionShape(header: seq<string>, inner: seq<string>)
    requires header != [] && header[0] == START_MARKER && AllInert(header[1..]) && AllInert(inner)
    ensures IsSection(header + inner + [END_MARKER])
  {
    var all := header + inner + [END_MARKER];
    forall i | 0 < i < |all| - 1
      ensures Inert(all[i])
    {
      if i < |header| {
        assert all[i] == header[1..][i - 1];
      } else {
        assert all[i] == inner[i - |header|];
      }
    }
  }

  lemma {:induction false} InnerInert(a: seq<string>, b: seq<string>)
    requires AllInert(a) && AllInert(b)
    ensures AllInert(a + [SubjectsLine()] + b + ["];"])
  {
    InertLine("pub const SUBJECTS: ", "&[ProtocolSubject] ", "= &[");
    AppendInert(a, [SubjectsLine()]);
    AppendInert(a + [SubjectsLine()], b);
    AppendInert(a + [SubjectsLine()] + b, ["];"]);
  }

  lemma {:induction false} GroupIsPlain(types: PayloadTypes, subjects: seq<Subject>, n: string)
    requires IsPlain(types, subjects) && n in Namespaces(subjects)
    ensures IsLine(n) && IsPlain(types, InNamespace(subjects, n))
  {
    GroupsPartition(subjects, n);
    var group := InNamespace(subjects, n);
    assert group[0] in group;
  }

  lemma {:induction false} ModulePairInert(types: PayloadTypes, n: string, group: seq<Subject>)
    requires IsLine(n) && IsPlain(types, group)
    ensures forall i | 0 <= i < 2 :: AllInert([ModuleLines(types, n, group), [""]][i])
  {
    ModuleLinesInert(types, n, group);
    PairInert(ModuleLines(types, n, group));
  }

  lemma {:induction false} PairInert(block: seq<string>)
    requires AllInert(block)
    ensures forall i | 0 <= i < 2 :: AllInert([block, [""]][i])
  {
  }

  lemma {:induction false} ModuleBlocksInert(types: PayloadTypes, subjects: seq<Subject>)
    requires IsPlain(types, subjects)
    ensures AllInert(Flatten(BlocksOf(ModuleBlocks(types, subjects), Namespaces(subjects))))
  {
    var render := ModuleBlocks(types, subjects);
    forall n, i | n in Namespaces(subjects) && 0 <= i < |render(n)|
      ensures AllInert(render(n)[i])
    {
      GroupIsPlain(types, subjects, n);
      ModulePairInert(types, n, InNamespace(subjects, n));
    }
    BlocksInert(render, Namespaces(subjects));
  }

  lemma {:induction false} EntryBlocksInert(types: PayloadTypes, subjects: seq<Subject>)
    requires IsPlain(types, subjects)
    ensures AllInert(Flatten(BlocksOf(EntryBlocks(), subjects)))
  {
    forall s, i | s in subjects && 0 <= i < |EntryBlocks()(s)|
      ensures AllInert(EntryBlocks()(s)[i])
    {
      EntryLinesInert(s);
    }
    BlocksInert(EntryBlocks(), subjects);
  }

  /** The generated lines carry the two markers at their ends and nowhere else. */
  lemma {:induction false} GeneratedIsSection(types: PayloadTypes, subjects: seq<Subject>)
    requires IsPlain(types, subjects)
    ensures IsSection(SectionLines(types, subjects))
  {
    var header := HeaderLines();
    var a := BlocksOf(ModuleBlocks(types, subjects), Namespaces(subjects));
    var b := BlocksOf(EntryBlocks(), subjects);
    FlattenParts(header, a, SubjectsLine(), b, "];", END_MARKER);
    HeaderIsSectionHead(header);
    ModuleBlocksInert(types, subjects);
    EntryBlocksInert(types, subjects);
    InnerInert(Flatten(a), Flatten(b));
    SectionShape(header, Flatten(a) + [SubjectsLine()] + Flatten(b) + ["];"]);
  }

  // ----- regenerating the file -------------------------------------------------------

  datatype GenerateError = BadFile(splice: SpliceError) | BadManifest

  /** `generateRustSubjectsFile`: the file is read before the manifest is checked. */
  function GenerateFile(types: PayloadTypes, subjects: seq<Subject>, existing: string): Result<string, GenerateError> {
    FileWith(SectionLines(types, subjects), CollisionFree(RUST_NAMING, subjects), existing)
  }

  /** The extraction fails before the manifest is looked at. */
  function FileWith(section: seq<string>, valid: bool, existing: string): Result<string, GenerateError> {
    match Splice(section, existing)
    case Err(e) => Err(BadFile(e))
    case Ok(text) => if valid then Ok(text) else Err(BadManifest)
  }

  lemma {:induction false} FileForgets(section: seq<string>, next: seq<string>, valid: bool, nextValid: bool, existing: string)
    requires IsSection(section) && IsSection(next) && FileWith(section, valid, existing).Ok?
    ensures FileWith(next, nextValid, FileWith(section, valid, existing).value) == FileWith(next, nextValid, existing)
  {
    SpliceIsStable(section, next, existing);
  }

  /**
   * Regeneration keeps everything after the end marker, up to line-ending
   * normalisation, and keeps the line-ending style.
   */
  lemma {:induction false} GenerateKeepsHandAuthored(types: PayloadTypes, subjects: seq<Subject>, existing: string)
    requires IsPlain(types, subjects)
    requires GenerateFile(types, subjects, existing).Ok?
    ensures var out := GenerateFile(types, subjects, existing).value;
            && ExtractHandAuthored(out) == Ok(Normalize(ExtractHandAuthored(existing).value, DetectLineEnding(existing)))
            && DetectLineEnding(out) == DetectLineEnding(existing)
  {
    GeneratedIsSection(types, subjects);
    SpliceKeepsHandAuthored(SectionLines(types, subjects), existing);
  }

  /** Generating again from its own output, with the same manifest, gives the identical file. */
  lemma {:induction false} GenerateIsIdempotent(types: PayloadTypes, subjects: seq<Subject>, existing: string)
    requires IsPlain(types, subjects)
    requires GenerateFile(types, subjects, existing).Ok?
    ensures var out := GenerateFile(types, subjects, existing);
            GenerateFile(types, subjects, out.value) == out
  {
    GeneratedIsSection(types, subjects);
    FileForgets(SectionLines(types, subjects), SectionLines(types, subjects),
                CollisionFree(RUST_NAMING, subjects), CollisionFree(RUST_NAMING, subjects), existing);
  }

  /** A detour over another manifest leaves no trace: only the last manifest counts. */
  lemma {:induction false} GenerateForgetsDetours(types: PayloadTypes, detour: seq<Subject>, subjects: seq<Subject>, existing: string)
    requires IsPlain(types, detour) && IsPlain(types, subjects)
    requires GenerateFile(types, detour, existing).Ok?
    ensures GenerateFile(types, subjects, GenerateFile(types, detour, existing).value)
            == GenerateFile(types, subjects, existing)
  {
    GeneratedIsSection(types, detour);
    GeneratedIsSection(types, subjects);
    FileForgets(SectionLines(types, detour), SectionLines(types, subjects),
                CollisionFree(RUST_NAMING, detour), CollisionFree(RUST_NAMING, subjects), existing);
  }
}
