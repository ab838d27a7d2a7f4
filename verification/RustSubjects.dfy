/** Generating the subjects section of the Rust SDK from the protocol manifest. */
module RustSubjects {
  import opened Characters

  datatype Kind = Event | Request

  datatype Subject = Subject(kind: Kind, namespace: string, subject: string, fullSubject: string)

  datatype Slot = EventSlot | RequestSlot | ResponseSlot

  /** Hand-authored Rust payload types by subject and slot. */
  type PayloadTypes = map<(string, Slot), string>

  // ----- names ---------------------------------------------------------------

  predicate IsRustKeyword(s: string) {
    s in ["abstract", "as", "async", "await", "become", "box", "break", "const", "continue", "crate", "do", "dyn",
          "else", "enum", "extern", "false", "final", "fn", "for", "gen", "if", "impl", "in", "let", "loop", "macro",
          "match", "mod", "move", "mut", "override", "priv", "pub", "ref", "return", "self", "Self", "static",
          "struct", "super", "trait", "true", "try", "type", "typeof", "union", "unsafe", "unsized", "use",
          "virtual", "where", "while", "yield"]
  }

  function ScreamingSnake(s: string): string {
    if s == "" then ""
    else (if s[0] == '.' then "_" else if IsUpper(s[0]) then ['_', s[0]] else [ToUpper(s[0])]) + ScreamingSnake(s[1..])
  }

  /** `toRustConstantName`. */
  function ConstantName(subject: string): string {
    var name := ScreamingSnake(subject);
    if name != "" && name[0] == '_' then name[1..] else name
  }

  /** The parts between underscores, capitalised; `start` at the beginning of a part. */
  function PascalParts(s: string, start: bool): string {
    if s == "" then ""
    else if s[0] == '_' then PascalParts(s[1..], true)
    else [if start then ToUpper(s[0]) else ToLower(s[0])] + PascalParts(s[1..], false)
  }

  /** `toRustSubjectTypeName`. */
  function TypeName(subject: string): string {
    PascalParts(ConstantName(subject), true)
  }

  function Snake(s: string): string {
    if s == "" then ""
    else (if s[0] == ':' || s[0] == '.' then "__"
          else if s[0] == '-' then "_"
          else if IsUpper(s[0]) then ['_', ToLower(s[0])]
          else [s[0]]) + Snake(s[1..])
  }

  /** `toRustModuleName`. */
  function ModuleName(namespace: string): string {
    if IsRustKeyword(Snake(namespace)) then "r#" + Snake(namespace) else Snake(namespace)
  }

  function PayloadType(types: PayloadTypes, fullSubject: string, slot: Slot): string {
    if (fullSubject, slot) in types then "super::" + types[(fullSubject, slot)] else "Value"
  }

  // ----- grouping --------------------------------------------------------------

  /** Namespaces in order of first appearance. */
  function Namespaces(subjects: seq<Subject>): seq<string> {
    if subjects == [] then []
    else
      var before, last := Namespaces(subjects[..|subjects| - 1]), subjects[|subjects| - 1].namespace;
      if last in before then before else before + [last]
  }

  function InNamespace(subjects: seq<Subject>, namespace: string): seq<Subject> {
    if subjects == [] then []
    else
      var last := subjects[|subjects| - 1];
      InNamespace(subjects[..|subjects| - 1], namespace) + if last.namespace == namespace then [last] else []
  }

  lemma {:induction false} Snoc(front: seq<Subject>, last: Subject, namespace: string)
    ensures Namespaces(front + [last])
            == if last.namespace in Namespaces(front) then Namespaces(front) else Namespaces(front) + [last.namespace]
    ensures InNamespace(front + [last], namespace)
            == InNamespace(front, namespace) + if last.namespace == namespace then [last] else []
  {
    assert (front + [last])[..|front|] == front;
  }

  /** Every subject is in the group of its own namespace and in no other, and no group is empty. */
  lemma {:induction false} GroupsPartition(subjects: seq<Subject>, namespace: string)
    ensures forall s :: s in InNamespace(subjects, namespace) <==> s in subjects && s.namespace == namespace
    ensures namespace in Namespaces(subjects) <==> InNamespace(subjects, namespace) != []
  {
    if subjects != [] {
      var front, last := subjects[..|subjects| - 1], subjects[|subjects| - 1];
      GroupsPartition(front, namespace);
      assert subjects == front + [last];
      Snoc(front, last, namespace);
    }
  }

  ghost predicate Grouped(subjects: seq<Subject>, order: seq<string>, groups: map<string, seq<Subject>>) {
    && order == Namespaces(subjects)
    && (forall n :: n in groups <==> n in order)
    && (forall n | n in groups :: groups[n] == InNamespace(subjects, n))
  }

  lemma {:induction false} GroupedSnoc(front: seq<Subject>, last: Subject, order: seq<string>, groups: map<string, seq<Subject>>)
    requires Grouped(front, order, groups)
    ensures last.namespace in groups ==>
              Grouped(front + [last], order, groups[last.namespace := groups[last.namespace] + [last]])
    ensures last.namespace !in groups ==>
              Grouped(front + [last], order + [last.namespace], groups[last.namespace := [last]])
  {
    GroupsPartition(front, last.namespace);
    Snoc(front, last, last.namespace);
    forall n | n in groups || n == last.namespace
      ensures InNamespace(front + [last], n) == InNamespace(front, n) + if last.namespace == n then [last] else []
    {
      Snoc(front, last, n);
    }
  }

  /** `groupByNamespace`; `order` is the insertion order of the map. */
  method GroupByNamespace(subjects: seq<Subject>) returns (order: seq<string>, groups: map<string, seq<Subject>>)
    ensures Grouped(subjects, order, groups)
  {
    order, groups := [], map[];
    for i := 0 to |subjects|
      invariant Grouped(subjects[..i], order, groups)
    {
      var subject := subjects[i];
      assert subjects[..i + 1] == subjects[..i] + [subject];
      GroupedSnoc(subjects[..i], subject, order, groups);
      if subject.namespace in groups {
        groups := groups[subject.namespace := groups[subject.namespace] + [subject]];
      } else {
        order := order + [subject.namespace];
        groups := groups[subject.namespace := [subject]];
      }
    }
    assert subjects[..|subjects|] == subjects;
  }

  // ----- identifier collisions ---------------------------------------------------

  datatype Collision =
    | ModuleCollision(first: string, second: string)
    | DuplicateSubject(namespace: string, subject: string)
    | ConstantCollision(namespace: string, first: string, second: string)

  datatype Outcome = Pass | Fail(collision: Collision)

  /** The two ways of turning manifest names into Rust identifiers. */
  datatype Naming = Naming(moduleOf: string -> string, constantOf: string -> string)

  const RUST_NAMING := Naming(ModuleName, ConstantName)

  /** Two namespaces on one module path, or two entries of one namespace on one constant. */
  predicate Collides(naming: Naming, a: Subject, b: Subject) {
    if a.namespace != b.namespace then naming.moduleOf(a.namespace) == naming.moduleOf(b.namespace)
    else naming.constantOf(a.subject) == naming.constantOf(b.subject)
  }

  predicate CollisionFree(naming: Naming, subjects: seq<Subject>) {
    forall i, j | 0 <= i < j < |subjects| :: !Collides(naming, subjects[i], subjects[j])
  }

  ghost predicate ModulesAgree(naming: Naming, subjects: seq<Subject>) {
    forall a, b | a in subjects && b in subjects && naming.moduleOf(a.namespace) == naming.moduleOf(b.namespace) ::
      a.namespace == b.namespace
  }

  /** The message names two entries that are there and collide. */
  ghost predicate IsReal(naming: Naming, subjects: seq<Subject>, c: Collision) {
    match c
    case ModuleCollision(first, second) =>
      && first != second && naming.moduleOf(first) == naming.moduleOf(second)
      && (exists a, b :: a in subjects && b in subjects && a.namespace == first && b.namespace == second)
    case DuplicateSubject(namespace, subject) =>
      exists i, j | 0 <= i < j < |subjects| ::
        subjects[i].namespace == subjects[j].namespace == namespace && subjects[i].subject == subjects[j].subject == subject
    case ConstantCollision(namespace, first, second) =>
      && first != second && naming.constantOf(first) == naming.constantOf(second)
      && (exists i, j | 0 <= i < j < |subjects| ::
            subjects[i].namespace == subjects[j].namespace == namespace
            && subjects[i].subject == first && subjects[j].subject == second)
  }

  method CheckModules(naming: Naming, subjects: seq<Subject>) returns (r: Outcome)
    ensures r.Pass? <==> ModulesAgree(naming, subjects)
    ensures r.Fail? ==> r.collision.ModuleCollision? && IsReal(naming, subjects, r.collision)
  {
    var namespacesByModule: map<string, string> := map[];
    for i := 0 to |subjects|
      invariant forall j | 0 <= j < i ::
                  && naming.moduleOf(subjects[j].namespace) in namespacesByModule
                  && namespacesByModule[naming.moduleOf(subjects[j].namespace)] == subjects[j].namespace
      invariant forall m | m in namespacesByModule ::
                  exists j | 0 <= j < i :: subjects[j].namespace == namespacesByModule[m]
                                           && naming.moduleOf(subjects[j].namespace) == m
    {
      var namespace := subjects[i].namespace;
      var name := naming.moduleOf(namespace);
      if name in namespacesByModule && namespacesByModule[name] != namespace {
        ghost var j :| 0 <= j < i && subjects[j].namespace == namespacesByModule[name]
                       && naming.moduleOf(subjects[j].namespace) == name;
        assert subjects[i] in subjects && subjects[j] in subjects;
        return Fail(ModuleCollision(namespacesByModule[name], namespace));
      }
      namespacesByModule := namespacesByModule[name := namespace];
    }
    return Pass;
  }

  ghost predicate ConstantsDiffer(naming: Naming, subjects: seq<Subject>) {
    forall i, j | 0 <= i < j < |subjects| :: naming.constantOf(subjects[i].subject) != naming.constantOf(subjects[j].subject)
  }

  method CheckConstants(naming: Naming, namespace: string, subjects: seq<Subject>) returns (r: Outcome)
    requires forall i | 0 <= i < |subjects| :: subjects[i].namespace == namespace
    ensures r.Pass? <==> ConstantsDiffer(naming, subjects)
    ensures r.Fail? ==> !r.collision.ModuleCollision? && r.collision.namespace == namespace
                        && IsReal(naming, subjects, r.collision)
  {
    var subjectsByConstant: map<string, string> := map[];
    for i := 0 to |subjects|
      invariant forall j, k | 0 <= j < k < i :: naming.constantOf(subjects[j].subject) != naming.constantOf(subjects[k].subject)
      invariant forall j | 0 <= j < i :: naming.constantOf(subjects[j].subject) in subjectsByConstant
      invariant forall c | c in subjectsByConstant ::
                  exists j | 0 <= j < i :: naming.constantOf(subjects[j].subject) == c
                                           && subjects[j].subject == subjectsByConstant[c]
    {
      var name := naming.constantOf(subjects[i].subject);
      if name in subjectsByConstant {
        var existing := subjectsByConstant[name];
        ghost var j :| 0 <= j < i && naming.constantOf(subjects[j].subject) == name && subjects[j].subject == existing;
        assert subjects[j].namespace == subjects[i].namespace == namespace;
        if existing == subjects[i].subject {
          return Fail(DuplicateSubject(namespace, existing));
        }
        return Fail(ConstantCollision(namespace, existing, subjects[i].subject));
      }
      subjectsByConstant := subjectsByConstant[name := subjects[i].subject];
    }
    return Pass;
  }

  ghost predicate PairsDiffer(naming: Naming, subjects: seq<Subject>, namespace: string) {
    forall i, j | 0 <= i < j < |subjects| && subjects[i].namespace == namespace == subjects[j].namespace ::
      naming.constantOf(subjects[i].subject) != naming.constantOf(subjects[j].subject)
  }

  lemma {:induction false} ConstantsDifferSnoc(naming: Naming, group: seq<Subject>, last: Subject)
    ensures ConstantsDiffer(naming, group + [last]) <==>
            && ConstantsDiffer(naming, group)
            && (forall s | s in group :: naming.constantOf(s.subject) != naming.constantOf(last.subject))
  {
    var all := group + [last];
    assert forall i | 0 <= i < |group| :: all[i] == group[i];
    if ConstantsDiffer(naming, all) {
      forall i | 0 <= i < |group|
        ensures naming.constantOf(group[i].subject) != naming.constantOf(last.subject)
      {
        assert all[|group|] == last;
      }
    }
  }

  lemma {:induction false} PairsDifferSnoc(naming: Naming, front: seq<Subject>, last: Subject)
    ensures PairsDiffer(naming, front + [last], last.namespace) <==>
            && PairsDiffer(naming, front, last.namespace)
            && (forall s | s in front && s.namespace == last.namespace ::
                  naming.constantOf(s.subject) != naming.constantOf(last.subject))
  {
    var all := front + [last];
    assert forall i | 0 <= i < |front| :: all[i] == front[i];
    if PairsDiffer(naming, all, last.namespace) {
      forall i | 0 <= i < |front| && front[i].namespace == last.namespace
        ensures naming.constantOf(front[i].subject) != naming.constantOf(last.subject)
      {
        assert all[|front|] == last;
      }
    }
  }

  lemma {:induction false} GroupConstants(naming: Naming, subjects: seq<Subject>, namespace: string)
    ensures ConstantsDiffer(naming, InNamespace(subjects, namespace)) <==> PairsDiffer(naming, subjects, namespace)
  {
    if subjects != [] {
      var front, last := subjects[..|subjects| - 1], subjects[|subjects| - 1];
      assert subjects == front + [last];
      GroupConstants(naming, front, namespace);
      Snoc(front, last, namespace);
      if last.namespace == namespace {
        GroupsPartition(front, namespace);
        ConstantsDifferSnoc(naming, InNamespace(front, namespace), last);
        PairsDifferSnoc(naming, front, last);
      } else {
        assert InNamespace(subjects, namespace) == InNamespace(front, namespace);
        assert forall i | 0 <= i < |front| :: subjects[i] == front[i];
      }
    }
  }

  lemma {:induction false} ChecksDecide(naming: Naming, subjects: seq<Subject>)
    ensures CollisionFree(naming, subjects) <==>
            && ModulesAgree(naming, subjects)
            && (forall n | n in Namespaces(subjects) :: PairsDiffer(naming, subjects, n))
  {
    if CollisionFree(naming, subjects) {
      forall i, j | 0 <= i < |subjects| && 0 <= j < |subjects| &&
                    naming.moduleOf(subjects[i].namespace) == naming.moduleOf(subjects[j].namespace)
        ensures subjects[i].namespace == subjects[j].namespace
      {
        if i < j {
          assert !Collides(naming, subjects[i], subjects[j]);
        } else if j < i {
          assert !Collides(naming, subjects[j], subjects[i]);
        }
      }
      forall n | n in Namespaces(subjects)
        ensures PairsDiffer(naming, subjects, n)
      {
        assert forall i, j | 0 <= i < j < |subjects| :: !Collides(naming, subjects[i], subjects[j]);
      }
    }
    if ModulesAgree(naming, subjects) && forall n | n in Namespaces(subjects) :: PairsDiffer(naming, subjects, n) {
      forall i, j | 0 <= i < j < |subjects|
        ensures !Collides(naming, subjects[i], subjects[j])
      {
        assert subjects[i] in subjects && subjects[j] in subjects;
        GroupsPartition(subjects, subjects[i].namespace);
        assert subjects[i] in InNamespace(subjects, subjects[i].namespace);
      }
    }
  }

  lemma {:induction false} GroupIsInNamespace(subjects: seq<Subject>, namespace: string)
    ensures forall i | 0 <= i < |InNamespace(subjects, namespace)| :: InNamespace(subjects, namespace)[i].namespace == namespace
  {
    GroupsPartition(subjects, namespace);
    forall i | 0 <= i < |InNamespace(subjects, namespace)|
      ensures InNamespace(subjects, namespace)[i].namespace == namespace
    {
      assert InNamespace(subjects, namespace)[i] in InNamespace(subjects, namespace);
    }
  }

  /** Two places of a group are two places of the whole list, in the same order. */
  lemma {:induction false} GroupPlaces(subjects: seq<Subject>, namespace: string, i: nat, j: nat)
    returns (p: nat, q: nat)
    requires i < j < |InNamespace(subjects, namespace)|
    ensures p < q < |subjects|
    ensures subjects[p] == InNamespace(subjects, namespace)[i] && subjects[q] == InNamespace(subjects, namespace)[j]
    decreases |subjects|
  {
    var n := |subjects| - 1;
    var front, last := subjects[..n], subjects[n];
    assert subjects == front + [last];
    Snoc(front, last, namespace);
    var group := InNamespace(front, namespace);
    if j < |group| {
      p, q := GroupPlaces(front, namespace, i, j);
    } else {
      GroupsPartition(front, namespace);
      assert group[i] in group;
      p :| 0 <= p < n && front[p] == group[i];
      q := n;
    }
  }

  lemma {:induction false} GroupCollisionIsReal(naming: Naming, subjects: seq<Subject>, namespace: string, c: Collision)
    requires !c.ModuleCollision? && IsReal(naming, InNamespace(subjects, namespace), c)
    ensures IsReal(naming, subjects, c)
  {
    var group := InNamespace(subjects, namespace);
    var first, second := if c.DuplicateSubject? then c.subject else c.first, if c.DuplicateSubject? then c.subject else c.second;
    var i, j :| 0 <= i < j < |group| && group[i].namespace == group[j].namespace == c.namespace
                && group[i].subject == first && group[j].subject == second;
    var p, q := GroupPlaces(subjects, namespace, i, j);
    assert subjects[p].subject == first && subjects[q].subject == second;
  }

  method CheckGroup(naming: Naming, ghost subjects: seq<Subject>, namespace: string, group: seq<Subject>) returns (r: Outcome)
    requires group == InNamespace(subjects, namespace)
    ensures r.Pass? <==> PairsDiffer(naming, subjects, namespace)
    ensures r.Fail? ==> IsReal(naming, subjects, r.collision)
  {
    GroupConstants(naming, subjects, namespace);
    GroupIsInNamespace(subjects, namespace);
    r := CheckConstants(naming, namespace, group);
    if r.Fail? {
      GroupCollisionIsReal(naming, subjects, namespace, r.collision);
    }
  }

  method CheckGroups(naming: Naming, subjects: seq<Subject>) returns (r: Outcome)
    ensures r.Pass? <==> forall n | n in Namespaces(subjects) :: PairsDiffer(naming, subjects, n)
    ensures r.Fail? ==> IsReal(naming, subjects, r.collision)
  {
    var order, groups := GroupByNamespace(subjects);
    for i := 0 to |order|
      invariant forall k | 0 <= k < i :: PairsDiffer(naming, subjects, order[k])
    {
      assert order[i] in groups;
      r := CheckGroup(naming, subjects, order[i], groups[order[i]]);
      if r.Fail? {
        return;
      }
    }
    r := Pass;
  }

  /** `assertNoIdentifierCollisions`: passes exactly when no two entries collide. */
  method AssertNoIdentifierCollisions(naming: Naming, subjects: seq<Subject>) returns (r: Outcome)
    ensures r.Pass? <==> CollisionFree(naming, subjects)
    ensures r.Fail? ==> IsReal(naming, subjects, r.collision)
  {
    ChecksDecide(naming, subjects);
    r := CheckModules(naming, subjects);
    if r.Pass? {
      r := CheckGroups(naming, subjects);
    }
  }
}
