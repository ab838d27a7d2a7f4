/**
 * The dev publish planner: a depth-first topological sort over the workspace
 * packages that a request pulls in.
 */
module DevPublishPlan {
  import opened Collections
  import opened Characters
  import opened CodeUnitOrder

  const FRAMEWORK := "@makaio/framework"

  /** `dependencies` are the entries of the manifest record, in insertion order. */
  datatype WorkspacePackage = WorkspacePackage(
    name: string,
    location: string,
    version: string,
    dependencies: seq<(string, string)>,
    publishWorkspaceDependencies: seq<string>)

  datatype DevPublishPackage = DevPublishPackage(
    workspace: WorkspacePackage,
    baseVersion: string,
    version: string,
    tagName: string)

  datatype PlanError =
    | UnknownRequested(names: seq<string>)
    | Circular(name: string)
    | RetainsUnknown(name: string, dependency: string)
    | InvalidTimestamp
    | UnsupportedVersion(version: string)

  datatype Result<+T> = Ok(value: T) | Err(error: PlanError)

  // ----- the dependency graph ------------------------------------------------

  datatype Graph = Graph(byName: map<string, WorkspacePackage>, requested: set<string>)

  /** `new Map(workspaces.map(...))`: a later workspace replaces an earlier one of the same name. */
  function ByName(workspaces: seq<WorkspacePackage>): (r: map<string, WorkspacePackage>)
    ensures forall n :: n in r <==> exists w :: w in workspaces && w.name == n
    ensures forall n | n in r :: r[n] in workspaces && r[n].name == n
  {
    if workspaces == [] then map[]
    else
      var last := workspaces[|workspaces| - 1];
      ByName(workspaces[..|workspaces| - 1])[last.name := last]
  }

  ghost predicate WellKeyed(g: Graph) {
    forall n | n in g.byName :: g.byName[n].name == n
  }

  predicate DeclaresFramework(w: WorkspacePackage) {
    exists i | 0 <= i < |w.dependencies| :: w.dependencies[i].0 == FRAMEWORK && w.dependencies[i].1 != ""
  }

  function DependencyNames(w: WorkspacePackage): seq<string> {
    seq(|w.dependencies|, i requires 0 <= i < |w.dependencies| => w.dependencies[i].0)
  }

  /** `a` must be published after `b`: the three kinds of edge the planner follows. */
  predicate Edge(g: Graph, a: string, b: string) {
    a in g.byName &&
    (|| (b == FRAMEWORK && a != FRAMEWORK && DeclaresFramework(g.byName[a]) && FRAMEWORK in g.byName)
     || (b in g.requested && b in DependencyNames(g.byName[a]))
     || b in g.byName[a].publishWorkspaceDependencies)
  }

  /**
   * The edges of a package, spelled out: to the framework if it is declared with a version
   * and known, to every requested dependency, and to every dependency it retains.
   */
  lemma {:induction false} EdgesByKind(g: Graph, w: WorkspacePackage, b: string)
    requires w.name in g.byName && g.byName[w.name] == w
    ensures Edge(g, w.name, b) <==>
            || (&& b == "@makaio/framework" && w.name != b && b in g.byName
                && exists i | 0 <= i < |w.dependencies| :: w.dependencies[i].0 == b && w.dependencies[i].1 != "")
            || (b in g.requested && exists i | 0 <= i < |w.dependencies| :: w.dependencies[i].0 == b)
            || b in w.publishWorkspaceDependencies
  {
    var names := DependencyNames(w);
    assert forall i | 0 <= i < |names| :: names[i] == w.dependencies[i].0;
    if i :| 0 <= i < |w.dependencies| && w.dependencies[i].0 == b {
      assert names[i] == b;
    }
  }

  ghost predicate IsPath(g: Graph, p: seq<string>) {
    |p| > 0 && forall i | 0 <= i < |p| - 1 :: Edge(g, p[i], p[i + 1])
  }

  /** A path that starts at a requested package. */
  ghost predicate IsRequestPath(g: Graph, p: seq<string>) {
    IsPath(g, p) && p[0] in g.requested
  }

  ghost predicate Reachable(g: Graph, n: string) {
    exists p :: IsRequestPath(g, p) && p[|p| - 1] == n
  }

  ghost predicate OnCycle(g: Graph, n: string) {
    exists c :: IsPath(g, c) && |c| >= 2 && c[0] == n && c[|c| - 1] == n
  }

  /** The error names a real defect of the request. */
  ghost predicate Justified(g: Graph, e: PlanError) {
    match e
    case Circular(n) => Reachable(g, n) && OnCycle(g, n)
    case RetainsUnknown(n, d) =>
      Reachable(g, n) && n in g.byName && d in g.byName[n].publishWorkspaceDependencies && d !in g.byName
    case UnsupportedVersion(v) =>
      StripPrerelease(v).None? && exists n :: Reachable(g, n) && n in g.byName && g.byName[n].version == v
    case _ => false
  }

  /** Every edge target stands strictly before its source. */
  ghost predicate DependencyFirst(g: Graph, names: seq<string>) {
    forall i, b | 0 <= i < |names| && Edge(g, names[i], b) :: b in names[..i]
  }

  function Names(packages: seq<WorkspacePackage>): (r: seq<string>)
    ensures |r| == |packages|
    ensures forall i | 0 <= i < |r| :: r[i] == packages[i].name
  {
    seq(|packages|, i requires 0 <= i < |packages| => packages[i].name)
  }

  /** `[...names].sort()`. */
  function Sorted(names: seq<string>): (r: seq<string>)
    ensures multiset(r) == multiset(names)
    ensures forall x :: x in r <==> x in names
    ensures forall i, j | 0 <= i < j < |r| :: StringLe(r[i], r[j])
  {
    var key := (name: string) => name;
    SortSorts(key, names);
    var r := Sort(key, names);
    assert forall i | 0 <= i < |r| :: key(r[i]) == r[i];
    r
  }

  // ----- snapshot versions ----------------------------------------------------

  /** First index at or after `i` that is not a digit. */
  function SkipDigits(s: string, i: nat): (r: nat)
    requires i <= |s|
    ensures i <= r <= |s|
    ensures forall k | i <= k < r :: IsDigit(s[k])
    ensures r < |s| ==> !IsDigit(s[r])
    decreases |s| - i
  {
    if i < |s| && IsDigit(s[i]) then SkipDigits(s, i + 1) else i
  }

  /** After a non-empty run of digits at `i` and, unless `last`, a dot. */
  function SkipComponent(s: string, i: nat, last: bool): (r: Option<nat>)
    requires i <= |s|
    ensures r.Some? ==> i < r.value <= |s|
  {
    var j := SkipDigits(s, i);
    if j == i then None
    else if last then Some(j)
    else if j < |s| && s[j] == '.' then Some(j + 1)
    else None
  }

  /** End of a leading `major.minor.patch`. */
  function CoreEnd(s: string): (r: Option<nat>)
    ensures r.Some? ==> 0 < r.value <= |s|
  {
    var major := SkipComponent(s, 0, false);
    if major.None? then None else
    var minor := SkipComponent(s, major.value, false);
    if minor.None? then None else
    SkipComponent(s, minor.value, true)
  }

  predicate IsLineTerminator(c: char) {
    c == '\n' || c == '\r' || c == '\U{2028}' || c == '\U{2029}'
  }

  predicate IsSuffix(s: string) {
    s == "" || ((s[0] == '-' || s[0] == '+') && forall i | 1 <= i < |s| :: !IsLineTerminator(s[i]))
  }

  /** `stripPrerelease`; `None` where the source throws. */
  function StripPrerelease(version: string): Option<string> {
    var end := CoreEnd(version);
    if end.Some? && IsSuffix(version[end.value..]) then Some(version[..end.value]) else None
  }

  predicate IsTimestamp(s: string) {
    |s| >= 13 && forall i | 0 <= i < |s| :: IsDigit(s[i])
  }

  /** `buildDevVersion` once the timestamp has been accepted. */
  function DevVersion(base: string, timestamp: string): string {
    base + "-dev-" + timestamp
  }

  predicate IsNumeral(s: string) {
    s != "" && forall i | 0 <= i < |s| :: IsDigit(s[i])
  }

  /** `base` is three numerals and the version is `base` with an optional suffix: the pattern itself. */
  ghost predicate HasBase(version: string, base: string) {
    exists major, minor, patch, suffix ::
      && IsNumeral(major) && IsNumeral(minor) && IsNumeral(patch) && IsSuffix(suffix)
      && base == Dotted(major, minor, patch) && version == base + suffix
  }

  function Dotted(major: string, minor: string, patch: string): string {
    major + "." + minor + "." + patch
  }

  lemma {:induction false} SkipNumeral(before: string, digits: string, after: string, i: nat)
    requires IsNumeral(digits) && i <= |digits| && (after == "" || !IsDigit(after[0]))
    ensures SkipDigits(before + digits + after, |before| + i) == |before| + |digits|
    decreases |digits| - i
  {
    var s := before + digits + after;
    if i < |digits| {
      assert s[|before| + i] == digits[i];
      SkipNumeral(before, digits, after, i + 1);
    } else if after != "" {
      assert s[|before| + i] == after[0];
    }
  }

  lemma {:induction false} SkipOneComponent(before: string, digits: string, after: string, last: bool)
    requires IsNumeral(digits) && (after == "" || !IsDigit(after[0]))
    requires !last ==> after != "" && after[0] == '.'
    ensures SkipComponent(before + digits + after, |before|, last)
            == Some(|before| + |digits| + if last then 0 else 1)
  {
    SkipNumeral(before, digits, after, 0);
    if !last {
      assert (before + digits + after)[|before| + |digits|] == after[0];
    }
  }

  lemma {:induction false} CoreEndOf(major: string, minor: string, patch: string, suffix: string)
    requires IsNumeral(major) && IsNumeral(minor) && IsNumeral(patch) && IsSuffix(suffix)
    ensures CoreEnd(Dotted(major, minor, patch) + suffix) == Some(|Dotted(major, minor, patch)|)
  {
    var second, third := "." + minor + "." + patch + suffix, "." + patch + suffix;
    DottedParts(major, minor, patch, suffix);
    SkipOneComponent("", major, second, false);
    SkipOneComponent(major + ".", minor, third, false);
    SkipOneComponent(major + "." + minor + ".", patch, suffix, true);
  }

  lemma {:induction false} DottedParts(major: string, minor: string, patch: string, suffix: string)
    ensures var s := Dotted(major, minor, patch) + suffix;
            && s == "" + major + ("." + minor + "." + patch + suffix)
            && s == (major + ".") + minor + ("." + patch + suffix)
            && s == (major + "." + minor + ".") + patch + suffix
  {
  }

  lemma {:induction false} ComponentIsNumeral(s: string, i: nat, last: bool)
    requires i <= |s| && SkipComponent(s, i, last).Some?
    ensures var e := SkipComponent(s, i, last).value;
            if last then IsNumeral(s[i..e]) else IsNumeral(s[i..e - 1]) && s[e - 1] == '.'
  {
  }

  lemma {:induction false} CoreIsDotted(s: string) returns (major: string, minor: string, patch: string)
    requires CoreEnd(s).Some?
    ensures IsNumeral(major) && IsNumeral(minor) && IsNumeral(patch)
    ensures s[..CoreEnd(s).value] == Dotted(major, minor, patch)
  {
    var a := SkipComponent(s, 0, false).value;
    var b := SkipComponent(s, a, false).value;
    var end := CoreEnd(s).value;
    ComponentIsNumeral(s, 0, false);
    ComponentIsNumeral(s, a, false);
    ComponentIsNumeral(s, b, true);
    major, minor, patch := s[0..a - 1], s[a..b - 1], s[b..end];
    assert s[..end] == s[0..a - 1] + [s[a - 1]] + s[a..b - 1] + [s[b - 1]] + s[b..end];
  }

  /** `stripPrerelease` accepts exactly the versions of its pattern and returns their base. */
  lemma {:induction false} StripIsPattern(version: string, base: string)
    ensures StripPrerelease(version) == Some(base) <==> HasBase(version, base)
  {
    if StripPrerelease(version) == Some(base) {
      var major, minor, patch := CoreIsDotted(version);
      var suffix := version[CoreEnd(version).value..];
      assert IsSuffix(suffix) && base == Dotted(major, minor, patch) && version == base + suffix;
    }
    if HasBase(version, base) {
      var major, minor, patch, suffix :|
        && IsNumeral(major) && IsNumeral(minor) && IsNumeral(patch) && IsSuffix(suffix)
        && base == Dotted(major, minor, patch) && version == base + suffix;
      CoreEndOf(major, minor, patch, suffix);
      assert version[|base|..] == suffix && version[..|base|] == base;
    }
  }

  /** A prerelease and a build suffix are both cut off, whatever they say on their one line. */
  lemma {:induction false} SuffixesAreStripped(major: string, minor: string, patch: string, text: string)
    requires IsNumeral(major) && IsNumeral(minor) && IsNumeral(patch)
    requires forall c | c in text :: c != '\n' && c != '\r' && c != '\U{2028}' && c != '\U{2029}'
    ensures var base := major + "." + minor + "." + patch;
            && StripPrerelease(base) == Some(base)
            && StripPrerelease(base + "-" + text) == Some(base)
            && StripPrerelease(base + "+" + text) == Some(base)
  {
    var base := Dotted(major, minor, patch);
    StripOf(major, minor, patch, "");
    assert base + "" == base;
    StripMarked(major, minor, patch, '-', text);
    assert base + ['-'] + text == base + "-" + text;
    StripMarked(major, minor, patch, '+', text);
    assert base + ['+'] + text == base + "+" + text;
  }

  lemma {:induction false} StripMarked(major: string, minor: string, patch: string, mark: char, text: string)
    requires IsNumeral(major) && IsNumeral(minor) && IsNumeral(patch) && (mark == '-' || mark == '+')
    requires forall c | c in text :: c != '\n' && c != '\r' && c != '\U{2028}' && c != '\U{2029}'
    ensures StripPrerelease(Dotted(major, minor, patch) + [mark] + text) == Some(Dotted(major, minor, patch))
  {
    TextIsSuffix(mark, text);
    StripOf(major, minor, patch, [mark] + text);
    ConcatAssoc(Dotted(major, minor, patch), [mark], text);
  }

  lemma {:induction false} TextIsSuffix(mark: char, text: string)
    requires mark == '-' || mark == '+'
    requires forall c | c in text :: c != '\n' && c != '\r' && c != '\U{2028}' && c != '\U{2029}'
    ensures IsSuffix([mark] + text)
  {
    assert forall i | 1 <= i <= |text| :: ([mark] + text)[i] == text[i - 1] && text[i - 1] in text;
  }

  lemma {:induction false} StripOf(major: string, minor: string, patch: string, suffix: string)
    requires IsNumeral(major) && IsNumeral(minor) && IsNumeral(patch) && IsSuffix(suffix)
    ensures StripPrerelease(Dotted(major, minor, patch) + suffix) == Some(Dotted(major, minor, patch))
  {
    StripIsPattern(Dotted(major, minor, patch) + suffix, Dotted(major, minor, patch));
  }

  lemma {:induction false} SkipDigitsLocal(s: string, t: string, i: nat)
    requires i <= |s| && i <= |t|
    requires var j := SkipDigits(s, i); j < |t| && t[..j] == s[..j] && !IsDigit(t[j])
    ensures SkipDigits(t, i) == SkipDigits(s, i)
    decreases |s| - i
  {
    if i < |s| && IsDigit(s[i]) {
      assert t[i] == t[..SkipDigits(s, i)][i];
      SkipDigitsLocal(s, t, i + 1);
    }
  }

  /** A component is recognised from its own characters and the one that follows it. */
  lemma {:induction false} SkipComponentLocal(s: string, t: string, i: nat, last: bool)
    requires i <= |s| && i <= |t| && SkipComponent(s, i, last).Some?
    requires var e := SkipComponent(s, i, last).value;
             e <= |t| && t[..e] == s[..e] && (last ==> e < |t| && !IsDigit(t[e]))
    ensures SkipComponent(t, i, last) == SkipComponent(s, i, last)
  {
    var e, j := SkipComponent(s, i, last).value, SkipDigits(s, i);
    assert t[..j] == t[..e][..j] == s[..j];
    if !last {
      assert t[j] == t[..e][j] == s[j];
    }
    SkipDigitsLocal(s, t, i);
  }

  /**
   * A dev snapshot keeps its base version: stripping the prerelease of the stamped
   * version gives back what stripping the workspace version gave.
   */
  lemma {:induction false} DevVersionKeepsBase(version: string, timestamp: string)
    requires StripPrerelease(version).Some? && IsTimestamp(timestamp)
    ensures StripPrerelease(DevVersion(StripPrerelease(version).value, timestamp)) == StripPrerelease(version)
  {
    var end := CoreEnd(version).value;
    var stamped := DevVersion(version[..end], timestamp);
    assert stamped[..end] == version[..end] && stamped[end] == '-';
    CoreEndLocal(version, stamped);
    assert stamped[end..] == "-dev-" + timestamp;
    DevSuffix(timestamp);
  }

  lemma {:induction false} DevSuffix(timestamp: string)
    requires IsTimestamp(timestamp)
    ensures IsSuffix("-dev-" + timestamp)
  {
    var s := "-dev-" + timestamp;
    assert forall i | 5 <= i < |s| :: s[i] == timestamp[i - 5];
  }

  lemma {:induction false} SharedPrefix(s: string, t: string, end: nat, k: nat)
    requires k <= end <= |s| && end <= |t| && s[..end] == t[..end]
    ensures s[..k] == t[..k]
  {
    assert s[..k] == s[..end][..k] && t[..k] == t[..end][..k];
  }

  lemma {:induction false} CoreEndLocal(s: string, t: string)
    requires CoreEnd(s).Some?
    requires var end := CoreEnd(s).value; end < |t| && s[..end] == t[..end] && !IsDigit(t[end])
    ensures CoreEnd(t) == CoreEnd(s)
  {
    var end := CoreEnd(s).value;
    var major := SkipComponent(s, 0, false).value;
    var minor := SkipComponent(s, major, false).value;
    SharedPrefix(s, t, end, major);
    SharedPrefix(s, t, end, minor);
    SkipComponentLocal(s, t, 0, false);
    SkipComponentLocal(s, t, major, false);
    SkipComponentLocal(s, t, minor, true);
  }

  // ----- paths -------------------------------------------------------------

  lemma {:induction false} SubPath(g: Graph, p: seq<string>, lo: nat, hi: nat)
    requires IsPath(g, p) && lo < hi <= |p|
    ensures IsPath(g, p[lo..hi])
  {
    var q := p[lo..hi];
    forall i | 0 <= i < |q| - 1
      ensures Edge(g, q[i], q[i + 1])
    {
      assert Edge(g, p[lo + i], p[lo + i + 1]);
    }
  }

  /** Coming back to a package that is still being visited closes a cycle. */
  lemma {:induction false} TrailCloses(g: Graph, trail: seq<string>, name: string)
    requires IsRequestPath(g, trail + [name])
    requires name in trail
    ensures Justified(g, Circular(name))
  {
    var i :| 0 <= i < |trail| && trail[i] == name;
    var p := trail + [name];
    SubPath(g, p, 0, i + 1);
    SubPath(g, p, i, |p|);
    var q, c := p[0..i + 1], p[i..|p|];
    assert IsRequestPath(g, q) && q[|q| - 1] == name;
    assert IsPath(g, c) && |c| >= 2 && c[0] == name && c[|c| - 1] == name;
  }

  lemma {:induction false} TrailGrows(g: Graph, trail: seq<string>, next: string)
    requires IsRequestPath(g, trail)
    requires Edge(g, trail[|trail| - 1], next)
    ensures IsRequestPath(g, trail + [next])
  {
  }

  /** The three groups of dependencies are all a package has. */
  lemma {:induction false} EdgesAreCovered(g: Graph, name: string, visited: set<string>)
    requires name in g.byName
    requires name != FRAMEWORK && DeclaresFramework(g.byName[name]) && FRAMEWORK in g.byName ==> FRAMEWORK in visited
    requires forall d | d in DependencyNames(g.byName[name]) && d in g.requested :: d in visited
    requires forall d | d in g.byName[name].publishWorkspaceDependencies :: d in visited
    ensures forall b | Edge(g, name, b) :: b in visited
  {
  }

  lemma {:induction false} AppendKeepsOrder(g: Graph, names: seq<string>, name: string)
    requires DependencyFirst(g, names) && NoDuplicates(names) && name !in names
    requires forall b | Edge(g, name, b) :: b in names
    ensures DependencyFirst(g, names + [name]) && NoDuplicates(names + [name])
  {
    var all := names + [name];
    forall i, b | 0 <= i < |all| && Edge(g, all[i], b)
      ensures b in all[..i]
    {
      assert all[..i] == names[..i];
      if i == |names| {
        assert names[..i] == names;
      }
    }
  }

  /** In a dependency-first list the positions fall along every path. */
  lemma {:induction false} PathDescends(g: Graph, names: seq<string>, p: seq<string>, i: nat)
    requires DependencyFirst(g, names) && IsPath(g, p)
    requires i < |names| && names[i] == p[0]
    ensures p[|p| - 1] in names[..i + 1]
    ensures |p| >= 2 ==> p[|p| - 1] in names[..i]
    decreases |p|
  {
    if |p| >= 2 {
      assert Edge(g, p[0], p[1]);
      var j :| 0 <= j < i && names[j] == p[1];
      assert forall k | 0 <= k < |p[1..]| :: p[1..][k] == p[k + 1];
      SubPath(g, p, 1, |p|);
      PathDescends(g, names, p[1..|p|], j);
    }
  }

  /** A dependency-first list without repetitions leaves no room for a cycle. */
  lemma {:induction false} OrderedIsAcyclic(g: Graph, names: seq<string>, n: string)
    requires DependencyFirst(g, names) && NoDuplicates(names) && n in names
    ensures !OnCycle(g, n)
  {
    if OnCycle(g, n) {
      var c :| IsPath(g, c) && |c| >= 2 && c[0] == n && c[|c| - 1] == n;
      var i :| 0 <= i < |names| && names[i] == n;
      PathDescends(g, names, c, i);
      assert false;
    }
  }

  /** Everything reachable stands in a dependency-first list that has every requested package. */
  lemma {:induction false} ReachableIsListed(g: Graph, names: seq<string>, n: string)
    requires DependencyFirst(g, names)
    requires forall r | r in g.requested :: r in names
    requires Reachable(g, n)
    ensures n in names
  {
    var p :| IsRequestPath(g, p) && p[|p| - 1] == n;
    var i :| 0 <= i < |names| && names[i] == p[0];
    PathDescends(g, names, p, i);
  }

  // ----- the planner ---------------------------------------------------------

  /** Every listed package is the known one of its name. */
  ghost predicate AreKeyed(g: Graph, ordered: seq<WorkspacePackage>) {
    forall i | 0 <= i < |ordered| :: ordered[i].name in g.byName && g.byName[ordered[i].name] == ordered[i]
  }

  class Planner {
    const g: Graph
    var visited: set<string>
    var visiting: set<string>
    var ordered: seq<WorkspacePackage>

    ghost predicate Valid()
      reads this
    {
      && WellKeyed(g)
      && g.requested <= g.byName.Keys
      && visited == (set n | n in Names(ordered))
      && NoDuplicates(Names(ordered))
      && visited + visiting <= g.byName.Keys
      && visited !! visiting
      && DependencyFirst(g, Names(ordered))
      && (forall n | n in visited :: Reachable(g, n))
      && AreKeyed(g, ordered)
    }

    constructor (g: Graph)
      requires WellKeyed(g) && g.requested <= g.byName.Keys
      ensures Valid() && this.g == g
      ensures visited == {} && visiting == {} && ordered == []
    {
      this.g := g;
      visited, visiting, ordered := {}, {}, [];
    }

    /** `visiting` is exactly the chain of packages that led here from the request. */
    ghost predicate Chained(trail: seq<string>)
      reads this
    {
      visiting == (set n | n in trail)
    }

    /** What a successful visit of some packages leaves behind. */
    twostate predicate Advanced()
      reads this
    {
      && Valid()
      && visiting == old(visiting)
      && old(visited) <= visited
      && old(ordered) <= ordered
    }

    method Visit(name: string, ghost trail: seq<string>) returns (error: Option<PlanError>)
      requires Valid() && Chained(trail)
      requires name in g.byName && IsRequestPath(g, trail + [name])
      modifies this
      ensures error.None? ==> Advanced() && name in visited
      ensures error.Some? ==> Justified(g, error.value)
      decreases g.byName.Keys - visiting, 0
    {
      if name in visited {
        return None;
      }
      if name in visiting {
        TrailCloses(g, trail, name);
        return Some(Circular(name));
      }
      visiting := visiting + {name};
      error := VisitDependencies(name, trail + [name]);
      if error.None? {
        Finish(name, trail + [name]);
      }
    }

    /** The three groups of edges of `name`, in the order the planner follows them. */
    method VisitDependencies(name: string, ghost trail: seq<string>) returns (error: Option<PlanError>)
      requires Valid() && Chained(trail)
      requires name in g.byName && IsRequestPath(g, trail) && trail[|trail| - 1] == name
      modifies this
      ensures error.None? ==> Advanced() && forall b | Edge(g, name, b) :: b in visited
      ensures error.Some? ==> Justified(g, error.value)
      decreases g.byName.Keys - visiting, 5
    {
      error := VisitDeclared(name, trail);
      if error.None? {
        error := VisitRetained(name, trail);
      }
      if error.None? {
        EdgesAreCovered(g, name, visited);
      }
    }

    /** The framework, then the requested dependencies. */
    method VisitDeclared(name: string, ghost trail: seq<string>) returns (error: Option<PlanError>)
      requires Valid() && Chained(trail)
      requires name in g.byName && IsRequestPath(g, trail) && trail[|trail| - 1] == name
      modifies this
      ensures error.None? ==> Advanced() && (NeedsFramework(name) ==> FRAMEWORK in visited)
      ensures error.None? ==> forall d | d in DependencyNames(g.byName[name]) && d in g.requested :: d in visited
      ensures error.Some? ==> Justified(g, error.value)
      decreases g.byName.Keys - visiting, 4
    {
      error := VisitFramework(name, trail);
      if error.None? {
        error := VisitRequested(name, trail);
      }
    }

    predicate NeedsFramework(name: string)
      requires name in g.byName
    {
      name != FRAMEWORK && DeclaresFramework(g.byName[name]) && FRAMEWORK in g.byName
    }

    method VisitFramework(name: string, ghost trail: seq<string>) returns (error: Option<PlanError>)
      requires Valid() && Chained(trail)
      requires name in g.byName && IsRequestPath(g, trail) && trail[|trail| - 1] == name
      modifies this
      ensures error.None? ==> Advanced() && (NeedsFramework(name) ==> FRAMEWORK in visited)
      ensures error.Some? ==> Justified(g, error.value)
      decreases g.byName.Keys - visiting, 1
    {
      error := None;
      if NeedsFramework(name) {
        TrailGrows(g, trail, FRAMEWORK);
        error := Visit(FRAMEWORK, trail);
      }
    }

    method VisitRequested(name: string, ghost trail: seq<string>) returns (error: Option<PlanError>)
      requires Valid() && Chained(trail)
      requires name in g.byName && IsRequestPath(g, trail) && trail[|trail| - 1] == name
      modifies this
      ensures error.None? ==> Advanced() && forall d | d in DependencyNames(g.byName[name]) && d in g.requested :: d in visited
      ensures error.Some? ==> Justified(g, error.value)
      decreases g.byName.Keys - visiting, 3
    {
      error := VisitSorted(name, Sorted(DependencyNames(g.byName[name])), trail);
    }

    method VisitSorted(name: string, dependencies: seq<string>, ghost trail: seq<string>) returns (error: Option<PlanError>)
      requires Valid() && Chained(trail)
      requires name in g.byName && IsRequestPath(g, trail) && trail[|trail| - 1] == name
      requires forall d | d in dependencies :: d in DependencyNames(g.byName[name])
      modifies this
      ensures error.None? ==> Advanced() && forall d | d in dependencies && d in g.requested :: d in visited
      ensures error.Some? ==> Justified(g, error.value)
      decreases g.byName.Keys - visiting, 2
    {
      for i := 0 to |dependencies|
        invariant Advanced()
        invariant forall d | d in dependencies[..i] && d in g.requested :: d in visited
      {
        assert dependencies[..i + 1] == dependencies[..i] + [dependencies[i]];
        error := VisitIfRequested(name, dependencies[i], trail);
        if error.Some? {
          return;
        }
      }
      assert dependencies[..|dependencies|] == dependencies;
      error := None;
    }

    method VisitIfRequested(name: string, dependency: string, ghost trail: seq<string>)
      returns (error: Option<PlanError>)
      requires Valid() && Chained(trail)
      requires name in g.byName && IsRequestPath(g, trail) && trail[|trail| - 1] == name
      requires dependency in DependencyNames(g.byName[name])
      modifies this
      ensures error.None? ==> Advanced() && (dependency in g.requested ==> dependency in visited)
      ensures error.Some? ==> Justified(g, error.value)
      decreases g.byName.Keys - visiting, 1
    {
      error := None;
      if dependency in g.requested {
        TrailGrows(g, trail, dependency);
        error := Visit(dependency, trail);
      }
    }

    method VisitRetained(name: string, ghost trail: seq<string>) returns (error: Option<PlanError>)
      requires Valid() && Chained(trail)
      requires name in g.byName && IsRequestPath(g, trail) && trail[|trail| - 1] == name
      modifies this
      ensures error.None? ==> Advanced() && forall d | d in g.byName[name].publishWorkspaceDependencies :: d in visited
      ensures error.Some? ==> Justified(g, error.value)
      decreases g.byName.Keys - visiting, 2
    {
      var dependencies := Sorted(g.byName[name].publishWorkspaceDependencies);
      for i := 0 to |dependencies|
        invariant Advanced()
        invariant forall d | d in dependencies[..i] :: d in visited
      {
        assert dependencies[..i + 1] == dependencies[..i] + [dependencies[i]];
        error := VisitOneRetained(name, dependencies[i], trail);
        if error.Some? {
          return;
        }
      }
      error := None;
    }

    method VisitOneRetained(name: string, dependency: string, ghost trail: seq<string>) returns (error: Option<PlanError>)
      requires Valid() && Chained(trail)
      requires name in g.byName && IsRequestPath(g, trail) && trail[|trail| - 1] == name
      requires dependency in g.byName[name].publishWorkspaceDependencies
      modifies this
      ensures error.None? ==> Advanced() && dependency in visited
      ensures error.Some? ==> Justified(g, error.value)
      decreases g.byName.Keys - visiting, 1
    {
      if dependency !in g.byName {
        return Some(RetainsUnknown(name, dependency));
      }
      TrailGrows(g, trail, dependency);
      error := Visit(dependency, trail);
    }

    method Finish(name: string, ghost trail: seq<string>)
      requires Valid() && name in visiting && name in g.byName
      requires IsRequestPath(g, trail) && trail[|trail| - 1] == name
      requires forall b | Edge(g, name, b) :: b in visited
      modifies this
      ensures Valid()
      ensures visiting == old(visiting) - {name} && visited == old(visited) + {name}
      ensures ordered == old(ordered) + [g.byName[name]]
    {
      visiting := visiting - {name};
      visited := visited + {name};
      AppendKeepsOrder(g, Names(ordered), name);
      assert Names(ordered + [g.byName[name]]) == Names(ordered) + [name];
      ordered := ordered + [g.byName[name]];
    }
  }

  // ----- resolveDevPublishPlan --------------------------------------------------

  function RequestGraph(workspaces: seq<WorkspacePackage>, requestedNames: seq<string>): (g: Graph)
    ensures WellKeyed(g)
  {
    Graph(ByName(workspaces), set n | n in requestedNames)
  }

  /** Each reachable package once, nothing else, and every dependency before its dependents. */
  ghost predicate IsPublishOrder(g: Graph, names: seq<string>) {
    && NoDuplicates(names)
    && DependencyFirst(g, names)
    && (forall n :: n in names <==> Reachable(g, n))
  }

  /** Nothing stands in the way of publishing `n`. */
  ghost predicate IsPublishable(g: Graph, n: string) {
    && n in g.byName
    && !OnCycle(g, n)
    && (forall d | d in g.byName[n].publishWorkspaceDependencies :: d in g.byName)
    && StripPrerelease(g.byName[n].version).Some?
  }

  ghost predicate CanPlan(g: Graph, timestamp: string) {
    && (g.requested != {} ==> |timestamp| >= 13 && IsNumeral(timestamp))
    && (forall n | Reachable(g, n) :: IsPublishable(g, n))
  }

  /** The snapshot version and the tag of a package that is published at `timestamp`. */
  ghost predicate IsStamped(p: DevPublishPackage, timestamp: string) {
    && HasBase(p.workspace.version, p.baseVersion)
    && p.version == p.baseVersion + "-dev-" + timestamp
    && p.tagName == "dev/" + p.workspace.name + "/v" + p.version
  }

  function Stamp(w: WorkspacePackage, timestamp: string): (r: Result<DevPublishPackage>)
    ensures r.Ok? <==> IsTimestamp(timestamp) && StripPrerelease(w.version).Some?
    ensures r.Err? ==> if IsTimestamp(timestamp) then IsUnsupported(w, r.error) else r.error == InvalidTimestamp
    ensures r.Ok? ==> r.value.workspace == w && IsStamped(r.value, timestamp)
    ensures r.Ok? ==> StripPrerelease(r.value.version) == StripPrerelease(w.version)
  {
    if !IsTimestamp(timestamp) then Err(InvalidTimestamp)
    else match StripPrerelease(w.version)
         case None => Err(UnsupportedVersion(w.version))
         case Some(base) =>
           DevVersionKeepsBase(w.version, timestamp);
           StripIsPattern(w.version, base);
           var version := DevVersion(base, timestamp);
           Ok(DevPublishPackage(w, base, version, "dev/" + w.name + "/v" + version))
  }

  /** The error is about this package's own version. */
  predicate IsUnsupported(w: WorkspacePackage, e: PlanError) {
    e == UnsupportedVersion(w.version) && StripPrerelease(w.version).None?
  }

  function StampAll(ordered: seq<WorkspacePackage>, timestamp: string): Result<seq<DevPublishPackage>> {
    if ordered == [] then Ok([])
    else
      match Stamp(ordered[0], timestamp)
      case Err(e) => Err(e)
      case Ok(first) =>
        match StampAll(ordered[1..], timestamp)
        case Err(e) => Err(e)
        case Ok(rest) => Ok([first] + rest)
  }

  lemma {:induction false} StampAllSucceeds(ordered: seq<WorkspacePackage>, timestamp: string)
    requires forall i | 0 <= i < |ordered| :: Stamp(ordered[i], timestamp).Ok?
    ensures StampAll(ordered, timestamp).Ok?
  {
    if ordered != [] {
      assert forall i | 0 <= i < |ordered[1..]| :: ordered[1..][i] == ordered[i + 1];
      StampAllSucceeds(ordered[1..], timestamp);
    }
  }

  ghost predicate AreStamps(ordered: seq<WorkspacePackage>, timestamp: string, plan: seq<DevPublishPackage>) {
    |plan| == |ordered| && forall i | 0 <= i < |ordered| :: Stamp(ordered[i], timestamp) == Ok(plan[i])
  }

  lemma {:induction false} AreStampsCons(w: WorkspacePackage, rest: seq<WorkspacePackage>, timestamp: string,
                                         p: DevPublishPackage, plan: seq<DevPublishPackage>)
    requires Stamp(w, timestamp) == Ok(p) && AreStamps(rest, timestamp, plan)
    ensures AreStamps([w] + rest, timestamp, [p] + plan)
  {
    var all, more := [w] + rest, [p] + plan;
    forall i | 0 <= i < |all|
      ensures Stamp(all[i], timestamp) == Ok(more[i])
    {
      if i > 0 {
        assert all[i] == rest[i - 1] && more[i] == plan[i - 1];
      }
    }
  }

  lemma {:induction false} StampAllCons(ordered: seq<WorkspacePackage>, timestamp: string)
    requires ordered != [] && StampAll(ordered, timestamp).Ok?
    ensures Stamp(ordered[0], timestamp).Ok? && StampAll(ordered[1..], timestamp).Ok?
    ensures StampAll(ordered, timestamp).value
            == [Stamp(ordered[0], timestamp).value] + StampAll(ordered[1..], timestamp).value
  {
  }

  /** One result a package, in the order of the list. */
  lemma {:induction false} StampAllEach(ordered: seq<WorkspacePackage>, timestamp: string)
    requires StampAll(ordered, timestamp).Ok?
    ensures AreStamps(ordered, timestamp, StampAll(ordered, timestamp).value)
  {
    if ordered != [] {
      var first, rest := ordered[0], ordered[1..];
      StampAllCons(ordered, timestamp);
      StampAllEach(rest, timestamp);
      AreStampsCons(first, rest, timestamp, Stamp(first, timestamp).value, StampAll(rest, timestamp).value);
      assert ordered == [first] + rest;
    }
  }

  function Missing(byName: map<string, WorkspacePackage>, requestedNames: seq<string>): (r: seq<string>)
    ensures forall n :: n in r <==> n in requestedNames && n !in byName
  {
    if requestedNames == [] then []
    else (if requestedNames[0] in byName then [] else [requestedNames[0]]) + Missing(byName, requestedNames[1..])
  }

  lemma {:induction false} RequestedIsReachable(g: Graph, n: string)
    requires n in g.requested
    ensures Reachable(g, n)
  {
    assert IsRequestPath(g, [n]);
  }

  lemma {:induction false} NameIsKnown(g: Graph, ordered: seq<WorkspacePackage>, n: string)
    requires AreKeyed(g, ordered) && n in Names(ordered)
    ensures n in g.byName && g.byName[n] in ordered
  {
    var i :| 0 <= i < |ordered| && Names(ordered)[i] == n;
    assert ordered[i].name == n && ordered[i] in ordered;
  }

  lemma {:induction false} RetainedIsKnown(g: Graph, ordered: seq<WorkspacePackage>, n: string, d: string)
    requires AreKeyed(g, ordered) && DependencyFirst(g, Names(ordered)) && n in Names(ordered)
    requires Edge(g, n, d)
    ensures d in g.byName
  {
    var i :| 0 <= i < |ordered| && Names(ordered)[i] == n;
    assert d in Names(ordered)[..i];
    NameIsKnown(g, ordered, d);
  }

  /** Nothing but its version can keep the package from being published, and it is listed. */
  ghost predicate IsSettled(g: Graph, ordered: seq<WorkspacePackage>, n: string) {
    && n in g.byName && !OnCycle(g, n)
    && (forall d | d in g.byName[n].publishWorkspaceDependencies :: d in g.byName)
    && g.byName[n] in ordered
  }

  lemma {:induction false} ReachableIsSettled(g: Graph, ordered: seq<WorkspacePackage>, n: string)
    requires NoDuplicates(Names(ordered)) && DependencyFirst(g, Names(ordered)) && AreKeyed(g, ordered)
    requires forall r | r in g.requested :: r in Names(ordered)
    requires Reachable(g, n)
    ensures n in Names(ordered) && IsSettled(g, ordered, n)
  {
    ReachableIsListed(g, Names(ordered), n);
    OrderedIsAcyclic(g, Names(ordered), n);
    NameIsKnown(g, ordered, n);
    forall d | d in g.byName[n].publishWorkspaceDependencies
      ensures d in g.byName
    {
      RetainedIsKnown(g, ordered, n, d);
    }
  }

  /** What a completed search knows about the packages it listed. */
  ghost predicate Searched(g: Graph, ordered: seq<WorkspacePackage>) {
    && (forall i | 0 <= i < |ordered| :: Reachable(g, ordered[i].name))
    && AreKeyed(g, ordered)
    && (forall n | Reachable(g, n) :: IsSettled(g, ordered, n))
  }

  /** What a search has established when it ends. */
  ghost predicate IsFinished(g: Graph, ordered: seq<WorkspacePackage>) {
    && NoDuplicates(Names(ordered)) && DependencyFirst(g, Names(ordered)) && AreKeyed(g, ordered)
    && (forall n | n in g.requested :: n in Names(ordered))
    && (forall n | n in Names(ordered) :: Reachable(g, n))
  }

  lemma {:induction false} FinishedIsOrder(g: Graph, ordered: seq<WorkspacePackage>)
    requires IsFinished(g, ordered)
    ensures IsPublishOrder(g, Names(ordered))
  {
    forall n | Reachable(g, n)
      ensures n in Names(ordered)
    {
      ReachableIsListed(g, Names(ordered), n);
    }
  }

  lemma {:induction false} FinishedIsSearched(g: Graph, ordered: seq<WorkspacePackage>)
    requires IsFinished(g, ordered)
    ensures Searched(g, ordered)
  {
    forall i | 0 <= i < |ordered|
      ensures Reachable(g, ordered[i].name)
    {
      assert Names(ordered)[i] in Names(ordered);
    }
    forall n | Reachable(g, n)
      ensures IsSettled(g, ordered, n)
    {
      ReachableIsSettled(g, ordered, n);
    }
  }

  /** A finished depth-first search lists exactly the reachable packages, none of them on a cycle. */
  lemma {:induction false} SearchIsComplete(g: Graph, ordered: seq<WorkspacePackage>)
    requires IsFinished(g, ordered)
    ensures IsPublishOrder(g, Names(ordered)) && Searched(g, ordered)
  {
    FinishedIsOrder(g, ordered);
    FinishedIsSearched(g, ordered);
  }

  function Workspaces(plan: seq<DevPublishPackage>): (r: seq<WorkspacePackage>)
    ensures |r| == |plan|
    ensures forall i | 0 <= i < |r| :: r[i] == plan[i].workspace
  {
    seq(|plan|, i requires 0 <= i < |plan| => plan[i].workspace)
  }

  /** The plan stamps reachable packages, each once, every dependency before its dependents. */
  ghost predicate IsPlan(g: Graph, timestamp: string, plan: seq<DevPublishPackage>) {
    && IsPublishOrder(g, Names(Workspaces(plan)))
    && (forall w | w in Workspaces(plan) :: w.name in g.byName && w == g.byName[w.name])
    && (forall i | 0 <= i < |plan| :: IsStamped(plan[i], timestamp))
  }

  lemma {:induction false} StampsCarry(ordered: seq<WorkspacePackage>, timestamp: string)
    requires StampAll(ordered, timestamp).Ok?
    ensures Workspaces(StampAll(ordered, timestamp).value) == ordered
  {
    StampAllEach(ordered, timestamp);
    var plan := StampAll(ordered, timestamp).value;
    forall i | 0 <= i < |plan|
      ensures plan[i].workspace == ordered[i]
    {
      assert Ok(plan[i]) == Stamp(ordered[i], timestamp);
    }
  }

  lemma {:induction false} StampsAreStamped(ordered: seq<WorkspacePackage>, timestamp: string)
    requires StampAll(ordered, timestamp).Ok?
    ensures forall i: nat | i < |StampAll(ordered, timestamp).value| ::
              IsStamped(StampAll(ordered, timestamp).value[i], timestamp)
  {
    StampAllEach(ordered, timestamp);
    var plan := StampAll(ordered, timestamp).value;
    forall i: nat | i < |plan|
      ensures IsStamped(plan[i], timestamp)
    {
      assert Ok(plan[i]) == Stamp(ordered[i], timestamp);
    }
  }

  lemma {:induction false} StampedIsPlan(g: Graph, ordered: seq<WorkspacePackage>, timestamp: string)
    requires IsPublishOrder(g, Names(ordered)) && Searched(g, ordered)
    requires StampAll(ordered, timestamp).Ok?
    ensures IsPlan(g, timestamp, StampAll(ordered, timestamp).value)
  {
    StampsCarry(ordered, timestamp);
    StampsAreStamped(ordered, timestamp);
  }

  lemma {:induction false} DefectRefusesPlan(g: Graph, e: PlanError, timestamp: string)
    requires Justified(g, e)
    ensures !CanPlan(g, timestamp)
  {
    if e.UnsupportedVersion? {
      var n :| Reachable(g, n) && n in g.byName && g.byName[n].version == e.version;
      assert !IsPublishable(g, n);
    } else {
      assert e.Circular? || e.RetainsUnknown?;
      assert !IsPublishable(g, e.name);
    }
  }

  /** The first package that cannot be stamped decides the error. */
  lemma {:induction false} StampErrorHasCause(ordered: seq<WorkspacePackage>, timestamp: string)
    requires StampAll(ordered, timestamp).Err?
    ensures ordered != []
    ensures if IsTimestamp(timestamp) then exists w :: w in ordered && IsUnsupported(w, StampAll(ordered, timestamp).error)
            else StampAll(ordered, timestamp).error == InvalidTimestamp
  {
    if Stamp(ordered[0], timestamp).Err? {
      assert ordered[0] in ordered;
    } else {
      StampErrorHasCause(ordered[1..], timestamp);
    }
  }

  lemma {:induction false} StampErrorIsJustified(g: Graph, ordered: seq<WorkspacePackage>, timestamp: string)
    requires Searched(g, ordered) && StampAll(ordered, timestamp).Err?
    ensures var e := StampAll(ordered, timestamp).error;
            if IsTimestamp(timestamp) then e.UnsupportedVersion? && Justified(g, e)
            else e == InvalidTimestamp && g.requested != {}
  {
    StampErrorHasCause(ordered, timestamp);
    var w := ordered[0];
    assert w in ordered && Reachable(g, w.name);
    var p :| IsRequestPath(g, p) && p[|p| - 1] == w.name;
    assert p[0] in g.requested;
    if IsTimestamp(timestamp) {
      var v :| v in ordered && IsUnsupported(v, StampAll(ordered, timestamp).error);
      assert Reachable(g, v.name) && g.byName[v.name].version == v.version;
    }
  }

  /**
   * A plan comes back exactly when every package the request reaches is publishable,
   * and it is then a dependency-first list of those packages; every error names a
   * defect that is really there.
   */
  method ResolveDevPublishPlan(workspaces: seq<WorkspacePackage>, requestedNames: seq<string>, timestamp: string)
    returns (r: Result<seq<DevPublishPackage>>)
    ensures r.Ok? <==> CanPlan(RequestGraph(workspaces, requestedNames), timestamp)
    ensures r.Ok? ==> IsPlan(RequestGraph(workspaces, requestedNames), timestamp, r.value)
    ensures r.Err? ==>
              match r.error
              case UnknownRequested(names) => names == Missing(ByName(workspaces), requestedNames) != []
              case InvalidTimestamp => !IsTimestamp(timestamp) && requestedNames != []
              case _ => Justified(RequestGraph(workspaces, requestedNames), r.error)
  {
    var g := RequestGraph(workspaces, requestedNames);
    var missing := Missing(g.byName, requestedNames);
    if missing != [] {
      MissingRefusesPlan(g, requestedNames, timestamp);
      return Err(UnknownRequested(missing));
    }
    var error, ordered := Search(g, requestedNames);
    if error.Some? {
      DefectRefusesPlan(g, error.value, timestamp);
      return Err(error.value);
    }
    SearchIsComplete(g, ordered);
    StampingDecides(g, ordered, timestamp);
    r := StampAll(ordered, timestamp);
  }

  /** After a complete search only the timestamp and the versions matter. */
  lemma {:induction false} StampingDecides(g: Graph, ordered: seq<WorkspacePackage>, timestamp: string)
    requires IsPublishOrder(g, Names(ordered)) && Searched(g, ordered)
    ensures var r := StampAll(ordered, timestamp);
            && (r.Ok? <==> CanPlan(g, timestamp))
            && (r.Ok? ==> IsPlan(g, timestamp, r.value))
            && (r.Err? ==> if IsTimestamp(timestamp) then r.error.UnsupportedVersion? && Justified(g, r.error)
                           else r.error == InvalidTimestamp && g.requested != {})
  {
    if StampAll(ordered, timestamp).Ok? {
      StampsAllow(g, ordered, timestamp);
      StampedIsPlan(g, ordered, timestamp);
    } else {
      StampErrorIsJustified(g, ordered, timestamp);
      if CanPlan(g, timestamp) {
        PlanAllowsStamps(g, ordered, timestamp);
      }
    }
  }

  lemma {:induction false} MissingRefusesPlan(g: Graph, requestedNames: seq<string>, timestamp: string)
    requires g.requested == (set n | n in requestedNames) && Missing(g.byName, requestedNames) != []
    ensures !CanPlan(g, timestamp)
  {
    var n := Missing(g.byName, requestedNames)[0];
    assert n in Missing(g.byName, requestedNames);
    RequestedIsReachable(g, n);
    assert !IsPublishable(g, n);
  }

  method Search(g: Graph, requestedNames: seq<string>) returns (error: Option<PlanError>, ordered: seq<WorkspacePackage>)
    requires WellKeyed(g) && g.requested <= g.byName.Keys && g.requested == set n | n in requestedNames
    ensures error.Some? ==> Justified(g, error.value)
    ensures error.None? ==> IsFinished(g, ordered)
  {
    ordered := [];
    var planner := new Planner(g);
    for i := 0 to |requestedNames|
      invariant planner.Valid() && planner.visiting == {} && planner.g == g
      invariant forall n | n in requestedNames[..i] :: n in planner.visited
    {
      assert IsRequestPath(g, [] + [requestedNames[i]]);
      error := planner.Visit(requestedNames[i], []);
      if error.Some? {
        return;
      }
    }
    assert requestedNames[..|requestedNames|] == requestedNames;
    return None, planner.ordered;
  }

  lemma {:induction false} StampsAllow(g: Graph, ordered: seq<WorkspacePackage>, timestamp: string)
    requires Searched(g, ordered) && StampAll(ordered, timestamp).Ok?
    ensures CanPlan(g, timestamp)
  {
    StampAllEach(ordered, timestamp);
    assert forall w | w in ordered :: Stamp(w, timestamp).Ok?;
    forall n | Reachable(g, n)
      ensures IsPublishable(g, n)
    {
      assert Stamp(g.byName[n], timestamp).Ok?;
    }
    if n :| n in g.requested {
      RequestedIsReachable(g, n);
      assert Stamp(g.byName[n], timestamp).Ok?;
    }
  }

  lemma {:induction false} PlanAllowsStamp(g: Graph, w: WorkspacePackage, timestamp: string)
    requires CanPlan(g, timestamp) && Reachable(g, w.name) && w.name in g.byName && g.byName[w.name] == w
    ensures Stamp(w, timestamp).Ok?
  {
    var p :| IsRequestPath(g, p) && p[|p| - 1] == w.name;
    assert p[0] in g.requested;
    assert IsPublishable(g, w.name);
  }

  lemma {:induction false} PlanAllowsStamps(g: Graph, ordered: seq<WorkspacePackage>, timestamp: string)
    requires Searched(g, ordered) && CanPlan(g, timestamp)
    ensures StampAll(ordered, timestamp).Ok?
  {
    forall i | 0 <= i < |ordered|
      ensures Stamp(ordered[i], timestamp).Ok?
    {
      PlanAllowsStamp(g, ordered[i], timestamp);
    }
    StampAllSucceeds(ordered, timestamp);
  }
}
