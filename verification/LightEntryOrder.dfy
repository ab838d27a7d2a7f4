/**
 * The light-entry walk as a function of the built files: the modules in the order in which a
 * breadth-first walk meets them, and the issues in the order in which it reports them.
 */
module LightEntryOrder {
  import opened Collections

  type Path = string

  datatype Node = Directory | Module(specifiers: seq<string>)

  /**
   * The built files.  A module carries its import specifiers in text order, repeats
   * included; `locate` and `resolve` stand for path resolution against the package root
   * and against an importing file.
   */
  datatype Tree = Tree(nodes: map<Path, Node>, locate: string -> Path, resolve: (Path, string) -> Path)

  datatype Issue =
    | Unresolved(entry: string, target: Path, specifier: string)
    | Disallowed(entry: string, target: Path, specifier: string)

  predicate IsRelative(specifier: string) {
    "./" <= specifier || "../" <= specifier
  }

  predicate IsModule(tree: Tree, p: Path) {
    p in tree.nodes && tree.nodes[p].Module?
  }

  predicate Imports(tree: Tree, m: Path, specifier: string) {
    IsModule(tree, m) && specifier in tree.nodes[m].specifiers
  }

  predicate Resolves(tree: Tree, m: Path, specifier: string) {
    IsModule(tree, tree.resolve(m, specifier))
  }

  /** `new Set(list)` in insertion order. */
  function Distinct(list: seq<string>): (r: seq<string>)
    ensures forall x :: x in r <==> x in list
    ensures forall i, j | 0 <= i < j < |r| :: r[i] != r[j]
  {
    if list == [] then []
    else
      var front, last := Distinct(list[..|list| - 1]), list[|list| - 1];
      assert list == list[..|list| - 1] + [last];
      if last in front then front else front + [last]
  }

  /** The order is that of first occurrences: nothing occurs before what is listed before it. */
  lemma {:induction false} DistinctKeepsOrder(list: seq<string>, i: nat, j: nat, k: nat)
    requires i < j < |Distinct(list)| && k < |list| && list[k] == Distinct(list)[j]
    ensures Distinct(list)[i] in list[..k]
  {
    var n := |list| - 1;
    var front := Distinct(list[..n]);
    assert list == list[..n] + [list[n]];
    if k < n {
      assert list[k] in list[..n] && list[k] in front;
      var l :| 0 <= l < |front| && front[l] == list[k];
      assert Distinct(list)[l] == front[l];
      assert l == j;
      DistinctKeepsOrder(list[..n], i, j, k);
      assert list[..n][..k] == list[..k];
    } else {
      assert Distinct(list)[i] == front[i] && front[i] in front;
    }
  }

  // ----- reachability ----------------------------------------------------------------

  /** `a` imports `b` through a relative specifier that resolves. */
  ghost predicate Links(tree: Tree, a: Path, b: Path) {
    exists s :: Imports(tree, a, s) && IsRelative(s) && Resolves(tree, a, s) && tree.resolve(a, s) == b
  }

  ghost predicate IsPath(tree: Tree, p: seq<Path>) {
    |p| > 0 && forall i | 0 <= i < |p| - 1 :: Links(tree, p[i], p[i + 1])
  }

  ghost predicate Reachable(tree: Tree, start: Path, m: Path) {
    exists p :: IsPath(tree, p) && p[0] == start && p[|p| - 1] == m
  }

  lemma {:induction false} ReachableStart(tree: Tree, start: Path)
    ensures Reachable(tree, start, start)
  {
    assert IsPath(tree, [start]);
  }

  lemma {:induction false} ReachableStep(tree: Tree, start: Path, a: Path, b: Path)
    requires Reachable(tree, start, a) && Links(tree, a, b)
    ensures Reachable(tree, start, b)
  {
    var p :| IsPath(tree, p) && p[0] == start && p[|p| - 1] == a;
    assert IsPath(tree, p + [b]);
  }

  /** A set that holds the start and is closed under links holds everything reachable. */
  lemma {:induction false} ClosedHoldsPath(tree: Tree, visited: set<Path>, p: seq<Path>)
    requires IsPath(tree, p) && p[0] in visited
    requires forall a, b | a in visited && Links(tree, a, b) :: b in visited
    ensures p[|p| - 1] in visited
    decreases |p|
  {
    if |p| > 1 {
      assert Links(tree, p[0], p[1]);
      forall i | 0 <= i < |p[1..]| - 1
        ensures Links(tree, p[1..][i], p[1..][i + 1])
      {
        assert Links(tree, p[i + 1], p[i + 1 + 1]);
      }
      ClosedHoldsPath(tree, visited, p[1..]);
    }
  }

  // ----- what the issues say ------------------------------------------------------------

  type Import = (Path, string)

  predicate IsOffending(allowed: seq<string>, specifier: string) {
    !IsRelative(specifier) && specifier !in allowed
  }

  /** The issues are exactly the findings about the imports in `seen`, each external once. */
  ghost predicate Explains(tree: Tree, entry: string, allowed: seq<string>, seen: set<Import>, issues: seq<Issue>) {
    && NoDuplicates(issues)
    && (forall x | x in issues :: x.entry == entry && (x.target, x.specifier) in seen)
    && (forall m, s :: Unresolved(entry, m, s) in issues <==> (m, s) in seen && IsRelative(s) && !Resolves(tree, m, s))
    && (forall m, s | Disallowed(entry, m, s) in issues :: IsOffending(allowed, s))
    && (forall m, s | (m, s) in seen && IsOffending(allowed, s) :: Flagged(entry, issues, s))
    && (forall m, n, s | Disallowed(entry, m, s) in issues && Disallowed(entry, n, s) in issues :: m == n)
  }

  ghost predicate Flagged(entry: string, issues: seq<Issue>, specifier: string) {
    exists m :: Disallowed(entry, m, specifier) in issues
  }

  lemma {:induction false} SeenInnocent(tree: Tree, entry: string, allowed: seq<string>, seen: set<Import>,
                                        issues: seq<Issue>, m: Path, s: string)
    requires Explains(tree, entry, allowed, seen, issues)
    requires IsRelative(s) ==> Resolves(tree, m, s)
    requires IsOffending(allowed, s) ==> Flagged(entry, issues, s)
    ensures Explains(tree, entry, allowed, seen + {(m, s)}, issues)
  {
  }

  lemma {:induction false} SeenUnresolved(tree: Tree, entry: string, allowed: seq<string>, seen: set<Import>,
                                          issues: seq<Issue>, m: Path, s: string)
    requires Explains(tree, entry, allowed, seen, issues)
    requires (m, s) !in seen && IsRelative(s) && !Resolves(tree, m, s)
    ensures Explains(tree, entry, allowed, seen + {(m, s)}, issues + [Unresolved(entry, m, s)])
  {
    var more := issues + [Unresolved(entry, m, s)];
    assert forall x :: x in more <==> x in issues || x == Unresolved(entry, m, s);
    forall n, t | (n, t) in seen && IsOffending(allowed, t)
      ensures Flagged(entry, more, t)
    {
      var k :| Disallowed(entry, k, t) in issues;
      assert Disallowed(entry, k, t) in more;
    }
  }

  lemma {:induction false} SeenDisallowed(tree: Tree, entry: string, allowed: seq<string>, seen: set<Import>,
                                          issues: seq<Issue>, m: Path, s: string)
    requires Explains(tree, entry, allowed, seen, issues)
    requires IsOffending(allowed, s) && !Flagged(entry, issues, s)
    ensures Explains(tree, entry, allowed, seen + {(m, s)}, issues + [Disallowed(entry, m, s)])
  {
    var more := issues + [Disallowed(entry, m, s)];
    assert forall x :: x in more <==> x in issues || x == Disallowed(entry, m, s);
    assert Flagged(entry, more, s);
    forall n, t | (n, t) in seen && IsOffending(allowed, t)
      ensures Flagged(entry, more, t)
    {
      var k :| Disallowed(entry, k, t) in issues;
      assert Disallowed(entry, k, t) in more;
    }
  }

  // ----- the walk as a function -----------------------------------------------------------

  /** The modules met so far, after one more specifier of `m`. */
  function Discover(tree: Tree, m: Path, s: string, order: seq<Path>): seq<Path> {
    if IsRelative(s) && Resolves(tree, m, s) && tree.resolve(m, s) !in order then order + [tree.resolve(m, s)]
    else order
  }

  function DiscoverAll(tree: Tree, m: Path, specifiers: seq<string>, order: seq<Path>): seq<Path> {
    if specifiers == [] then order
    else
      var n := |specifiers| - 1;
      Discover(tree, m, specifiers[n], DiscoverAll(tree, m, specifiers[..n], order))
  }

  predicate IsReported(issues: seq<Issue>, s: string) {
    exists x | x in issues :: x.Disallowed? && x.specifier == s
  }

  /** The issues so far, after one more specifier of `m`. */
  function Report(tree: Tree, entry: string, allowed: seq<string>, m: Path, s: string, issues: seq<Issue>): seq<Issue> {
    if IsRelative(s) then
      if Resolves(tree, m, s) then issues else issues + [Unresolved(entry, m, s)]
    else if s in allowed || IsReported(issues, s) then issues
    else issues + [Disallowed(entry, m, s)]
  }

  function ReportAll(tree: Tree, entry: string, allowed: seq<string>, m: Path, specifiers: seq<string>,
                     issues: seq<Issue>): seq<Issue>
  {
    if specifiers == [] then issues
    else
      var n := |specifiers| - 1;
      Report(tree, entry, allowed, m, specifiers[n], ReportAll(tree, entry, allowed, m, specifiers[..n], issues))
  }

  function SpecifiersOf(tree: Tree, m: Path): seq<string> {
    if IsModule(tree, m) then Distinct(tree.nodes[m].specifiers) else []
  }

  /** The modules met after `k` turns, in the order in which they are met. */
  function Order(tree: Tree, start: Path, k: nat): seq<Path> {
    if k == 0 then [start]
    else
      var order := Order(tree, start, k - 1);
      if k <= |order| then DiscoverAll(tree, order[k - 1], SpecifiersOf(tree, order[k - 1]), order) else order
  }

  /** The issues of the modules, taken in the given order. */
  function IssuesOf(tree: Tree, entry: string, allowed: seq<string>, modules: seq<Path>): seq<Issue> {
    if modules == [] then []
    else
      var n := |modules| - 1;
      ReportAll(tree, entry, allowed, modules[n], SpecifiersOf(tree, modules[n]), IssuesOf(tree, entry, allowed, modules[..n]))
  }

  /** After `k` turns every module met has had its turn. */
  predicate IsComplete(tree: Tree, start: Path, k: nat) {
    |Order(tree, start, k)| == k
  }

  // ----- the order ------------------------------------------------------------------------

  lemma {:induction false} DiscoverGrows(tree: Tree, m: Path, specifiers: seq<string>, order: seq<Path>)
    ensures order <= DiscoverAll(tree, m, specifiers, order)
  {
    if specifiers != [] {
      DiscoverGrows(tree, m, specifiers[..|specifiers| - 1], order);
    }
  }

  lemma {:induction false} DiscoverIsDistinct(tree: Tree, m: Path, specifiers: seq<string>, order: seq<Path>)
    requires NoDuplicates(order)
    ensures NoDuplicates(DiscoverAll(tree, m, specifiers, order))
  {
    if specifiers != [] {
      DiscoverIsDistinct(tree, m, specifiers[..|specifiers| - 1], order);
    }
  }

  /** What one turn meets: the old modules, and the targets of the relative imports that resolve. */
  lemma {:induction false} DiscoveredExactly(tree: Tree, m: Path, specifiers: seq<string>, order: seq<Path>, b: Path)
    ensures b in DiscoverAll(tree, m, specifiers, order) <==>
            b in order || exists s | s in specifiers :: IsRelative(s) && Resolves(tree, m, s) && tree.resolve(m, s) == b
  {
    if specifiers != [] {
      var n := |specifiers| - 1;
      DiscoveredExactly(tree, m, specifiers[..n], order, b);
      assert forall s :: s in specifiers <==> s in specifiers[..n] || s == specifiers[n];
    }
  }

  lemma {:induction false} OrderGrows(tree: Tree, start: Path, k: nat, n: nat)
    requires k <= n
    ensures Order(tree, start, k) <= Order(tree, start, n)
    decreases n
  {
    if k < n {
      var order := Order(tree, start, n - 1);
      OrderGrows(tree, start, k, n - 1);
      if n <= |order| {
        DiscoverGrows(tree, order[n - 1], SpecifiersOf(tree, order[n - 1]), order);
      }
    }
  }

  lemma {:induction false} OrderIsDistinct(tree: Tree, start: Path, n: nat)
    ensures NoDuplicates(Order(tree, start, n))
  {
    if n > 0 {
      var order := Order(tree, start, n - 1);
      OrderIsDistinct(tree, start, n - 1);
      if n <= |order| {
        DiscoverIsDistinct(tree, order[n - 1], SpecifiersOf(tree, order[n - 1]), order);
      }
    }
  }

  lemma {:induction false} Position(order: seq<Path>, m: Path) returns (k: nat)
    requires m in order
    ensures k < |order| && order[k] == m
  {
    k :| 0 <= k < |order| && order[k] == m;
  }

  /** One turn adds exactly what its module links to. */
  lemma {:induction false} TurnLinks(tree: Tree, start: Path, k: nat, b: Path)
    requires k < |Order(tree, start, k)|
    ensures b in Order(tree, start, k + 1) <==> b in Order(tree, start, k) || Links(tree, Order(tree, start, k)[k], b)
  {
    var order := Order(tree, start, k);
    DiscoveredExactly(tree, order[k], SpecifiersOf(tree, order[k]), order, b);
  }

  /** The links of a module that has had its turn have been met by then. */
  lemma {:induction false} LinksAreMet(tree: Tree, start: Path, k: nat, n: nat, b: Path)
    requires k < n && k < |Order(tree, start, n)| && Links(tree, Order(tree, start, n)[k], b)
    requires k < |Order(tree, start, k)|
    ensures b in Order(tree, start, k + 1)
  {
    OrderGrows(tree, start, k, n);
    assert Order(tree, start, n)[k] == Order(tree, start, k)[k];
    TurnLinks(tree, start, k, b);
  }

  /** Every module but the first was met through a link from one whose turn came before. */
  lemma {:induction false} HasParent(tree: Tree, start: Path, k: nat, b: Path) returns (i: nat)
    requires b in Order(tree, start, k) && b != start
    ensures i < k && i < |Order(tree, start, i)| && Links(tree, Order(tree, start, i)[i], b)
    decreases k
  {
    if b in Order(tree, start, k - 1) {
      i := HasParent(tree, start, k - 1, b);
    } else {
      i := k - 1;
      TurnLinks(tree, start, i, b);
    }
  }

  lemma {:induction false} MetIsReachable(tree: Tree, start: Path, k: nat, b: Path)
    requires IsModule(tree, start) && b in Order(tree, start, k)
    ensures IsModule(tree, b) && Reachable(tree, start, b)
    decreases k
  {
    if b == start {
      ReachableStart(tree, start);
    } else {
      var i := HasParent(tree, start, k, b);
      var a := Order(tree, start, i)[i];
      MetIsReachable(tree, start, i, a);
      ReachableStep(tree, start, a, b);
    }
  }

  /** There are no more turns than modules. */
  lemma {:induction false} TurnsAreBounded(tree: Tree, start: Path, k: nat)
    requires IsModule(tree, start)
    ensures |Order(tree, start, k)| <= |tree.nodes|
  {
    var order := Order(tree, start, k);
    OrderIsDistinct(tree, start, k);
    forall i | 0 <= i < |order|
      ensures order[i] in tree.nodes.Keys
    {
      MetIsReachable(tree, start, k, order[i]);
    }
    DistinctFit(order, tree.nodes.Keys);
  }

  lemma {:induction false} DistinctFit(order: seq<Path>, keys: set<Path>)
    requires NoDuplicates(order) && forall i | 0 <= i < |order| :: order[i] in keys
    ensures |order| <= |keys|
  {
    if order != [] {
      var n := |order| - 1;
      DistinctFit(order[..n], keys - {order[n]});
    }
  }

  lemma {:induction false} TurnCame(tree: Tree, start: Path, n: nat, k: nat)
    requires IsComplete(tree, start, n) && k < n
    ensures k < |Order(tree, start, k)|
    decreases n - k
  {
    OrderGrows(tree, start, k, n);
    if |Order(tree, start, k)| <= k {
      Stuck(tree, start, k, n);
    }
  }

  /** Without a module whose turn it is nothing more happens. */
  lemma {:induction false} Stuck(tree: Tree, start: Path, k: nat, n: nat)
    requires |Order(tree, start, k)| <= k <= n
    ensures Order(tree, start, n) == Order(tree, start, k)
    decreases n
  {
    if k < n {
      Stuck(tree, start, k, n - 1);
    }
  }

  // ----- a sweep ------------------------------------------------------------------------------

  /** One of the modules up to `order[k]` links to `b`. */
  ghost predicate IsLinkedBy(tree: Tree, order: seq<Path>, k: nat, b: Path) {
    exists h | 0 <= h <= k && h < |order| :: Links(tree, order[h], b)
  }

  /**
   * `order` lists modules as a breadth-first walk meets them, and `ends[k]` says how many
   * have been met when the turn of `order[k]` is over.
   */
  ghost predicate IsSweep(tree: Tree, start: Path, order: seq<Path>, ends: seq<nat>) {
    && |ends| == |order| > 0 && order[0] == start && NoDuplicates(order)
    && (forall k | 0 <= k < |order| :: ends[k] <= |order|)
    && (forall k, b | 0 <= k < |order| && Links(tree, order[k], b) :: b in order[..ends[k]])
    && (forall k, i | 0 <= k < |order| && 0 < i < ends[k] :: IsLinkedBy(tree, order, k, order[i]))
  }

  /** The number of turns of a complete walk is determined. */
  lemma {:induction false} CompleteOnce(tree: Tree, start: Path, k: nat, n: nat)
    requires IsComplete(tree, start, k) && IsComplete(tree, start, n)
    ensures k == n
  {
    if k < n {
      Stuck(tree, start, k, n);
    } else {
      Stuck(tree, start, n, k);
    }
  }

  lemma {:induction false} PathIsMet(tree: Tree, start: Path, order: seq<Path>, ends: seq<nat>, p: seq<Path>)
    requires IsSweep(tree, start, order, ends) && IsPath(tree, p) && p[0] == start
    ensures p[|p| - 1] in order
  {
    forall a, b | a in order && Links(tree, a, b)
      ensures b in order
    {
      var k := Position(order, a);
      assert b in order[..ends[k]];
    }
    ClosedHoldsPath(tree, (set x | x in order), p);
  }

  ghost predicate IsPathTo(tree: Tree, start: Path, m: Path, p: seq<Path>) {
    IsPath(tree, p) && p[0] == start && p[|p| - 1] == m
  }

  /** Some chain of at most `length` modules leads from the start to `m`. */
  ghost predicate Within(tree: Tree, start: Path, m: Path, length: nat) {
    exists p :: IsPathTo(tree, start, m, p) && |p| <= length
  }

  lemma {:induction false} WithinStep(tree: Tree, start: Path, a: Path, b: Path, length: nat)
    requires Within(tree, start, a, length) && Links(tree, a, b)
    ensures Within(tree, start, b, length + 1)
  {
    var p :| IsPathTo(tree, start, a, p) && |p| <= length;
    assert IsPathTo(tree, start, b, p + [b]);
  }

  lemma {:induction false} ShorterPath(tree: Tree, start: Path, p: seq<Path>)
    requires IsPath(tree, p) && p[0] == start && |p| > 1
    ensures var n := |p| - 1; IsPathTo(tree, start, p[n - 1], p[..n]) && Links(tree, p[n - 1], p[n])
  {
    var n := |p| - 1;
    var i := n - 1;
    assert Links(tree, p[i], p[i + 1]);
    forall i | 0 <= i < n - 1
      ensures Links(tree, p[..n][i], p[..n][i + 1])
    {
      assert Links(tree, p[i], p[i + 1]);
    }
  }

  /** Whatever links to a later module, an earlier one had been linked to by then. */
  lemma {:induction false} EarlierParent(tree: Tree, start: Path, order: seq<Path>, ends: seq<nat>, i: nat, j: nat, k: nat)
    returns (h: nat)
    requires IsSweep(tree, start, order, ends) && 0 < i <= j < |order| && k < |order| && Links(tree, order[k], order[j])
    ensures h <= k && Links(tree, order[h], order[i])
  {
    var l := Position(order[..ends[k]], order[j]);
    assert order[l] == order[j] && l == j;
    assert IsLinkedBy(tree, order, k, order[i]);
    h :| 0 <= h <= k && h < |order| && Links(tree, order[h], order[i]);
  }

  /** Modules are met in the order of their distance: an earlier one is never farther away. */
  lemma {:induction false} NearestFirst(tree: Tree, start: Path, order: seq<Path>, ends: seq<nat>, i: nat, j: nat, p: seq<Path>)
    requires IsSweep(tree, start, order, ends) && i <= j < |order| && IsPathTo(tree, start, order[j], p)
    ensures Within(tree, start, order[i], |p|)
    decreases |p|
  {
    if i == 0 {
      assert IsPathTo(tree, start, start, [start]);
    } else {
      assert order[j] != order[0];
      var n := |p| - 1;
      ShorterPath(tree, start, p);
      PathIsMet(tree, start, order, ends, p[..n]);
      var k := Position(order, p[n - 1]);
      var h := EarlierParent(tree, start, order, ends, i, j, k);
      NearestFirst(tree, start, order, ends, h, k, p[..n]);
      WithinStep(tree, start, order[h], order[i], n);
    }
  }

  // ----- the walk is a sweep ---------------------------------------------------------------------

  ghost function Ends(tree: Tree, start: Path, n: nat): (r: seq<nat>)
    ensures |r| == n && forall k | 0 <= k < n :: r[k] == |Order(tree, start, k + 1)|
  {
    seq(n, k requires 0 <= k < n => |Order(tree, start, k + 1)|)
  }

  lemma {:induction false} ParentStands(tree: Tree, start: Path, n: nat, k: nat, b: Path)
    requires k < n && b in Order(tree, start, k + 1) && b != start
    ensures IsLinkedBy(tree, Order(tree, start, n), k, b)
  {
    var h := HasParent(tree, start, k + 1, b);
    OrderGrows(tree, start, h, n);
    LinkedAt(tree, Order(tree, start, h), Order(tree, start, n), h, k, b);
  }

  lemma {:induction false} LinkedAt(tree: Tree, order: seq<Path>, more: seq<Path>, h: nat, k: nat, b: Path)
    requires order <= more && h < |order| && h <= k && Links(tree, order[h], b)
    ensures IsLinkedBy(tree, more, k, b)
  {
    assert more[h] == order[h];
  }

  lemma {:induction false} WalkIsSweep(tree: Tree, start: Path, n: nat)
    requires IsComplete(tree, start, n)
    ensures IsSweep(tree, start, Order(tree, start, n), Ends(tree, start, n))
  {
    var order, ends := Order(tree, start, n), Ends(tree, start, n);
    OrderIsDistinct(tree, start, n);
    OrderGrows(tree, start, 0, n);
    assert order[0] == start;
    forall k | 0 <= k < n
      ensures ends[k] <= n && order[..ends[k]] == Order(tree, start, k + 1)
    {
      OrderGrows(tree, start, k + 1, n);
    }
    forall k, b | 0 <= k < n && Links(tree, order[k], b)
      ensures b in order[..ends[k]]
    {
      TurnCame(tree, start, n, k);
      LinksAreMet(tree, start, k, n, b);
    }
    forall k, i | 0 <= k < n && 0 < i < ends[k]
      ensures IsLinkedBy(tree, order, k, order[i])
    {
      assert order[..ends[k]][i] == order[i];
      ParentStands(tree, start, n, k, order[i]);
    }
  }

  /** A complete walk has met exactly the reachable modules. */
  lemma {:induction false} MetExactly(tree: Tree, start: Path, n: nat, m: Path)
    requires IsModule(tree, start) && IsComplete(tree, start, n)
    ensures m in Order(tree, start, n) <==> Reachable(tree, start, m)
  {
    if m in Order(tree, start, n) {
      MetIsReachable(tree, start, n, m);
    }
    if Reachable(tree, start, m) {
      var p :| IsPath(tree, p) && p[0] == start && p[|p| - 1] == m;
      WalkIsSweep(tree, start, n);
      PathIsMet(tree, start, Order(tree, start, n), Ends(tree, start, n), p);
    }
  }

  // ----- the issues ------------------------------------------------------------------------

  lemma {:induction false} FlaggedByIssue(entry: string, issues: seq<Issue>, specifier: string)
    requires forall x | x in issues :: x.entry == entry
    ensures Flagged(entry, issues, specifier) <==> IsReported(issues, specifier)
  {
    if x :| x in issues && x.Disallowed? && x.specifier == specifier {
      assert x == Disallowed(entry, x.target, specifier);
    }
  }

  /** One specifier keeps the issues explained. */
  lemma {:induction false} ReportExplains(tree: Tree, entry: string, allowed: seq<string>, seen: set<Import>,
                                          issues: seq<Issue>, m: Path, s: string)
    requires Explains(tree, entry, allowed, seen, issues) && (m, s) !in seen
    ensures Explains(tree, entry, allowed, seen + {(m, s)}, Report(tree, entry, allowed, m, s, issues))
  {
    FlaggedByIssue(entry, issues, s);
    if IsRelative(s) && !Resolves(tree, m, s) {
      SeenUnresolved(tree, entry, allowed, seen, issues, m, s);
    } else if IsOffending(allowed, s) && !Flagged(entry, issues, s) {
      SeenDisallowed(tree, entry, allowed, seen, issues, m, s);
    } else {
      SeenInnocent(tree, entry, allowed, seen, issues, m, s);
    }
  }

  function ImportsOf(m: Path, specifiers: seq<string>): set<Import> {
    set s | s in specifiers :: (m, s)
  }

  lemma {:induction false} ReportAllExplains(tree: Tree, entry: string, allowed: seq<string>, seen: set<Import>,
                                             issues: seq<Issue>, m: Path, specifiers: seq<string>)
    requires Explains(tree, entry, allowed, seen, issues) && NoDuplicates(specifiers)
    requires forall s | s in specifiers :: (m, s) !in seen
    ensures Explains(tree, entry, allowed, seen + ImportsOf(m, specifiers),
                     ReportAll(tree, entry, allowed, m, specifiers, issues))
  {
    if specifiers == [] {
      assert seen + ImportsOf(m, specifiers) == seen;
    } else {
      var n := |specifiers| - 1;
      var front, last := specifiers[..n], specifiers[n];
      ReportAllExplains(tree, entry, allowed, seen, issues, m, front);
      assert last !in front;
      assert (m, last) !in seen + ImportsOf(m, front);
      ReportExplains(tree, entry, allowed, seen + ImportsOf(m, front), ReportAll(tree, entry, allowed, m, front, issues), m, last);
      assert seen + ImportsOf(m, front) + {(m, last)} == seen + ImportsOf(m, specifiers);
    }
  }

  ghost function ImportsIn(tree: Tree, modules: seq<Path>): set<Import> {
    set m, s | m in modules && s in SpecifiersOf(tree, m) :: (m, s)
  }

  lemma {:induction false} ImportsSnoc(tree: Tree, modules: seq<Path>)
    requires modules != []
    ensures var n := |modules| - 1;
            ImportsIn(tree, modules) == ImportsIn(tree, modules[..n]) + ImportsOf(modules[n], SpecifiersOf(tree, modules[n]))
  {
    var n := |modules| - 1;
    assert forall m :: m in modules <==> m in modules[..n] || m == modules[n];
  }

  lemma {:induction false} IssuesExplained(tree: Tree, entry: string, allowed: seq<string>, modules: seq<Path>)
    requires NoDuplicates(modules)
    ensures Explains(tree, entry, allowed, ImportsIn(tree, modules), IssuesOf(tree, entry, allowed, modules))
  {
    if modules != [] {
      var n := |modules| - 1;
      IssuesExplained(tree, entry, allowed, modules[..n]);
      assert modules[n] !in modules[..n];
      ReportAllExplains(tree, entry, allowed, ImportsIn(tree, modules[..n]), IssuesOf(tree, entry, allowed, modules[..n]),
                        modules[n], SpecifiersOf(tree, modules[n]));
      ImportsSnoc(tree, modules);
    }
  }

  /**
   * What is reported for an entry: every reachable relative import without a file, once
   * per module; every reachable external off the allowlist, once per entry and with a
   * module that really imports it; nothing else.
   */
  ghost predicate Findings(tree: Tree, entry: string, allowed: seq<string>, start: Path, issues: seq<Issue>) {
    && NoDuplicates(issues)
    && (forall x | x in issues :: x.entry == entry)
    && (forall m, s :: Unresolved(entry, m, s) in issues <==>
          Reachable(tree, start, m) && Imports(tree, m, s) && IsRelative(s) && !Resolves(tree, m, s))
    && (forall m, s | Disallowed(entry, m, s) in issues ::
          Reachable(tree, start, m) && Imports(tree, m, s) && IsOffending(allowed, s))
    && (forall m, s | Reachable(tree, start, m) && Imports(tree, m, s) && IsOffending(allowed, s) ::
          Flagged(entry, issues, s))
    && (forall m, n, s | Disallowed(entry, m, s) in issues && Disallowed(entry, n, s) in issues :: m == n)
  }

  /** Everything reachable is allowed and resolves. */
  ghost predicate Clean(tree: Tree, allowed: seq<string>, start: Path) {
    forall m, s | Reachable(tree, start, m) && Imports(tree, m, s) ::
      !IsOffending(allowed, s) && (IsRelative(s) ==> Resolves(tree, m, s))
  }

  lemma {:induction false} NoFindingsMeansClean(tree: Tree, entry: string, allowed: seq<string>, start: Path,
                                                issues: seq<Issue>)
    requires Findings(tree, entry, allowed, start, issues)
    ensures issues == [] <==> Clean(tree, allowed, start)
  {
    if issues == [] {
      forall m, s | Reachable(tree, start, m) && Imports(tree, m, s)
        ensures !IsOffending(allowed, s) && (IsRelative(s) ==> Resolves(tree, m, s))
      {
        assert !Flagged(entry, issues, s);
        assert Unresolved(entry, m, s) !in issues;
      }
    } else {
      var x := issues[0];
      assert x in issues;
      assert x == Unresolved(entry, x.target, x.specifier) || x == Disallowed(entry, x.target, x.specifier);
    }
  }

  /** A complete walk reports exactly what is to be reported. */
  lemma {:induction false} WalkFinds(tree: Tree, entry: string, allowed: seq<string>, start: Path, n: nat)
    requires IsModule(tree, start) && IsComplete(tree, start, n)
    ensures Findings(tree, entry, allowed, start, IssuesOf(tree, entry, allowed, Order(tree, start, n)))
  {
    var order := Order(tree, start, n);
    OrderIsDistinct(tree, start, n);
    IssuesExplained(tree, entry, allowed, order);
    forall m, s
      ensures (m, s) in ImportsIn(tree, order) <==> Reachable(tree, start, m) && Imports(tree, m, s)
    {
      MetExactly(tree, start, n, m);
    }
    ExplainedIsFound(tree, entry, allowed, start, ImportsIn(tree, order), IssuesOf(tree, entry, allowed, order));
  }

  lemma {:induction false} ExplainedIsFound(tree: Tree, entry: string, allowed: seq<string>, start: Path,
                                            seen: set<Import>, issues: seq<Issue>)
    requires Explains(tree, entry, allowed, seen, issues)
    requires forall m, s :: (m, s) in seen <==> Reachable(tree, start, m) && Imports(tree, m, s)
    ensures Findings(tree, entry, allowed, start, issues)
  {
  }

  // ----- who is reported ---------------------------------------------------------------------

  /** An external is reported for the first module, in the order of the walk, that imports it. */
  ghost predicate IsFirstImporter(tree: Tree, order: seq<Path>, m: Path, s: string) {
    exists k | 0 <= k < |order| ::
      order[k] == m && Imports(tree, m, s) && forall i | 0 <= i < k :: !Imports(tree, order[i], s)
  }

  lemma {:induction false} AddedByModule(tree: Tree, entry: string, allowed: seq<string>, m: Path,
                                         specifiers: seq<string>, issues: seq<Issue>, x: Issue)
    requires x in ReportAll(tree, entry, allowed, m, specifiers, issues) && x !in issues
    ensures x.target == m && x.specifier in specifiers
    ensures x.Disallowed? ==> IsOffending(allowed, x.specifier) && !IsReported(issues, x.specifier)
  {
    var n := |specifiers| - 1;
    var front := ReportAll(tree, entry, allowed, m, specifiers[..n], issues);
    if x in front {
      AddedByModule(tree, entry, allowed, m, specifiers[..n], issues, x);
    } else {
      KeptByModule(tree, entry, allowed, m, specifiers[..n], issues);
      assert x.Disallowed? ==> !IsReported(front, x.specifier);
    }
  }

  lemma {:induction false} KeptByModule(tree: Tree, entry: string, allowed: seq<string>, m: Path,
                                        specifiers: seq<string>, issues: seq<Issue>)
    ensures forall x | x in issues :: x in ReportAll(tree, entry, allowed, m, specifiers, issues)
  {
    if specifiers != [] {
      KeptByModule(tree, entry, allowed, m, specifiers[..|specifiers| - 1], issues);
    }
  }

  lemma {:induction false} FirstReports(tree: Tree, entry: string, allowed: seq<string>, modules: seq<Path>, m: Path, s: string)
    requires NoDuplicates(modules) && Disallowed(entry, m, s) in IssuesOf(tree, entry, allowed, modules)
    ensures IsFirstImporter(tree, modules, m, s)
  {
    var n := |modules| - 1;
    if Disallowed(entry, m, s) in IssuesOf(tree, entry, allowed, modules[..n]) {
      FirstReports(tree, entry, allowed, modules[..n], m, s);
      StaysFirst(tree, modules[..n], modules, m, s);
    } else {
      AddedByModule(tree, entry, allowed, modules[n], SpecifiersOf(tree, modules[n]),
                    IssuesOf(tree, entry, allowed, modules[..n]), Disallowed(entry, m, s));
      NotImportedBefore(tree, entry, allowed, modules[..n], s);
      assert forall i | 0 <= i < n :: modules[i] == modules[..n][i];
      assert modules[n] == m;
    }
  }

  lemma {:induction false} StaysFirst(tree: Tree, order: seq<Path>, more: seq<Path>, m: Path, s: string)
    requires order <= more && IsFirstImporter(tree, order, m, s)
    ensures IsFirstImporter(tree, more, m, s)
  {
    var k :| 0 <= k < |order| && order[k] == m && Imports(tree, m, s) && forall i | 0 <= i < k :: !Imports(tree, order[i], s);
    assert more[k] == m && forall i | 0 <= i < k :: more[i] == order[i];
  }

  lemma {:induction false} NotImportedBefore(tree: Tree, entry: string, allowed: seq<string>, modules: seq<Path>, s: string)
    requires NoDuplicates(modules) && IsOffending(allowed, s) && !IsReported(IssuesOf(tree, entry, allowed, modules), s)
    ensures forall i | 0 <= i < |modules| :: !Imports(tree, modules[i], s)
  {
    var issues, seen := IssuesOf(tree, entry, allowed, modules), ImportsIn(tree, modules);
    IssuesExplained(tree, entry, allowed, modules);
    FlaggedByIssue(entry, issues, s);
    forall i | 0 <= i < |modules|
      ensures !Imports(tree, modules[i], s)
    {
      assert (modules[i], s) !in seen;
    }
  }

  /**
   * The module named for a disallowed external is a nearest one: whatever chain of imports
   * leads to an importer of it, one that is no longer leads to the module named.
   */
  lemma {:induction false} NearestIsReported(tree: Tree, entry: string, allowed: seq<string>, start: Path, n: nat,
                                             m: Path, s: string, p: seq<Path>)
    requires IsComplete(tree, start, n)
    requires Disallowed(entry, m, s) in IssuesOf(tree, entry, allowed, Order(tree, start, n))
    requires IsPath(tree, p) && p[0] == start && Imports(tree, p[|p| - 1], s)
    ensures Within(tree, start, m, |p|)
  {
    WalkIsSweep(tree, start, n);
    NearestInSweep(tree, entry, allowed, start, Order(tree, start, n), Ends(tree, start, n), m, s, p);
  }

  lemma {:induction false} NearestInSweep(tree: Tree, entry: string, allowed: seq<string>, start: Path, order: seq<Path>,
                                          ends: seq<nat>, m: Path, s: string, p: seq<Path>)
    requires IsSweep(tree, start, order, ends) && Disallowed(entry, m, s) in IssuesOf(tree, entry, allowed, order)
    requires IsPath(tree, p) && p[0] == start && Imports(tree, p[|p| - 1], s)
    ensures Within(tree, start, m, |p|)
  {
    FirstReports(tree, entry, allowed, order, m, s);
    PathIsMet(tree, start, order, ends, p);
    var k :| 0 <= k < |order| && order[k] == m && forall i | 0 <= i < k :: !Imports(tree, order[i], s);
    var j := Position(order, p[|p| - 1]);
    NearestFirst(tree, start, order, ends, k, j, p);
  }

  /** A relative specifier starts with a dot and a slash, or two dots and a slash. */
  lemma {:induction false} RelativeByPrefix(s: string)
    ensures IsRelative(s) <==> exists rest :: s == "./" + rest || s == "../" + rest
  {
    if "./" <= s {
      assert s == "./" + s[2..];
    }
    if "../" <= s {
      assert s == "../" + s[3..];
    }
  }
}
