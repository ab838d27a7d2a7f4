/**
 * The light-entry check: a worklist walk over the relative imports of a built entry,
 * reporting externals that its allowlist does not name and imports without a file.
 */
module LightEntries {
  import opened Collections
  import opened LightEntryOrder

  /** The worklist state of one entry. */
  class Walk {
    const tree: Tree
    const entry: string
    const allowed: seq<string>
    const start: Path
    var visited: set<Path>
    var queue: seq<Path>
    var reported: set<string>
    var issues: seq<Issue>
    ghost var order: seq<Path>
    ghost var turns: nat

    /** The modules met so far are the visited ones; the queue holds those whose turn is still to come. */
    ghost predicate Valid()
      reads this
    {
      && (forall m :: m in visited <==> m in order)
      && turns <= |order| && queue == order[turns..]
      && (forall s :: s in reported <==> IsReported(issues, s))
    }

    /** Between two turns the walk is where the function says. */
    ghost predicate Between()
      reads this
    {
      && Valid() && IsModule(tree, start)
      && order == Order(tree, start, turns)
      && issues == IssuesOf(tree, entry, allowed, order[..turns])
    }

    constructor (tree: Tree, entry: string, allowed: seq<string>, start: Path)
      requires IsModule(tree, start)
      ensures Between() && turns == 0
      ensures this.tree == tree && this.entry == entry && this.allowed == allowed && this.start == start
    {
      this.tree, this.entry, this.allowed, this.start := tree, entry, allowed, start;
      visited, queue, reported, issues := {start}, [start], {}, [];
      order, turns := [start], 0;
    }

    /** One specifier of one module. */
    method Process(file: Path, specifier: string)
      requires Valid()
      modifies this
      ensures Valid() && turns == old(turns)
      ensures order == Discover(tree, file, specifier, old(order))
      ensures issues == Report(tree, entry, allowed, file, specifier, old(issues))
    {
      if IsRelative(specifier) {
        var chunk := tree.resolve(file, specifier);
        if IsModule(tree, chunk) {
          if chunk !in visited {
            visited := visited + {chunk};
            queue := queue + [chunk];
            order := order + [chunk];
          }
        } else {
          ReportedMore(issues, Unresolved(entry, file, specifier));
          issues := issues + [Unresolved(entry, file, specifier)];
        }
      } else if specifier !in allowed && specifier !in reported {
        ReportedMore(issues, Disallowed(entry, file, specifier));
        reported := reported + {specifier};
        issues := issues + [Disallowed(entry, file, specifier)];
      }
    }

    /** The import loop of one module. */
    method ProcessAll(file: Path, specifiers: seq<string>)
      requires Valid()
      modifies this
      ensures Valid() && turns == old(turns)
      ensures order == DiscoverAll(tree, file, specifiers, old(order))
      ensures issues == ReportAll(tree, entry, allowed, file, specifiers, old(issues))
    {
      for i := 0 to |specifiers|
        invariant Valid() && turns == old(turns)
        invariant order == DiscoverAll(tree, file, specifiers[..i], old(order))
        invariant issues == ReportAll(tree, entry, allowed, file, specifiers[..i], old(issues))
      {
        assert specifiers[..i + 1][..i] == specifiers[..i];
        Process(file, specifiers[i]);
      }
      assert specifiers[..|specifiers|] == specifiers;
    }

    /** One turn of the worklist: take a module off the queue and process its distinct specifiers. */
    method Turn()
      requires Between() && queue != []
      modifies this
      ensures Between() && turns == old(turns) + 1
    {
      var file := queue[0];
      assert order[turns] == file;
      NextTurn(tree, entry, allowed, start, turns);
      queue, turns := queue[1..], turns + 1;
      ProcessAll(file, SpecifiersOf(tree, file));
    }

    method Run()
      requires Between()
      modifies this
      ensures Between() && queue == [] && IsComplete(tree, start, turns)
      ensures forall m :: m in visited <==> Reachable(tree, start, m)
      ensures Findings(tree, entry, allowed, start, issues) && IsWalk(tree, entry, allowed, start, issues)
    {
      TurnsAreBounded(tree, start, turns);
      while queue != []
        invariant Between() && |order| <= |tree.nodes|
        decreases |tree.nodes| - turns
      {
        Turn();
        TurnsAreBounded(tree, start, turns);
      }
      assert order[..turns] == order;
      WalkFinds(tree, entry, allowed, start, turns);
      forall m
        ensures m in visited <==> Reachable(tree, start, m)
      {
        MetExactly(tree, start, turns, m);
      }
    }
  }

  lemma {:induction false} IssuesSnoc(tree: Tree, entry: string, allowed: seq<string>, front: seq<Path>, m: Path, all: seq<Path>)
    requires all == front + [m]
    ensures IssuesOf(tree, entry, allowed, all)
            == ReportAll(tree, entry, allowed, m, SpecifiersOf(tree, m), IssuesOf(tree, entry, allowed, front))
  {
    assert all[..|all| - 1] == front && all[|all| - 1] == m;
  }

  lemma {:induction false} NextOrder(tree: Tree, start: Path, k: nat)
    requires k < |Order(tree, start, k)|
    ensures var order := Order(tree, start, k);
            Order(tree, start, k + 1) == DiscoverAll(tree, order[k], SpecifiersOf(tree, order[k]), order)
  {
  }

  /** What the function says of one more turn. */
  lemma {:induction false} NextTurn(tree: Tree, entry: string, allowed: seq<string>, start: Path, k: nat)
    requires k < |Order(tree, start, k)|
    ensures var order, more := Order(tree, start, k), Order(tree, start, k + 1);
            && more == DiscoverAll(tree, order[k], SpecifiersOf(tree, order[k]), order) && k < |more|
            && IssuesOf(tree, entry, allowed, more[..k + 1])
               == ReportAll(tree, entry, allowed, order[k], SpecifiersOf(tree, order[k]), IssuesOf(tree, entry, allowed, order[..k]))
  {
    var order, more := Order(tree, start, k), Order(tree, start, k + 1);
    NextOrder(tree, start, k);
    OrderGrows(tree, start, k, k + 1);
    IssuesSnoc(tree, entry, allowed, order[..k], order[k], more[..k + 1]);
  }

  lemma {:induction false} ReportedMore(issues: seq<Issue>, x: Issue)
    ensures forall s :: IsReported(issues + [x], s) <==> IsReported(issues, s) || (x.Disallowed? && s == x.specifier)
  {
    assert forall y :: y in issues + [x] <==> y in issues || y == x;
  }

  /** The issues of a walk that has had its turn at every module it met. */
  ghost predicate IsWalk(tree: Tree, entry: string, allowed: seq<string>, start: Path, issues: seq<Issue>) {
    exists k: nat :: IsComplete(tree, start, k) && issues == IssuesOf(tree, entry, allowed, Order(tree, start, k))
  }

  // ----- checkLightEntries -------------------------------------------------------------------

  /** An entry that is not on disk is skipped; reading a directory throws. */
  datatype EntryCheck = Skipped | Unreadable | Checked(issues: seq<Issue>)

  method CheckEntry(tree: Tree, entry: string, allowed: seq<string>) returns (r: EntryCheck)
    ensures r.Skipped? <==> tree.locate(entry) !in tree.nodes
    ensures r.Checked? <==> IsModule(tree, tree.locate(entry))
    ensures r.Checked? ==> Findings(tree, entry, allowed, tree.locate(entry), r.issues)
    ensures r.Checked? ==> IsWalk(tree, entry, allowed, tree.locate(entry), r.issues)
    ensures r.Checked? ==> (r.issues == [] <==> Clean(tree, allowed, tree.locate(entry)))
  {
    var start := tree.locate(entry);
    if start !in tree.nodes {
      return Skipped;
    }
    if tree.nodes[start].Directory? {
      return Unreadable;
    }
    var walk := new Walk(tree, entry, allowed, start);
    walk.Run();
    NoFindingsMeansClean(tree, entry, allowed, start, walk.issues);
    r := Checked(walk.issues);
  }

  /** What one entry of the list contributes. */
  ghost predicate EntryAdds(tree: Tree, e: (string, seq<string>), added: seq<Issue>) {
    var start := tree.locate(e.0);
    if IsModule(tree, start) then Findings(tree, e.0, e.1, start, added) && IsWalk(tree, e.0, e.1, start, added)
    else added == []
  }

  ghost predicate EntryIsClean(tree: Tree, e: (string, seq<string>)) {
    IsModule(tree, tree.locate(e.0)) ==> Clean(tree, e.1, tree.locate(e.0))
  }

  lemma {:induction false} EntryAddsNothing(tree: Tree, e: (string, seq<string>), added: seq<Issue>)
    requires EntryAdds(tree, e, added)
    ensures added == [] <==> EntryIsClean(tree, e)
  {
    if IsModule(tree, tree.locate(e.0)) {
      NoFindingsMeansClean(tree, e.0, e.1, tree.locate(e.0), added);
    }
  }

  function Concat(parts: seq<seq<Issue>>): seq<Issue> {
    if parts == [] then [] else Concat(parts[..|parts| - 1]) + parts[|parts| - 1]
  }

  lemma {:induction false} ConcatIsEmpty(parts: seq<seq<Issue>>)
    ensures Concat(parts) == [] <==> forall i | 0 <= i < |parts| :: parts[i] == []
  {
    if parts != [] {
      var front := parts[..|parts| - 1];
      ConcatIsEmpty(front);
      assert forall i | 0 <= i < |front| :: front[i] == parts[i];
    }
  }

  lemma {:induction false} ConcatSnoc(parts: seq<seq<Issue>>, more: seq<Issue>)
    ensures Concat(parts + [more]) == Concat(parts) + more
  {
    assert (parts + [more])[..|parts|] == parts;
  }

  /** Each entry has contributed its part, in the order of the list. */
  ghost predicate Collected(tree: Tree, entries: seq<(string, seq<string>)>, parts: seq<seq<Issue>>) {
    |parts| == |entries| && forall i | 0 <= i < |entries| :: EntryAdds(tree, entries[i], parts[i])
  }

  lemma {:induction false} NoneCollected(tree: Tree, entries: seq<(string, seq<string>)>)
    ensures Progress(tree, entries, 0, []) && Concat([]) == []
  {
  }

  lemma {:induction false} CollectedSnoc(tree: Tree, entries: seq<(string, seq<string>)>, i: nat,
                                         parts: seq<seq<Issue>>, added: seq<Issue>)
    requires i < |entries| && Collected(tree, entries[..i], parts) && EntryAdds(tree, entries[i], added)
    ensures Collected(tree, entries[..i + 1], parts + [added])
  {
    var all := parts + [added];
    forall k | 0 <= k < i + 1
      ensures EntryAdds(tree, entries[..i + 1][k], all[k])
    {
      if k < i {
        assert entries[..i + 1][k] == entries[..i][k] && all[k] == parts[k];
      }
    }
  }

  lemma {:induction false} NothingCollected(tree: Tree, entries: seq<(string, seq<string>)>, parts: seq<seq<Issue>>)
    requires Collected(tree, entries, parts)
    ensures forall before: seq<Issue> ::
              before + Concat(parts) == before <==> forall i | 0 <= i < |entries| :: EntryIsClean(tree, entries[i])
  {
    ConcatIsEmpty(parts);
    forall i | 0 <= i < |entries|
      ensures parts[i] == [] <==> EntryIsClean(tree, entries[i])
    {
      EntryAddsNothing(tree, entries[i], parts[i]);
    }
  }

  /** Reading the entry's file throws. */
  predicate IsUnreadable(tree: Tree, e: (string, seq<string>)) {
    tree.locate(e.0) in tree.nodes && !IsModule(tree, tree.locate(e.0))
  }

  /** One round of the loop over the entries. */
  method AddEntry(tree: Tree, e: (string, seq<string>), issues: seq<Issue>) returns (ok: bool, more: seq<Issue>, ghost added: seq<Issue>)
    ensures ok <==> !IsUnreadable(tree, e)
    ensures ok ==> EntryAdds(tree, e, added) && more == issues + added
  {
    var r := CheckEntry(tree, e.0, e.1);
    ok := !r.Unreadable?;
    added := if r.Checked? then r.issues else [];
    more := if r.Checked? then issues + r.issues else issues;
  }

  /** The first `i` entries could be read and have contributed their parts. */
  ghost predicate Progress(tree: Tree, entries: seq<(string, seq<string>)>, i: nat, parts: seq<seq<Issue>>) {
    && i <= |entries|
    && Collected(tree, entries[..i], parts)
    && forall k | 0 <= k < i :: !IsUnreadable(tree, entries[k])
  }

  lemma {:induction false} ProgressSnoc(tree: Tree, entries: seq<(string, seq<string>)>, i: nat,
                                        parts: seq<seq<Issue>>, added: seq<Issue>)
    requires i < |entries| && Progress(tree, entries, i, parts)
    requires !IsUnreadable(tree, entries[i]) && EntryAdds(tree, entries[i], added)
    ensures Progress(tree, entries, i + 1, parts + [added])
  {
    CollectedSnoc(tree, entries, i, parts, added);
  }

  lemma {:induction false} ProgressEnds(tree: Tree, entries: seq<(string, seq<string>)>, parts: seq<seq<Issue>>)
    requires Progress(tree, entries, |entries|, parts)
    ensures Collected(tree, entries, parts) && forall i | 0 <= i < |entries| :: !IsUnreadable(tree, entries[i])
  {
    assert entries[..|entries|] == entries;
  }

  method CollectOne(tree: Tree, entries: seq<(string, seq<string>)>, i: nat, issues: seq<Issue>,
                    ghost before: seq<Issue>, ghost parts: seq<seq<Issue>>)
    returns (ok: bool, more: seq<Issue>, ghost moreParts: seq<seq<Issue>>)
    requires i < |entries| && issues == before + Concat(parts) && Progress(tree, entries, i, parts)
    ensures ok <==> !IsUnreadable(tree, entries[i])
    ensures ok ==> more == before + Concat(moreParts) && Progress(tree, entries, i + 1, moreParts)
  {
    ghost var added;
    ok, more, added := AddEntry(tree, entries[i], issues);
    moreParts := parts + [added];
    if ok {
      ConcatSnoc(parts, added);
      ConcatAssoc(before, Concat(parts), added);
      ProgressSnoc(tree, entries, i, parts, added);
    }
  }

  /** The loop over the entries; `false` when reading one throws. */
  method CollectEntries(tree: Tree, entries: seq<(string, seq<string>)>, before: seq<Issue>)
    returns (ok: bool, issues: seq<Issue>, ghost parts: seq<seq<Issue>>)
    ensures ok <==> forall i | 0 <= i < |entries| :: !IsUnreadable(tree, entries[i])
    ensures issues == before + Concat(parts)
    ensures ok ==> Collected(tree, entries, parts)
  {
    issues, parts := before, [];
    NoneCollected(tree, entries);
    for i := 0 to |entries|
      invariant issues == before + Concat(parts) && Progress(tree, entries, i, parts)
    {
      var more;
      ghost var moreParts;
      ok, more, moreParts := CollectOne(tree, entries, i, issues, before, parts);
      if !ok {
        return;
      }
      issues, parts := more, moreParts;
    }
    ProgressEnds(tree, entries, parts);
    ok := true;
  }

  /** `checkLightEntries`: appends the findings of every entry. */
  method CheckLightEntries(tree: Tree, entries: seq<(string, seq<string>)>, before: seq<Issue>)
    returns (ok: bool, issues: seq<Issue>, ghost parts: seq<seq<Issue>>)
    ensures ok <==> forall i | 0 <= i < |entries| :: !IsUnreadable(tree, entries[i])
    ensures issues == before + Concat(parts)
    ensures ok ==> Collected(tree, entries, parts)
    ensures ok ==> (issues == before <==> forall i | 0 <= i < |entries| :: EntryIsClean(tree, entries[i]))
  {
    ok, issues, parts := CollectEntries(tree, entries, before);
    if ok {
      NothingCollected(tree, entries, parts);
    }
  }
}
