/** Rewriting one workspace import to `@makaio/framework/<subpath>` by its longest owning package. */
module FrameworkImports {
  import opened Collections

  datatype Rule = Rule(packageName: string, frameworkSubpath: string)

  predicate StartsWith(s: string, prefix: string) {
    prefix <= s
  }

  /** The specifier is the package itself or one of its subpaths. */
  predicate Matches(packageName: string, source: string) {
    source == packageName || StartsWith(source, packageName + "/")
  }

  function Target(rule: Rule): string {
    "@makaio/framework/" + rule.frameworkSubpath
  }

  function Rewritten(rule: Rule, source: string): string
    requires Matches(rule.packageName, source)
  {
    Target(rule) + source[|rule.packageName|..]
  }

  // ----- one specifier -----------------------------------------------------------

  function InsertByLength(rule: Rule, rules: seq<Rule>): (r: seq<Rule>)
    ensures multiset(r) == multiset(rules) + multiset{rule}
  {
    if rules == [] || |rules[0].packageName| < |rule.packageName| then [rule] + rules
    else assert rules == [rules[0]] + rules[1..]; [rules[0]] + InsertByLength(rule, rules[1..])
  }

  /** `slice().sort((a, b) => b.packageName.length - a.packageName.length)`, which is stable. */
  function ByLength(rules: seq<Rule>): (r: seq<Rule>)
    ensures multiset(r) == multiset(rules)
  {
    if rules == [] then []
    else
      assert rules == rules[..|rules| - 1] + [rules[|rules| - 1]];
      InsertByLength(rules[|rules| - 1], ByLength(rules[..|rules| - 1]))
  }

  function FirstMatch(rules: seq<Rule>, source: string): (r: Option<Rule>)
    ensures r.Some? ==> r.value in rules && Matches(r.value.packageName, source)
    ensures r.None? ==> forall k | k in rules :: !Matches(k.packageName, source)
  {
    if rules == [] then None
    else if Matches(rules[0].packageName, source) then Some(rules[0])
    else FirstMatch(rules[1..], source)
  }

  /** `rewriteFrameworkImportSpecifier`. */
  function RewriteSpecifier(rules: seq<Rule>, source: string): Option<string> {
    match FirstMatch(ByLength(rules), source)
    case None => None
    case Some(rule) => Some(Rewritten(rule, source))
  }

  ghost predicate Descending(rules: seq<Rule>) {
    forall i, j | 0 <= i < j < |rules| :: |rules[i].packageName| >= |rules[j].packageName|
  }

  lemma {:induction false} InsertedMembers(rule: Rule, rules: seq<Rule>)
    ensures forall r | r in InsertByLength(rule, rules) :: r == rule || r in rules
  {
    forall r | r in InsertByLength(rule, rules)
      ensures r == rule || r in rules
    {
      assert r in multiset(InsertByLength(rule, rules));
    }
  }

  lemma {:induction false} DescendingCons(first: Rule, rest: seq<Rule>)
    requires Descending(rest) && forall r | r in rest :: |first.packageName| >= |r.packageName|
    ensures Descending([first] + rest)
  {
  }

  lemma {:induction false} InsertKeepsDescending(rule: Rule, rules: seq<Rule>)
    requires Descending(rules)
    ensures Descending(InsertByLength(rule, rules))
  {
    if rules != [] && |rules[0].packageName| >= |rule.packageName| {
      InsertKeepsDescending(rule, rules[1..]);
      InsertedMembers(rule, rules[1..]);
      DescendingCons(rules[0], InsertByLength(rule, rules[1..]));
    }
  }

  lemma {:induction false} ByLengthIsDescending(rules: seq<Rule>)
    ensures Descending(ByLength(rules))
  {
    if rules != [] {
      ByLengthIsDescending(rules[..|rules| - 1]);
      InsertKeepsDescending(rules[|rules| - 1], ByLength(rules[..|rules| - 1]));
    }
  }

  lemma {:induction false} SameRules(a: seq<Rule>, b: seq<Rule>)
    requires multiset(a) == multiset(b)
    ensures forall r :: r in a <==> r in b
  {
    assert forall r :: r in a <==> r in multiset(a);
    assert forall r :: r in b <==> r in multiset(b);
  }

  lemma {:induction false} FirstIsLongest(rules: seq<Rule>, source: string, other: Rule)
    requires Descending(rules)
    requires other in rules && Matches(other.packageName, source)
    ensures FirstMatch(rules, source).Some?
    ensures |FirstMatch(rules, source).value.packageName| >= |other.packageName|
  {
    if !Matches(rules[0].packageName, source) {
      FirstIsLongest(rules[1..], source, other);
    }
  }

  /**
   * For every rule table: a specifier is rewritten exactly when some package owns it,
   * by a rule with the longest owning package name.
   */
  lemma {:induction false} SpecifierUsesLongestMatch(rules: seq<Rule>, source: string)
    ensures RewriteSpecifier(rules, source).None? <==> forall r | r in rules :: !Matches(r.packageName, source)
    ensures RewriteSpecifier(rules, source).Some? ==>
              exists r :: && r in rules && Matches(r.packageName, source)
                          && RewriteSpecifier(rules, source).value == Rewritten(r, source)
                          && (forall o | o in rules && Matches(o.packageName, source) :: |o.packageName| <= |r.packageName|)
  {
    ByLengthIsDescending(rules);
    SameRules(rules, ByLength(rules));
    var first := FirstMatch(ByLength(rules), source);
    if first.Some? {
      forall o | o in rules && Matches(o.packageName, source)
        ensures |o.packageName| <= |first.value.packageName|
      {
        FirstIsLongest(ByLength(rules), source, o);
      }
    }
  }
}
