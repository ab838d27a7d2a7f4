/** Rule tables in which every specifier has at most one owner, before and after rewriting. */
module FrameworkImportTables {
  import opened Collections
  import opened FrameworkImports

  predicate IsQuote(c: char) {
    c == '\'' || c == '"'
  }

  predicate QuoteFree(s: string) {
    forall i | 0 <= i < |s| :: !IsQuote(s[i])
  }

  /** Two names own no common specifier. */
  predicate Unrelated(a: string, b: string) {
    !Matches(a, b) && !Matches(b, a)
  }

  /**
   * No rule is repeated, no package is another or lies inside another, none overlaps a
   * target, and no name has a quote.
   */
  ghost predicate WellFormed(rules: seq<Rule>) {
    && (forall r | r in rules :: multiset(rules)[r] == 1)
    && (forall r, t | r in rules && t in rules && r != t :: Unrelated(r.packageName, t.packageName))
    && (forall r, t | r in rules && t in rules :: Unrelated(r.packageName, Target(t)))
    && (forall r | r in rules :: QuoteFree(r.packageName) && QuoteFree(Target(r)))
  }

  /** Names that own the same specifier are related. */
  lemma {:induction false} OwnersAreRelated(a: string, b: string, source: string)
    requires Matches(a, source) && Matches(b, source)
    ensures !Unrelated(a, b)
  {
    if |a| == |b| {
      assert a == source[..|a|] == b;
    } else if |a| < |b| {
      assert source[..|a| + 1] == a + "/" && source[..|b|] == b;
      assert b[..|a| + 1] == source[..|b|][..|a| + 1];
      assert StartsWith(b, a + "/");
    } else {
      assert source[..|b| + 1] == b + "/" && source[..|a|] == a;
      assert a[..|b| + 1] == source[..|a|][..|b| + 1];
      assert StartsWith(a, b + "/");
    }
  }

  /** What a rule produces belongs to its target, so no rule of the table picks it up again. */
  lemma {:induction false} RewrittenIsFinal(rules: seq<Rule>, rule: Rule, source: string, other: Rule)
    requires WellFormed(rules) && rule in rules && other in rules
    requires Matches(rule.packageName, source)
    ensures !Matches(other.packageName, Rewritten(rule, source))
  {
    var out := Rewritten(rule, source);
    assert Matches(Target(rule), out) by {
      if source != rule.packageName {
        assert source[|rule.packageName|] == (rule.packageName + "/")[|rule.packageName|];
        assert out[..|Target(rule)| + 1] == Target(rule) + "/";
      }
    }
    if Matches(other.packageName, out) {
      OwnersAreRelated(other.packageName, Target(rule), out);
    }
  }

  lemma {:induction false} OwnerIsUnique(rules: seq<Rule>, a: Rule, b: Rule, source: string)
    requires WellFormed(rules) && a in rules && b in rules
    requires Matches(a.packageName, source) && Matches(b.packageName, source)
    ensures a == b
  {
    OwnersAreRelated(a.packageName, b.packageName, source);
  }

  lemma {:induction false} TailIsWellFormed(rules: seq<Rule>)
    requires WellFormed(rules) && rules != []
    ensures WellFormed(rules[1..]) && rules[0] !in rules[1..]
  {
    assert rules == [rules[0]] + rules[1..];
    forall r | r in rules[1..]
      ensures multiset(rules[1..])[r] == 1 && r != rules[0]
    {
      assert r in multiset(rules[1..]);
      assert multiset(rules)[r] == 1;
    }
  }

  lemma {:induction false} PermutationIsWellFormed(rules: seq<Rule>, permuted: seq<Rule>)
    requires WellFormed(rules) && multiset(rules) == multiset(permuted)
    ensures WellFormed(permuted)
  {
    SameRules(rules, permuted);
  }

  /** In a well-formed table the owner decides, whatever its place in the table. */
  lemma {:induction false} SpecifierOfOwner(rules: seq<Rule>, rule: Rule, source: string)
    requires WellFormed(rules) && rule in rules && Matches(rule.packageName, source)
    ensures RewriteSpecifier(rules, source) == Some(Rewritten(rule, source))
  {
    SpecifierUsesLongestMatch(rules, source);
    var r :| && r in rules && Matches(r.packageName, source)
             && RewriteSpecifier(rules, source).value == Rewritten(r, source)
             && (forall o | o in rules && Matches(o.packageName, source) :: |o.packageName| <= |r.packageName|);
    OwnerIsUnique(rules, r, rule, source);
  }

  /** The subpath of an owned specifier is kept behind the target. */
  lemma {:induction false} SuffixIsKept(rules: seq<Rule>, rule: Rule, suffix: string)
    requires WellFormed(rules) && rule in rules && (suffix == "" || suffix[0] == '/')
    ensures RewriteSpecifier(rules, rule.packageName + suffix)
            == Some("@makaio/framework/" + rule.frameworkSubpath + suffix)
  {
    var source := rule.packageName + suffix;
    if suffix == "" {
      assert source == rule.packageName;
    } else {
      assert source[..|rule.packageName| + 1] == rule.packageName + "/";
    }
    SpecifierOfOwner(rules, rule, source);
    assert source[|rule.packageName|..] == suffix;
  }

  // ----- tables like the shipped one ------------------------------------------------

  const SCOPE := "@makaio/"
  const UMBRELLA := "framework"

  /** A workspace package directly under the scope, other than the umbrella package. */
  predicate IsScoped(rule: Rule) {
    && SCOPE <= rule.packageName
    && '/' !in rule.packageName[|SCOPE|..]
    && rule.packageName[|SCOPE|..] != UMBRELLA
    && QuoteFree(rule.packageName)
    && QuoteFree(rule.frameworkSubpath)
  }

  /** A name with no slash in it owns nothing that differs from it before the first slash. */
  lemma {:induction false} OwnedPrefix(prefix: string, name: string, head: string, tail: string)
    requires '/' !in name && '/' !in head && name != head
    requires tail == "" || tail[0] == '/'
    ensures !Matches(prefix + name, prefix + head + tail)
  {
    var owner, source := prefix + name, prefix + head + tail;
    if |name| < |head| {
      assert source[|owner|] == head[|name|] && (owner + "/")[|owner|] == '/';
    } else if |name| == |head| {
      assert owner[|prefix|..] == name && source[|prefix|..|owner|] == head;
    } else if tail != "" {
      assert source[|prefix| + |head|] == '/' && owner[|prefix| + |head|] == name[|head|];
    }
  }

  lemma {:induction false} ScopedShape(rule: Rule)
    requires IsScoped(rule)
    ensures rule.packageName == SCOPE + rule.packageName[|SCOPE|..]
    ensures Target(rule) == SCOPE + UMBRELLA + ("/" + rule.frameworkSubpath)
    ensures QuoteFree(Target(rule))
  {
    assert "@makaio/framework/" == SCOPE + UMBRELLA + "/";
  }

  lemma {:induction false} ScopedAreUnrelated(r: Rule, t: Rule)
    requires IsScoped(r) && IsScoped(t)
    ensures r.packageName != t.packageName ==> Unrelated(r.packageName, t.packageName)
    ensures Unrelated(r.packageName, Target(t))
  {
    ScopedShape(r);
    ScopedShape(t);
    var a, b := r.packageName[|SCOPE|..], t.packageName[|SCOPE|..];
    if a != b {
      OwnedPrefix(SCOPE, a, b, "");
      OwnedPrefix(SCOPE, b, a, "");
      assert SCOPE + a + "" == SCOPE + a && SCOPE + b + "" == SCOPE + b;
    }
    assert '/' !in UMBRELLA;
    OwnedPrefix(SCOPE, a, UMBRELLA, "/" + t.frameworkSubpath);
    var slash := |SCOPE| + |UMBRELLA|;
    assert Target(t)[slash] == '/';
    assert |r.packageName| > slash ==> r.packageName[slash] == a[|UMBRELLA|];
  }

  /** Any table of distinct packages directly under the scope is well formed. */
  lemma {:induction false} ScopedTableIsWellFormed(rules: seq<Rule>)
    requires forall r | r in rules :: IsScoped(r)
    requires forall i, j | 0 <= i < j < |rules| :: rules[i].packageName != rules[j].packageName
    ensures WellFormed(rules)
  {
    forall r | r in rules
      ensures multiset(rules)[r] == 1 && QuoteFree(Target(r))
    {
      DistinctIsSingle(rules, r);
      ScopedShape(r);
    }
    forall r, t | r in rules && t in rules
      ensures r != t ==> Unrelated(r.packageName, t.packageName)
      ensures Unrelated(r.packageName, Target(t))
    {
      ScopedPair(rules, r, t);
    }
  }

  lemma {:induction false} ScopedPair(rules: seq<Rule>, r: Rule, t: Rule)
    requires IsScoped(r) && IsScoped(t) && r in rules && t in rules
    requires forall i, j | 0 <= i < j < |rules| :: rules[i].packageName != rules[j].packageName
    ensures r != t ==> Unrelated(r.packageName, t.packageName)
    ensures Unrelated(r.packageName, Target(t))
  {
    DistinctNames(rules, r, t);
    ScopedAreUnrelated(r, t);
  }

  lemma {:induction false} DistinctIsSingle(rules: seq<Rule>, r: Rule)
    requires forall i, j | 0 <= i < j < |rules| :: rules[i].packageName != rules[j].packageName
    requires r in rules
    ensures multiset(rules)[r] == 1
  {
    var i :| 0 <= i < |rules| && rules[i] == r;
    assert rules == rules[..i] + [r] + rules[i + 1..];
    assert r !in rules[..i] && r !in rules[i + 1..];
  }

  lemma {:induction false} DistinctNames(rules: seq<Rule>, r: Rule, t: Rule)
    requires forall i, j | 0 <= i < j < |rules| :: rules[i].packageName != rules[j].packageName
    requires r in rules && t in rules
    ensures r != t ==> r.packageName != t.packageName
  {
  }
}
