/**
 * The scan of built modules for imports and Postgres code that must not ship, and the
 * check of bundled migration journals against their `.sql` files.
 */
module DistVerifier {
  import opened Collections

  type Path = string

  /**
   * A built module as the scan sees it: import specifiers and quoted driver literals in
   * text order, repeats included, and the forbidden SQL markers its text contains.
   */
  datatype Module = Module(path: Path, imports: seq<string>, literals: seq<string>, markers: set<string>)

  /** `isPackage` stands for the package-name pattern and the table of runtime builtins. */
  datatype Config = Config(
    exportKeys: set<string>,
    declared: set<string>,
    forbidden: seq<string>,
    allowlist: set<(Path, string)>,
    markers: seq<string>,
    isPackage: string -> bool)

  const FRAMEWORK := "@makaio/framework"

  predicate Under(name: string, specifier: string) {
    specifier == name || name + "/" <= specifier
  }

  predicate IsSelfImport(specifier: string) {
    Under(FRAMEWORK, specifier)
  }

  function ExportKey(specifier: string): string
    requires IsSelfImport(specifier)
  {
    if specifier == FRAMEWORK then "." else "./" + specifier[|FRAMEWORK| + 1..]
  }

  /** The first path segment, or the first two of a scoped specifier. */
  function PackagePart(specifier: string): (r: string)
    ensures Under(r, specifier)
  {
    var first := FirstIndex(specifier, '/', 0);
    if specifier == "" || specifier[0] != '@' || first == |specifier| then UpTo(specifier, first)
    else UpTo(specifier, FirstIndex(specifier, '/', first + 1))
  }

  function UpTo(s: string, k: nat): (r: string)
    requires k <= |s| && (k < |s| ==> s[k] == '/')
    ensures Under(r, s)
  {
    assert k == |s| ==> s[..k] == s;
    assert k < |s| ==> s[..k + 1] == s[..k] + "/";
    s[..k]
  }

  /** `toBarePackageName`. */
  function BarePackage(cfg: Config, specifier: string): Option<string> {
    if "." <= specifier || "/" <= specifier || "node:" <= specifier || "bun:" <= specifier then None
    else if cfg.isPackage(PackagePart(specifier)) then Some(PackagePart(specifier))
    else None
  }

  function FirstForbidden(names: seq<string>, specifier: string): (r: Option<string>)
    ensures r.Some? ==> r.value in names && Under(r.value, specifier)
    ensures r.None? ==> forall n | n in names :: !Under(n, specifier)
  {
    if names == [] then None
    else if Under(names[0], specifier) then Some(names[0])
    else FirstForbidden(names[1..], specifier)
  }

  // ----- offenses ------------------------------------------------------------------------------

  /** What an issue is about.  Postgres code is reported once per module, the rest once. */
  datatype Offense =
    | Unexported(specifier: string)
    | Undeclared(package: string)
    | Driver(path: Path, name: string)
    | Marker(path: Path, text: string)

  datatype Issue = Issue(offense: Offense, target: Path)

  function ImportOffense(cfg: Config, path: Path, specifier: string): Option<Offense> {
    if IsSelfImport(specifier) then
      if ExportKey(specifier) in cfg.exportKeys then None else Some(Unexported(specifier))
    else match FirstForbidden(cfg.forbidden, specifier)
         case Some(name) => Some(Driver(path, name))
         case None =>
           match BarePackage(cfg, specifier)
           case Some(p) => if p in cfg.declared then None else Some(Undeclared(p))
           case None => None
  }

  function LiteralOffense(cfg: Config, path: Path, literal: string): Option<Offense> {
    if (path, literal) in cfg.allowlist then None else Some(Driver(path, literal))
  }

  /** The module gives rise to the offense. */
  ghost predicate Commits(cfg: Config, m: Module, o: Offense) {
    || (exists s :: s in m.imports && ImportOffense(cfg, m.path, s) == Some(o))
    || (exists l :: l in m.literals && LiteralOffense(cfg, m.path, l) == Some(o))
    || (o.Marker? && o.path == m.path && o.text in cfg.markers && o.text in m.markers)
  }

  // ----- what the offenses mean on written specifiers --------------------------------------------

  /** A subpath of a package, or none. */
  predicate IsSubpath(rest: string) {
    rest == "" || rest[0] == '/'
  }

  lemma {:induction false} FirstSlashAfter(head: string, name: string, rest: string)
    requires '/' !in name && IsSubpath(rest)
    ensures FirstIndex(head + name + rest, '/', |head|) == |head| + |name|
  {
    var s := head + name + rest;
    assert forall i | |head| <= i < |head| + |name| :: s[i] == name[i - |head|] && name[i - |head|] in name;
    if rest != "" {
      assert s[|head| + |name|] == rest[0];
    }
  }

  /** An unscoped package is the first segment of every specifier under it. */
  lemma {:induction false} PackageOfPlain(name: string, rest: string)
    requires '/' !in name && (name == "" || name[0] != '@') && IsSubpath(rest)
    ensures PackagePart(name + rest) == name
  {
    FirstSlashAfter("", name, rest);
    assert "" + name + rest == name + rest && (name + rest)[..|name|] == name;
    assert name != "" ==> (name + rest)[0] == name[0];
  }

  /** A scoped package is the scope and the first segment after it. */
  lemma {:induction false} PackageOfScoped(scope: string, name: string, rest: string)
    requires '/' !in scope && '/' !in name && IsSubpath(rest)
    ensures PackagePart("@" + scope + "/" + name + rest) == "@" + scope + "/" + name
  {
    var s, head := "@" + scope + "/" + name + rest, "@" + scope + "/";
    FirstSlashAfter("", "@" + scope, "/" + name + rest);
    assert "" + ("@" + scope) + ("/" + name + rest) == s;
    FirstSlashAfter(head, name, rest);
    assert head + name + rest == s && s[..|head| + |name|] == head + name;
  }

  /** `p` is written like a package name. */
  ghost predicate IsPackageName(p: string) {
    || ('/' !in p && (p == "" || p[0] != '@'))
    || (exists scope, name :: '/' !in scope && '/' !in name && p == "@" + scope + "/" + name)
  }

  lemma {:induction false} PackageOf(p: string, rest: string)
    requires IsPackageName(p) && IsSubpath(rest)
    ensures PackagePart(p + rest) == p
  {
    if '/' !in p && (p == "" || p[0] != '@') {
      PackageOfPlain(p, rest);
    } else {
      var scope, name :| '/' !in scope && '/' !in name && p == "@" + scope + "/" + name;
      PackageOfScoped(scope, name, rest);
    }
  }

  /** A specifier that names neither a file, a runtime module, the framework itself nor a forbidden package. */
  ghost predicate IsForeign(cfg: Config, specifier: string) {
    && !("." <= specifier) && !("/" <= specifier) && !("node:" <= specifier) && !("bun:" <= specifier)
    && specifier != "@makaio/framework" && !("@makaio/framework/" <= specifier)
    && (forall n | n in cfg.forbidden :: specifier != n && !(n + "/" <= specifier))
  }

  /** An import of a package that the manifest does not declare, at any subpath, is an offense of that package. */
  lemma {:induction false} UndeclaredIsCommitted(cfg: Config, m: Module, p: string, rest: string)
    requires IsPackageName(p) && IsSubpath(rest) && cfg.isPackage(p)
    requires p + rest in m.imports && IsForeign(cfg, p + rest)
    ensures p !in cfg.declared ==> Commits(cfg, m, Undeclared(p))
    ensures ImportOffense(cfg, m.path, p + rest) == if p in cfg.declared then None else Some(Undeclared(p))
  {
    PackageOf(p, rest);
    assert FRAMEWORK + "/" == "@makaio/framework/";
  }

  /** A self-import is an offense exactly if the exports map has no entry for its subpath. */
  lemma {:induction false} UnexportedIsCommitted(cfg: Config, m: Module, sub: string)
    requires "@makaio/framework/" + sub in m.imports
    ensures "./" + sub !in cfg.exportKeys ==> Commits(cfg, m, Unexported("@makaio/framework/" + sub))
    ensures "./" + sub in cfg.exportKeys ==> ImportOffense(cfg, m.path, "@makaio/framework/" + sub) == None
  {
    var s := "@makaio/framework/" + sub;
    assert FRAMEWORK + "/" == "@makaio/framework/";
    assert s[|FRAMEWORK| + 1..] == sub && |s| > |FRAMEWORK|;
  }

  /** The umbrella itself is looked up as the root entry. */
  lemma {:induction false} RootIsCommitted(cfg: Config, m: Module)
    requires "@makaio/framework" in m.imports
    ensures ImportOffense(cfg, m.path, "@makaio/framework")
            == if "." in cfg.exportKeys then None else Some(Unexported("@makaio/framework"))
    ensures "." !in cfg.exportKeys ==> Commits(cfg, m, Unexported("@makaio/framework"))
  {
    assert FRAMEWORK == "@makaio/framework";
  }

  /** An import under a forbidden package is an offense of the importing module. */
  lemma {:induction false} ForbiddenIsCommitted(cfg: Config, m: Module, name: string, rest: string)
    requires name in cfg.forbidden && IsSubpath(rest) && name + rest in m.imports
    requires name + rest != "@makaio/framework" && !("@makaio/framework/" <= name + rest)
    ensures exists n :: n in cfg.forbidden && (name + rest == n || n + "/" <= name + rest) && Commits(cfg, m, Driver(m.path, n))
  {
    assert FRAMEWORK + "/" == "@makaio/framework/";
    if rest == "" {
      assert name + rest == name;
    } else {
      assert (name + rest)[..|name| + 1] == name + "/";
    }
    assert Under(name, name + rest);
    var n := FirstForbidden(cfg.forbidden, name + rest).value;
    assert ImportOffense(cfg, m.path, name + rest) == Some(Driver(m.path, n));
  }

  /** A quoted driver literal is an offense unless this module may have it, and so is every marker. */
  lemma {:induction false} ContentIsCommitted(cfg: Config, m: Module, text: string)
    ensures text in m.literals && (m.path, text) !in cfg.allowlist ==> Commits(cfg, m, Driver(m.path, text))
    ensures text in m.markers && text in cfg.markers ==> Commits(cfg, m, Marker(m.path, text))
  {
    if text in m.literals && (m.path, text) !in cfg.allowlist {
      assert LiteralOffense(cfg, m.path, text) == Some(Driver(m.path, text));
    }
  }

  ghost predicate Reported(issues: seq<Issue>, o: Offense) {
    exists i | 0 <= i < |issues| :: issues[i].offense == o
  }

  /** Each offense in `seen` has exactly one issue, and there are no others. */
  ghost predicate Accounts(issues: seq<Issue>, seen: set<Offense>) {
    && (forall o :: Reported(issues, o) <==> o in seen)
    && (forall i, j | 0 <= i < j < |issues| :: issues[i].offense != issues[j].offense)
  }

  lemma {:induction false} AccountsMore(issues: seq<Issue>, seen: set<Offense>, o: Offense, target: Path)
    requires Accounts(issues, seen) && o !in seen
    ensures Accounts(issues + [Issue(o, target)], seen + {o})
  {
    var more := issues + [Issue(o, target)];
    forall x
      ensures Reported(more, x) <==> x in seen + {o}
    {
      if Reported(issues, x) {
        var i :| 0 <= i < |issues| && issues[i].offense == x;
        assert more[i].offense == x;
      }
      if x == o {
        assert more[|issues|].offense == o;
      }
    }
    forall i | 0 <= i < |issues|
      ensures issues[i].offense != o
    {
      assert Reported(issues, issues[i].offense);
    }
  }

  // ----- the scan ------------------------------------------------------------------------------

  class Scan {
    const cfg: Config
    var reported: set<string>
    var literals: set<string>
    var issues: seq<Issue>
    ghost var seen: set<Offense>

    /**
     * The two deduplication sets say exactly which offenses already have an issue: the
     * shared one never mixes up a self-import and a package, the other is per module.
     */
    ghost predicate Valid(path: Path)
      reads this
    {
      && Accounts(issues, seen)
      && (forall s :: s in reported <==> Unexported(s) in seen || Undeclared(s) in seen)
      && (forall s | Unexported(s) in seen :: IsSelfImport(s))
      && (forall p | Undeclared(p) in seen :: !IsSelfImport(p))
      && (forall l :: l in literals <==> Driver(path, l) in seen)
    }

    constructor (cfg: Config)
      ensures this.cfg == cfg && issues == [] && seen == {} && literals == {}
      ensures Accounts(issues, seen) && SharedSetIsExact()
    {
      this.cfg := cfg;
      reported, literals, issues, seen := {}, {}, [], {};
    }

    method Push(o: Offense, target: Path)
      requires Accounts(issues, seen) && o !in seen
      modifies this`issues, this`seen
      ensures Accounts(issues, seen) && seen == old(seen) + {o}
      ensures issues == old(issues) + [Issue(o, target)]
    {
      AccountsMore(issues, seen, o, target);
      issues := issues + [Issue(o, target)];
      seen := seen + {o};
    }

    method CheckSelfImport(path: Path, specifier: string)
      requires Valid(path) && IsSelfImport(specifier)
      modifies this
      ensures Valid(path) && old(issues) <= issues
      ensures seen == old(seen) + if ExportKey(specifier) in cfg.exportKeys then {} else {Unexported(specifier)}
      ensures forall i | |old(issues)| <= i < |issues| :: issues[i].target == path
    {
      if ExportKey(specifier) in cfg.exportKeys || specifier in reported {
        return;
      }
      reported := reported + {specifier};
      Push(Unexported(specifier), path);
    }

    /** One import specifier of the module at `path`. */
    method CheckImport(path: Path, specifier: string)
      requires Valid(path)
      modifies this
      ensures Valid(path) && old(issues) <= issues
      ensures seen == old(seen) + match ImportOffense(cfg, path, specifier) case Some(o) => {o} case None => {}
      ensures forall i | |old(issues)| <= i < |issues| :: issues[i].target == path
    {
      if IsSelfImport(specifier) {
        CheckSelfImport(path, specifier);
        return;
      }
      var forbidden := FirstForbidden(cfg.forbidden, specifier);
      if forbidden.Some? {
        CheckForbidden(path, forbidden.value);
        return;
      }
      var package := BarePackage(cfg, specifier);
      if package.Some? {
        PackageIsNoSelfImport(specifier);
        CheckPackage(path, package.value);
      }
    }

    method CheckForbidden(path: Path, name: string)
      requires Valid(path)
      modifies this
      ensures Valid(path) && old(issues) <= issues
      ensures seen == old(seen) + {Driver(path, name)}
      ensures forall i | |old(issues)| <= i < |issues| :: issues[i].target == path
    {
      if name !in literals {
        literals := literals + {name};
        Push(Driver(path, name), path);
      }
    }

    method CheckPackage(path: Path, package: string)
      requires Valid(path) && !IsSelfImport(package)
      modifies this
      ensures Valid(path) && old(issues) <= issues
      ensures seen == old(seen) + if package in cfg.declared then {} else {Undeclared(package)}
      ensures forall i | |old(issues)| <= i < |issues| :: issues[i].target == path
    {
      if package !in cfg.declared && package !in reported {
        reported := reported + {package};
        Push(Undeclared(package), path);
      }
    }

    method CheckLiteral(path: Path, literal: string)
      requires Valid(path)
      modifies this
      ensures Valid(path) && old(issues) <= issues
      ensures seen == old(seen) + match LiteralOffense(cfg, path, literal) case Some(o) => {o} case None => {}
      ensures forall i | |old(issues)| <= i < |issues| :: issues[i].target == path
    {
      if literal in literals || (path, literal) in cfg.allowlist {
        return;
      }
      literals := literals + {literal};
      Push(Driver(path, literal), path);
    }

    /** `checkPostgresContent` and the import loop of one module. */
    method CheckModule(m: Module)
      requires Valid(m.path) && literals == {}
      requires NoDuplicates(cfg.markers)
      requires forall o | o in seen && o.Marker? :: o.path != m.path
      modifies this
      ensures old(issues) <= issues
      ensures Accounts(issues, seen) && SharedSetIsExact()
      ensures forall o :: o in seen <==> o in old(seen) || Commits(cfg, m, o)
      ensures forall i | |old(issues)| <= i < |issues| :: issues[i].target == m.path
    {
      CheckImports(m.path, m.imports);
      CheckLiterals(m.path, m.literals);
      CheckMarkers(m);
    }

    method CheckImports(path: Path, imports: seq<string>)
      requires Valid(path)
      modifies this
      ensures Valid(path) && old(issues) <= issues
      ensures forall o :: o in seen <==>
                o in old(seen) || exists s :: s in imports && ImportOffense(cfg, path, s) == Some(o)
      ensures forall k | |old(issues)| <= k < |issues| :: issues[k].target == path
    {
      for i := 0 to |imports|
        invariant Valid(path) && old(issues) <= issues
        invariant forall k | |old(issues)| <= k < |issues| :: issues[k].target == path
        invariant forall o :: o in seen <==>
                    o in old(seen) || exists s :: s in imports[..i] && ImportOffense(cfg, path, s) == Some(o)
      {
        assert imports[..i + 1] == imports[..i] + [imports[i]];
        CheckImport(path, imports[i]);
      }
      assert imports[..|imports|] == imports;
    }

    method CheckLiterals(path: Path, found: seq<string>)
      requires Valid(path)
      modifies this
      ensures Valid(path) && old(issues) <= issues
      ensures forall o :: o in seen <==>
                o in old(seen) || exists l :: l in found && LiteralOffense(cfg, path, l) == Some(o)
      ensures forall k | |old(issues)| <= k < |issues| :: issues[k].target == path
    {
      for i := 0 to |found|
        invariant Valid(path) && old(issues) <= issues
        invariant forall k | |old(issues)| <= k < |issues| :: issues[k].target == path
        invariant forall o :: o in seen <==>
                    o in old(seen) || exists l :: l in found[..i] && LiteralOffense(cfg, path, l) == Some(o)
      {
        assert found[..i + 1] == found[..i] + [found[i]];
        CheckLiteral(path, found[i]);
      }
      assert found[..|found|] == found;
    }

    ghost predicate SharedSetIsExact()
      reads this
    {
      && (forall s :: s in reported <==> Unexported(s) in seen || Undeclared(s) in seen)
      && (forall s | Unexported(s) in seen :: IsSelfImport(s))
      && (forall p | Undeclared(p) in seen :: !IsSelfImport(p))
    }

    method CheckMarkers(m: Module)
      requires Accounts(issues, seen) && SharedSetIsExact()
      requires NoDuplicates(cfg.markers)
      requires forall o | o in seen && o.Marker? :: o.path != m.path
      modifies this`issues, this`seen
      ensures old(issues) <= issues
      ensures Accounts(issues, seen) && SharedSetIsExact()
      ensures forall o :: o in seen <==>
                o in old(seen) || (o.Marker? && o.path == m.path && o.text in cfg.markers && o.text in m.markers)
      ensures forall i | |old(issues)| <= i < |issues| :: issues[i].target == m.path
    {
      for i := 0 to |cfg.markers|
        invariant Accounts(issues, seen) && SharedSetIsExact() && old(issues) <= issues
        invariant forall k | |old(issues)| <= k < |issues| :: issues[k].target == m.path
        invariant forall o :: o in seen <==>
                    o in old(seen) || (o.Marker? && o.path == m.path && o.text in cfg.markers[..i] && o.text in m.markers)
      {
        assert cfg.markers[..i + 1] == cfg.markers[..i] + [cfg.markers[i]];
        if cfg.markers[i] in m.markers {
          assert cfg.markers[i] !in cfg.markers[..i];
          Push(Marker(m.path, cfg.markers[i]), m.path);
        }
      }
      assert cfg.markers[..|cfg.markers|] == cfg.markers;
    }
  }

  /** A package name can only be the umbrella's, or lie inside it, for a self-import. */
  lemma {:induction false} PackageIsNoSelfImport(specifier: string)
    requires !IsSelfImport(specifier)
    ensures !IsSelfImport(PackagePart(specifier))
  {
    assert PackagePart(specifier) <= specifier;
  }

  /** Offenses of a module are tied to it or shared by all modules, never to another one. */
  lemma {:induction false} OffensesAreLocal(cfg: Config, m: Module, o: Offense)
    requires Commits(cfg, m, o)
    ensures o.Driver? || o.Marker? ==> o.path == m.path
  {
  }

  ghost predicate CommittedByAny(cfg: Config, modules: seq<Module>, o: Offense) {
    exists m :: m in modules && Commits(cfg, m, o)
  }

  /** The issue's target is the first of the modules that commits the offense. */
  ghost predicate IsAttributed(cfg: Config, modules: seq<Module>, x: Issue) {
    exists k | 0 <= k < |modules| ::
      && modules[k].path == x.target && Commits(cfg, modules[k], x.offense)
      && forall i | 0 <= i < k :: !Commits(cfg, modules[i], x.offense)
  }

  lemma {:induction false} StaysAttributed(cfg: Config, modules: seq<Module>, n: nat, x: Issue)
    requires n < |modules| && IsAttributed(cfg, modules[..n], x)
    ensures IsAttributed(cfg, modules[..n + 1], x)
  {
    var front, more := modules[..n], modules[..n + 1];
    var k :| 0 <= k < n && front[k].path == x.target && Commits(cfg, front[k], x.offense)
             && forall i | 0 <= i < k :: !Commits(cfg, front[i], x.offense);
    assert more[k] == front[k] && forall i | 0 <= i < k :: more[i] == front[i];
  }

  lemma {:induction false} NewlyAttributed(cfg: Config, modules: seq<Module>, n: nat, x: Issue)
    requires n < |modules| && modules[n].path == x.target && Commits(cfg, modules[n], x.offense)
    requires !CommittedByAny(cfg, modules[..n], x.offense)
    ensures IsAttributed(cfg, modules[..n + 1], x)
  {
    var more := modules[..n + 1];
    forall i | 0 <= i < n
      ensures !Commits(cfg, more[i], x.offense)
    {
      assert more[i] == modules[..n][i] && modules[..n][i] in modules[..n];
    }
    assert more[n] == modules[n];
  }

  /**
   * `checkDistImports`: every offense of every scanned module has exactly one issue, with the
   * first module that commits it as its target; so nothing is reported exactly when no module
   * offends, and deduplication hides nothing.
   */
  method CheckDistImports(cfg: Config, modules: seq<Module>) returns (issues: seq<Issue>)
    requires forall i, j | 0 <= i < j < |modules| :: modules[i].path != modules[j].path
    requires NoDuplicates(cfg.markers)
    ensures forall o :: Reported(issues, o) <==> CommittedByAny(cfg, modules, o)
    ensures forall i, j | 0 <= i < j < |issues| :: issues[i].offense != issues[j].offense
    ensures forall x | x in issues :: IsAttributed(cfg, modules, x)
    ensures issues == [] <==> forall m, o | m in modules :: !Commits(cfg, m, o)
  {
    var scan := new Scan(cfg);
    for i := 0 to |modules|
      invariant scan.cfg == cfg && Accounts(scan.issues, scan.seen) && scan.SharedSetIsExact()
      invariant forall o :: o in scan.seen <==> CommittedByAny(cfg, modules[..i], o)
      invariant forall x | x in scan.issues :: IsAttributed(cfg, modules[..i], x)
    {
      var m := modules[i];
      scan.literals := {};
      forall o | o in scan.seen && (o.Driver? || o.Marker?)
        ensures o.path != m.path
      {
        var n :| n in modules[..i] && Commits(cfg, n, o);
        OffensesAreLocal(cfg, n, o);
      }
      ghost var before, earlier := scan.issues, scan.seen;
      scan.CheckModule(m);
      CommittedSnoc(cfg, modules, i);
      NewIssuesAreCommitted(cfg, m, before, earlier, scan.issues, scan.seen);
      forall k | 0 <= k < |scan.issues|
        ensures IsAttributed(cfg, modules[..i + 1], scan.issues[k])
      {
        if k < |before| {
          assert scan.issues[k] == before[k] && before[k] in before;
          StaysAttributed(cfg, modules, i, before[k]);
        } else {
          NewlyAttributed(cfg, modules, i, scan.issues[k]);
        }
      }
    }
    assert modules[..|modules|] == modules;
    issues := scan.issues;
    if issues == [] {
      forall m, o | m in modules
        ensures !Commits(cfg, m, o)
      {
        assert !Reported(issues, o);
        assert !CommittedByAny(cfg, modules, o);
      }
    } else {
      assert Reported(issues, issues[0].offense);
    }
  }

  lemma {:induction false} CommittedSnoc(cfg: Config, modules: seq<Module>, i: nat)
    requires i < |modules|
    ensures forall o :: CommittedByAny(cfg, modules[..i + 1], o) <==>
                        CommittedByAny(cfg, modules[..i], o) || Commits(cfg, modules[i], o)
  {
    assert modules[..i + 1] == modules[..i] + [modules[i]];
    assert modules[i] in modules[..i + 1];
  }

  lemma {:induction false} NewIssuesAreCommitted(cfg: Config, m: Module, before: seq<Issue>, earlier: set<Offense>,
                                                 after: seq<Issue>, seen: set<Offense>)
    requires before <= after && Accounts(before, earlier) && Accounts(after, seen)
    requires forall o :: o in seen <==> o in earlier || Commits(cfg, m, o)
    ensures forall k | |before| <= k < |after| :: Commits(cfg, m, after[k].offense) && after[k].offense !in earlier
  {
    forall k | |before| <= k < |after|
      ensures Commits(cfg, m, after[k].offense) && after[k].offense !in earlier
    {
      var o := after[k].offense;
      assert Reported(after, o);
      forall j | 0 <= j < |before|
        ensures before[j].offense != o
      {
        assert after[j] == before[j];
      }
      assert !Reported(before, o);
    }
  }

  // ----- migration journals --------------------------------------------------------------------

  datatype JournalIssue =
    | CountMismatch(entries: nat, files: nat)
    | NoTag(index: nat)
    | MissingFile(tag: string)

  /** The file a journal entry names; a tag that is missing or not a string names none. */
  function FileOf(tag: string): string {
    tag + ".sql"
  }

  ghost predicate EntryIsSound(entry: Option<string>, files: set<string>) {
    entry.Some? && entry.value != "" && FileOf(entry.value) in files
  }

  /** When the journal part of the check has nothing to say. */
  ghost predicate HasNoFinding(entries: seq<Option<string>>, files: set<string>) {
    entries != [] && |entries| == |files| && forall i | 0 <= i < |entries| :: EntryIsSound(entries[i], files)
  }

  /** The finding describes something wrong with this journal. */
  ghost predicate IsFinding(entries: seq<Option<string>>, files: set<string>, x: JournalIssue) {
    match x
    case CountMismatch(n, k) => n == |entries| && k == |files| && (n == 0 || n != k)
    case NoTag(i) => i < |entries| && (entries[i].None? || entries[i].value == "")
    case MissingFile(tag) => Some(tag) in entries && tag != "" && FileOf(tag) !in files
  }

  /** The journal part of `checkMigrationChains` for one chain. */
  method CheckJournal(entries: seq<Option<string>>, files: set<string>) returns (issues: seq<JournalIssue>)
    ensures issues == [] <==> HasNoFinding(entries, files)
    ensures forall i | 0 <= i < |entries| && (entries[i].None? || entries[i].value == "") :: NoTag(i) in issues
    ensures forall e | e in entries && e.Some? && e.value != "" && FileOf(e.value) !in files ::
              MissingFile(e.value) in issues
    ensures forall x | x in issues :: IsFinding(entries, files, x)
  {
    issues := [];
    if |entries| == 0 || |entries| != |files| {
      issues := issues + [CountMismatch(|entries|, |files|)];
    }
    for i := 0 to |entries|
      invariant forall x | x in issues :: IsFinding(entries, files, x)
      invariant issues == [] <==>
                entries != [] && |entries| == |files| && forall k | 0 <= k < i :: EntryIsSound(entries[k], files)
      invariant forall k | 0 <= k < i && (entries[k].None? || entries[k].value == "") :: NoTag(k) in issues
      invariant forall e | e in entries[..i] && e.Some? && e.value != "" && FileOf(e.value) !in files ::
                  MissingFile(e.value) in issues
    {
      assert entries[..i + 1] == entries[..i] + [entries[i]];
      if entries[i].None? || entries[i].value == "" {
        issues := issues + [NoTag(i)];
      } else if FileOf(entries[i].value) !in files {
        issues := issues + [MissingFile(entries[i].value)];
      }
    }
    assert entries[..|entries|] == entries;
  }

  function Files(tags: seq<string>): set<string> {
    set i | 0 <= i < |tags| :: FileOf(tags[i])
  }

  lemma {:induction false} SameSizeSubset<T>(a: set<T>, b: set<T>)
    requires a <= b && |a| == |b|
    ensures a == b
  {
    assert |b - a| == |b| - |a|;
  }

  lemma {:induction false} FilesOfFront(tags: seq<string>)
    requires tags != []
    ensures Files(tags) == Files(tags[..|tags| - 1]) + {FileOf(tags[|tags| - 1])}
  {
    var front := tags[..|tags| - 1];
    forall f | f in Files(front)
      ensures f in Files(tags)
    {
      var i :| 0 <= i < |front| && FileOf(front[i]) == f;
      assert FileOf(tags[i]) == f;
    }
  }

  /** Distinct tags name distinct files. */
  lemma {:induction false} FileIsNamed(tags: seq<string>, tag: string)
    ensures FileOf(tag) in Files(tags) <==> tag in tags
  {
    if i :| 0 <= i < |tags| && FileOf(tags[i]) == FileOf(tag) {
      assert FileOf(tags[i])[..|tags[i]|] == tags[i] && FileOf(tag)[..|tag|] == tag;
    }
  }

  lemma {:induction false} DuplicatesSnoc(front: seq<string>, last: string)
    ensures NoDuplicates(front + [last]) <==> NoDuplicates(front) && last !in front
  {
    var all := front + [last];
    if NoDuplicates(all) {
      forall i | 0 <= i < |front|
        ensures front[i] != last
      {
        assert all[i] != all[|front|];
      }
      assert forall i, j | 0 <= i < j < |front| :: front[i] == all[i] && front[j] == all[j];
    }
  }

  lemma {:induction false} CountMore<T>(s: set<T>, x: T)
    ensures |s + {x}| == |s| + if x in s then 0 else 1
  {
    if x in s {
      assert s + {x} == s;
    }
  }

  /** As many files as tags exactly when no tag is repeated. */
  lemma {:induction false} DistinctTagsCount(tags: seq<string>)
    ensures |Files(tags)| <= |tags|
    ensures |Files(tags)| == |tags| <==> NoDuplicates(tags)
  {
    if tags != [] {
      var front, last := tags[..|tags| - 1], tags[|tags| - 1];
      DistinctTagsCount(front);
      FilesOfFront(tags);
      FileIsNamed(front, last);
      DuplicatesSnoc(front, last);
      assert tags == front + [last];
      CountMore(Files(front), FileOf(last));
    }
  }

  function Entries(tags: seq<string>): (r: seq<Option<string>>)
    ensures |r| == |tags| && forall i | 0 <= i < |r| :: r[i] == Some(tags[i])
  {
    seq(|tags|, i requires 0 <= i < |tags| => Some(tags[i]))
  }

  /** For a journal without findings the files are exactly those the tags name, iff no tag is repeated. */
  lemma {:induction false} NoFindingsMatchFiles(tags: seq<string>, files: set<string>)
    requires HasNoFinding(Entries(tags), files)
    ensures Files(tags) == files <==> NoDuplicates(tags)
  {
    forall f | f in Files(tags)
      ensures f in files
    {
      var i :| 0 <= i < |tags| && FileOf(tags[i]) == f;
      assert EntryIsSound(Entries(tags)[i], files);
    }
    DistinctTagsCount(tags);
    if NoDuplicates(tags) {
      SameSizeSubset(Files(tags), files);
    }
  }

  /** A repeated tag lets a stray file through: two entries, two files, no finding. */
  lemma {:induction false} StrayFilePasses(tag: string, stray: string)
    requires tag != "" && FileOf(tag) != stray
    ensures HasNoFinding(Entries([tag, tag]), {FileOf(tag), stray})
    ensures Files([tag, tag]) != {FileOf(tag), stray}
  {
    var tags, files := [tag, tag], {FileOf(tag), stray};
    assert |files| == 2;
    assert forall i | 0 <= i < 2 :: EntryIsSound(Entries(tags)[i], files);
    assert tags[0] == tags[1];
    NoFindingsMatchFiles(tags, files);
  }
}
