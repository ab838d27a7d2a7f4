/** Separating explicit test files from Bun's own options, with one argument of lookahead. */
module BunArguments {

  /** Which options take a value, which may take one, and what counts as a test file. */
  datatype Grammar = Grammar(withValue: set<string>, withOptionalValue: set<string>, isTestFile: string -> bool)

  /** The runner's own tables. */
  function BunGrammar(isTestFile: string -> bool): Grammar {
    Grammar({"--test-name-pattern", "-t", "--timeout", "--rerun-each", "--retry", "--max-concurrency", "--reporter",
             "--reporter-outfile", "--coverage-reporter", "--coverage-dir", "--path-ignore-patterns", "--seed",
             "--preload", "--env-file"},
            {"--bail"},
            isTestFile)
  }

  datatype ArgumentError = NotATestFile(argument: string) | MissingValue(option: string)

  datatype Result = Ok(files: seq<string>, options: seq<string>) | Err(error: ArgumentError)

  predicate IsDashed(s: string) {
    s != "" && s[0] == '-'
  }

  /** The option takes the next argument as its value. */
  predicate Consumes(g: Grammar, option: string, rest: seq<string>) {
    && '=' !in option
    && (|| option in g.withValue
        || (option in g.withOptionalValue && rest != [] && !IsDashed(rest[0]) && !g.isTestFile(rest[0])))
  }

  function WithFile(file: string, r: Result): Result {
    match r
    case Err(e) => Err(e)
    case Ok(files, options) => Ok([file] + files, options)
  }

  function WithOptions(more: seq<string>, r: Result): Result {
    match r
    case Err(e) => Err(e)
    case Ok(files, options) => Ok(files, more + options)
  }

  function Split(g: Grammar, arguments: seq<string>): Result {
    if arguments == [] then Ok([], [])
    else
      var argument, rest := arguments[0], arguments[1..];
      if g.isTestFile(argument) then WithFile(argument, Split(g, rest))
      else if !IsDashed(argument) then Err(NotATestFile(argument))
      else if !Consumes(g, argument, rest) then WithOptions([argument], Split(g, rest))
      else if rest == [] || IsDashed(rest[0]) then Err(MissingValue(argument))
      else WithOptions([argument, rest[0]], Split(g, rest[1..]))
  }

  /** What the loop has gathered, in front of what the rest yields. */
  function After(files: seq<string>, options: seq<string>, r: Result): Result {
    match r
    case Err(e) => Err(e)
    case Ok(moreFiles, moreOptions) => Ok(files + moreFiles, options + moreOptions)
  }

  lemma {:induction false} AfterFile(files: seq<string>, options: seq<string>, file: string, r: Result)
    ensures After(files, options, WithFile(file, r)) == After(files + [file], options, r)
  {
    if r.Ok? {
      assert files + ([file] + r.files) == files + [file] + r.files;
    }
  }

  lemma {:induction false} AfterOptions(files: seq<string>, options: seq<string>, more: seq<string>, r: Result)
    ensures After(files, options, WithOptions(more, r)) == After(files, options + more, r)
  {
    if r.Ok? {
      assert options + (more + r.options) == options + more + r.options;
    }
  }

  /** `splitBunTestArguments`. */
  method SplitBunTestArguments(g: Grammar, arguments: seq<string>) returns (r: Result)
    ensures r == Split(g, arguments)
  {
    var files: seq<string>, options: seq<string> := [], [];
    var index := 0;
    assert arguments[0..] == arguments;
    while index < |arguments|
      invariant 0 <= index <= |arguments|
      invariant Split(g, arguments) == After(files, options, Split(g, arguments[index..]))
    {
      var argument := arguments[index];
      ghost var rest := arguments[index + 1..];
      assert arguments[index..][1..] == rest;
      if g.isTestFile(argument) {
        AfterFile(files, options, argument, Split(g, rest));
        files := files + [argument];
        index := index + 1;
        continue;
      }
      if !IsDashed(argument) {
        return Err(NotATestFile(argument));
      }
      var hasNext := index + 1 < |arguments|;
      var optional := argument in g.withOptionalValue && hasNext
                      && !IsDashed(arguments[index + 1]) && !g.isTestFile(arguments[index + 1]);
      var consumesValue := '=' !in argument && (argument in g.withValue || optional);
      assert consumesValue <==> Consumes(g, argument, rest);
      if consumesValue {
        if !hasNext || IsDashed(arguments[index + 1]) {
          return Err(MissingValue(argument));
        }
        assert rest[1..] == arguments[index + 2..];
        AfterOptions(files, options, [argument, arguments[index + 1]], Split(g, arguments[index + 2..]));
        options := options + [argument, arguments[index + 1]];
        index := index + 2;
      } else {
        AfterOptions(files, options, [argument], Split(g, rest));
        options := options + [argument];
        index := index + 1;
      }
    }
    assert arguments[index..] == [];
    return Ok(files, options);
  }

  // ----- the command line as a list of tokens -------------------------------------------------------

  datatype Token = File(path: string) | Flag(option: string) | Valued(option: string, value: string)

  function WordsOf(token: Token): seq<string> {
    match token
    case File(path) => [path]
    case Flag(option) => [option]
    case Valued(option, value) => [option, value]
  }

  function Words(tokens: seq<Token>): seq<string> {
    if tokens == [] then [] else WordsOf(tokens[0]) + Words(tokens[1..])
  }

  function FilesOf(tokens: seq<Token>): seq<string> {
    if tokens == [] then []
    else if tokens[0].File? then [tokens[0].path] + FilesOf(tokens[1..])
    else FilesOf(tokens[1..])
  }

  function OptionsOf(tokens: seq<Token>): seq<string> {
    if tokens == [] then []
    else if tokens[0].File? then OptionsOf(tokens[1..])
    else WordsOf(tokens[0]) + OptionsOf(tokens[1..])
  }

  /** A test file, a flag that takes no value from `rest`, or an option with its value. */
  predicate Fits(g: Grammar, token: Token, rest: seq<string>) {
    match token
    case File(path) => g.isTestFile(path)
    case Flag(option) => IsOption(g, option) && !Consumes(g, option, rest)
    case Valued(option, value) => IsOption(g, option) && Consumes(g, option, [value]) && !IsDashed(value)
  }

  /** Every token is what its place calls for. */
  ghost predicate IsParse(g: Grammar, tokens: seq<Token>) {
    tokens == [] || (Fits(g, tokens[0], Words(tokens[1..])) && IsParse(g, tokens[1..]))
  }

  predicate IsOption(g: Grammar, argument: string) {
    IsDashed(argument) && !g.isTestFile(argument)
  }

  /** Splitting recovers the files and the options of every token list. */
  lemma {:induction false} SplitOfWords(g: Grammar, tokens: seq<Token>)
    requires IsParse(g, tokens)
    ensures Split(g, Words(tokens)) == Ok(FilesOf(tokens), OptionsOf(tokens))
  {
    if tokens != [] {
      SplitOfWords(g, tokens[1..]);
      SplitOfFirst(g, tokens[0], Words(tokens[1..]));
    }
  }

  lemma {:induction false} SplitOfFirst(g: Grammar, token: Token, rest: seq<string>)
    requires Fits(g, token, rest)
    ensures Split(g, WordsOf(token) + rest)
            == if token.File? then WithFile(token.path, Split(g, rest)) else WithOptions(WordsOf(token), Split(g, rest))
  {
    var words := WordsOf(token) + rest;
    if token.Valued? {
      assert words[1..] == [token.value] + rest && words[1..][1..] == rest;
      assert Consumes(g, token.option, [token.value] + rest);
    } else {
      assert words[1..] == rest;
    }
  }

  /** Splitting succeeds only on a token list; with `SplitOfWords`, exactly on those. */
  lemma {:induction false} SplitHasTokens(g: Grammar, arguments: seq<string>) returns (tokens: seq<Token>)
    requires Split(g, arguments).Ok?
    ensures IsParse(g, tokens) && Words(tokens) == arguments
    decreases |arguments|
  {
    if arguments == [] {
      return [];
    }
    var argument, rest := arguments[0], arguments[1..];
    if g.isTestFile(argument) {
      var more := SplitHasTokens(g, rest);
      tokens := [File(argument)] + more;
      assert tokens[1..] == more;
    } else if !Consumes(g, argument, rest) {
      var more := SplitHasTokens(g, rest);
      tokens := [Flag(argument)] + more;
      assert tokens[1..] == more;
    } else {
      var more := SplitHasTokens(g, rest[1..]);
      tokens := [Valued(argument, rest[0])] + more;
      assert tokens[1..] == more;
      assert Consumes(g, argument, [rest[0]]);
    }
  }

  /** An error names an argument that is really at fault. */
  lemma {:induction false} ErrorIsJustified(g: Grammar, arguments: seq<string>)
    requires Split(g, arguments).Err?
    ensures match Split(g, arguments).error
            case NotATestFile(a) => a in arguments && !IsDashed(a) && !g.isTestFile(a)
            case MissingValue(o) =>
              o in arguments && IsOption(g, o) && o in g.withValue &&
              exists i | 0 <= i < |arguments| ::
                arguments[i] == o && (i + 1 == |arguments| || IsDashed(arguments[i + 1]))
    decreases |arguments|
  {
    var argument, rest := arguments[0], arguments[1..];
    if g.isTestFile(argument) || (IsDashed(argument) && !Consumes(g, argument, rest)) {
      ErrorIsJustified(g, rest);
      ErrorShifts(Split(g, rest).error, arguments, 1);
    } else if IsDashed(argument) && rest != [] && !IsDashed(rest[0]) {
      ErrorIsJustified(g, rest[1..]);
      assert rest[1..] == arguments[2..];
      ErrorShifts(Split(g, rest[1..]).error, arguments, 2);
    } else {
      assert arguments[0] == argument && (rest == [] || arguments[1] == rest[0]);
    }
  }

  lemma {:induction false} ErrorShifts(e: ArgumentError, arguments: seq<string>, k: nat)
    requires k <= |arguments|
    ensures e.NotATestFile? && e.argument in arguments[k..] ==> e.argument in arguments
    ensures e.MissingValue? && (exists i | 0 <= i < |arguments[k..]| ::
              arguments[k..][i] == e.option && (i + 1 == |arguments[k..]| || IsDashed(arguments[k..][i + 1]))) ==>
              exists i | 0 <= i < |arguments| ::
                arguments[i] == e.option && (i + 1 == |arguments| || IsDashed(arguments[i + 1]))
  {
    var rest := arguments[k..];
    if e.MissingValue? {
      if i :| 0 <= i < |rest| && rest[i] == e.option && (i + 1 == |rest| || IsDashed(rest[i + 1])) {
        assert arguments[k + i] == e.option;
        assert i + 1 < |rest| ==> arguments[k + i + 1] == rest[i + 1];
      }
    }
  }

  // ----- nothing is lost or reordered ----------------------------------------------------------------

  /** `all` consists of `a` and `b`, each in order. */
  ghost predicate IsInterleaving(all: seq<string>, a: seq<string>, b: seq<string>) {
    if all == [] then a == [] && b == []
    else
      || (a != [] && a[0] == all[0] && IsInterleaving(all[1..], a[1..], b))
      || (b != [] && b[0] == all[0] && IsInterleaving(all[1..], a, b[1..]))
  }

  /** Every argument lands in exactly one of the two lists, in order. */
  lemma {:induction false} SplitInterleaves(g: Grammar, arguments: seq<string>)
    requires Split(g, arguments).Ok?
    ensures IsInterleaving(arguments, Split(g, arguments).files, Split(g, arguments).options)
    decreases |arguments|
  {
    if arguments != [] {
      var argument, rest, r := arguments[0], arguments[1..], Split(g, arguments);
      if g.isTestFile(argument) {
        SplitInterleaves(g, rest);
        assert r.files[1..] == Split(g, rest).files;
      } else if !Consumes(g, argument, rest) {
        SplitInterleaves(g, rest);
        assert r.options[1..] == Split(g, rest).options;
      } else {
        SplitInterleaves(g, rest[1..]);
        assert r.options[1..][1..] == Split(g, rest[1..]).options;
        assert IsInterleaving(rest, r.files, r.options[1..]);
      }
    }
  }

  lemma {:induction false} InterleavingCounts(all: seq<string>, a: seq<string>, b: seq<string>)
    requires IsInterleaving(all, a, b)
    ensures multiset(all) == multiset(a) + multiset(b)
  {
    if all != [] {
      assert all == [all[0]] + all[1..];
      if a != [] && a[0] == all[0] && IsInterleaving(all[1..], a[1..], b) {
        InterleavingCounts(all[1..], a[1..], b);
        assert a == [a[0]] + a[1..];
      } else {
        InterleavingCounts(all[1..], a, b[1..]);
        assert b == [b[0]] + b[1..];
      }
    }
  }

  // ----- splitting again -----------------------------------------------------------------------------

  ghost predicate AreTestFiles(g: Grammar, files: seq<string>) {
    forall f | f in files :: g.isTestFile(f)
  }

  /** Files are test files, and the first option is never a value. */
  lemma {:induction false} SplitShape(g: Grammar, arguments: seq<string>)
    requires Split(g, arguments).Ok?
    ensures AreTestFiles(g, Split(g, arguments).files)
    ensures var options := Split(g, arguments).options; options != [] ==> IsDashed(options[0])
    decreases |arguments|
  {
    if arguments != [] {
      var argument, rest := arguments[0], arguments[1..];
      if g.isTestFile(argument) || !Consumes(g, argument, rest) {
        SplitShape(g, rest);
      } else {
        SplitShape(g, rest[1..]);
      }
    }
  }

  lemma {:induction false} SplitOfFiles(g: Grammar, files: seq<string>)
    requires AreTestFiles(g, files)
    ensures Split(g, files) == Ok(files, [])
  {
    if files != [] {
      assert files[0] in files;
      SplitOfFiles(g, files[1..]);
      assert files == [files[0]] + files[1..];
    }
  }

  lemma {:induction false} SplitOfOptions(g: Grammar, arguments: seq<string>, files: seq<string>)
    requires Split(g, arguments).Ok? && AreTestFiles(g, files)
    ensures Split(g, Split(g, arguments).options + files) == Ok(files, Split(g, arguments).options)
    decreases |arguments|
  {
    if arguments == [] {
      assert [] + files == files;
      SplitOfFiles(g, files);
    } else {
      var argument, rest := arguments[0], arguments[1..];
      if g.isTestFile(argument) {
        SplitOfOptions(g, rest, files);
      } else if !Consumes(g, argument, rest) {
        SplitOfOptions(g, rest, files);
        SplitShape(g, rest);
        SplitOfPlainOption(g, argument, Split(g, rest).options, files, rest);
      } else {
        SplitOfOptions(g, rest[1..], files);
        SplitOfValueOption(g, argument, rest[0], Split(g, rest[1..]).options, files);
      }
    }
  }

  /** An option that took no value takes none in front of other options or files. */
  lemma {:induction false} SplitOfPlainOption(g: Grammar, option: string, options: seq<string>, files: seq<string>,
                                              rest: seq<string>)
    requires IsDashed(option) && !g.isTestFile(option) && !Consumes(g, option, rest)
    requires AreTestFiles(g, files) && (options != [] ==> IsDashed(options[0]))
    requires Split(g, options + files) == Ok(files, options)
    ensures Split(g, [option] + options + files) == Ok(files, [option] + options)
  {
    var all, tail := [option] + options + files, options + files;
    assert all[0] == option && all[1..] == tail;
    if options != [] {
      assert tail[0] == options[0];
    } else if files != [] {
      assert tail[0] == files[0] && files[0] in files;
    }
    assert !Consumes(g, option, tail);
  }

  lemma {:induction false} SplitOfValueOption(g: Grammar, option: string, value: string, options: seq<string>, files: seq<string>)
    requires IsDashed(option) && !g.isTestFile(option) && !IsDashed(value)
    requires Consumes(g, option, [value])
    requires Split(g, options + files) == Ok(files, options)
    ensures Split(g, [option, value] + options + files) == Ok(files, [option, value] + options)
  {
    var all, tail := [option, value] + options + files, [value] + (options + files);
    assert all[0] == option && all[1..] == tail && tail[1..] == options + files;
    assert Consumes(g, option, tail);
  }

  /** The command line that is run, options before files, splits into the same two lists. */
  lemma {:induction false} SplitAgainIsSame(g: Grammar, arguments: seq<string>)
    requires Split(g, arguments).Ok?
    ensures Split(g, Split(g, arguments).options + Split(g, arguments).files) == Split(g, arguments)
  {
    SplitShape(g, arguments);
    SplitOfOptions(g, arguments, Split(g, arguments).files);
  }

  /** What an agent's environment adds to the command line. */
  const ONLY_FAILURES := "--only-failures"

  /** The command line after `bun test`: an optional flag, the options, and the resolved files. */
  function CommandLine(agent: bool, options: seq<string>, files: seq<string>): seq<string> {
    (if agent then [ONLY_FAILURES] else []) + options + files
  }

  /**
   * The command line that the runner emits, with its own flag and with resolved paths in
   * place of the arguments, splits into the same options behind that flag and those paths.
   */
  lemma {:induction false} EmittedCommandSplits(isTestFile: string -> bool, arguments: seq<string>, agent: bool, resolved: seq<string>)
    requires !isTestFile(ONLY_FAILURES) && Split(BunGrammar(isTestFile), arguments).Ok?
    requires AreTestFiles(BunGrammar(isTestFile), resolved)
    ensures var g := BunGrammar(isTestFile);
            var options := Split(g, arguments).options;
            Split(g, CommandLine(agent, options, resolved))
            == Ok(resolved, (if agent then [ONLY_FAILURES] else []) + options)
  {
    var g := BunGrammar(isTestFile);
    var options := Split(g, arguments).options;
    SplitShape(g, arguments);
    SplitOfOptions(g, arguments, resolved);
    if agent {
      FlagTakesNoValue(isTestFile);
      SplitOfPlainOption(g, ONLY_FAILURES, options, resolved, []);
    } else {
      assert [] + options == options;
    }
  }

  lemma {:induction false} FlagTakesNoValue(isTestFile: string -> bool)
    ensures IsDashed(ONLY_FAILURES) && !Consumes(BunGrammar(isTestFile), ONLY_FAILURES, [])
  {
    assert |ONLY_FAILURES| == 15 && ONLY_FAILURES[2] == 'o' && ONLY_FAILURES[3] == 'n';
  }
}
