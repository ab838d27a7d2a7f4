# Makaio tooling: a verified model

The repository's build, release and test tooling contains a dozen small algorithms that
other things rely on without looking: a machine-wide test lock, the planner that orders
dev publishes, the generators that rewrite Rust and Python SDK files, the import rewriting
of the framework umbrella, the checkers of the built distribution, and the end-to-end test
helpers.  This project models them in Dafny and proves what they promise, for every input
and every run.

`dafny verify dfyconfig.toml` verifies the whole project.  Every lemma carries
`{:induction false}`: the induction is written out in its body.

## How the parts fit together

**The test lock** (`MachineTestLock`, `MachineTestLockBound`, `MachineTestLockOverlap`,
`MachineTestLockQuiet`, `MachineTestLockProgress`).  Calls of
`withMachineTestLock` are processes of a transition system.  Each file-system call is one
step: `mkdir`, reading `owner.json`, the liveness and age tests, `rm`, truncating and
then filling `owner.json`.  A directory keeps its creator apart from the metadata written
into it, because a displaced holder can write into, and remove, somebody else's
directory.  Any call may crash at any point and process ids may be reused.  `OverlapBound`
counts the overlap in every run; `OverlapExtent` and `OverlapAfterCrash` say, for any
callers, exactly how many can hold at once; `QuietRunIsExclusive` gives the runs in which
the lock really is exclusive.  Progress is the other side: a call settles only by releasing
or by a failed `mkdir` (`SettledHasCause`), a waiting call on a free path gets to run by its
own steps (`WaiterRuns`), and all waiting calls can take their turns (`AllTakeTurns`).

**The publish planner** (`DevPublishPlan`, `DevTags`, `CodeUnitOrder`).  `Planner` has the closure's
mutable state; its ghost trail is the chain of open visits.  The result is specified without
reference to the search: reachability and cycles are statements about paths.  The tags a plan
carries are read back by the function that looks them up later (`TagRoundTrips`).

**Rust regeneration** (`Lines`, `RustSplice`, `RustSubjects`, `RustSection`, `RustReader`,
`RustNames`).  Text is split
into lines once, and every operation is shown to act line by line.  The splice results
hold for any section of the right shape; `GeneratedIsSection` shows the generator produces one.
`RustReader` is a reader of the generated section: for every manifest it gives back the
manifest, every subject with its own names and types (`SectionReadsBack`).

**Import rewriting** (`FrameworkImports`, `FrameworkImportTables`, `FrameworkImportText`,
`FrameworkImportAgreement`).
A text is cut at its quote characters; one global replacement is a greedy left-to-right
pass over the pieces, and the fold of all passes is compared with rewriting each literal
by itself.

**Checkers** (`LightEntryOrder`, `LightEntries`, `DistVerifier`, `Utf8Identifier`, `DdlBody`).  Each loop is
proved against a statement about the whole input: reachability in the import graph, the
set of offenses committed by any module, the longest fitting code-point prefix, the list
of top-level segments.  The light-entry walk is also proved breadth first: the module it
names for an external is a nearest one that imports it (`NearestIsReported`).

**Python payloads** (`VariantSuffix`, `PythonTypes`, `PythonPayloads`, `PythonModule`,
`PythonValues`, `PythonMeaning`, `PythonModuleValues`, `PythonText`, `PythonNames`).
`Context` owns the shared class list; its methods append exactly `Emitted(...)`, and the
order of definitions is proved about that sequence.  Schemas and annotations both have a
meaning as sets of JSON values; `AnnotationIsSound` compares them, and `AnnotationMeans` says
exactly which values an annotation admits, in terms of the schema.  The text of an annotation
is read back to the annotation (`AnnotationReadsBack`).

**Small protocols and parsers** (`GitBatch`, `OutputCapture`, `ProbeRace`, `BunArguments`).

`Collections` and `Characters` hold what several of them share.

## Where the code and its own words disagree

- `scripts/lib/machine-test-lock.ts:152-155` says that the window only opens after a holder
  crashed and that its worst case is one overlapping batch.  Both halves fail.  Without any
  crash, once a holder outlives the stale age every call can hold at once: at most `k` calls
  ever overlap if and only if there are at most `k` calls (`OverlapExtent`; one overlapping
  batch is `k == 2`).  Within the stale age the window does need a crash
  (`QuietRunIsExclusive`), but a single one lets in every call of every other process: at most
  `k` overlap if and only if at most `k` calls belong to other processes (`OverlapAfterCrash`).
- `build-tooling/framework-import-map.ts:94-99` does not rewrite a literal whose opening
  quote closed the previous match.  `RewriteTextAgrees` and `RewriteTextIsIdempotent` hold
  if and only if no two adjacent matches of one rule share a quote (`SharedQuoteClashes` is
  the smallest failure).  For a text of literals and plain stretches, `LiteralsAreRewritten`
  gives the condition on the stretches: one that an equal quote closes and a package owns
  must stand behind a literal of that package.
- `scripts/bindings/python-payloads.ts:407-411` tests for the text `None` anywhere in the
  annotation.  `RenderShowsNone` says where that text can come from and
  `OptionalFieldAdmitsNone` exactly when an optional field ends up admitting `None`; an
  optional array whose items are nullable never does (`NullableItemsLackNone`).
- `scripts/bindings/python-payloads.ts:284-295` and `:308-311` annotate a union they cannot
  represent as a dictionary, also when none of its variants is an object: a value of
  `anyOf` string and integer never is of that type (`CollapsedUnionIsUnsound`).  Such a union
  admits exactly the objects (`CollapsedAdmitsObjects`); a valid value is admitted if and only
  if it is represented (`AnnotationMeans`), which it is whenever no union on its way is given
  up (`AnnotationIsSound`, `RepresentableIsSound`).
- `scripts/bindings/python-payloads.ts:153-158` writes an enumeration value between quotes as
  it is.  It can be read back if and only if it holds no quote, backslash or line break
  (`TextReadsBack`).
- `scripts/lib/framework-dist-verifier.ts:608-611` intends stray migration files to be reported by
  the count.  With a repeated tag they are not (`StrayFilePasses`); without findings the
  tags name exactly the files if and only if no tag repeats (`NoFindingsMatchFiles`).
- `e2e/shared/bus-helpers.ts:179-180` promises race safety.  It needs the probe to be answered:
  `NoWakeUpIsLost` proves it then, and `LostProbeStrands` is a run with a lost probe in
  which the client waits for an event that has gone.  `StrandedExactly` gives the condition:
  the event fired before the subscription and the client waits with its listener registered.

## Model

| member | source | states |
|---|---|---|
| MachineTestLock.CallStepHolders | scripts/lib/machine-test-lock.ts:146-184 | which step of a call adds or removes a holder, and what it does to the creator of the directory |
| MachineTestLockBound.ReleaseDisplaces | scripts/lib/machine-test-lock.ts:180-182 | a release removes one holder and never raises the number of displaced holders, even when it deletes somebody else's directory |
| MachineTestLockBound.StealDisplaces | scripts/lib/machine-test-lock.ts:151-158 | a steal displaces at most one holder, and none unless it removed a live holder's directory |
| MachineTestLockBound.StepDisplaces | scripts/lib/machine-test-lock.ts:102-184 | no step but a harmful steal raises the number of displaced holders |
| MachineTestLockBound.RunDisplaces | scripts/lib/machine-test-lock.ts:102-184 | over a whole run, displaced holders grow by at most the number of harmful steals |
| MachineTestLockBound.OverlapBound | scripts/lib/machine-test-lock.ts:146-184 | in every run of any number of calls, with crashes, steals and reused pids, live holders are at most one plus the number of harmful steals |
| MachineTestLockQuiet.FreshRun | scripts/lib/machine-test-lock.ts:102-184 | the invariant behind exclusivity survives every run that is no longer than the stale age and in which no taker dies |
| MachineTestLockQuiet.QuietRunIsExclusive | scripts/lib/machine-test-lock.ts:102-184 | such a run from an absent directory never steals, has at most one holder, has a directory exactly while someone holds, records that holder's pid, and leaves no directory once all calls have settled |
| MachineTestLockOverlap.TakeAll | scripts/lib/machine-test-lock.ts:146-158 | calls that have judged the lock stale take it one after the other, each steal but possibly the first displacing a live holder |
| MachineTestLockOverlap.AllHoldAtOnce | scripts/lib/machine-test-lock.ts:146-184 | from any initial state, some run without a crash ends with every call holding at once, after exactly one harmful steal less than there are calls, so the bound of OverlapBound is met |
| MachineTestLockOverlap.OverlapExtent | scripts/lib/machine-test-lock.ts:152-155 | for any callers and any k, no run ever has more than k live holders if and only if there are at most k calls; the comment's "one overlapping batch" is k = 2, and needs no crash to fail |
| MachineTestLockOverlap.CrashLetsOthersIn | scripts/lib/machine-test-lock.ts:102-184 | after the crash of one holder's process, with no time passing, every call of every other process can hold at once |
| MachineTestLockOverlap.OverlapAfterCrash | scripts/lib/machine-test-lock.ts:152-155 | with that crash and no time passing, no run has more than k live holders if and only if at most k calls belong to other processes |
| MachineTestLockProgress.RunExplains | scripts/lib/machine-test-lock.ts:146-184 | in every run from an initial state, wherever a call is, it got there by the action that leads there |
| MachineTestLockProgress.SettledHasCause | scripts/lib/machine-test-lock.ts:146-184 | a call settles only if it released the lock or its `mkdir` failed |
| MachineTestLockProgress.ActionsAreOrdered | scripts/lib/machine-test-lock.ts:176-183 | stamping follows `mkdir`, opening the metadata follows stamping, writing follows opening, the work ends only after the write, and a release follows the end of the work unless the metadata could not be written |
| MachineTestLockProgress.SettledIsFinal | scripts/lib/machine-test-lock.ts:146-184 | a settled call stays settled and takes no further action |
| MachineTestLockProgress.TriesAgain | scripts/lib/machine-test-lock.ts:151-167 | on a free path a waiting call comes back to `mkdir` by its own actions, from wherever it is |
| MachineTestLockProgress.WaiterRuns | scripts/lib/machine-test-lock.ts:146-180 | on a free path every waiting call reaches its work by its own actions alone, with its own metadata recorded |
| MachineTestLockProgress.WaiterCompletes | scripts/lib/machine-test-lock.ts:146-184 | and from there finishes, releases and settles, leaving the path free |
| MachineTestLockProgress.AllTakeTurns | scripts/lib/machine-test-lock.ts:124-128 | any set of waiting calls can all run their work one after the other and settle |
| MachineTestLockProgress.HolderReleases | scripts/lib/machine-test-lock.ts:170-183 | every path after a successful `mkdir` releases: wherever a holder is, and if its next write fails, it can settle by itself with the path free, and without the work if a write failed |
| CodeUnitOrder.SortSorts | scripts/lib/dev-publish-core.ts:165-168 | sorting gives a permutation in the order of UTF-16 code units |
| DevPublishPlan.Sorted | scripts/lib/dev-publish-core.ts:165-168 | sorted names are the same names, each as often, in order |
| DevPublishPlan.EdgesByKind | scripts/lib/dev-publish-core.ts:157-173 | a package depends on exactly the framework it names if that is known, the requested ones among its dependencies, and its retained workspace dependencies |
| DevPublishPlan.TrailCloses | scripts/lib/dev-publish-core.ts:147-150 | meeting a package that is still being visited exhibits a reachable cycle through it |
| DevPublishPlan.PathDescends | scripts/lib/dev-publish-core.ts:142-181 | in a dependency-first list, positions fall along every dependency path |
| DevPublishPlan.OrderedIsAcyclic | scripts/lib/dev-publish-core.ts:142-181 | nothing in a dependency-first list without repetitions lies on a cycle |
| DevPublishPlan.ReachableIsListed | scripts/lib/dev-publish-core.ts:142-181 | such a list that has every requested package has every reachable one |
| DevPublishPlan.SearchIsComplete | scripts/lib/dev-publish-core.ts:142-181 | a finished search lists exactly the reachable packages, all acyclic, with all retained dependencies known |
| DevPublishPlan.Planner.Visit | scripts/lib/dev-publish-core.ts:146-177 | a visit terminates, keeps the order invariant and marks the package visited, or names a real defect |
| DevPublishPlan.Planner.VisitDependencies | scripts/lib/dev-publish-core.ts:157-173 | afterwards every target of the three edge kinds has been visited |
| DevPublishPlan.Planner.Finish | scripts/lib/dev-publish-core.ts:174-176 | closing a visit appends the package after all it depends on and keeps the invariant |
| DevPublishPlan.Search | scripts/lib/dev-publish-core.ts:142-181 | visiting all requested names ends with a duplicate-free dependency-first list of reachable packages, or a justified error |
| DevPublishPlan.DevVersionKeepsBase | scripts/lib/dev-publish-core.ts:79-98 | a snapshot version is its base, `-dev-` and the timestamp, and stripping its prerelease gives back the base |
| DevPublishPlan.StripIsPattern | scripts/lib/dev-publish-core.ts:79-85 | stripping a version gives a base if and only if the version is three dotted numerals, the base, with an optional suffix |
| DevPublishPlan.SuffixesAreStripped | scripts/lib/dev-publish-core.ts:79-85 | a suffix after `-` or `+` is stripped |
| DevPublishPlan.Stamp | scripts/lib/dev-publish-core.ts:183-191 | stamping succeeds exactly for a valid timestamp and version; the version is then the base, `-dev-` and the timestamp, the tag `dev/`, the name, `/v` and that version, and the base is what the package version has before its suffix |
| DevPublishPlan.StampAllSucceeds | scripts/lib/dev-publish-core.ts:183-191 | stamping all succeeds if every package can be stamped |
| DevPublishPlan.StampAllEach | scripts/lib/dev-publish-core.ts:183-191 | if it succeeds, every package was stamped with the timestamp, one result each in order |
| DevPublishPlan.StampErrorIsJustified | scripts/lib/dev-publish-core.ts:93-98 | a stamping error is a bad timestamp for a non-empty request or the unsupported version of a reachable package |
| DevPublishPlan.StampedIsPlan | scripts/lib/dev-publish-core.ts:183-191 | stamping a complete search gives a plan |
| DevPublishPlan.ResolveDevPublishPlan | scripts/lib/dev-publish-core.ts:130-192 | a plan is returned if and only if every reachable package is known, acyclic, retains only known dependencies and has a supported version, and the timestamp is valid unless nothing is requested; it lists each reachable package once, dependencies first, each with the version and tag of this timestamp; every error names a defect that is there |
| DevTags.ParseIsPattern | scripts/lib/dev-publish-info.ts:132-149 | a tag parses to digits if and only if it starts with the prefix of the package and ends in `-dev-` and those digits |
| DevTags.TagRoundTrips | scripts/lib/dev-publish-info.ts:132-149 | the tag of a stamped package parses to the timestamp of its publish run |
| DevTags.VersionsDiffer | scripts/lib/dev-publish-core.ts:93-98 | snapshots of different publish runs have different versions |
| DevTags.VersionHasNoSlash | scripts/lib/dev-publish-core.ts:93-98 | a snapshot version has no slash |
| DevTags.TagsDiffer | scripts/lib/dev-publish-core.ts:183-191 | two stamped packages have the same tag if and only if they have the same name and version |
| Lines.JoinOfSplit | scripts/bindings/rust.ts:355-369 | joining the lines of a text gives the text |
| Lines.SplitOfJoin | scripts/bindings/rust.ts:355-369 | splitting joined lines gives the lines |
| Lines.NormalizeByLines | scripts/bindings/rust.ts:215-220 | the two replacement patterns act exactly on the ends of terminated lines |
| Lines.HasCrLfByLines | scripts/bindings/rust.ts:205-207 | CRLF is detected exactly when a terminated line ends in a carriage return |
| RustSplice.SectionIsFound | scripts/bindings/rust.ts:354-370 | in a section followed by marker-free text, the search stops at the section's own end marker |
| RustSplice.ExtractedFits | scripts/bindings/rust.ts:354-370 | extracted text has no start marker and no CRLF unless the file is a CRLF file |
| RustSplice.NormalizeIsIdempotent | scripts/bindings/rust.ts:215-220 | normalising twice is normalising once for text that fits the ending |
| RustSplice.SpliceKeepsHandAuthored | scripts/bindings/rust.ts:354-410 | extracting from the spliced file gives the normalised old suffix, and the line ending is kept |
| RustSplice.SpliceIsStable | scripts/bindings/rust.ts:403-410 | splicing into a spliced file is splicing into the original, whatever section came first |
| RustSubjects.GroupsPartition | scripts/bindings/rust.ts:147-160 | a group holds exactly the subjects of its namespace, and a namespace is listed exactly if its group is non-empty |
| RustSubjects.GroupByNamespace | scripts/bindings/rust.ts:147-160 | the loop yields namespaces in first-seen order and each group in subject order |
| RustSubjects.CheckModules | scripts/bindings/rust.ts:168-179 | passes exactly if equal module names mean equal namespaces; otherwise names two namespaces that collide |
| RustSubjects.CheckConstants | scripts/bindings/rust.ts:183-197 | passes exactly if all constants of a group differ; otherwise names the two entries |
| RustSubjects.ChecksDecide | scripts/bindings/rust.ts:167-198 | the module check and the per-group checks together decide whether any two entries collide |
| RustSubjects.AssertNoIdentifierCollisions | scripts/bindings/rust.ts:167-198 | passes if and only if no two manifest entries collide; a failure names entries that are there and do |
| RustSection.GenerateNamespaceModule | scripts/bindings/rust.ts:228-265 | the pushed lines of one module block |
| RustSection.GenerateRustSubjectsSection | scripts/bindings/rust.ts:295-344 | succeeds exactly without collisions, and its text is the joined section lines, modules in namespace order and entries in subject order |
| RustSection.GeneratedIsSection | scripts/bindings/rust.ts:228-344 | with no line breaks in manifest strings, the section starts and ends with the markers and no line between them can be taken for one |
| RustSection.GenerateKeepsHandAuthored | scripts/bindings/rust.ts:403-410 | regeneration keeps the text after the end marker up to line-ending normalisation, and the line ending |
| RustSection.GenerateIsIdempotent | scripts/bindings/rust.ts:403-410 | generating again from the output with the same manifest gives the identical file, for LF, CRLF and mixed input |
| RustSection.GenerateForgetsDetours | scripts/bindings/rust.ts:403-410 | regenerating with another manifest in between makes no difference |
| RustReader.ReadModuleLines | scripts/bindings/rust.ts:228-265 | reading the lines of a module gives back its name, its imports and each of its subjects with constant, full subject, struct and the types of its own slots |
| RustReader.UsesByKinds | scripts/bindings/rust.ts:228-238 | a module imports exactly the traits that its subjects implement |
| RustReader.ReadAllEntries | scripts/bindings/rust.ts:272-284 | reading the array gives back kind, namespace, subject and path of every subject in order |
| RustReader.SectionReadsBack | scripts/bindings/rust.ts:228-344 | for every manifest, reading the generated section gives back exactly the manifest, with every type looked up at its own slot |
| RustReader.TextReadsBack | scripts/bindings/rust.ts:295-344 | the same for the generated text when no manifest string has a line break |
| RustReader.PathsAreUnambiguous | scripts/bindings/rust.ts:167-198 | in a collision-free manifest a module name and a constant name stand for one subject |
| RustNames.ScreamingByParts | scripts/bindings/rust.ts:89-95 | a dot becomes an underscore, a capital gets one in front, every other letter becomes a capital |
| RustNames.ConstantLetters | scripts/bindings/rust.ts:89-95 | a constant has the letters of its subject in order, in capitals, with no dot and no lower case |
| RustNames.PascalByWords | scripts/bindings/rust.ts:102-108 | each word between underscores is capitalised and the underscores go |
| RustNames.TypeLetters | scripts/bindings/rust.ts:102-108 | a struct name has the letters of the constant, up to case, and no underscore |
| RustNames.SnakeByParts | scripts/bindings/rust.ts:124-131 | each character of a namespace contributes its own part of the module name |
| RustNames.SnakeCharacters | scripts/bindings/rust.ts:124-131 | a module name has no capital and no separator of a namespace |
| RustNames.PlainNameIsKept | scripts/bindings/rust.ts:124-131 | a plain namespace is its own module name, with `r#` in front exactly if it is a keyword |
| FrameworkImports.SpecifierUsesLongestMatch | build-tooling/framework-import-map.ts:43-71 | a specifier is rewritten exactly if some package owns it, and by an owner of greatest length |
| FrameworkImportTables.SpecifierOfOwner | build-tooling/framework-import-map.ts:63-71 | in a well-formed table the one owner decides |
| FrameworkImportTables.SuffixIsKept | build-tooling/framework-import-map.ts:63-71 | a package name with any subpath is rewritten to the umbrella, the subpath of its rule and the same subpath |
| FrameworkImportTables.OwnersAreRelated | build-tooling/framework-import-map.ts:63-71 | two packages that own one specifier are equal or nested |
| FrameworkImportTables.RewrittenIsFinal | build-tooling/framework-import-map.ts:63-71 | no rule applies to a rewritten specifier |
| FrameworkImportTables.ScopedTableIsWellFormed | build-tooling/framework-import-map.ts:36-50 | distinct `@makaio/<name>` packages other than the umbrella form a well-formed table |
| FrameworkImportText.MatchEndOfPiece | build-tooling/framework-import-map.ts:47-50 | the pattern matches at a quote exactly when the text up to the next quote is owned and closed by the same quote |
| FrameworkImportText.PiecesRender | build-tooling/framework-import-map.ts:94-99 | cutting a text at its quotes loses nothing |
| FrameworkImportText.RenderPieces | build-tooling/framework-import-map.ts:94-99 | cutting a rendered list of pieces gives the pieces back |
| FrameworkImportText.ReplaceByPieces | build-tooling/framework-import-map.ts:94-99 | one global replacement is one greedy pass over the pieces |
| FrameworkImportAgreement.FoldByOutcome | build-tooling/framework-import-map.ts:94-99 | the fold of all rules leaves at each piece what its one owner makes of it |
| FrameworkImportAgreement.FoldAgrees | build-tooling/framework-import-map.ts:94-99 | on pieces, the fold equals the per-literal rewrite if and only if no rule clashes |
| FrameworkImportAgreement.RewriteTextAgrees | build-tooling/framework-import-map.ts:63-99 | for every text, folding all replacements equals rewriting each literal by the single-specifier function, if and only if no two adjacent matches of a rule share a quote |
| FrameworkImportAgreement.RewriteTextIsIdempotent | build-tooling/framework-import-map.ts:94-99 | a second rewrite changes nothing, if and only if there is no such clash |
| FrameworkImportAgreement.RewriteTextIgnoresOrder | build-tooling/framework-import-map.ts:94-99 | the order of the rules never matters |
| FrameworkImportAgreement.SharedQuoteClashes | build-tooling/framework-import-map.ts:94-99 | two owned names that share a quote are a concrete disagreement |
| FrameworkImportAgreement.LiteralsAreRewritten | build-tooling/framework-import-map.ts:94-99 | in a text of quote-free literals and plain stretches exactly the literals are rewritten, if and only if every stretch that an equal quote closes and a package owns stands behind a literal of that package |
| FrameworkImportAgreement.PlainTextIsShielded | build-tooling/framework-import-map.ts:94-99 | in particular when no plain stretch is itself a specifier |
| LightEntries.Walk.Process | scripts/lib/framework-dist-light-entries.ts:50-78 | one import extends the modules met and the issues exactly as the breadth-first walk says |
| LightEntries.Walk.Turn | scripts/lib/framework-dist-light-entries.ts:47-79 | one module is taken off the front of the queue and its distinct imports are processed, which is one turn of the walk |
| LightEntries.Walk.Run | scripts/lib/framework-dist-light-entries.ts:44-79 | the walk ends on any graph, has visited exactly the reachable modules, its issues are exactly the unresolved relative imports and one per disallowed external, in the order of the breadth-first walk |
| LightEntryOrder.DistinctKeepsOrder | scripts/lib/framework-dist-light-entries.ts:50-50 | distinct specifiers keep the order of their first occurrences |
| LightEntryOrder.RelativeByPrefix | scripts/lib/framework-dist-light-entries.ts:51-51 | a specifier is relative if and only if it is `./` or `../` and some text |
| LightEntryOrder.MetExactly | scripts/lib/framework-dist-light-entries.ts:44-79 | a walk that has had its turn at every module has met exactly the reachable ones |
| LightEntryOrder.CompleteOnce | scripts/lib/framework-dist-light-entries.ts:47-79 | the number of its turns is determined by the files |
| LightEntryOrder.WalkIsSweep | scripts/lib/framework-dist-light-entries.ts:44-79 | the walk is breadth first: what a module links to is met by the end of its turn, and nothing is met that no earlier module links to |
| LightEntryOrder.NearestFirst | scripts/lib/framework-dist-light-entries.ts:44-79 | modules are met in the order of their distance from the entry |
| LightEntryOrder.WalkFinds | scripts/lib/framework-dist-light-entries.ts:50-78 | its issues are exactly the unresolved relative imports and the disallowed externals of reachable modules |
| LightEntryOrder.FirstReports | scripts/lib/framework-dist-light-entries.ts:69-77 | an external is reported for the first module of the walk that imports it |
| LightEntryOrder.NearestIsReported | scripts/lib/framework-dist-light-entries.ts:69-77 | for every chain of imports to a module that imports the external, one that is no longer leads to the module reported |
| LightEntryOrder.NoFindingsMeansClean | scripts/lib/framework-dist-light-entries.ts:41-80 | no issue if and only if every reachable external is allowed and every reachable relative import resolves |
| LightEntries.CheckEntry | scripts/lib/framework-dist-light-entries.ts:41-80 | an entry that is not there is skipped, a directory cannot be read, any other is walked completely and has the issues of that walk |
| LightEntries.CheckLightEntries | scripts/lib/framework-dist-light-entries.ts:36-82 | the sink grows by the findings of each entry in order, and by nothing exactly if all entries are clean |
| Utf8Identifier.EncodeChar | scripts/lib/ddl-parity-validator.ts:110-110 | one to four bytes, a non-continuation byte first and continuation bytes after it, as in section 3 of RFC 3629 |
| Utf8Identifier.DecodeOfEncode | scripts/lib/ddl-parity-validator.ts:110-120 | decoding an encoded string gives the string back |
| Utf8Identifier.StartsAreBoundaries | scripts/lib/ddl-parity-validator.ts:116-119 | a non-continuation byte of an encoded string starts a code point |
| Utf8Identifier.TruncateIsLongest | scripts/lib/ddl-parity-validator.ts:109-121 | every longer code-point prefix takes more than 63 bytes |
| Utf8Identifier.TruncateIsIdempotent | scripts/lib/ddl-parity-validator.ts:109-121 | truncating twice is truncating once, and a name that fits is unchanged |
| Utf8Identifier.TruncateIsUnique | scripts/lib/ddl-parity-validator.ts:109-121 | the only prefix that fits and cannot be extended is the truncation |
| Utf8Identifier.NormalizeSqlIdentifier | scripts/lib/ddl-parity-validator.ts:109-121 | the walk back over continuation bytes computes that prefix; the result is valid UTF-8 and a byte prefix of the name |
| DdlBody.ReadBalancedBody | scripts/lib/ddl-parity-validator.ts:254-268 | nothing if and only if the scan never comes back to depth zero, otherwise the text up to the first place where it does |
| DdlBody.BodyIsFound | scripts/lib/ddl-parity-validator.ts:254-268 | a nested body in parentheses, with any text around it, closes exactly at its own parenthesis |
| DdlBody.SegmentsOfJoin | scripts/lib/ddl-parity-validator.ts:213-229 | cutting a comma-joined list of balanced segments gives the segments back |
| DdlBody.JoinOfSegments | scripts/lib/ddl-parity-validator.ts:213-229 | joining the segments of any body gives the body back |
| DdlBody.QuotedSegmentIsColumn | scripts/lib/ddl-parity-validator.ts:230-243 | a segment that starts with a quoted name is a column of that name, truncated |
| DdlBody.ConstraintByKeyword | scripts/lib/ddl-parity-validator.ts:230-243 | a segment is a constraint if and only if it starts with one of the five keywords |
| DdlBody.ExtractColumnsFromBody | scripts/lib/ddl-parity-validator.ts:213-245 | the depth-counting loop yields the columns of the top-level segments in order |
| DdlBody.TableBodyIsRead | scripts/lib/ddl-parity-validator.ts:254-268 | at a parenthesised list of segments the balanced body consists of those segments |
| DdlBody.TrimOfPadded | scripts/lib/ddl-parity-validator.ts:229-229 | trimming takes away exactly the white space around a trimmed text |
| DdlBody.ColumnsOfDefinitions | scripts/lib/ddl-parity-validator.ts:213-245 | a list of column definitions and table constraints, with any white space around them, has as columns exactly the truncated quoted names |
| DdlBody.ReadTableColumns | scripts/lib/ddl-parity-validator.ts:213-268 | body extraction and splitting together: for every list of balanced segments, with any text after it, exactly the columns of those segments; for definitions and constraints, exactly the columns' names |
| VariantSuffix.IndexOfSuffix | scripts/bindings/python-payloads.ts:329-337 | reading a suffix as bijective base 26 gives the index back |
| VariantSuffix.SuffixOfIndex | scripts/bindings/python-payloads.ts:329-337 | every non-empty string of capitals is the suffix of its index |
| VariantSuffix.SuffixesDiffer | scripts/bindings/python-payloads.ts:329-337 | distinct indices have distinct suffixes |
| VariantSuffix.ComputeSuffix | scripts/bindings/python-payloads.ts:329-337 | the do-while loop terminates with the suffix of the index |
| PythonTypes.UsesShow | scripts/bindings/python-payloads.ts:361-371 | a typing name an annotation uses occurs in its text, where the import scan looks for it |
| PythonPayloads.AnnotationIsEmitted | scripts/bindings/python-payloads.ts:187-322 | every class an annotation names is among those its walk emits |
| PythonPayloads.FieldsAreProperties | scripts/bindings/python-payloads.ts:387-427 | the fields of a class are exactly those of its properties |
| PythonPayloads.EmittedIsOrdered | scripts/bindings/python-payloads.ts:187-322 | appending what a schema emits keeps every class after the classes its fields name |
| PythonPayloads.ClassIsOrdered | scripts/bindings/python-payloads.ts:497-544 | the same for a class pushed after its fields |
| PythonModule.FieldsAreOrdered | scripts/bindings/python-payloads.ts:387-427 | required fields before optional ones, each group by name, one per property |
| PythonModule.EmittedFieldsAreOrdered | scripts/bindings/python-payloads.ts:187-322 | no emitted class has a required field after an optional one |
| PythonModule.VariantNamesDiffer | scripts/bindings/python-payloads.ts:313-313 | the variants of one `oneOf` have distinct class names |
| PythonModule.EmittedKeysAreIdentifiers | scripts/bindings/python-payloads.ts:265-272 | every field of an emitted class stems from a property key that is a Python identifier |
| PythonModule.Context.SchemaToTypeAnnotation | scripts/bindings/python-payloads.ts:187-243 | returns the annotation and appends exactly the emitted classes to the shared list |
| PythonModule.Context.AnyOfToAnnotation | scripts/bindings/python-payloads.ts:284-295 | the same for `anyOf` |
| PythonModule.Context.OneOfToAnnotation | scripts/bindings/python-payloads.ts:308-322 | the same for `oneOf` |
| PythonModule.Context.SchemaToFields | scripts/bindings/python-payloads.ts:387-427 | returns the ordered fields and appends exactly the classes their annotations need |
| PythonModule.ModuleIsOrdered | scripts/bindings/python-payloads.ts:497-607 | over a whole module, every class is defined before it is used, required fields come first, and aliases name only defined classes |
| PythonModule.UsedIsShown | scripts/bindings/python-payloads.ts:361-371 | a typing name used anywhere in a module shows in some annotation text |
| PythonModule.CollectImports | scripts/bindings/python-payloads.ts:571-578 | a typing name is imported exactly when it shows |
| PythonModule.GeneratePayloadModule | scripts/bindings/python-payloads.ts:557-607 | the collected module has all of these properties, and every typing name used is imported |
| PythonTypes.RenderShowsNone | scripts/bindings/python-payloads.ts:407-411 | the text of an annotation contains `None` exactly if an alternative, a list item, a literal or a class name in it shows it |
| PythonModule.OptionalFieldAdmitsNone | scripts/bindings/python-payloads.ts:399-411 | an optional field admits `None` if and only if its type already did or nothing in its structure shows `None` |
| PythonModule.OptionalArrayAdmitsNone | scripts/bindings/python-payloads.ts:399-411 | an optional array field admits `None` if and only if the text of its item type does not contain it |
| PythonModule.NullableItemsLackNone | scripts/bindings/python-payloads.ts:407-411 | an optional array whose items are `anyOf` a type and null is never given `None`, whatever the type |
| PythonModule.OptionalNullListLacksNone | scripts/bindings/python-payloads.ts:407-411 | an optional list of nulls is not given `None` |
| PythonValues.PrimitiveIsExact | scripts/bindings/python-payloads.ts:121-135 | each primitive type admits exactly the JSON values of its type name; any other type name becomes `Any` |
| PythonValues.AdmitsNoneIsNull | scripts/bindings/python-payloads.ts:407-411 | an annotation admits `None` by its structure if and only if it admits null |
| PythonValues.CollapsedAdmitsObjects | scripts/bindings/python-payloads.ts:284-322 | a union that is given up admits exactly the objects |
| PythonValues.AnnotationIsSound | scripts/bindings/python-payloads.ts:187-322 | every value of a schema that meets no lost union is admitted by the annotation with its emitted classes, defaults included where they fit |
| PythonValues.ClassIsSound | scripts/bindings/python-payloads.ts:387-427 | every object of a schema is an instance of the class emitted for it |
| PythonValues.RepresentableIsSound | scripts/bindings/python-payloads.ts:187-322 | for a schema without lost unions this holds of every value |
| PythonValues.CollapsedUnionIsUnsound | scripts/bindings/python-payloads.ts:284-295 | a string is a value of `anyOf` string and integer and not of its annotation |
| PythonValues.ExactAnnotation | scripts/bindings/python-payloads.ts:187-243 | for primitive types, enumerations, constants, lists and nullable types of such, the annotation admits exactly the values of the schema |
| PythonValues.FieldAdmits | scripts/bindings/python-payloads.ts:399-411 | the annotation of a field admits exactly what its property admits, and null for an optional one whose text shows no `None` |
| PythonValues.InstanceExactly | scripts/bindings/python-payloads.ts:387-427 | with distinct class names, an instance of a class is exactly an object that holds every property by its value or by being left out |
| PythonMeaning.AnnotationMeans | scripts/bindings/python-payloads.ts:187-322 | with distinct class names, an annotation admits exactly the values its schema represents, for every schema and value |
| PythonMeaning.ClassMeans | scripts/bindings/python-payloads.ts:387-427 | the instances of a class are exactly the objects whose properties are represented and whose required properties are there |
| PythonMeaning.EventMeans | scripts/bindings/python-payloads.ts:497-508 | the instances of an event class in a module are exactly the objects its payload schema represents |
| PythonMeaning.RequestMeans | scripts/bindings/python-payloads.ts:518-529 | the same for a request class |
| PythonModuleValues.EventIsTyped | scripts/bindings/python-payloads.ts:497-508 | every payload of an event is an instance of the class of that event |
| PythonModuleValues.RequestIsTyped | scripts/bindings/python-payloads.ts:518-529 | every request is an instance of its own request class |
| PythonModuleValues.ResponseIsTyped | scripts/bindings/python-payloads.ts:539-543 | every response without variants is an instance of its own response class |
| PythonModuleValues.VariantResponseIsTyped | scripts/bindings/python-payloads.ts:532-537 | a response with variants is admitted by the alias of its own name |
| PythonText.TextReadsBack | scripts/bindings/python-payloads.ts:153-158 | a quoted value is read back if and only if it holds no quote, backslash or line break |
| PythonText.LiteralsReadBack | scripts/bindings/python-payloads.ts:143-158 | a list of plain values is read back in order |
| PythonText.AnnotationReadsBack | scripts/bindings/python-payloads.ts:187-322 | the text of every readable annotation is read back to that annotation, whatever stands behind it |
| PythonText.TextsDiffer | scripts/bindings/python-payloads.ts:187-322 | different readable annotations have different texts |
| PythonText.GeneratedReadsBack | scripts/bindings/python-payloads.ts:187-322 | the annotation of a schema with plain values is readable and is read back from its text |
| PythonNames.SnakeLetters | scripts/bindings/python-payloads.ts:27-32 | a field name has the letters of its key in lower case, with underscores added only |
| PythonNames.PascalLetters | scripts/bindings/python-payloads.ts:43-54 | a Pascal-case word keeps the letters up to case |
| PythonNames.SubjectByWords | scripts/bindings/python-payloads.ts:67-69 | a class name is made of the words between the dots of its subject, in order |
| PythonNames.SubjectLetters | scripts/bindings/python-payloads.ts:67-69 | and keeps the letters of the subject up to case, without dots and underscores |
| PythonNames.PropertyClassLetters | scripts/bindings/python-payloads.ts:387-427 | the class of a property is called after its owner and its key |
| PythonNames.KeyRoundTrips | scripts/bindings/python-payloads.ts:259-261 | a camel-case key without acronyms comes back from its field name |
| GitBatch.NumberOfDecimal | scripts/lib/dev-publish-info.ts:100-100 | reading a printed size gives the size |
| GitBatch.ParseOfHeader | scripts/lib/dev-publish-info.ts:96-100 | the header of a blob parses to its size and holds no newline |
| GitBatch.ParseIsPattern | scripts/lib/dev-publish-info.ts:96-100 | a header parses to a size if and only if it is a hexadecimal object name, ` blob ` and digits of that size |
| GitBatch.ReadFiles | scripts/lib/dev-publish-info.ts:88-109 | the offset loop computes the recursive reader, errors with their position included |
| GitBatch.ReadOfPrint | scripts/lib/dev-publish-info.ts:90-109 | reading printed replies gives the contents up to the first reply that is not a blob, and an error naming that one |
| GitBatch.ReadCut | scripts/lib/dev-publish-info.ts:101-107 | a blob without its bytes or its closing newline is reported as cut off |
| GitBatch.ReadNothing | scripts/lib/dev-publish-info.ts:91-95 | output without a newline is a missing header |
| GitBatch.BlobsRoundTrip | scripts/lib/dev-publish-info.ts:90-109 | blobs of arbitrary bytes, framed as `git cat-file --batch` prints them, are read back exactly and in order |
| GitBatch.ReadIsFraming | scripts/lib/dev-publish-info.ts:90-109 | conversely, whatever is read stood in the output as well-framed blobs of the announced sizes |
| OutputCapture.RunIsConsistent | e2e/shared/spawn-helpers.ts:176-235 | after any events the buffer is the last 128000 characters appended, no pending waiter matches it, and a waiter is pending exactly while its timer is armed and it has no outcome |
| OutputCapture.ExecKeepsConsistent | e2e/shared/spawn-helpers.ts:176-235 | every run keeps this, and an outcome never changes |
| OutputCapture.OutcomesStay | e2e/shared/spawn-helpers.ts:176-235 | a settled waiter is not settled again |
| OutputCapture.WaiterFate | e2e/shared/spawn-helpers.ts:189-233 | the first event that concerns a waiter decides its outcome; without one it stays pending |
| OutputCapture.CallFate | e2e/shared/spawn-helpers.ts:206-225 | a call whose buffer matches resolves with that buffer for good; otherwise its own matcher waits, and the first later event that concerns it decides |
| OutputCapture.Capture.AppendChunk | e2e/shared/spawn-helpers.ts:189-204 | the loop over a copy of the waiters settles exactly the matching ones with the new buffer |
| OutputCapture.Capture.WaitForOutput | e2e/shared/spawn-helpers.ts:206-225 | a matching buffer resolves at once, otherwise a waiter with an armed timer is added |
| OutputCapture.Capture.FireTimer | e2e/shared/spawn-helpers.ts:215-220 | a timeout settles that waiter and no other |
| OutputCapture.Capture.RejectPending | e2e/shared/spawn-helpers.ts:227-232 | all pending waiters are rejected and their timers cleared |
| ProbeRace.RunIsSound | e2e/shared/bus-helpers.ts:185-226 | the invariant of the race holds in every interleaving |
| ProbeRace.NoWakeUpIsLost | e2e/shared/bus-helpers.ts:185-226 | if the server sets its state no later than it emits: an event before the subscription shows in an answered probe, a later one reached the listener unless that had expired or the fast path was taken; a client still waiting after the event with its probe answered has its listener settled, and finishes on the slow path if the event was received |
| ProbeRace.LostProbeStrands | e2e/shared/bus-helpers.ts:199-206 | with a lost probe the event can be missed |
| ProbeRace.StrandedExactly | e2e/shared/bus-helpers.ts:185-226 | the client is stranded if and only if the event fired before it subscribed and it waits with its listener registered, and its probe was then lost |
| ProbeRace.ReadyTakesFastPath | e2e/shared/bus-helpers.ts:197-217 | a client that starts when the state is set ends on the fast path with its listener aborted |
| ProbeRace.EventTakesSlowPath | e2e/shared/bus-helpers.ts:219-226 | a waiting client ends on the slow path when the event fires |
| ProbeRace.ClientCanFinish | e2e/shared/bus-helpers.ts:185-226 | from every state of the race the call can end without any event, its probe answered or not |
| DistVerifier.Scan.CheckSelfImport | scripts/lib/framework-dist-verifier.ts:567-584 | an unexported self-import is reported unless it already was |
| DistVerifier.Scan.CheckImport | scripts/lib/framework-dist-verifier.ts:457-496 | the offense of an import, if any, has an issue afterwards, and nothing else was added |
| DistVerifier.Scan.CheckModule | scripts/lib/framework-dist-verifier.ts:451-499 | afterwards exactly the offenses seen before and those of this module are reported |
| DistVerifier.CheckDistImports | scripts/lib/framework-dist-verifier.ts:442-559 | an offense is reported, once and for the first module that commits it, if and only if some module commits it; no issue if and only if there is no offense |
| DistVerifier.PackageIsNoSelfImport | scripts/lib/framework-dist-declarations.ts:128-137 | the shared deduplication set cannot confuse a package with a self-import |
| DistVerifier.PackageOfPlain | scripts/lib/framework-dist-declarations.ts:132-133 | the package of an unscoped specifier is the part before its first slash |
| DistVerifier.PackageOfScoped | scripts/lib/framework-dist-declarations.ts:132-133 | the package of a scoped specifier is its scope and the next part, whatever follows |
| DistVerifier.UndeclaredIsCommitted | scripts/lib/framework-dist-verifier.ts:481-494 | an import of a package at any subpath is an offense naming that package if and only if it is not declared |
| DistVerifier.UnexportedIsCommitted | scripts/lib/framework-dist-verifier.ts:567-584 | a self-import is an offense unless the exports map has `./` and its subpath |
| DistVerifier.RootIsCommitted | scripts/lib/framework-dist-verifier.ts:567-584 | the umbrella itself is looked up as `.` |
| DistVerifier.ForbiddenIsCommitted | scripts/lib/framework-dist-verifier.ts:463-480 | an import under a forbidden package is an offense of the importing module |
| DistVerifier.ContentIsCommitted | scripts/lib/framework-dist-verifier.ts:518-559 | a literal off the allowlist and a marker in the content are offenses of the module |
| DistVerifier.CheckJournal | scripts/lib/framework-dist-verifier.ts:628-657 | no finding if and only if the journal is non-empty, matches the file count and every entry names a file; each bad entry is reported and each finding is real |
| DistVerifier.DistinctTagsCount | scripts/lib/framework-dist-verifier.ts:628-657 | the files named are as many as the tags if and only if no tag repeats |
| DistVerifier.NoFindingsMatchFiles | scripts/lib/framework-dist-verifier.ts:628-657 | without findings, the tags name exactly the `.sql` files if and only if no tag repeats |
| DistVerifier.StrayFilePasses | scripts/lib/framework-dist-verifier.ts:628-657 | a repeated tag hides a stray file |
| BunArguments.SplitBunTestArguments | scripts/run-bun-tests.ts:46-74 | the index loop computes the recursive splitter |
| BunArguments.SplitOfWords | scripts/run-bun-tests.ts:46-74 | splitting the words of any list of test files, flags and valued options gives its files and its options |
| BunArguments.SplitHasTokens | scripts/run-bun-tests.ts:46-74 | splitting succeeds only on such a list |
| BunArguments.ErrorIsJustified | scripts/run-bun-tests.ts:46-74 | an error names an argument that is neither option nor test file, or an option whose required value is missing |
| BunArguments.SplitInterleaves | scripts/run-bun-tests.ts:46-74 | the arguments are an interleaving of the two lists, each in order |
| BunArguments.InterleavingCounts | scripts/run-bun-tests.ts:46-74 | every argument lands in exactly one list |
| BunArguments.SplitAgainIsSame | scripts/run-bun-tests.ts:46-74 | splitting options followed by files gives back the same two lists, for any test-file predicate |
| BunArguments.EmittedCommandSplits | scripts/run-bun-tests.ts:46-119 | the command line the runner emits, with its own flag in front and resolved test files in place of the arguments, splits into that flag and the same options, and those files |

## Left out

- Child processes, git, npm, the network, real timers and the real file system: only the data they return or the step they take is modelled.
- The bus, kernel, workflow engine and storage packages are not part of this model.
- Lock: `rm` and `mkdir` are one step each, `rm` does not fail, the clock does not go backwards, and waiting messages are not modelled.
- Planner: the branch for an unknown package inside `visit` cannot be reached; `parsePackageNames`, the manifest stamp, the summary and the publish arguments would add easy members.
- Case mapping is the ASCII one; letters whose case mapping is longer than one character are not modelled.
- Strings are sequences of Unicode scalar values: string lengths and the cut at 128000 count these and not UTF-16 code units, and lone surrogates do not occur.
- PythonModule.FieldsAreOrdered: the order of names within a group is that of code units, not of `localeCompare`, which depends on the locale.
- PythonModule.Context.SchemaToFields: the same.
- PythonModule.GeneratePayloadModule: stops at the imports, classes and aliases; the layout of their text is not modelled.
- RustSection.GenerateNamespaceModule: names are converted by the ASCII case mapping.
- RustSection.GenerateRustSubjectsSection: the same.
- GitBatch.ReadFiles: returns the contents as bytes; decoding them as UTF-8 is not modelled.
- BunArguments.SplitAgainIsSame: is about the arguments as given; EmittedCommandSplits is about the emitted command line.
- Rust: strings of the manifest are assumed free of line breaks; payload type names come in as a table; uniqueness of subject type names is not claimed.
- Python: uniqueness of class names is a hypothesis where it matters and is not claimed; JSON `null` where a schema or a property map is expected is not modelled; a number is its text, and a whole number one without fraction or exponent.
- PythonMeaning.AnnotationMeans: defaults of fields that are left out are not part of the meaning; PythonValues.AnnotationIsSound has them.
- PythonText.TextReadsBack: the reader has no escapes, so a backslash that Python would keep counts as not read back.
- Import rewriting: the constant table is a parameter, as are its package names and subpaths.
- Light entries and the distribution scan: finding specifiers, literals and markers in a module and resolving paths are parameters; so is the test for a package name. Module paths are taken to be distinct, as a directory walk gives them.
- Messages are represented by their kind and the names they mention.
- Migration chains: a missing journal and the check for unexpected extra files are not modelled.
- DDL parity: the patterns that find statements, the censuses and the comparisons between chains are not modelled.
- Git batch: sizes beyond exact floating-point integers, and `groupDevPublishFilesByPackage` are not modelled.
- Output capture: `waitForDiscoveredPort` is not modelled; a regular expression is an arbitrary predicate on the buffer.
- Configuration of the build tools, the TypeScript compiler walks and the lint rules are not modelled.
