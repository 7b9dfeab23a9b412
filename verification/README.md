# Verified models of the repository's tooling and static metadata

The repository transpiles Business Central AL sources and carries the tooling around that: scripts
that count tests in conditionally compiled sources, group generated files for unity builds, run the
test codeunits concurrently, verify snapshots in a reusable lane, move the demo database, and key a
header cache; and `constexpr` tables that the runtime searches. This project models the logic of
those parts in Dafny and proves what they are relied on for. `dafny verify dfyconfig.toml` checks it.

| file | models |
|---|---|
| `Conditions.dfy` | the Boolean conditions of `#if`/`#elif`: parser, printer |
| `Preprocessor.dfy` | the stack machine that selects one build's tokens; the enumeration of builds |
| `Chains.dfy` | what conditional compilation means as a tree, and that the machine computes it |
| `BraceDepth.dfy`, `VariantDepth.dfy`, `TreeDepth.dfy` | one-pass nesting depth over all branches, against every build; when it refuses, and where `closing` stops |
| `TestInventory.dfy`, `TestHeaders.dfy`, `VariantTests.dfy` | the test procedures of a body: the scan, what it accepts, and the same in every build |
| `UnityGroups.dfy` | stable, bounded unity groups |
| `TreeKeys.dfy`, `TreeKeysCover.dfy` | the memoised include-closure key and what it covers |
| `TestRunner.dfy`, `RunnerStatus.dfy`, `RunResults.dfy`, `Milestone.dfy` | the concurrent test runner, the statuses it writes, the reconciliation of its results, its verdict |
| `CopyText.dfy` | rows in PostgreSQL's COPY text format, and what COPY reads from them |
| `SeedProvenance.dfy`, `SeedColumns.dfy`, `SeedTables.dfy` | the provenance row of a seeded database; the column matching; the table loop and its accounts |
| `FieldTables.dfy`, `EnumValues.dfy` | field tables with implicit fields, enumeration values, and their searches |
| `Outcomes.dfy`, `Sequences.dfy`, `Numerals.dfy` | what the others share |

Code that works on variables, stacks and dictionaries is modelled by methods and classes, each proved
equal to a specification function; the theorems are about those functions. The protocols are state
machines whose steps are the atomic actions of the processes, and their theorems range over every
interleaving.

## Where the code does not do what it is expected to

* `scripts/tree_keys.py:61-62` says that two headers including each other have one closure between
  them. The key memoised for the second while the first is being walked leaves out the first one's
  bytes (`TreeKeysCover.CyclicKeyMisses`). Keys notice every edit if and only if no two distinct
  headers include each other (`TreeKeysCover.EditsNoticedIffAcyclic`).
* `scripts/ut_milestone.py:170-184`: when waiting for a test process raises `OSError`, the process
  leaves `active` while it is still running (`TestRunner.WaitFaultAbandons`), and a sweep that looks
  afterwards misses it (`TestRunner.SweepMissesOne`). In all interleavings every live process is in
  `active` whenever no worker holds the lock, if and only if waiting fails on none of the codeunits
  (`TestRunner.AlwaysTrackedIffNoFaults`); and every sweep sees every live process and ends them all
  under exactly the same condition (`TestRunner.SweepsCleanIffNoFaults`).
* `scripts/verify_snapshot.py:339-344`: a detaching start that dies between launching its runner and
  naming it leaves the runner in the lane unnamed, where another can join it
  (`VerifyLane.OrphanSharesLane`). The lane is exclusive in every interleaving if and only if no start
  detaches (`VerifyLane.ExclusiveIffNoneDetaches`); two runners never work in it at once if and only
  if no detaching start has another start beside it (`VerifyLane.NeverTwoBusyIff`).
* `scripts/verify_snapshot.py:223-238` looks for the runner of a receipt that says running only. A
  runner that dies before it writes that leaves the lane refused for good (`VerifyLane.LaneCanWedge`).
  A waiting start can still launch, with the lock free, if and only if the named run is not one whose
  receipt says queued and whose runner is gone (`VerifyLane.UsableIffNamedRunnerBegan`).
* `scripts/verify_snapshot.py:230-235`: a receipt read as running may say passed by the time its runner
  is found gone, and is then overwritten with failed (`VerifyLane.PassedReceiptCanBeLost`). A passed
  receipt stays in every continuation if and only if no start has read it as running and not yet acted
  on that (`VerifyLane.PassedStaysIffUnread`).
* `scripts/seed_demo.py:304-322` promises a one-to-one pairing. It is one exactly when no two source
  columns mean the same system field (`SeedColumns.OneToOneIffNotDenotedTwice`); `$systemId` beside
  `SystemId` does (`SeedColumns.SystemFieldTwice`), and then the count of defaulted columns disagrees
  with their list.
* `include/meta/EnumDef.h:121-139` never looks for a negative ordinal, although the values' type admits
  one (`EnumValues.NegativeIsMissed`); it agrees with a walk over the values exactly where the ordinal
  is not a declared negative one (`EnumValues.AgreesUnlessNegative`). Whether an AL source can declare
  one is not part of this model.
* `scripts/cronus_to_pg.py:124-126` escapes under the database's default collation. A text survives if
  and only if that collation takes none of its other characters for an escaped one
  (`CopyText.CollatedRoundTrip`).

## Model

| member | source | states |
|---|---|---|
| `Conditions.Parser.ReadUnary` | scripts/scope_inventory.py:202-218 | the cursor-moving `unary` reads the value, stops at the position and refuses for the reason that the grammar gives |
| `Conditions.Parser.ReadBinary` | scripts/scope_inventory.py:220-228 | the loop of `binary`, for `and` and for `or`, folds its operands as the grammar does and leaves the cursor behind them |
| `Conditions.EvaluateCondition` | scripts/scope_inventory.py:198-233 | the whole parser equals the grammar's value, and refuses input that is left over |
| `Conditions.UnaryReads` | scripts/scope_inventory.py:202-218 | wherever a tightly bound expression stands printed, `unary` consumes exactly it and returns its truth value |
| `Conditions.ConjunctionReads` | scripts/scope_inventory.py:220-228 | a printed expression above `or` is absorbed by the `and` loop with its truth value as the running result |
| `Conditions.DisjunctionReads` | scripts/scope_inventory.py:220-228 | any printed expression not followed by `and` is absorbed by the `or` loop with its truth value |
| `Conditions.PrintedConditionHolds` | scripts/scope_inventory.py:198-233 | for every expression over unreserved symbols, printed with minimal parentheses and keywords in any capitalisation, the parser consumes everything and returns its value under the enabled set |
| `Conditions.ConditionIffPrinting` | scripts/scope_inventory.py:198-233 | the grammar in both directions: a condition is accepted with a value if and only if it prints, with any parentheses beyond those needed, an expression that has this value; everything else is refused |
| `Conditions.AcceptedIffSpelled` | scripts/scope_inventory.py:198-218 | the same from the lexemes: keywords in any capitalisation, parentheses, every other word a symbol, and any other character refused |
| `Conditions.RefusalsAre` | scripts/scope_inventory.py:204-232 | the four reasons for refusing a condition, each by the least conditions that meet it |
| `Preprocessor.ConditionalIndices` | scripts/scope_inventory.py:236-264 | the loop over stack, enabled set and selection equals the fold of single machine steps, refusals included |
| `Preprocessor.SelectedIncrease` | scripts/scope_inventory.py:236-264 | selected indices strictly increase and never point at a directive |
| `Preprocessor.RefusalsAre` | scripts/scope_inventory.py:239-263 | the reasons for refusing a source, each by the least sources that meet it |
| `Preprocessor.ConditionLocal` | scripts/scope_inventory.py:198-233 | whether a condition parses depends on no symbol, and its value only on the symbols it names |
| `Preprocessor.RunAlike` | scripts/scope_inventory.py:236-264 | two runs whose symbols agree where named stay in step through `#define` and `#undef`, with the same selection or the same refusal |
| `Preprocessor.OnlyNamedSymbolsMatter` | scripts/scope_inventory.py:267-280 | any set of enabled symbols gives the selection or refusal of its restriction to the symbols named in `#if` and `#elif` |
| `Preprocessor.AssignmentsComplete` | scripts/scope_inventory.py:277-279 | every set of named symbols is among the assignments tried |
| `Preprocessor.AssignmentsCount` | scripts/scope_inventory.py:277-279 | there are 2^n of them |
| `Preprocessor.VariantSelections` | scripts/scope_inventory.py:267-280 | the enumeration succeeds exactly when there are at most eight symbols and no build whatsoever is refused, and then the selection of every build is among its results |
| `Chains.SkippedBlock` | scripts/scope_inventory.py:236-264 | a block in an inactive region, with its chains, `#define` and `#undef`, changes neither machine nor selection |
| `Chains.FinishedRest` | scripts/scope_inventory.py:244-255 | once a branch was taken, no later alternative of the chain contributes anything |
| `Chains.PendingRest` | scripts/scope_inventory.py:244-255 | while none was taken, the alternatives contribute the first whose condition holds, else the `#else` |
| `Chains.ActiveBlock` | scripts/scope_inventory.py:236-264 | a block in an active region contributes its recursive meaning and leaves the stack as it was |
| `Chains.MachineMeansTree` | scripts/scope_inventory.py:236-264 | on every well-formed tree, flattened, the stack machine selects the recursive meaning of the tree |
| `Chains.AcceptedIsTree` | scripts/scope_inventory.py:236-264 | every token list the machine accepts is the flattening of a well-formed tree |
| `Chains.MachineAcceptsExactlyTrees` | scripts/scope_inventory.py:236-264 | acceptance is equivalent to being such a flattening, whatever is enabled, and the meaning is the same for any tree that flattens to it |
| `BraceDepth.Depth.Step` | scripts/scope_inventory.py:62-91 | the object's new value, branch stack and result are those of the abstract step, or it refuses for the same reason |
| `BraceDepth.SingleValue` | scripts/scope_inventory.py:81-86 | the end depths of a chain form one value exactly when all are equal |
| `BraceDepth.FindClosing` | scripts/scope_inventory.py:94-99 | the loop of `closing` equals its specification |
| `BraceDepth.ClosingClosesAt` | scripts/scope_inventory.py:94-99 | `closing` answers an index if and only if it is the first ending bracket at which the depth is back at zero, with no refusal before it |
| `VariantDepth.AgreesStep` | scripts/scope_inventory.py:62-91 | one step of `Depth` and one step of any build's machine keep the relation between abstract value, branch ends and the build's own depth |
| `VariantDepth.DepthAgrees` | scripts/scope_inventory.py:62-99 | from any starting token the relation holds through the whole run of any accepted build |
| `VariantDepth.DepthInEveryBuild` | scripts/scope_inventory.py:62-91 | if `Depth` goes through without refusing, then at every selected token of every accepted build its value is the number of opening minus ending brackets that build has selected so far |
| `VariantDepth.ClosingInEveryBuild` | scripts/scope_inventory.py:94-99 | the close found in the raw tokens is the close found in the tokens of every build that selects both ends |
| `TreeDepth.DepthIffBalanced` | scripts/scope_inventory.py:62-91 | over any well-formed tree `Depth` goes through if and only if in every chain all branches change the depth by as much, and by nothing where there is no `#else`; it ends at the net depth, and otherwise refuses the depths as unequal |
| `TreeDepth.ClosingIsFound` | scripts/scope_inventory.py:94-99 | over any well-formed tree `closing` answers the first ending bracket, in the order of the text, at which the depth is zero with each branch counted from the depth before its chain; it refuses exactly if an unbalanced chain ends first or there is no such bracket |
| `TreeDepth.ClosingBehindBalanced` | scripts/scope_inventory.py:94-99 | between an opening and an ending bracket a balanced tree of net 0 is always closed, by the latter unless one inside closes it before |
| `TestInventory.FindTestMethods` | scripts/scope_inventory.py:102-129 | the loop of `test_methods` equals the fold of its steps, refusals included |
| `TestHeaders.AcceptedIffListed` | scripts/scope_inventory.py:102-129 | a body is accepted if and only if its depth can be followed and its `[Test]` attributes at depth one are those of a list of headers, each with a named procedure and argument list as the next thing at depth one and no branch directive in between; that list, in order, is what is returned, and the subtype flag says whether a `Subtype = Test;` stands at depth one |
| `VariantTests.TestMethodsInEveryBuild` | scripts/scope_inventory.py:102-129 | for an accepted body in which no directive splits a `[Test]` at depth one or the header of a test method, every build is accepted too, and returns in order exactly the raw methods whose attribute it selects |
| `VariantTests.SubtypeInEveryBuild` | scripts/scope_inventory.py:113-115 | where no directive splits it at depth one, a build counts as a test codeunit if and only if it selects a `Subtype = Test;` standing at depth one of the raw body |
| `UnityGroups.BitsDetermine` | scripts/unity_groups.py:46-49 | a 256-bit number is determined by the bits that the splitting looks at |
| `UnityGroups.BitIsShift` | scripts/unity_groups.py:49-49 | the bit looked at is the parity of the digest divided by that power of two |
| `UnityGroups.DistinctDigestsSeparable` | scripts/unity_groups.py:40-54 | distinct 256-bit digests suffice for the splitting to end, whatever the group size |
| `UnityGroups.RootIsRemainder` | scripts/unity_groups.py:20-23 | the root is below the number of root groups, and a multiple of that number away from the root digest |
| `UnityGroups.NamesAre` | scripts/unity_groups.py:42-44 | names of groups with roots of one to four digits, with and without a suffix |
| `UnityGroups.NamesDiffer` | scripts/unity_groups.py:42-44 | two groups have the same name only if root and suffix are the same |
| `UnityGroups.Deal` | scripts/unity_groups.py:46-49 | the two lists hold exactly the entries with the bit clear and set |
| `UnityGroups.Splitter.Assign` | scripts/unity_groups.py:41-45 | exactly the entries of a leaf are assigned its group, nothing else changes |
| `UnityGroups.Splitter.Split` | scripts/unity_groups.py:40-54 | terminates, and gives each entry the suffix of the closed form, leaving other roots' assignments alone |
| `UnityGroups.CollectRoots` | scripts/unity_groups.py:33-36 | every source is listed once, under its own root |
| `UnityGroups.GroupSources` | scripts/unity_groups.py:26-58 | the three refusals, and otherwise an assignment of every source to its group that depends on the set of sources only, not on their order |
| `UnityGroups.TailsAgree` | scripts/unity_groups.py:40-54 | two entries keep the same suffix exactly when the entries agreeing with them below their lowest differing bit fit into one group |
| `UnityGroups.SuffixIsDividingBits` | scripts/unity_groups.py:40-54 | the suffix of a source is its own digest bits, in order, at exactly those depths where too many sources of its root agree with it below and one of them differs there |
| `UnityGroups.SharesGroupIffCrowdFits` | scripts/unity_groups.py:26-58 | two sources get the same name if and only if they share the root and at most `max_group_size` of its sources agree with them below their lowest differing digest bit |
| `UnityGroups.AddingNeverMerges` | scripts/unity_groups.py:26-58 | sources apart stay apart when sources are added |
| `UnityGroups.OtherRootsKeepNames` | scripts/unity_groups.py:26-58 | sources added under other roots leave a source's exact group alone |
| `UnityGroups.GroupsAreBounded` | scripts/unity_groups.py:26-58 | no group name is given to more than `max_group_size` sources |
| `TreeKeys.Keys.Digest` | scripts/tree_keys.py:52-56 | the memo always answers the digest of the header's own bytes |
| `TreeKeys.Keys.Key` | scripts/tree_keys.py:58-73 | key and memo after the mutating recursion are those of the specification, and `walking` is restored |
| `TreeKeys.Keys.ChildKeys` | scripts/tree_keys.py:67-70 | so are those of the loop over the includes |
| `TreeKeys.SortedIsSorted` | scripts/tree_keys.py:72-72 | what is joined has the same parts, each as often, in ascending order |
| `TreeKeys.AtMostIsLexicographic` | scripts/tree_keys.py:72-72 | that order is the one by the first character in which two strings differ |
| `TreeKeys.SortedIgnoresOrder` | scripts/tree_keys.py:72-72 | so it does not depend on the order the parts were collected in |
| `TreeKeys.JoinConcat` | scripts/tree_keys.py:72-72 | joining puts nothing between the parts |
| `TreeKeysCover.ClosureIsKey` | scripts/tree_keys.py:58-73 | without include cycles, the memoised walk returns the plain recursive key and keeps a memo of plain keys |
| `TreeKeysCover.PrintedIsKey` | scripts/tree_keys.py:58-79 | hence the key printed is the plain key after any queries in any order |
| `TreeKeysCover.EqualKeysEqualContents` | scripts/tree_keys.py:58-73 | without cycles and collisions, equal keys, of one tree or of two, mean that the two closures hold the same file digests |
| `TreeKeysCover.PrintedIgnoresOrder` | scripts/tree_keys.py:65-73 | without cycles, the key printed does not depend on the order of the `#include` lines of any header, nor on the queries before |
| `TreeKeysCover.WalksIgnoreWalked` | scripts/tree_keys.py:63-70 | nothing computed while a header is being walked depends on that header's bytes |
| `TreeKeysCover.CyclicKeyMisses` | scripts/tree_keys.py:58-73 | for two headers that include each other, asking for the one makes the key of the other independent of the first one's bytes |
| `TreeKeysCover.EditsNoticedIffAcyclic` | scripts/tree_keys.py:58-79 | every fresh edit of a header changes the key of every header reaching it, after any queries, if and only if no two distinct headers include each other |
| `TestRunner.StepKeepsInvariant` | scripts/ut_milestone.py:148-221 | every atomic action of a worker, a process, the signal or the sweep keeps the invariant over lock, `active`, places, statuses and snapshot |
| `TestRunner.RunKeepsInvariant` | scripts/ut_milestone.py:148-221 | hence every reachable state of every interleaving has it |
| `TestRunner.AlwaysTrackedIffNoFaults` | scripts/ut_milestone.py:157-181 | in all interleavings every live process is in `active` whenever no worker holds the lock, if and only if waiting fails on none of the codeunits |
| `TestRunner.WaitFaultAbandons` | scripts/ut_milestone.py:170-184 | for any codeunit of any run, an interleaving in which its process runs outside `active` after its wait failed |
| `TestRunner.NoStartAfterSweep` | scripts/ut_milestone.py:162-169 | once a sweep has taken the lock after stop, the set of processes ever started no longer changes |
| `TestRunner.AbandonedUntilExit` | scripts/ut_milestone.py:177-184 | an abandoned process that no sweep under way has in its snapshot runs on through any later sweeps until it ends by itself |
| `TestRunner.SweepLeavesAbandoned` | scripts/ut_milestone.py:359-363 | a snapshot misses exactly the abandoned processes, and after the whole sweep exactly those of them still run that did not end by themselves |
| `TestRunner.SweepMissesOne` | scripts/ut_milestone.py:359-363 | for any codeunit of any run, an interleaving in which a whole sweep leaves its process running |
| `TestRunner.SweepsCleanIffNoFaults` | scripts/ut_milestone.py:352-365 | in all interleavings the snapshot of every whole sweep holds every live process and from its end on none runs, if and only if waiting fails on none of the codeunits |
| `TestRunner.ZeroStatusMeansCleanRun` | scripts/ut_milestone.py:157-204 | a status file says 0 only for a process that started and exited 0 and whose scratch database was dropped |
| `RunnerStatus.WrittenStatus` | scripts/ut_milestone.py:157-204 | in every interleaving a finished codeunit wrote 130 if stop was found set before its start; 2 if it could not start, its wait failed or no cleanup worked; 124 if its wait timed out; 130 if stop was found set at the end and it did not itself end with 124; and otherwise the code its process first ended with |
| `RunnerStatus.ZeroIff` | scripts/ut_milestone.py:157-204 | it wrote 0 if and only if it was started, its wait returned with code 0 without timing out or failing, stop was clear each time it was looked at and a cleanup worked |
| `RunnerStatus.ThreeAttempts` | scripts/ut_milestone.py:187-203 | a started codeunit that is finished had its database dropped, or exactly three attempts to drop it failed |
| `RunnerStatus.AllCanPass` | scripts/ut_milestone.py:148-204 | for any codeunits a run in which all write 0 |
| `RunResults.ReadRecords` | scripts/ut_results.py:9-28 | the records are sorted by method in order, and the complaints are exactly one for each line that is not JSON and one for each that is no record of the codeunit, with its number |
| `RunResults.JudgeMethods` | scripts/ut_results.py:29-38 | one result per manifest method with its standing, and the complaints are exactly the missing and the duplicate methods |
| `RunResults.JudgeByRecords` | scripts/ut_results.py:30-38 | a method passed or failed by the verdict of the only line that records it; it is missing with no such line and duplicate with several |
| `RunResults.Reconcile` | scripts/ut_results.py:8-46 | no complaint if and only if all lines are records, each method has one, the one summary states the counts and the exit status fits them; and otherwise exactly the complaints of each kind that apply |
| `RunResults.PerfectIffReconciledAndPassed` | scripts/ut_results.py:8-46 | with distinct methods, reconciled with all passed is the same as: each method has exactly one record and it passed, with matching summary and exit 0 |
| `RunResults.Aggregate` | scripts/ut_results.py:49-74 | returns 0 if and only if every codeunit of the manifest is perfect in that sense |
| `Milestone.Verdict` | scripts/ut_milestone.py:366-372 | returns 0 if and only if stop is clear, no thread failed and every codeunit is perfect, else 1 |
| `Milestone.ZeroMeansAllPassed` | scripts/ut_milestone.py:352-372 | in every interleaving, 0 means for every codeunit that its process started and exited 0, its database was dropped and every method has exactly one passing record |
| `Milestone.CanReturnZero` | scripts/ut_milestone.py:352-372 | for any manifest of distinct methods there is a run, with results, for which `main` returns 0 |
| `VerifyLane.StepKeepsInvariant` | scripts/verify_snapshot.py:223-262 | every read, write, launch and death keeps the invariant over lock, `lane/latest`, receipts, runners and orphans |
| `VerifyLane.ReachableInvariant` | scripts/verify_snapshot.py:333-353 | hence every reachable state of every interleaving has it |
| `VerifyLane.LaneIsExclusive` | scripts/verify_snapshot.py:333-353 | at most one run that is not orphaned is queued or running with a live runner, and whenever the lock is free the busy runs that `lane/latest` does not name are exactly the busy orphans |
| `VerifyLane.ExclusiveIffNoBusyOrphan` | scripts/verify_snapshot.py:333-353 | in any reachable state with the lock free, at most one run is busy and named if and only if no orphan is busy |
| `VerifyLane.ExclusiveIffNoneDetaches` | scripts/verify_snapshot.py:338-344 | every reachable state of every interleaving is exclusive if and only if no start detaches |
| `VerifyLane.OrphanSharesLane` | scripts/verify_snapshot.py:338-344 | for any detaching start and any other, a run in which both have a busy runner |
| `VerifyLane.NeverTwoBusyIff` | scripts/verify_snapshot.py:338-344 | two runs are never busy at once if and only if no detaching start has another start beside it |
| `VerifyLane.UsableIffNamedRunnerBegan` | scripts/verify_snapshot.py:223-248 | in every reachable state with the lock free, a waiting start has a continuation that launches its runner if and only if it is not the case that the named receipt says queued and its runner is gone |
| `VerifyLane.LaneCanWedge` | scripts/verify_snapshot.py:223-248 | any start can bring the lane there while all others wait |
| `VerifyLane.AlwaysUsableIffSingle` | scripts/verify_snapshot.py:223-248 | every waiting start can always launch once the lock is free if and only if there are no two starts |
| `VerifyLane.PassedStaysIffUnread` | scripts/verify_snapshot.py:223-238 | in every reachable state, a receipt that says passed says so in every continuation if and only if no start has read it as running and is yet to act on that |
| `VerifyLane.PassedReceiptCanBeLost` | scripts/verify_snapshot.py:230-235 | for any two starts, a run in which a receipt that says passed comes to say failed |
| `VerifyLane.KeepsPassedIffSingle` | scripts/verify_snapshot.py:223-238 | no passed receipt is ever lost, in any interleaving, if and only if there are no two starts |
| `CopyText.EscapedIsPerCharacter` | scripts/cronus_to_pg.py:122-126 | the nested REPLACEs are one map over characters: none undoes or repeats another's work |
| `CopyText.CollatedRoundTrip` | scripts/cronus_to_pg.py:122-126 | with the escapes under any collation that finds the four characters and leaves written escapes alone, a text survives if and only if none of its other characters is taken for one of the four, and what is then written is what comparing code points writes |
| `CopyText.FieldIsDelimited` | scripts/cronus_to_pg.py:95-127 | no field holds a raw tab, line feed or carriage return, and only NULL is written `\N` |
| `CopyText.FieldRoundTrip` | scripts/cronus_to_pg.py:95-127 | COPY reads from a field the column that was written, NULL for NULL and only U+0000 replaced |
| `CopyText.TableRoundTrip` | scripts/cronus_to_pg.py:281-286 | COPY reads from a whole file exactly the rows and columns written, and no row is taken for the end of data |
| `CopyText.LosslessIffNoNul` | scripts/cronus_to_pg.py:123-124 | a text arrives unchanged if and only if it holds no U+0000 |
| `CopyText.BytesRoundTrip` | scripts/cronus_to_pg.py:98-101 | the bytes of a binary column can be read back from the hexadecimal form that arrives |
| `SeedProvenance.StepKeepsInvariant` | scripts/seed_demo.py:169-189 | every step of a seeding or verifying run keeps: counters are those of the tables gone through, runs under way carry the row's identity, and the row is complete exactly if a thorough run has closed it |
| `SeedProvenance.StepKeepsRow` | scripts/seed_demo.py:181-189 | no step changes the identity of a row or anything of a complete one |
| `SeedProvenance.ProvenanceIsPermanent` | scripts/seed_demo.py:169-189 | over any interleaving the identity never changes once written, and complete is final |
| `SeedProvenance.ClosedAsMoved` | scripts/seed_demo.py:476-483 | wherever in any run of the protocol a closing update applies, the row then says `complete` if and only if none of the tables of the run was refused and some moved table had a row |
| `SeedProvenance.AdmittedIffThorough` | scripts/ut_milestone.py:79-107 | in every reachable state the test runner admits the provenance row if and only if a run under its identity has closed it with none of its tables refused and a row counted |
| `SeedProvenance.AloneWritesStatus` | scripts/seed_demo.py:169-189 | a run that has not begun, going on alone, closes the row with the status its tables deserve exactly if the row is absent for a seeding run, or interrupted and of the same identity for a verifying one; otherwise it is aborted and the row stays |
| `SeedColumns.FoldOurs` | scripts/seed_demo.py:307-313 | every fold of ours leads to a column with that fold, and a fold is ambiguous exactly if two columns have it |
| `SeedColumns.Fold` | scripts/seed_demo.py:291-301 | the nine replacements one behind the other turn each of the nine characters, and no other, into an underscore |
| `SeedColumns.Match` | scripts/seed_demo.py:304-322 | pairs exactly the source columns that mean a column of ours whose fold is unique, each once and with that column |
| `SeedColumns.PartnerUnique` | scripts/seed_demo.py:315-321 | a source column means at most one column of ours |
| `SeedColumns.OneToOneIffNotDenotedTwice` | scripts/seed_demo.py:304-322 | always one-to-one on the source side, and on the target side if and only if no two source columns mean the same system field of the target |
| `SeedColumns.CountsAgreeWithLists` | scripts/seed_demo.py:388-399 | the dropped count is the length of the dropped list, and the defaulted count that of the defaulted list exactly under the same condition |
| `SeedColumns.SystemFieldTwice` | scripts/seed_demo.py:286-288 | two column names that violate the condition |
| `SeedColumns.SystemTable` | scripts/seed_demo.py:286-288 | every key of the system table is a dollar sign and the lower-case name of its field |
| `Sequences.LeftConcat` | scripts/seed_demo.py:396-399 | a list of unmatched columns keeps the order of the columns |
| `SeedTables.PairsShare` | scripts/seed_demo.py:391-415 | a table is skipped exactly if no column of theirs is matched, and needs the companion exactly if a matched one lies only there |
| `SeedTables.MoveTable` | scripts/seed_demo.py:410-450 | a table with matched columns is refused exactly if a matched one lies in a companion without a shared key or the rows could not be moved; otherwise the largest `COPY` count is its row count, positive exactly if some `COPY` line has a positive count |
| `SeedTables.RowsAdd` | scripts/seed_demo.py:451-451 | rows and refusals of two lists of tables add up |
| `SeedTables.RowsSingle` | scripts/seed_demo.py:440-451 | a moved table alone counts its largest `COPY` count, any other none |
| `SeedTables.MoveTables` | scripts/seed_demo.py:371-479 | over all tables: the refused list is exactly the refused tables in order, rows, seeded and empty tables are counted exactly, the dropped and defaulted lists hold exactly the unmatched columns, the dropped count is the length of its list, the defaulted count that of its list exactly if no table has a system field denoted twice, and the status is `complete` exactly if no table was refused and some moved table had a row |
| `FieldTables.ImplicitFieldCount` | include/meta/SystemFields.h:167-174 | the count is the length of the canonical list filtered by `IncludesSystemField`: two for linked tables and all but normal and temporary ones, otherwise six or ten by the profile |
| `FieldTables.SelectedIsPrefix` | include/meta/SystemFields.h:141-160 | for every profile, table type and link flag that filter cuts the canonical list after two, six or ten fields |
| `FieldTables.ImplicitField` | include/meta/Declare.h:429-449 | binds the canonical declaration of the number, and refuses exactly an unknown number or a member of another type or capacity |
| `FieldTables.ImplicitPolicies` | include/meta/Declare.h:429-449 | by number: 0 alone is the timestamp, the identity and audit fields are editable, the last four are lookups of two user columns through the creating and the modifying user |
| `FieldTables.WithImplicitFields` | include/meta/Declare.h:463-500 | for every number of source fields, profile, type and link flag: succeeds exactly when the source fields ascend within their range and all selected members fit, never meets an unknown number, fills every slot and gives the complete table |
| `FieldTables.FinishedTable` | include/meta/Declare.h:463-500 | the complete table is strictly sorted and holds the source's fields and the filtered canonical fields and nothing else |
| `FieldTables.FieldsAreSorted` | include/meta/TableDef.h:504-509 | comparing neighbours decides whether the whole table is sorted |
| `FieldTables.Field` | include/meta/TableDef.h:482-496 | on a sorted table the binary search finds a field if and only if it is in the table under that number |
| `EnumValues.ValuesAreSorted` | include/meta/EnumDef.h:102-107 | comparing neighbours decides whether all values are sorted |
| `EnumValues.ValueOf` | include/meta/EnumDef.h:121-139 | for every ordinal the answer of shortcut and binary search is that of a walk, negative ones aside; on a dense list an ordinal in range is never searched for |
| `EnumValues.AgreesUnlessNegative` | include/meta/EnumDef.h:121-139 | lookup and walk agree if and only if the ordinal is not a declared negative one |
| `EnumValues.NegativeIsMissed` | include/meta/EnumDef.h:121-123 | a list of one value with a negative ordinal, found by a walk and not by the lookup |

## Left out

- Lexing (`tokens` and the regular expressions of `condition`): models start from tokens and lexemes. Keywords are compared in ASCII capitalisations; no other letter lower-cases to a keyword's letters except U+212A for `k`, which no keyword has.
- Everything `variant_declarations` does with a build's tokens after selecting them: `raw_declarations` and the merging of its results.
- VariantTests.TestMethodsInEveryBuild: assumes that no directive stands inside a `[Test]` at depth one or the header of a test method, because a build may otherwise join tokens that the raw scan sees apart.
- UnityGroups.GroupSources: assumes that no more sources of one root than fit into a group agree on all 256 digest bits; SHA-256 itself is not modelled, and without the assumption the recursion does not end.
- TreeKeysCover.EqualKeysEqualContents: assumes that SHA-1 has no collision among the texts that occur and that file digests and keys are 40 hexadecimal digits; which includes a header names and how they resolve is an input.
- The build and preflight phases of the test runner, its report files, and a `terminate` that fails inside a sweep.
- Snapshot freezing, digests and cleaning in `verify_snapshot.py`, reused process numbers, and I/O failures while a start is launching.
- CopyText.EscapedIsPerCharacter: compares code points, as the tables' round trip does; `CopyText.CollatedRoundTrip` says for which collations that is what the source writes. The collation itself is not modelled.
- CopyText.TableRoundTrip: does not model unpaired surrogates, which `bcp` replaces, nor what `bcp` itself writes for an empty string, nor SQL Server's conversions of dates and numbers, taken to write no special character.
- The SQL that carries a table or compares it in `seed_demo.py`: how moving a table ended is an input.
- FieldTables.ImplicitField: keeps of a field definition only what the builder sets or checks; reflection names are not modelled, and a formula is its column and owner.
- Widths: field numbers, ordinals and sizes are unbounded, as no modelled operation adds to them beyond an index.
- The runtime (`include/dotnet`, builtins, XML and JSON wrappers), page, codeunit, query and permission declarations, and the remaining scripts: their bodies are elsewhere or would only add easy members.
