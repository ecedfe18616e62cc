# Verified model of tallylot's review checks and balance reconciliation

This project models, in Dafny 4.11, the parts of tallylot whose correctness is an
argument rather than a lookup: the scheduler that runs review checks and the planner that
chooses them, the balance reconciliation kernel, the canonical decimal text, the validator
of structured messages, and the comparers used to judge replays and exports. Each part is
written in the form its source has. Loops are methods proved against specification
functions, expressions are functions, and what each part is for is a theorem over all
inputs.

`dafny verify dfyconfig.toml` checks everything.

## How it is organised

*Review checks.* `Settlement` defines the status a check must end with, as the least
fixpoint of "blocked if a dependency did not pass, else its own outcome"; `Scheduling`,
`SchedulingInvariants`, `ParallelWork` and `Executor` are the scheduler loop and what each
step keeps, and `FailureCauses` explains every recorded status by the commands that fail on
its dependency paths. A run is arbitrary: any catalog, any plan (cyclic or incomplete ones too), any set of failing
checks, any completion order. `Dominance`, `OrderedPlans`, `ReviewCatalog`, `Policy` and
`ReviewPlans` are the planner over the real catalog, joined to the scheduler in
`ReviewPlans.ReviewChanges` and to the command's exits in `ReviewPlans.ReviewCommand`. The
planner works on paths with arbitrary outcomes of the path tests; `PlannedChecks` says check
by check when a plan has it, and `ReviewPaths` holds the real path tables.

*Balances.* `BalanceLedger` derives targets, cutoff balances and gaps from facts, and
`LegLocations` says where each leg counts;
`BalanceReferences` and `ReferenceCache` resolve, hydrate and cache references and compare a
run with a rerun over the same targets; `CheckTargets` and `CheckPlans` choose the targets of
a check, from the cache or from the facts, and run it; `NextRuns` says what that choice means
for the run after it. `JoinRows`, `Corroboration` and `CorroborationIssues` are the
cross-source outer join and what it reports; `BalanceSummary` and `Blockers` give the
portfolio dates and what blocks them; `BalanceMerge` merges captures, and
`QuantityConflicts` tells its conflicts by their numbers.

*Text.* `Decimals` and `DecimalText` are the normal form, the printer and the parser, with
rounding half to even at an arbitrary precision in place of the fixed 28 digits.
`MessageStandards` is the index-advancing validator, `MessageGrammar` the language it
recognizes, `PrMetadata` the comment stripper and the separate section parser, and `PrBody`
the whole check of a pull request body.

*Comparers.* `GreedyMatching`, `CompareTransactions`, `CompetingRows` and `RenderedRows`, `RowDiffs`, `BalanceMaps`,
`ReplayParity`, `ExpectedDifferences` and `CaptureKeys`.

`Wrappers`, `Sequences`, `Grouping` and `Ordering` hold what the others share. Wherever the source
sorts by a tuple or a text, the model takes an arbitrary total order (or preorder, where
the sort key does not determine the item), so nothing depends on how texts compare.

## What turned out not to hold everywhere

- Greedy transaction matching is not always maximum. It always finds at least half of any
  one-to-one matching, and half can be all there is (`CompareTransactions.HalfCanHappen`).
  It is maximum for every list of actual rows exactly when each expected row is apart from,
  or at least as strict as, every later one in each field (`CompetingRows.FindsMaximumExactly`).
- Decimal text keeps a value exactly when the number has, trailing zeros aside, at most as
  many digits as the precision (`DecimalText.RoundTripKeepsValue`). At every precision longer
  numbers print alike (`DecimalText.LongNumbersCollide`).
- With facts, the next run after a hydrating one forgets targets that had issues. As soon as a
  wanted reference is on file its targets are those on file, which answer themselves: nothing is
  missing, no provider is asked again, and the cache stays as the first such run writes it
  (`NextRuns.SettledForGood`). So from a cache with nothing wanted, the next run misses the
  targets that had issues exactly when all missing targets were answered or none was
  (`NextRuns.AllOrNoneAnswered`, for requested days that the time zone does not skip, and
  `NextRuns.NextRunAgreesExactly` for all), and whatever the providers answer exactly when the
  facts give at most one target (`NextRuns.AtMostOneTarget`; `NextRuns.FactRunsAgreeExactly`
  for skipped days too). `NextRuns.UnansweredIsForgotten` is the input.
- On the same targets, which is what explicit rows give (`NextRuns.RowRunsAgreeExactly`), a
  rerun agrees whatever the providers answer exactly when no two unresolved targets share a
  match key (`ReferenceCache.RerunAgreesExactly`); two targets that differ only in precision do
  (`ReferenceCache.PrecisionTwinsDisagree`).
- A portfolio clean date does not rule out blockers. There are none exactly when no check
  blocks that is superseded by a later one of its source or whose source was not inspected
  (`Blockers.PortfolioDateBlockersExactly`); `Blockers.HiddenFailureKeepsBlocker` is a case.
- In commit messages, where footers are allowed, a section header that looks like a footer
  passes without any bullets once no such optional section is to come
  (`MessageGrammar.FootersMayFollow`).
- Quantities as printed conflict exactly when representable numbers differ
  (`QuantityConflicts.PrintedConflicts`), but texts as captured conflict although they are the
  same number, as 1.0 and 1 do (`QuantityConflicts.RawTextsConflict`).
- Capture registry keys collide exactly when a base key looks like the numbered key of a
  repeated one (`CaptureKeys.DistinctExactly`, with an input in
  `CaptureKeys.NumberedFingerprintCollides`).
- A blank capture signature would go unnoticed by the replay comparison
  (`ReplayParity.PassesExactly`); real signatures are never blank.

## Model

| member | source | states |
|---|---|---|
| Settlement.SettlesExactly | repo_support/review_verification/executor.py:326-346 | a check settles as blocked exactly when some dependency settles as not passed, and with its own outcome exactly when all dependencies settle as passed |
| Settlement.SettlesOnce | repo_support/review_verification/executor.py:326-346 | no check can settle with two different statuses, whatever the catalog |
| Settlement.VerdictSettles | repo_support/review_verification/executor.py:326-346 | on closed acyclic plans the recursive verdict is the settled status |
| FailureCauses.SettledIsExplained | repo_support/review_verification/executor.py:211-240 | in any catalog and plan, cyclic ones too, a settled check passed exactly when no command fails on its dependency paths, failed exactly when only its own does, and is blocked exactly when another one does |
| ParallelWork.RunParallelBatch | repo_support/parallel_work.py:11-21 | results come back in submission order whatever order the work completes in |
| Scheduling.SortPending | repo_support/review_verification/executor.py:324-346 | pending checks split into those ready and those blocked, each blocked one with its first dependency that did not pass |
| Scheduling.FirstIsNamed | repo_support/review_verification/executor.py:326-346 | the dependency named is the first listed one that did not pass |
| Scheduling.RunReadyChecks | repo_support/review_verification/executor.py:284-298 | serial and parallel execution of a batch return the same results |
| Scheduling.Append | repo_support/review_verification/executor.py:358-361 | a batch is appended in order and recorded under its ids, later results replacing earlier ones |
| SchedulingInvariants.AppendKeeps | repo_support/review_verification/executor.py:348-388 | recording a justified batch keeps every recorded status settled, recorded once and justified by results before it |
| SchedulingInvariants.StuckUnsettled | repo_support/review_verification/executor.py:390-392 | when nothing is ready and nothing blocked, no pending check has any settled status: the error is never spurious |
| SchedulingInvariants.SerialStepInOrder | repo_support/review_verification/executor.py:348-366 | over a topological plan a serial step keeps executed checks in plan order |
| Executor.SkipRest | repo_support/review_verification/executor.py:314-322 | every remaining check is skipped once, each naming the result recorded just before it |
| Executor.RunBatch | repo_support/review_verification/executor.py:348-372 | one batch keeps the loop invariant, asks for a stop exactly when fail-fast meets a blocking failure in it, and leaves fewer pending |
| Executor.RecordBlocked | repo_support/review_verification/executor.py:374-388 | recording blocked checks keeps the loop invariant and leaves fewer pending |
| Executor.RunPlan | repo_support/review_verification/executor.py:301-395 | for any plan: it terminates, raises only if some selected check cannot be settled, and otherwise records every check with its settled status, explained by the commands that fail on its dependency paths, or as skipped after the batch of the first blocking failure |
| Executor.HasBlockingFailures | repo_support/review_verification/executor.py:48-54 | true exactly when some blocking check is recorded failed or blocked |
| Executor.VerdictOfRun | repo_support/review_verification/executor.py:44-54 | in every mode the verdict is that of the settled statuses of the plan |
| Executor.FailFastStops | repo_support/review_verification/executor.py:314-372 | after a blocking check whose command failed everything is skipped but the rest of its parallel batch, nothing is skipped otherwise, and each skip names the result before it |
| Executor.FailFastKeepsVerdict | repo_support/review_verification/executor.py:367-372 | fail-fast and full runs, serial or parallel, have the same verdict and agree on every check the fail-fast run got to |
| Executor.ScheduleIndependence | repo_support/review_verification/executor.py:301-395 | on closed acyclic plans every run without fail-fast gives each check exactly its recursive verdict, one result per check |
| Executor.RankedNeverStuck | repo_support/review_verification/executor.py:390-392 | a closed acyclic plan never reaches the cycle error |
| Executor.FinishedSettlesAll | repo_support/review_verification/executor.py:390-392 | a plan that finishes without fail-fast had no unsettleable check, so the error is raised exactly for those that do |
| Dominance.ApplyDominance | repo_support/review_verification/policy.py:237-255 | the loop over the check order computes the dominance selection |
| Dominance.DominateSound | repo_support/review_verification/policy.py:237-255 | selected and suppressed partition the input, each suppression is traced to a dominator, and no survivor dominates another |
| Dominance.SuppressedReached | repo_support/review_verification/policy.py:237-255 | every suppressed check is reached from a survivor by a path of dominance edges |
| Dominance.SingleDominator | repo_support/review_verification/policy.py:237-255 | with one dominating check, exactly what it covers is removed |
| OrderedPlans.OrderedIsExecutable | repo_support/review_verification/policy.py:233-234 | a closed selection listed by a dependency-respecting order is duplicate-free, acyclic and topological |
| ReviewCatalog.OrderIsComplete | repo_support/review_verification/catalog.py:70-97 | the check order lists every check, at its position |
| ReviewCatalog.OrderIsDistinct | repo_support/review_verification/catalog.py:70-97 | and lists none twice |
| ReviewCatalog.CatalogShape | repo_support/review_verification/catalog.py:98-350 | only the full test run dominates, and exactly the single-tool tests; nothing dominates itself; the wheel check and the coverage report have their one dependency each and no other check has any; only the coverage report does not block |
| ReviewCatalog.DependenciesRankLower | repo_support/review_verification/catalog.py:70-97 | every dependency precedes its dependents in the order |
| Policy.ClassifyChangedPaths | repo_support/review_verification/surfaces.py:152-180 | the report holds the paths of each touched group in the fixed group order, the review domains in order of first need, and the paths of no group |
| Policy.GroupReported | repo_support/review_verification/surfaces.py:168-173 | a surface group is reported exactly when some path is in it |
| Policy.UpdateSelectedChecksForPath | repo_support/review_verification/policy.py:199-230 | adds exactly the checks the path asks for, given the outcomes of its path tests |
| Policy.ScanPaths | repo_support/review_verification/policy.py:258-275 | collects what all paths ask for and which kinds of path occur |
| Policy.PlannedCheckIds | repo_support/review_verification/policy.py:258-296 | a check is planned exactly when some path, group or kind of path calls for it |
| Policy.SelectedCheckIds | repo_support/review_verification/policy.py:307-314 | the candidates before dominance, by trigger and mode |
| Policy.BuildVerificationPlan | repo_support/review_verification/policy.py:299-334 | the plan carries the surface report, the dominance survivors of the candidates in check order with what was suppressed, and their blocking and nonblocking parts in that order, the coverage report alone being nonblocking |
| ReviewPlans.SurvivorsExactly | repo_support/review_verification/policy.py:237-255 | a check is in the plan exactly when it is a candidate and not a targeted subset test beside the full test run |
| ReviewPlans.PlanIsExecutable | repo_support/review_verification/policy.py:299-334 | every built plan, for all paths, triggers and modes, is duplicate-free, dependency-closed after dominance, acyclic and topologically ordered |
| PlannedChecks.PlannedExactly | repo_support/review_verification/policy.py:258-334 | check by check, when a planned review has it after dominance |
| PlannedChecks.FullExactly | repo_support/review_verification/policy.py:299-334 | a full review has every check but the single-tool tests, and those of commits and description on pull requests only |
| PlannedChecks.MarkdownByEnding | repo_support/review_verification/policy.py:151-152 | a file with a stem and one of the two endings is Markdown in whatever directory |
| PlannedChecks.MarkdownIsLinted | repo_support/review_verification/policy.py:199-206 | every planned change to a Markdown file is linted |
| PlannedChecks.MarkdownEnds | repo_support/review_verification/policy.py:151-152 | and nothing without such an ending is |
| PlannedChecks.CodePathsExactly | repo_support/review_verification/surfaces.py:117-122 | code is exactly what lies under the three code directories, the Python tools and the root test configuration |
| PlannedChecks.DocsPathsExactly | repo_support/review_verification/surfaces.py:101-130 | everything under the documentation directory belongs to one surface: the standards to control-plane text, the rest to human docs |
| PlannedChecks.DocsOnlyChanges | repo_support/review_verification/policy.py:258-334 | a change to documentation alone is planned with its two checks and without code checks, full tests, build or coverage report |
| ReviewPlans.FailsByAnyOther | repo_support/review_verification/executor.py:44-54 | a selected blocking check reaches a failing command exactly when the command of a selected check other than the coverage report fails |
| ReviewPlans.ReviewChanges | repo_support/review_verification/executor.py:301-395 | planning and running always finishes with one result per selected check, keeps everything a run keeps, fail-fast included, executes serially in plan order, explains each status by the failing commands, and fails exactly when a selected blocking check reaches one |
| ReviewPlans.MappedChangesAreChecked | repo_support/review_verification/policy.py:258-334 | if any changed path belongs to a surface, some check is selected, in every mode and for every trigger |
| ReviewPlans.UnmappedExactly | repo_support/review_verification/surfaces.py:157-161 | no path is reported unmapped exactly when every path belongs to a surface |
| ReviewPlans.ReviewCommand | tools/run_pr_review_checks.py:56-106 | exit 2 for a half-given diff range, 1 for unmapped paths, 0 for an empty diff, the status of a failed autofix; otherwise at least one check is selected, each selected check has one result, and the exit is 1 exactly when the command of a selected check other than the coverage report fails |
| ReviewPaths.CodeChangesRunFullTests | repo_support/review_verification/surfaces.py:117-122 | a change to code or tooling runs the full tests, whatever else changed |
| ReviewPaths.ProductionChangesReportCoverage | repo_support/review_verification/policy.py:293-294 | a planned review of production code includes the coverage report |
| ReviewPaths.WorkflowChangesBuild | repo_support/review_verification/policy.py:175-230 | a planned review of a workflow lints it, builds and verifies the wheel, and tests the CI tooling itself or through the full tests |
| ReviewPlans.GrowingDiffKeepsChecks | repo_support/review_verification/policy.py:258-334 | every check planned for some paths is planned, or dominated by a planned check, for any superset |
| ReviewPlans.SamePathsSamePlan | repo_support/review_verification/policy.py:258-334 | permuting or repeating paths changes neither plan nor suppressions |
| GreedyMatching.AtLeastHalf | tools/oracles/cointracking/compare.py:12-41 | no one-to-one matching has more than twice as many pairs as the greedy one |
| GreedyMatching.MaximumWhenOrderly | tools/oracles/cointracking/compare.py:12-41 | if of any two expected rows that compete for a row at hand the later can use every row the earlier can, the greedy matching is maximum |
| GreedyMatching.MaximumExactly | tools/oracles/cointracking/compare.py:12-41 | for a list of expected rows the greedy matching is maximum whatever the actual rows, if and only if that condition holds over all rows |
| CompareTransactions.CompareTransactions | tools/oracles/cointracking/compare.py:12-41 | matched and missing partition the expected rows, matched and extra account for the actual rows, both along the greedy matching, and nothing missing matches anything extra |
| CompareTransactions.FindsAtLeastHalf | tools/oracles/cointracking/compare.py:12-41 | the comparison finds at least half of any one-to-one matching |
| CompetingRows.ApartExactly | tools/oracles/cointracking/compare.py:82-184 | two expected rows are apart in some field exactly when no actual row fits both |
| CompetingRows.InsideExactly | tools/oracles/cointracking/compare.py:82-184 | of two rows not apart, one is at least as strict in every field exactly when whatever fits it fits the other |
| CompetingRows.FindsMaximumExactly | tools/oracles/cointracking/compare.py:12-41 | the comparison finds as many pairs as possible, whatever the actual rows, if and only if each expected row is, field by field, apart from every later one or inside it |
| CompareTransactions.HalfCanHappen | tools/oracles/cointracking/compare.py:162-173 | half can be all: a wide time window takes the one row a later narrow one needs |
| RenderedRows.RenderingFitsExactly | tools/oracles/cointracking/compare.py:82-184 | a row's own rendering fits it exactly when its kind is allowed and its window and tolerance are not negative |
| RenderedRows.OnlyRenderingFits | tools/oracles/cointracking/compare.py:82-184 | nothing but its own rendering fits a strict row, up to interchangeable exchanges |
| RenderedRows.FitsWithin | tools/oracles/cointracking/compare.py:82-184 | a fitting row differs from the rendering only in comment, id, date and fee, each where and as far as the row allows |
| RenderedRows.ComparesClean | tools/oracles/cointracking/compare.py:12-41 | if all rows can be paired and each expected row is apart from or inside every later one, the comparison leaves none missing and none extra |
| RenderedRows.OwnRowsLeaveNothing | tools/oracles/cointracking/compare.py:12-41 | in particular when such a list is compared with its own renderings in any order |
| MessageStandards.ValidateSectionBullets | tools/message_standards.py:168-195 | consumes the content up to the next blank line and reports exactly the missing bullet or the first line that does not fit |
| MessageStandards.ValidateTrailingLines | tools/message_standards.py:210-232 | reports each trailing line that is neither blank nor an allowed footer |
| MessageStandards.ValidateStructuredSections | tools/message_standards.py:235-274 | the errors are exactly those of the specification, in order |
| MessageGrammar.AcceptedIsInLanguageWith | tools/message_standards.py:162-274 | what is accepted is required, then optional sections, then blank lines and, if allowed, footers, none of which opens an optional section still to come |
| MessageGrammar.InLanguageWithIsAccepted | tools/message_standards.py:162-274 | whatever is so written is accepted |
| MessageGrammar.AcceptedIsInLanguage | tools/message_standards.py:162-274 | without footers only blank lines follow the sections |
| MessageGrammar.ValidatorRecognizesLanguage | tools/message_standards.py:162-274 | the validator reports nothing exactly on the language, with footers or without |
| MessageGrammar.ValidatorRecognizesMessages | tools/validate_commit_message.py:64-71 | when a section is required, a whole message is accepted exactly when it is a subject, a blank line and a body of the language |
| MessageGrammar.FootersMayFollow | tools/message_standards.py:210-232 | an accepted message stays accepted with a footer added after a blank line, unless that is the header of an optional section |
| MessageGrammar.PlainBodyIsAccepted | tools/message_standards.py:168-274 | a body with each required name and colon, some lines that begin with a dash and a space, and blank lines between is accepted whatever the entries say |
| MessageGrammar.UnbulletedIsReported | tools/message_standards.py:168-207 | a section whose first line does not begin so is reported twice |
| MessageGrammar.LabelsInterrupt | tools/message_standards.py:177-191 | a line without a bullet continues an entry unless it looks like a label |
| MessageGrammar.NothingIsMissing | tools/message_standards.py:198-207 | in an empty body exactly the required sections are missing, in order |
| PrMetadata.NormalizeBodyLines | tools/validate_pr_metadata.py:28-50 | the loop drops comment lines and trailing blanks |
| PrMetadata.NormalizedOnce | tools/validate_pr_metadata.py:28-50 | normalizing normalized lines changes nothing |
| PrMetadata.NormalizedExactly | tools/validate_pr_metadata.py:28-50 | any body is plain lines and closed comments up to a comment that is never closed, and what remains are the plain lines, trimmed, without the blank ones at the end |
| PrMetadata.NormalizedWithoutComments | tools/validate_pr_metadata.py:36-44 | closed comments, of one line or several, leave no trace |
| PrMetadata.UnclosedComment | tools/validate_pr_metadata.py:41-44 | a comment that is not closed drops the rest |
| PrMetadata.ParseSections | tools/validate_pr_metadata.py:53-69 | the parser loop computes the line-by-line specification |
| PrMetadata.ParsedAsWritten | tools/validate_pr_metadata.py:53-69 | however a body is written in blocks, the parser returns for each section the lines of its blocks |
| PrMetadata.ParserAgreesWithValidator | tools/validate_pr_metadata.py:165-184 | on every accepted body the parser returns for each section exactly the lines the validator consumed for it |
| PrMetadata.EachSectionOnce | tools/validate_pr_metadata.py:53-69 | with distinct section names that is one block's content, line for line |
| PrMetadata.ValidateStructure | tools/validate_pr_metadata.py:166-180 | an empty body is refused; otherwise the structural errors of the normalized lines, with the parsed sections |
| PrBody.ValidateWhyEntries | tools/validate_pr_metadata.py:99-109 | one error exactly when some reason is an issue link |
| PrBody.LinkageErrors | tools/validate_pr_metadata.py:138-152 | no error exactly when every entry is a linkage bullet and a no-issue bullet stands alone |
| PrBody.FirstOffenderDecides | tools/validate_pr_metadata.py:112-152 | the first entry that is no linkage bullet decides which error is given, by how it begins |
| PrBody.ValidateIssueLinkageEntries | tools/validate_pr_metadata.py:138-152 | reports the first entry that is no linkage bullet, by what it begins like, or else a no-issue bullet in company |
| PrBody.ValidateFollowUpEntries | tools/validate_pr_metadata.py:155-162 | one error exactly when some entry is no follow-up bullet |
| PrBody.SectionsDecide | tools/validate_pr_metadata.py:165-184 | a body can be written in sections whose entries are in order exactly when the validator finds no structural error and the parsed sections pass their checks |
| PrBody.CommentsDoNotMatter | tools/validate_pr_metadata.py:28-185 | a body is acceptable exactly when it is without its comments |
| PrBody.WellWrittenExactly | tools/validate_pr_metadata.py:99-163 | entry by entry, what each section asks for: no issue links among the reasons, only linkage bullets with a no-issue bullet alone, only follow-up bullets |
| PrBody.ValidatePrBody | tools/validate_pr_metadata.py:165-184 | every error in order; and none exactly when the body is not empty, uses no forbidden label, and is written in sections whose entries are in order |
| Decimals.QuantizeIsNormal | src/tallylot/domain/value_objects.py:15-16 | the result has no trailing zero, fits the precision, and zero has one form |
| Decimals.QuantizeKeepsValueExactly | src/tallylot/domain/value_objects.py:15-16 | a number keeps its value if and only if, trailing zeros aside, it has no more digits than the precision |
| Decimals.QuantizeIsNearest | src/tallylot/domain/value_objects.py:15-16 | a longer number is rounded to the nearest that fits, half to even |
| Decimals.NearestIsUnique | src/tallylot/domain/value_objects.py:15-16 | which is one number only |
| Decimals.RepresentableByValue | src/tallylot/domain/value_objects.py:15-16 | that condition depends on the value only |
| Decimals.SameValueSameForm | src/tallylot/domain/value_objects.py:15-16 | equal numbers have the same normal form, including zeros of either sign |
| DecimalText.RoundTrip | src/tallylot/domain/value_objects.py:19-33 | parsing printed text gives the normal form, for every number and precision |
| DecimalText.RoundTripKeepsValue | src/tallylot/domain/value_objects.py:19-33 | the value survives the round trip if and only if it is representable at the precision |
| DecimalText.Canonical | src/tallylot/domain/value_objects.py:19-22 | texts agree exactly when normal forms do, equal numbers always print alike, and representable ones only when equal |
| DecimalText.SignedValue | src/tallylot/domain/value_objects.py:25-33 | text in positional notation reads as the number its digits denote, a plus sign changing nothing and a minus sign negating |
| DecimalText.BlankExactly | src/tallylot/domain/value_objects.py:30-32 | only white space reads as no number |
| DecimalText.PrintedShape | src/tallylot/domain/value_objects.py:19-22 | printed text has digits and perhaps a point with more digits, no zeros in front or at the end of the fraction that could be dropped, no plus sign and no negative zero |
| DecimalText.LongNumbersCollide | src/tallylot/domain/value_objects.py:15-22 | at every precision, 28 among them, two different numbers one digit too long print alike |
| DecimalText.LongNumberCollides | src/tallylot/domain/value_objects.py:15-22 | every number that is not representable prints like a representable one of another value |
| DecimalText.IntegralByValue | src/tallylot/adapters/support/precision.py:56-65 | whether so many fraction digits suffice depends on the value only |
| DecimalText.FractionDigitsAreLeast | src/tallylot/adapters/support/precision.py:56-65 | the digits counted in canonical text are the fewest that represent what is printed, and the number itself when it is representable |
| Ordering.SortedKeys | src/tallylot/application/balances/targets.py:40 | sorting a set lists each member once, ascending |
| BalanceLedger.QuantityAt | src/tallylot/application/balances/snapshots.py:25-34 | the nested loops compute the sum of the holding's entries up to the cutoff |
| BalanceLedger.DeriveBalanceSnapshots | src/tallylot/application/balances/snapshots.py:14-67 | one snapshot per target with its cutoff balance over all facts, one issue per target whose source has no facts |
| BalanceLedger.OtherSourcesDoNotCount | src/tallylot/application/balances/snapshots.py:18-24 | grouping facts by source changes no cutoff balance |
| BalanceLedger.HasFactCoverageForTarget | src/tallylot/application/balances/planning.py:66-79 | coverage is found exactly when some entry counts for the target |
| BalanceLedger.MissingFactCoverageIssues | src/tallylot/application/balances/planning.py:27-63 | the targets flagged are exactly those no entry counts for, in order |
| BalanceLedger.GapsAreZero | src/tallylot/application/balances/planning.py:27-79 | a flagged target has balance zero, and a target with a missing-facts issue is flagged |
| BalanceLedger.CutoffAdds | src/tallylot/application/balances/snapshots.py:23-34 | the balance at a later cutoff is the earlier one plus the entries in between |
| BalanceLedger.CutoffIgnoresOrder | src/tallylot/application/balances/snapshots.py:23-34 | permuting the facts changes no balance |
| LegLocations.EntriesExactly | src/tallylot/application/balances/snapshots.py:29-34 | the ledger holds an entry exactly for a leg at the location it names, or else at its fact's |
| LegLocations.LegAddsItsQuantity | src/tallylot/application/balances/snapshots.py:26-34 | a further leg adds its quantity to exactly the balances of its source, place and instrument from its time on |
| LegLocations.CoveredExactly | src/tallylot/application/balances/planning.py:66-79 | a target has coverage exactly when some leg counts towards it |
| LegLocations.MoveShiftsBalances | src/tallylot/application/balances/snapshots.py:29-34 | a move in two legs shifts the quantity between the two places wherever its fact is said to be, and changes no other balance |
| LegLocations.FactLocationMatters | src/tallylot/application/balances/snapshots.py:30 | changing a fact's location changes no balance when its legs name theirs |
| LegLocations.SpellingChangesNothing | src/tallylot/application/balances/snapshots.py:30 | writing the fact's location into the legs that name none changes no balance |
| BalanceLedger.LatestBalanceTargets | src/tallylot/application/balances/targets.py:15-41 | exactly one target per holding with an entry, in order, at that holding's latest entry |
| BalanceLedger.CountedOnce | src/tallylot/application/balances/targets.py:15-41 | every entry is counted by exactly one of these targets |
| BalanceLedger.LedgerConserved | src/tallylot/application/balances/snapshots.py:14-67 | their snapshot quantities add up, per source and instrument, to everything the ledger holds |
| BalanceLedger.LatestTargetsHaveFacts | src/tallylot/application/balances/snapshots.py:42-66 | none of these targets has a missing-facts or coverage issue |
| BalanceLedger.LatestSnapshots | src/tallylot/application/balances/inputs.py:134-142 | fact-backed inputs without references conserve the ledger and leave no gap |
| BalanceReferences.Resolve | src/tallylot/application/balances/references.py:32-63 | references on record target by target, then hydrated ones; offline one issue per target not on record |
| BalanceReferences.UnresolvedExactly | src/tallylot/application/balances/references.py:44-53 | a target is unresolved exactly when nothing on record has its match key |
| BalanceReferences.Hydrate | src/tallylot/application/balances/references.py:65-119 | each provider gets its targets in one batch in order of first appearance; unsupported targets are reported first |
| BalanceReferences.GroupsPartition | src/tallylot/application/balances/references.py:71-81 | the batches and the unsupported targets partition the targets, with multiplicity |
| BalanceReferences.OneAnswerEach | src/tallylot/application/balances/references.py:65-119 | with providers that answer each request once, every unresolved target yields exactly one reference or exactly one issue |
| BalanceReferences.NearestIsNearest | src/tallylot/application/balances/references.py:166-187 | the nearest reference is the first of those closest in time for the same balance, and is missing only if there is none |
| BalanceReferences.NearestInTime | src/tallylot/application/balances/references.py:166-187 | no reference of the balance lies strictly between the one found and its mirror image about the target |
| ReferenceCache.PersistBalanceReferenceCache | src/tallylot/application/balances/io.py:90-132 | what is written is the last reference of each key, stably sorted by key, and the issue file holds the issues or is gone |
| ReferenceCache.PutAllHoldsLast | src/tallylot/application/balances/io.py:97-106 | the merge holds exactly one reference per key, the last one |
| ReferenceCache.RewriteIsIdentity | src/tallylot/application/balances/io.py:90-124 | writing a written cache again changes nothing |
| ReferenceCache.OfflineRunOnlyDeduplicates | src/tallylot/application/balances/check.py:260-275 | an offline run changes the cache only by keeping the last of each key, and the next offline run not at all |
| ReferenceCache.RerunMisses | src/tallylot/application/balances/check.py:260-275 | after hydration an offline rerun on the same targets misses exactly the unresolved ones whose match key got no answer |
| ReferenceCache.DistinctKeysAgree | src/tallylot/application/balances/references.py:32-119 | with distinct match keys the rerun on the same targets misses exactly those that had issues |
| ReferenceCache.RerunAgreesExactly | src/tallylot/application/balances/references.py:32-119 | on the same targets that holds for every provider if and only if the unresolved targets' match keys are distinct |
| ReferenceCache.PrecisionTwinsDisagree | src/tallylot/domain/balances/matching.py:12-21 | two unresolved targets differing in precision only are an input where the rerun on the same targets disagrees |
| CheckTargets.AllReferenceTargets | src/tallylot/application/balances/inputs.py:177-195 | lists the targets on file, each once, ascending |
| CheckTargets.SelectReferenceTargets | src/tallylot/application/balances/targets.py:106-138 | lists those that some requested time picks, and none without references or requested times |
| CheckTargets.ReferenceTargetsExactly | src/tallylot/application/balances/targets.py:106-138 | a target is listed exactly when some reference has it and it is wanted: a day wants all its instants, an instant only itself |
| CheckTargets.LatestTargetsUnique | src/tallylot/application/balances/targets.py:15-41 | the latest targets of the facts are determined: one ascending list |
| CheckTargets.TargetsForAsOfValues | src/tallylot/application/balances/targets.py:44-72 | every holding at every requested time, holding by holding |
| CheckTargets.TargetsAtExactly | src/tallylot/application/balances/targets.py:44-72 | a target is listed exactly when its time is requested and its holding has an entry |
| CheckTargets.SelectTargetsForRequestedTimes | src/tallylot/application/balances/planning.py:14-24 | keeps, in order, the targets at a requested instant |
| CheckPlans.BuildBalanceSourceInputs | src/tallylot/application/balances/inputs.py:131-158 | with facts the targets are those on file or else the latest ones, with their snapshots; without, those of the rows; else none |
| CheckPlans.BuildCheckPlan | src/tallylot/application/balances/check.py:379-451 | the plan: not runnable without inputs, without targets when a request finds none, else the chosen targets, their snapshots, and the gaps reported for them |
| CheckPlans.GapsExactly | src/tallylot/application/balances/check.py:403-497 | which gaps a plan reports: of requested targets whose source has no facts, and of targets on file towards which none counts |
| CheckPlans.SnapshotsExactly | src/tallylot/application/balances/check.py:410-497 | which snapshots: the cutoff balances of the targets, or without facts the rows of the targets |
| CheckPlans.FactBackedCheckPlan | src/tallylot/application/balances/check.py:454-497 | for requested times: targets on file that are wanted, else those of the facts; coverage is reported for targets on file only |
| CheckPlans.CheckSource | src/tallylot/application/balances/check.py:210-275 | plans, resolves the plan's targets and stores the cache; a plan without targets touches nothing |
| NextRuns.OnFileIsAnswered | src/tallylot/application/balances/inputs.py:134-139 | with facts and a wanted reference on file nothing is missing |
| NextRuns.SettledForGood | src/tallylot/application/balances/check.py:260-275 | from then on, over any sequence of runs, hydrating or not, targets and cache stay and nothing is missing |
| NextRuns.WantedAnswersAreFiled | src/tallylot/application/balances/references.py:32-63 | a hydrating run that finds nothing wanted on file files something wanted exactly when it gets a wanted answer |
| NextRuns.NextRunAgreesExactly | src/tallylot/application/balances/check.py:454-469 | with facts, the next run misses exactly the targets that had issues if and only if something wanted was on file, or a wanted answer came and there was no issue, or none came and the rerun on the same targets agrees |
| NextRuns.AllOrNoneAnswered | src/tallylot/application/balances/inputs.py:134-142 | on days the time zone does not skip: if and only if something wanted was on file, or all missing targets were answered, or none was |
| NextRuns.FactRunsAgreeExactly | src/tallylot/application/balances/check.py:454-469 | it does so whatever the providers answer if and only if something wanted is on file, or at most one target is missing, or none of the missing ones is wanted and their match keys are distinct |
| NextRuns.AtMostOneTarget | src/tallylot/application/balances/check.py:454-469 | on days not skipped: if and only if something wanted is on file or the facts give at most one target |
| NextRuns.UnansweredIsForgotten | src/tallylot/application/balances/inputs.py:134-142 | with one wanted answer and another target failed, the next run misses nothing although the failed one had an issue |
| NextRuns.SameTargetsWouldAgree | src/tallylot/application/balances/inputs.py:134-142 | from an empty cache a rerun on the latest targets would always agree |
| NextRuns.NextRunIsQuiet | src/tallylot/application/balances/check.py:403-415 | from an empty cache and without requested times, one answer leaves the next run nothing missing and no gap in coverage |
| NextRuns.RowRunsAgreeExactly | src/tallylot/application/balances/check.py:430-449 | without facts the next run agrees whatever the providers answer if and only if the missing targets' match keys are distinct |
| JoinRows.BeforeAt | src/tallylot/application/balances/corroboration.py:349-352 | the text up to the first at-sign |
| JoinRows.NormalizedOnce | src/tallylot/application/balances/corroboration.py:349-352 | normalizing an instrument twice is normalizing it once |
| JoinRows.SymbolsLoseLocation | src/tallylot/application/balances/corroboration.py:349-352 | a symbol loses its first at-sign and what follows |
| JoinRows.OthersStay | src/tallylot/application/balances/corroboration.py:349-352 | any other identifier stays as it is |
| JoinRows.IndexJoinRows | src/tallylot/application/balances/corroboration.py:218-255 | the first snapshot of each key is indexed, each later one is a numbered duplicate, and together they are all snapshots |
| JoinRows.DuplicateNumbers | src/tallylot/application/balances/corroboration.py:233-253 | the duplicates of a key are numbered from one to one less than its balances |
| JoinRows.OuterJoinConserves | src/tallylot/application/balances/corroboration.py:179-202 | over the keys of two indexes, matched, drift and missing-right make up the left index; matched, drift and missing-left the right one |
| Corroboration.PairConserves | src/tallylot/application/balances/corroboration.py:157-202 | the assertions of a pair account for every balance of either side once: matched, drifted, missing on the other side, or a repetition of a key in its source |
| CorroborationIssues.IssuesExactly | src/tallylot/application/balances/corroboration.py:113-171 | exactly these issues are emitted: a source of an identity without a high-confidence row, one with several, and a numbered repetition of a key in a source that is compared |
| CorroborationIssues.RepeatsReported | src/tallylot/application/balances/corroboration.py:157-171 | the repetitions emitted for a source that is compared are those of its balances, in order and number, and otherwise none |
| CorroborationIssues.BalancesAccounted | src/tallylot/application/balances/corroboration.py:155-206 | in what the run emits, each balance of either side of a compared pair is once in an assertion of that pair or in a repetition issue of its source |
| Corroboration.EligibleExactly | src/tallylot/application/balances/corroboration.py:120-154 | a source takes part exactly with its only high-confidence row |
| Corroboration.EligibleIdentities | src/tallylot/application/balances/corroboration.py:120-154 | one row per taking-part source, one issue per other source |
| Corroboration.ComparePair | src/tallylot/application/balances/corroboration.py:175-202 | one assertion per key of either index, in key order |
| Corroboration.BuildCrossSourceCorroboration | src/tallylot/application/balances/corroboration.py:87-206 | the nested loops produce the assertions and issues of the specification, identity by identity in order |
| Corroboration.OneAssertionPerKey | src/tallylot/application/balances/corroboration.py:172-202 | there is exactly one assertion for each identity, ordered pair of eligible sources and key that either has, and no other |
| Corroboration.AssertionsTell | src/tallylot/application/balances/corroboration.py:258-315 | each side of an assertion is the first balance of its source there with the key; it is matched exactly when both are present and equal, drift when present and different, missing on the side that has none, and the difference makes up for the right quantity |
| Corroboration.OnlyTrustedExactly | src/tallylot/application/balances/corroboration.py:100-154 | a row takes part exactly when no other high-confidence row of the inventory gives its source the same identity, which is not blank |
| Corroboration.SummaryAddsUp | src/tallylot/application/balances/corroboration.py:22-47 | the four status counts add up to all assertions, and every issue counts as skipped |
| ReplayParity.CompareSignatures | tools/workspace_replay_validation/comparison.py:191-199 | a listing is blank exactly when the difference holds nothing but a blank signature |
| ReplayParity.WriteParityReport | tools/workspace_replay_validation/comparison.py:215-405 | each of the four loops lists every key of its comparison once, in order, with its status, the counter is the sum of their mismatches, and the verdict follows from the counters |
| ReplayParity.ReportCounts | tools/workspace_replay_validation/comparison.py:220-221 | the two counters are the sizes of the sets of differing and of permitted items |
| ReplayParity.PassesExactly | tools/workspace_replay_validation/comparison.py:215-342 | the mismatch count is zero exactly when signatures agree up to blanks with absent as empty, registries are equal, every known or declared source is on both sides with equal hard counts and exactly the declared deltas, and all counts agree with absent as zero |
| ReplayParity.PassesExactlyOutright | tools/workspace_replay_validation/comparison.py:215-342 | with signatures that are never blank it is zero exactly when the signature sets themselves agree with the rest |
| ReplayParity.SourceVerdict | tools/workspace_replay_validation/source_metric_parity.py:125-180 | a source row is no mismatch exactly when it meets that condition |
| ReplayParity.PassingCountsDeclared | tools/workspace_replay_validation/comparison.py:314-315 | in a passing report the expected differences counted are exactly the sources that declare a nonzero one |
| ExpectedDifferences.MergeDifferencesBySource | tools/workspace_replay_validation/expected_differences.py:165-184 | each declared source gets the sums of its deltas and its reasons in order |
| ExpectedDifferences.SumsAdd | tools/workspace_replay_validation/expected_differences.py:165-184 | the deltas of two lists of declarations add up |
| ExpectedDifferences.ReasonsJoin | tools/workspace_replay_validation/expected_differences.py:165-184 | and their reasons are joined in order |
| ExpectedDifferences.DeclarationOrderIsIrrelevant | tools/workspace_replay_validation/expected_differences.py:165-184 | the order of declarations changes neither deltas nor the mismatch count |
| CaptureKeys.CaptureRegistryKeys | tools/workspace_replay_validation/comparison.py:177-188 | each capture gets its base key, numbered from its second occurrence |
| CaptureKeys.BasesExactly | tools/workspace_replay_validation/comparison.py:177-188 | captures share a base for the same source and manifest only, a missing manifest counting as its placeholder |
| CaptureKeys.DistinctExactly | tools/workspace_replay_validation/comparison.py:177-188 | keys are distinct exactly when no base key looks like the numbered key of a repeated one |
| CaptureKeys.NumberedFingerprintCollides | tools/workspace_replay_validation/comparison.py:177-188 | two captures alike and one whose fingerprint ends in their number collide |
| CaptureKeys.PlainBasesDistinct | tools/workspace_replay_validation/comparison.py:177-188 | in particular when no base key contains a hash sign |
| BalanceSummary.ProducedDates | src/tallylot/application/balances/check.py:312-354 | a produced record's clean date is its resolved date when clean and blank otherwise, and lies within its asserted dates |
| BalanceSummary.CheckedDates | src/tallylot/application/balances/check.py:312-354 | the resolved date is the latest target date matched, the clean one the same if no issue was raised, and the others are the first and last of all dates asserted |
| BalanceSummary.CheckOfIsLast | src/tallylot/application/balances/summary.py:191-217 | the check on record for a source is its last one |
| BalanceSummary.LatestDateExactly | src/tallylot/application/balances/summary.py:245-272 | the latest date is the latest that a clean check gives |
| BalanceSummary.StatusCounts | src/tallylot/application/balances/summary.py:197-198 | each check counts towards its own status and no other |
| BalanceSummary.PortfolioDateExactly | src/tallylot/application/balances/summary.py:218-252 | there is a portfolio date exactly when there are sources and all are ready, clean and dated; it is then the greatest date not later than any source's |
| BalanceSummary.PortfolioBeforeLatest | src/tallylot/application/balances/summary.py:245-272 | it is never later than the latest date of a clean source |
| BalanceSummary.ResolvedAgreesWithClean | src/tallylot/application/balances/summary.py:245-272 | for produced records the clean and resolved-reference dates agree, per portfolio and overall |
| Blockers.BuildBlockers | src/tallylot/application/balances/summary.py:72-131 | one blocker per source and kind that has a reason, in order, with the first note given that is not blank |
| Blockers.BlockersExactly | src/tallylot/application/balances/summary.py:134-188 | a source is listed with a kind exactly when its inspection or one of its checks says so |
| Blockers.FailureIsNoted | src/tallylot/application/balances/summary.py:108-188 | the blocker of a failed check carries the first error of its source's failures that is not blank |
| Blockers.SupersededIsNoted | src/tallylot/application/balances/summary.py:108-160 | the blocker of a source without inputs tells of superseded outputs exactly when its inspection found some |
| Blockers.CountExactly | src/tallylot/application/balances/summary.py:279-286 | the count of an issue kind is the first one listed for it |
| Blockers.NoBlockersExactly | src/tallylot/application/balances/summary.py:134-188 | nothing is listed exactly when all sources are ready and no check failed, could not run, had no targets or hydrated without a provider |
| Blockers.PortfolioDateBlockersExactly | src/tallylot/application/balances/summary.py:72-105 | under a portfolio clean date there are no blockers if and only if no check blocks that is superseded or of no inspected source |
| Blockers.PortfolioDateMeansNoBlockers | src/tallylot/application/balances/summary.py:72-105 | in particular when every check is the one on record for an inspected source |
| Blockers.HiddenFailureKeepsBlocker | src/tallylot/application/balances/summary.py:196 | a later clean record of the same source hides an earlier failure from the date but not from the blockers |
| BalanceMerge.DedupeRows | src/tallylot/application/balances/merge.py:260-273 | the loop keeps the first row of each tuple among the sorted rows |
| BalanceMerge.MergeEnumeratesRows | src/tallylot/application/balances/merge.py:260-273 | for rows with exactly the header columns the merge is the strictly ascending enumeration of the set of rows |
| BalanceMerge.MergeIgnoresOrder | src/tallylot/application/balances/merge.py:246-273 | reordering or repeating captures changes nothing |
| BalanceMerge.FindConflicts | src/tallylot/application/balances/merge.py:276-304 | the loops compute the numbered conflicts of the specification |
| BalanceMerge.ConflictsExactly | src/tallylot/application/balances/merge.py:276-304 | a semantic key is reported, under its rank, exactly when two rows share it with different quantity text |
| QuantityConflicts.PrintedConflicts | src/tallylot/application/balances/merge.py:91-96 | with quantities as printed, a reported conflict is a difference in value, and among representable quantities every difference is reported |
| QuantityConflicts.RawTextsConflict | src/tallylot/application/balances/merge.py:91-96 | quantity texts that read as the same number, with and without zeros after the point, conflict |
| BalanceMerge.ConflictsOnce | src/tallylot/application/balances/merge.py:276-304 | and at most once |
| BalanceMerge.SameRowsSameOutcome | src/tallylot/application/balances/merge.py:246-304 | merged rows and conflicts depend only on the set of input rows |
| BalanceMerge.MergeRecords | src/tallylot/application/balances/merge.py:222-243 | the merge lists, in key order, the union of both maps with submitted records winning |
| BalanceMerge.MergeAssociates | src/tallylot/application/balances/merge.py:222-243 | merging is associative |
| BalanceMerge.MergeIsIdempotent | src/tallylot/application/balances/merge.py:222-243 | submitting the same records again, or none, changes nothing |
| RowDiffs.RowCounter | tools/oracles/verification/rows.py:8-11 | the counter holds exactly the multiset of row signatures |
| RowDiffs.SignaturesExactly | tools/oracles/verification/rows.py:8-11 | rows count as one exactly when they have the same columns and values, a missing value being blank |
| RowDiffs.SubtractionIsDifference | tools/oracles/verification/rows.py:25-31 | subtracting in place and keeping positive counts is multiset difference |
| RowDiffs.ExpandCounter | tools/oracles/verification/rows.py:14-22 | every signature is listed as often as counted, ascending |
| RowDiffs.RowDelta | tools/oracles/verification/rows.py:14-31 | new and resolved rows are the two multiset differences |
| RowDiffs.DeltaReconstructs | tools/oracles/verification/rows.py:25-31 | previous minus resolved plus new is current, and conversely, with nothing both new and resolved |
| RowDiffs.SourceDiff | tools/oracles/source_diff.py:19-24 | each side is what only it has plus the matched rows, as multisets and in counts |
| BalanceMaps.BuildBalanceMap | tools/oracles/verification/balances.py:9-22 | the keys are those of the rows, each with the sum of its rows |
| BalanceMaps.ConcatenationAdds | tools/oracles/verification/balances.py:9-22 | concatenating rows adds balances key by key |
| BalanceMaps.CompareBalanceMaps | tools/oracles/verification/balances.py:25-67 | the deltas list exactly the keys whose balance changed, ascending, with both amounts and the difference |
| BalanceMaps.DeltasReconstruct | tools/oracles/verification/balances.py:25-67 | previous balances plus the deltas are the current ones |
| BalanceMaps.AppendedDeltas | tools/oracles/verification/balances.py:9-67 | appending the deltas to the previous rows gives the current balances |
| BalanceMaps.CompareBalances | tools/oracles/cointracking/compare.py:44-79 | one row per asset of either side after filtering, with both sums, matched exactly when they agree |
| BalanceMaps.OwnBalancesMatch | tools/oracles/cointracking/compare.py:44-79 | balances compared with themselves match |
| BalanceMaps.RowsOfOthers | tools/oracles/cointracking/compare.py:52-63 | a row counts for its own source only, and an expected one only if it is of the right kind |

## Left out

- Subprocesses, git, `gh`, printing and elapsed times: a check's outcome is a member of an arbitrary set of failing checks, and exceptions escaping from a check are not modelled.
- Threads: a parallel batch completes in an arbitrary order; real scheduling is not modelled.
- Files, CSV and JSON: stores are sequences, and path safety, output clearing and distinct output paths are not modelled.
- Target-naming sensitivity of a path reads files and a catalog: it is an arbitrary predicate. Paths are taken as git lists them, without dot segments.
- Reading arguments and running autofix: the review command takes which ends of the diff range were given and the autofix status as inputs.
- Regular expressions: label and footer lines, the kinds of section entries, forbidden labels, and what opens and closes a comment are arbitrary predicates or functions. Pull request titles, branch names, commit subjects and checkpoints are left out.
- Decimal text: exponent notation, infinities, NaN and exponent limits are not modelled; text that is not positional reads as such.
- `check_decimal_precision`: it only compares the digit count with the expectation.
- Ledger and balance sums are exact; the decimal context's rounding of long sums and the eight-place rendering of deltas are not modelled.
- Times are integers and dates are integers ordered as their texts are; parsing of requested times and temporal formatting are not modelled.
- Requested times are given as days and instants: a blank or invalid one, an unknown time zone and an unsupported reference policy, which make a check fail before it is planned, are not modelled. A time zone is any pair of functions giving a day's first instant and an instant's day.
- `assert_balance_targets`, the inspect workflow and the assembly use cases: not part of this model; a check record is modelled from assertion rows and an issue count.
- Balance source inputs: balances per source and the inventory rows are given directly, as if source names were unique.
- The exact comparison order of keys and texts: it is an arbitrary total order, in place of Python's tuple and string order.
- Semantic keys and quantity texts of merged rows: arbitrary functions of the row; whitespace trimming of cells is not modelled.
- Messages, issue ids, notes that only word a status, headers and row conversions: easy to read off the source.
- ReplayParity.WriteParityReport: a row is its key and status; the texts of its other columns, and the report files, are not modelled.
- BalanceMaps.CompareBalances: rows are already trimmed and parsed, unlike in the source.
- CompareTransactions.CompareTransactions: rows are already trimmed and parsed, unlike in the source.
