# LibreEvolve core: a verified model

This project models the parts of LibreEvolve that change candidate programs, decide which of
them are promoted, count the work and keep the books, and proves what those parts promise.

| file | models |
|---|---|
| `Text.dfy`, `Sorting.dfy` | the string operations and the stable sort the program relies on |
| `LineEndings.dfy`, `DominantEndings.dfy` | search and replace that ignores line-ending differences, with the offset tables back into the original, and the line endings it writes |
| `DiffBlocks.dfy`, `DiffRoundTrip.dfy`, `ResponseShape.dfy`, `ApplyDiff.dfy` | SEARCH/REPLACE responses: parsing, printing, the shape check, and their effect |
| `EvolveBlocks.dfy`, `MarkerErrors.dfy`, `CandidateMutation.dfy`, `MutationOutcomes.dfy`, `AdjacentMarkers.dfy`, `Skeleton.dfy` | EVOLVE-BLOCK regions: parsing and its errors, splicing, full and diff mutations with what they return, what the result parses to, and exactly when it keeps its skeleton |
| `Workspace.dfy`, `WorkspaceOutcome.dfy` | multi-file mutations, the checks that guard them, confluence, and what they return |
| `RealAlgebra.dfy`, `Wilson.dfy`, `Binomial.dfy` | the promotion statistics, over the reals |
| `Accounting.dfy` | the evaluator work counters over a tree of results with stored subtotals |
| `Retries.dfy`, `Cascades.dfy`, `Verdicts.dfy` | attempts, samples, stages and cascades under a stage and a sample deadline, and their verdicts |
| `Glob.dfy` | artifact globs |
| `BudgetRoles.dfy`, `Budget.dfy`, `BudgetCalls.dfy`, `BudgetRuns.dfy`, `BudgetReplay.dfy` | the run budget: the object, what its calls mean, runs of it, resume chains, and event replay |
| `FaultyDisk.dfy`, `BestArtifacts.dfy`, `Materialize.dfy` | two writers that swap files in and roll back, on a disk where any operation may fail or be interrupted |
| `FailureLog.dfy` | the failure log and its index |

`dafny verify dfyconfig.toml` checks everything.

## How the model is built

A loop or an object of the program is a method or a class, and is proved against a function that
says what it computes; the promises are then lemmas about that function. Clocks, the file system,
the validator process and calls into foreign code are parameters: a validator is an arbitrary
function to outcomes, and an arbitrary fault function says of every disk operation whether it works,
fails, or is interrupted before, in the middle of or after its effect. In every
lemma with a proof automatic induction is switched off, so each induction is a recursive call.

Four places where the code does less than one might expect are stated as such:

* A replacement can lose a line ending when a lone CR meets an LF at a seam
  (`LineEndings.SeamCanLoseALine`); `LineEndings.ReplaceCommutesWithNorm` gives the exact condition.
* In a file with CRLF line ends, a match inside one line that is replaced by several lines leaves LFs
  among the CRLFs (`DominantEndings.OneLineMatchMixes`); `DominantEndings.CrLfFileStays` gives the exact condition.
* Where an END marker directly follows its START marker, a spliced body is not read back as written.
  `AdjacentMarkers.ReparseWithAnyBodies` says what is read back (the whole lines, less their last line
  end) and exactly when names, marker lines and skeleton survive; visible text after the last line end
  swallows the END marker and makes the file unreadable (`AdjacentMarkers.GluedEndIsLost`, with the
  concrete file of `AdjacentMarkers.LostEndMarker`).
* `materialize` means to ignore a failed removal of its backup, but the helper raises
  `CandidateMaterializationError`, which is a `ValueError` and not the `OSError` that is caught
  (candidate.py:331-335, 897-904). So it raises after a completed swap, with the new tree in place, exactly
  when an old tree was there, everything up to the swap works and the removal of the backup does not
  (`Materialize.MaterializeAt`; `Materialize.BackupRemovalRaises` is a concrete case).

Callers of the full-replacement methods have checked the markers before (candidate.py:1021), which is
why `CandidateMutation.ApplyFullReplacement` and the lemmas about it start from a text that parses.

## Model

| member | source | states |
|---|---|---|
| Text.CountMeaning | libreevolve/core/diff.py:88-91 | What `str.count` counts: 0 exactly when the text does not occur, at least 2 exactly when two occurrences do not overlap. |
| Text.OneMatchNeedNotBeUnique | libreevolve/core/diff.py:88-91 | A count of 1 does not mean that the occurrence is unique ("aba" in "ababa"). |
| LineEndings.NormalizersAgree | libreevolve/core/diff.py:108-129 | The two-step replacement and the index loop normalise every text to the same LF text. |
| LineEndings.NormalizeWithOffsets | libreevolve/core/diff.py:112-129 | The loop returns the LF text and, for every character of it, the exact range of the original that it stands for. |
| LineEndings.NormConcat | libreevolve/core/diff.py:108-109 | Normalising two halves separately gives the same text if and only if the seam does not put a CR before an LF; otherwise exactly one character is lost. |
| LineEndings.OffsetSplits | libreevolve/core/diff.py:112-129 | Cutting the original at a table offset normalises to the matching cut of the LF text, and never cuts a CRLF. |
| LineEndings.OffsetStep | libreevolve/core/diff.py:112-129 | Consecutive offsets are one line-ending unit apart, and the unit there is the character of the LF text. |
| LineEndings.SpanNormalizes | libreevolve/core/diff.py:94-105 | The original range between two offsets normalises to exactly that slice of the LF text. |
| LineEndings.MatchSpanFacts | libreevolve/core/diff.py:94-105 | The span that is replaced normalises to the search text, and the texts before and after it to the rest of the LF text; neither end of the span cuts a CRLF. |
| LineEndings.ReplaceKeepsTextOutsideSpan | libreevolve/core/diff.py:94-105 | Everything outside the span is kept byte for byte; what is put in normalises to the replacement. |
| LineEndings.ReplaceLineEndingTolerant | libreevolve/core/diff.py:94-105 | The program's search, offset lookup and splice compute the specified replacement (the code itself when there is no match). |
| DominantEndings.DominantMeaning | libreevolve/core/diff.py:132-141 | The line ending a replacement is written in, by counts over the matched text: CRLF when there is one and no lone LF or CR is more frequent; else CR when lone CRs are more frequent than lone LFs; else LF. |
| DominantEndings.CrLfFileStays | libreevolve/core/diff.py:94-105 | A file with only CRLF line ends keeps only those if and only if the match holds a line end or the replacement holds none. |
| DominantEndings.OneLineMatchMixes | libreevolve/core/diff.py:132-148 | The condition is needed: a match inside one line of a CRLF file, replaced by two lines, leaves a lone LF. |
| DominantEndings.LfFileStays | libreevolve/core/diff.py:94-105 | A file with only LF line ends keeps only those under every replacement. |
| LineEndings.AdaptKeepsMeaning | libreevolve/core/diff.py:144-148 | Rewriting a text for a line ending changes its line endings only. |
| LineEndings.ReplaceCommutesWithNorm | libreevolve/core/diff.py:94-105 | Replacing then normalising equals normalising then replacing the leftmost match, if and only if neither seam of the replacement puts a CR before an LF. |
| LineEndings.SeamCanLoseALine | libreevolve/core/diff.py:94-105 | The condition is needed: with a lone CR before the match and a replacement that starts with LF, a line ending disappears. |
| LineEndings.NoBareCrIsKept | libreevolve/core/diff.py:94-105 | For code without lone CRs the seams are always clean, and the result has no lone CR either. |
| LineEndings.AgreementMeansCleanSeams | libreevolve/core/diff.py:66-75 | For any code and any list of edits, the tolerant engine keeps step with plain replacing on the LF text after every edit if and only if no edit that is carried out puts a CR before an LF at one of its seams. |
| LineEndings.TolerantRefinesPlain | libreevolve/core/diff.py:66-75 | With such clean seams the tolerant engine gives the same error as plain counting and replacing on the LF text, or the same text up to line endings; code without lone CRs has clean seams under any edits and keeps without them. |
| DiffBlocks.FirstMatchIsLazyAndLeftmost | libreevolve/core/diff.py:13-16 | The modelled match is the one `finditer` takes for the two patterns: leftmost start, then the nearest middle line, then the nearest closing line; none only if there is none. |
| DiffBlocks.SortByStartCorrect | libreevolve/core/diff.py:151-156 | The blocks of both spellings are put in order of their start, and none is lost or repeated. |
| DiffBlocks.DiffMatchesAreInside | libreevolve/core/diff.py:159-173 | Every span that the cursor loop will step over lies inside the text. |
| DiffBlocks.OutsideLoop | libreevolve/core/diff.py:180-187 | The cursor loop collects exactly the pieces of the text between the spans. |
| DiffBlocks.ValidateConsumedDiffText | libreevolve/core/diff.py:176-191 | The check fails exactly when there is a block and something visible remains after the blocks and the proposal metadata are taken out. |
| ResponseShape.StripFencesMeaning | libreevolve/core/diff.py:34-53 | One markdown fence is removed exactly when it wraps the whole response, and then the body between its lines is left; any other response is left alone. |
| ResponseShape.FenceMeaning | libreevolve/core/diff.py:44-52 | An opening fence is three backquotes, a word of letters, digits and five signs, and blanks; a closing one has no word. |
| ResponseShape.RemainderMeaning | libreevolve/core/diff.py:176-191 | The check passes exactly when every piece of the text outside the blocks is blank once its metadata has been taken out, the first with one stripper and the others with the other. |
| ResponseShape.PiecesMeaning | libreevolve/core/diff.py:180-187 | For blocks that do not overlap, the pieces and the blocks put together again are the text. |
| DiffRoundTrip.ParseInvertsPrint | libreevolve/core/diff.py:151-166 | Round trip: any list of blocks, each in the compact or the canonical spelling, is read back as the same search/replace pairs in the same order. |
| DiffRoundTrip.DelimiterFreeIsDelimited | libreevolve/core/diff.py:13-16 | The round-trip condition on the delimiters holds for texts in which no line starts like a delimiter of their spelling. |
| DiffRoundTrip.ParseInvertsFencedPrint | libreevolve/core/diff.py:34-53 | The same round trip when the whole response is wrapped in one markdown code fence. |
| DiffRoundTrip.PrintPassesShapeCheck | libreevolve/core/diff.py:81-85 | A non-empty printed list passes the shape check: it has blocks and leaves nothing over. |
| ApplyDiff.Apply | libreevolve/core/diff.py:56-78 | The result of a response: every error leaves the code as it was, and there is no error exactly when the text changed. |
| MutationOutcomes.EditsMeaning | libreevolve/core/diff.py:66-75 | A list of edits is carried out one after the other, each in the text the last one left, where it must match exactly once; the first that cannot be carried out is reported with its reason. |
| MutationOutcomes.ResponseMeaning | libreevolve/core/diff.py:56-85 | When each error of a response is returned, that a refused response leaves the code alone, and that any other leaves the text of its edits. |
| ApplyDiff.PrintedBlocksAreApplied | libreevolve/core/diff.py:56-78 | A response that prints clean blocks has the effect of exactly those edits, in order. |
| ApplyDiff.PrintedBlocksEditTheLines | libreevolve/core/diff.py:56-105 | From response to edited file, when the edits have clean seams, as they always have in code without lone CRs: the result reads like the plain edits of the LF text, and an error is the error of the plain edits or says that the edits changed nothing. |
| EvolveBlocks.ParseInvertsUnparse | libreevolve/core/candidate.py:1602-1655 | A well-formed list of blocks and skeleton texts, printed, parses to itself. |
| EvolveBlocks.UnparseInvertsParse | libreevolve/core/candidate.py:1602-1655 | A text that parses without an error is well formed, and putting its skeleton, markers and contents together gives the text back. |
| EvolveBlocks.ParsedBlocksAreGood | libreevolve/core/candidate.py:1602-1655 | Also after an error, the blocks found so far are well formed and make up a prefix of the text. |
| EvolveBlocks.ReparseAfterSplice | libreevolve/core/candidate.py:1817-1821 | After replacing the contents of all blocks at once, parsing gives the same names, markers and skeleton with the new contents, if and only if every changed content is free of marker lines and, unless it is empty, has a newline before its END marker. |
| CandidateMutation.ParseEvolveBlocks | libreevolve/core/candidate.py:1602-1655 | The marker loop finds exactly the blocks of the parse, with the offsets of their contents, and reports its error. |
| MarkerErrors.ErrorMeaning | libreevolve/core/candidate.py:1602-1655 | Which marker error a file has, from its lines alone: none, a missing END, or the error of the first line that has one, where a block is open when more START than END markers stand above. |
| MarkerErrors.DigitsMeaning | libreevolve/core/candidate.py:1602-1655 | The number in the name of an unnamed block is its decimal form without leading zeros. |
| MarkerErrors.NameMeaning | libreevolve/core/candidate.py:31-31 | A block name is any non-empty text of ASCII letters, digits and the signs `_.:-`. |
| MarkerErrors.NameReadsBack | libreevolve/core/candidate.py:1612-1627 | A START line printed with a valid name is read as a START marker with that name. |
| CandidateMutation.SpliceInFile | libreevolve/core/candidate.py:1817-1821 | Replacing the located range of one block in the text of a file replaces its content and nothing else. |
| CandidateMutation.SpliceReversed | libreevolve/core/candidate.py:1817-1821 | Splicing from the last block to the first, with offsets computed once, equals substituting all contents simultaneously. |
| CandidateMutation.ApplyFullReplacement | libreevolve/core/candidate.py:1762-1824 | Full mode: whole text without blocks, named sections with blocks, a bare body for a single block, or the error. |
| MutationOutcomes.FullModeMeaning | libreevolve/core/candidate.py:1762-1784 | What full mode returns by the number of blocks and the form of the response, and when each error is returned. |
| MutationOutcomes.NamedModeMeaning | libreevolve/core/candidate.py:1787-1824 | What a response with BLOCK sections returns: the first header that is not in order, missing sections, an unknown name, no change, or the file with each body in the block of its name and every other content kept. |
| CandidateMutation.NamedReplacementReparses | libreevolve/core/candidate.py:1787-1824 | A successful named replacement reparses to the old skeleton with each named content replaced and every other content kept, if and only if every body fits its block. |
| CandidateMutation.BodyBeforeEndIsNotExact | libreevolve/core/candidate.py:1636-1638 | A non-empty body put where START is directly followed by END is never read back as exactly that content. |
| AdjacentMarkers.ReparseWithAnyBodies | libreevolve/core/candidate.py:1636-1638 | For bodies of any form: the file parses to the old names and skeleton, with the whole lines of the body (less the last line end) as content where START and END were adjacent, if and only if every body is free of marker lines and nothing visible follows its last line end there. |
| AdjacentMarkers.NamedReplacementWithAnyBodies | libreevolve/core/candidate.py:1787-1824 | The same for a named replacement: each named block holds what is read back of its body, every other block its old content, if and only if every body keeps the marker lines of its block. |
| AdjacentMarkers.GluedEndIsLost | libreevolve/core/candidate.py:1817-1821 | Between adjacent markers, a body whose whole lines are marker-free gives a readable file if and only if nothing visible follows its last line end; otherwise the block is never closed. |
| AdjacentMarkers.LostEndMarker | libreevolve/core/candidate.py:1636-1638 | A concrete file: one empty block with adjacent markers; "x" spliced into it makes the file unreadable, "x" with a line end does not. |
| CandidateMutation.TargetBlock | libreevolve/core/candidate.py:1716-1726 | The search for the one block with exactly one match, with its two error cases. |
| CandidateMutation.TargetMeaning | libreevolve/core/candidate.py:1716-1726 | Which block an edit is for, by the matches in all blocks: the one with a single match when nothing matches elsewhere, none if and only if nothing matches, and otherwise the search is ambiguous. |
| CandidateMutation.EditStepMeaning | libreevolve/core/candidate.py:1713-1739 | One edit: it is made in the only block in which it matches, once, and nothing else changes; when each of its two errors is returned. |
| CandidateMutation.ApplyDiffToCandidate | libreevolve/core/candidate.py:1704-1742 | Diff mode: the loop that relocates every edit in the current text computes the fold of the single steps. |
| MutationOutcomes.DiffModeMeaning | libreevolve/core/candidate.py:1704-1742 | What diff mode returns: the text its edits leave, each made in the one block it is for in the current text; or the first edit that is for no single block; or that there are no edits or no change. |
| CandidateMutation.EditStepKeepsSkeleton | libreevolve/core/candidate.py:1728-1739 | One edit keeps skeleton, markers and names and changes one content, if and only if the new content has no marker line. |
| Skeleton.EditKeepsSkeletonIff | libreevolve/core/candidate.py:1728-1739 | One edit keeps the skeleton and the block names of the file, whatever its contents, if and only if what it writes has no marker line. |
| Skeleton.EditAddsMarkers | libreevolve/core/candidate.py:1704-1742 | Also in a file that earlier edits have broken, an edit adds exactly the marker lines of what it writes and takes none away. |
| Skeleton.EditsKeepSkeletonIff | libreevolve/core/candidate.py:1704-1742 | The text that a finished list of edits leaves has the skeleton and the block names of the file if and only if no edit wrote a marker line: a broken skeleton is never repaired. |
| CandidateMutation.ApplyDiffResponse | libreevolve/core/candidate.py:1704-1742 | A whole diff-mode response: without blocks it edits the whole text under the response checks, with blocks it edits one block per search text. |
| Workspace.FindSectionPathConflict | libreevolve/core/candidate.py:1421-1455 | The set-based loop computes the specified conflict, with the path it names. |
| Workspace.ConflictCheckMeaning | libreevolve/core/candidate.py:1421-1455 | The check accepts a list of sections exactly when no two of its sections clash over a path. |
| Workspace.ConflictNamesTheFirst | libreevolve/core/candidate.py:1449-1454 | A conflict of operations is reported exactly when there is no duplicate, for the first path in the order of texts that is both edited and moved or deleted, and only when there is none for the first that is both a move target and a source. |
| WorkspaceOutcome.CheckOrder | libreevolve/core/candidate.py:1110-1121 | The checks come in order: conflicts, then command bodies, then static members; a duplicate is reported for the first section that repeats an earlier one. |
| WorkspaceOutcome.StaticRuleMeaning | libreevolve/core/candidate.py:1250-1274 | A section may stand beside the static members if and only if each one it names is editable and it is a STATIC section; the error says whether the named member is protected. |
| Workspace.ChecksMeaning | libreevolve/core/candidate.py:1250-1274 | The command-body and the static-member check accept exactly when every section obeys its rule on its own. |
| Workspace.ApplyWorkspaceMutation | libreevolve/core/candidate.py:1100-1247 | The program's loop over files, static members, primary file and change flag computes the specified result. |
| WorkspaceOutcome.OutcomeMeaning | libreevolve/core/candidate.py:1215-1247 | The outcome of an accepted mutation, from its sections: the combined files and static members with the primary file that a PRIMARY section names, else the kept or moved one; and exactly when a primary file is missing or deleted, nothing changes, or the final checks refuse the result. |
| WorkspaceOutcome.AcceptedIsRun | libreevolve/core/candidate.py:1100-1247 | A mutation gets to the final steps if and only if it passes the checks, each section applies to the original workspace and no deletion empties it; any other has an earlier error. |
| WorkspaceOutcome.RefusalMeaning | libreevolve/core/candidate.py:1128-1213 | A run that fails stops at the first section that does not apply to the original workspace or deletes its last file, with the error that says why. |
| WorkspaceOutcome.StaticMembersAfter | libreevolve/core/candidate.py:1133-1178 | What a STATIC section leaves: its content with size and hash, in a member that stays editable and keeps its kind; other members are unchanged. |
| Workspace.StepSucceeds | libreevolve/core/candidate.py:1128-1213 | A section succeeds in the middle of a run exactly when it applies to the original workspace, except for a deletion that meets a single file. |
| Workspace.StepCombines | libreevolve/core/candidate.py:1128-1213 | A step adds exactly its own effect to what the earlier sections did, whatever their order was. |
| Workspace.CombinesIsUnique | libreevolve/core/candidate.py:1123-1247 | The order-free description of the state after a set of sections determines the state. |
| Workspace.RunMeaning | libreevolve/core/candidate.py:1128-1213 | A checked list runs to the combination of its sections if and only if each applies to the original workspace and no deletion empties it on the way; that is the only other error. |
| Workspace.SectionOrderDoesNotMatter | libreevolve/core/candidate.py:1100-1247 | Confluence: if one order succeeds, every permutation gives the same workspace, or fails with `cannot_delete_last_file` when its deletions name every original file before any file is created. |
| Wilson.PassesBySquares | libreevolve/core/evaluator.py:4706-4718 | The comparison with the square root equals a side condition and a comparison of squares. |
| Wilson.PassesMeaning | libreevolve/core/evaluator.py:4706-4718 | For 0 < r < 1 the lower bound reaches r exactly when s/n >= r and n(s/n - r)^2 >= z^2 r(1 - r). |
| Wilson.RateOneNeverPasses | libreevolve/core/evaluator.py:4706-4718 | A required rate of 1 is never reached. |
| Wilson.PassesIsMonotone | libreevolve/core/evaluator.py:4706-4718 | More successes never make a passing test fail. |
| Wilson.ThresholdIsUnique | libreevolve/core/evaluator.py:4721-4730 | There is only one threshold, so the search result is determined by the test. |
| Wilson.MinimumSuccesses | libreevolve/core/evaluator.py:4721-4730 | The search loop returns the exact pass threshold: the test passes for s successes if and only if s reaches it, and it is n + 1 when no s passes. |
| Binomial.ChooseIsQuotient | libreevolve/core/evaluator.py:4733-4772 | The recursive coefficient is `math.comb`: times k! (n-k)! it is n!. |
| Binomial.TossRange | libreevolve/core/evaluator.py:4733-4772 | Probabilities of the reference experiment lie in [0, 1] and those of an event and its complement add up to 1. |
| Binomial.TailIsProbability | libreevolve/core/evaluator.py:4733-4751 | For every integer bound the tail function is the probability of at least that many successes; its special cases agree with the sum and the clamp never applies. |
| Binomial.CdfIsProbability | libreevolve/core/evaluator.py:4754-4772 | For every integer bound the distribution function is the probability of at most that many successes. |
| Binomial.TailAndCdfAreComplementary | libreevolve/core/evaluator.py:4733-4772 | tail(k) + cdf(k - 1) = 1 for every integer k. |
| Binomial.FalseRejectionRate | libreevolve/core/evaluator.py:4598-4608 | The estimate is exactly the probability, at the alternative rate, that the Wilson test fails. |
| Binomial.PromotionMeaning | libreevolve/core/evaluator.py:4477-4491 | The promotion budget allows a confidence if and only if what is missing to certainty stays within it. |
| Binomial.SuccessRateTest | libreevolve/core/evaluator.py:4355-4454 | The success-rate test passes exactly when there are enough samples, the observed rate is far enough above the required one and both error budgets hold; the reason is the first condition that fails and the p-value the probability of the observed tail. |
| Accounting.Accountant.constructor | libreevolve/core/evaluator.py:1995-2000 | The counters start at zero. |
| Accounting.Accountant.AddEmbedded | libreevolve/core/evaluator.py:2054-2058 | A stored subtotal adds its six counters; missing and negative values add nothing. |
| Accounting.Accountant.Add | libreevolve/core/evaluator.py:2003-2051 | The recursive in-place walk adds exactly the total of the result tree to the counters. |
| Accounting.SubtotalsAgreeWithRecomputation | libreevolve/core/evaluator.py:1995-2058 | A tree whose stored subtotals are right has the same totals as the flat sum over all its results, recomputed without any subtotal. |
| Accounting.ToDictIsHonest | libreevolve/core/evaluator.py:1912-1924 | Serialising a result writes a right subtotal, so subtotals stay right through any nesting. |
| Accounting.AttemptsMinusRetries | libreevolve/core/evaluator.py:2036-2051 | Attempts minus retries equals the number of results with a non-empty attempt list or, without a list, with a validator path and no materialization error. |
| Accounting.FailuresAreReported | libreevolve/core/evaluator.py:2042-2051 | The three failure counters count each reported error once: one per attempt, or the result's own. |
| Accounting.TreeConserves | libreevolve/core/evaluator.py:1995-2088 | Both conservation laws for a whole tree, with the failure counters as multiplicities of the reported errors. |
| Retries.RunSampleWithRetries | libreevolve/core/evaluator.py:958-1074 | The retry loop returns the result and the end time of the specified run. |
| Retries.AttemptTimeoutMeaning | libreevolve/core/evaluator.py:1008-1023 | The attempt timeout is the tightest of the stage timeout and what each deadline leaves (at least a millisecond); the label names the deadline that was the tighter, the stage on a tie. |
| Retries.RunMeaning | libreevolve/core/evaluator.py:977-1074 | The loop yields a trace if and only if: attempts follow each other without a gap, each starts while both deadlines have time left and has the timeout and outcome of its number, only the last may pass, and the end has the right reason with the stage deadline looked at first. |
| Retries.WorkEndsInTime | libreevolve/core/evaluator.py:977-1042 | No attempt starts past a deadline, and the work ends at most 0.001 s after the tighter one and within the time of retries + 1 attempts. |
| Retries.ResultIsFirstSuccess | libreevolve/core/evaluator.py:1066-1074 | At most retries + 1 attempts; the run passes exactly when some attempt passes, which is then the last; without deadlines a failing run uses all its attempts. |
| Retries.ReportedBudget | libreevolve/core/evaluator.py:981-1046 | A sample reports an exhausted budget exactly when its deadline had passed before an attempt, or its last attempt timed out under a timeout that this deadline had shortened, or the validator said so itself. |
| Verdicts.SampleVerdict | libreevolve/core/evaluator.py:977-1074 | The result of a sample: valid if and only if no deadline ended it and its last attempt was valid, with the error of the deadline or of that attempt. |
| Verdicts.SampleRunMeaning | libreevolve/core/evaluator.py:842-911 | A sample is refused exactly when the stage deadline has passed, and otherwise runs its retries from now on, under that deadline and one of its own that starts now. |
| Cascades.RunStage | libreevolve/core/evaluator.py:732-841 | The sample loop and the aggregation compute the specified stage result. |
| Cascades.StageRunMeaning | libreevolve/core/evaluator.py:786-816 | Which samples a stage runs, without the loop and in both directions: each starts when the one before has finished, none before the last stops the stage, and they end at the last configured sample or at the one that stops it. |
| Cascades.RunConfiguredStages | libreevolve/core/evaluator.py:663-730 | The stage loop computes the specified cascade result, with a record of every stage. |
| Cascades.CascadeTotals | libreevolve/core/evaluator.py:663-730 | The totals of a cascade are the sum over the samples of all its stages, although its metadata also carries the samples or attempts of the last stage. |
| Cascades.CascadeCounters | libreevolve/core/evaluator.py:663-730 | The counters of a finished cascade: the attempts that were run plus one per refused external sample, the retries among them, and the samples that were not refused. |
| Cascades.StageInTime | libreevolve/core/evaluator.py:786-816 | Over all samples and retries of a stage, no attempt starts after the stage deadline or outlives it by more than a millisecond; only the last sample can be refused. |
| Cascades.CascadeInTime | libreevolve/core/evaluator.py:663-730 | Every cascade ends within the sum over its stages of samples x (retries + 1) x timeout, or of the stage budget plus a millisecond where that is less. |
| Cascades.OnlyTheLastStageFails | libreevolve/core/evaluator.py:682-730 | Every stage that was run passed, except possibly the last. |
| Verdicts.StageVerdict | libreevolve/core/evaluator.py:1698-1755 | A stage is valid if and only if every sample that was run succeeded; its error is that of its only sample, and of several none or the first one reported. |
| Verdicts.CascadeVerdict | libreevolve/core/evaluator.py:682-730 | A candidate is valid if and only if every configured stage was run, all samples of each succeeded and all gates are open; otherwise it fails at the last stage that was run, with an error. |
| Verdicts.CascadeRunMeaning | libreevolve/core/evaluator.py:663-730 | Which stages are run, without the loop and in both directions: each starts when the one before has finished, none follows a stage that is not passed, and they end with the last or with one that is not passed. |
| Glob.OneSegment | libreevolve/core/evaluator.py:3364-3378 | `**` alone matches every path; any other single segment matches exactly one segment. |
| Glob.GlobComposes | libreevolve/core/evaluator.py:3364-3378 | A pattern p followed by q matches a path if and only if the path can be cut into a part matched by p and a part matched by q. |
| BudgetRoles.ConsumedBy | libreevolve/core/budget_contract.py:1029-1035 | The loop over roles returns what a scope has consumed: one role, or the sum over the roles that start with its prefix. |
| BudgetRoles.ScopeMeaning | libreevolve/core/budget_contract.py:1023-1026 | A family scope `x:*` stands for exactly the roles that continue `x:`, any other scope for the role of its name. |
| BudgetRoles.LabelMeaning | libreevolve/core/budget_contract.py:110-110 | A role label is 1 to 128 ASCII letters, digits and signs `_.:-` and starts with a letter or digit. |
| BudgetRoles.RoleBudgetExhausted | libreevolve/core/budget_contract.py:989-1020 | The loop over limits says whether some scope that concerns the role has reached its limit. |
| BudgetRoles.SumAfterAdd | libreevolve/core/budget_contract.py:961-986 | Recording for one role raises the sum over all roles by exactly that amount. |
| BudgetRoles.ScopeWithinTotal | libreevolve/core/budget_contract.py:1023-1035 | What any scope has consumed lies between zero and the sum over all roles. |
| BudgetRoles.AddKeepsMeter | libreevolve/core/budget.py:242-285 | A recording, with a valid, an invalid or no role, keeps the roles within the global counter and takes nothing back. |
| BudgetRoles.RoleLimitNeedsGlobal | libreevolve/core/budget_contract.py:989-1035 | With every role limit at or above the global limit, a role can only be exhausted when the global limit is reached too. |
| Budget.FirstIsFirst | libreevolve/core/budget_contract.py:117-230 | The reported reason is a reached limit, and no reached limit comes before it in the precedence order. |
| Budget.FirstIsUnique | libreevolve/core/budget_contract.py:117-230 | That description determines the report. |
| Budget.StopsMeaning | libreevolve/core/budget_contract.py:117-230 | A reason stops the run if and only if its limit leaves no room, that is, unless what was consumed is strictly below it; the LLM limits only when they are asked about. |
| Budget.RunBudget.FirstExhaustedLimit | libreevolve/core/budget_contract.py:117-230 | The ladder of comparisons reports the first exhausted limit, and refuses an invalid role exactly when it gets as far as the role limits. |
| Budget.RunBudget.constructor | libreevolve/core/budget.py:132-164 | A new budget has consumed nothing and has no stop reason. |
| Budget.RunBudget.Restore | libreevolve/core/budget.py:166-213 | A snapshot is restored exactly when it is valid and its limits are those of the configuration; counters, segments and first start carry over, the stop reason does not. |
| Budget.RunBudget.RecordEvaluation | libreevolve/core/budget.py:287-313 | An evaluation adds one seed or candidate evaluation, its time and its six work counters, or is refused without a trace. |
| Budget.RunBudget.RecordLlmTokens | libreevolve/core/budget.py:256-260 | The global counter is raised first, then the role's; an invalid role is refused with the global counter already raised. |
| Budget.RunBudget.CheckLimits | libreevolve/core/budget.py:428-445 | A check returns the latched reason, or latches the first exhausted limit. |
| Budget.CheckMeaning | libreevolve/core/budget.py:428-445 | What a check answers: it latches and reports the first limit that stops the run, keeps a latched reason, and fails without a trace in an invalid state or for an invalid role. |
| Budget.RunBudget.FinishRun | libreevolve/core/budget.py:315-326 | `finish` always ends with a stop reason: the latched one, the first exhausted limit, or one of the three regular ends. |
| Budget.FinishMeaning | libreevolve/core/budget.py:315-326 | How a run ends: with the latched reason, else with the first limit that stops it, and only when none does with no valid program, all generations completed, or completed, each under its own condition. |
| Budget.RunBudget.TakeSnapshot | libreevolve/core/budget.py:328-423 | A snapshot is taken exactly in a valid state and holds the limits, counters, runtime and segments. |
| BudgetCalls.RecordMeaning | libreevolve/core/budget.py:230-313 | A recording is refused exactly for a negative amount or, with a positive amount, for a role that is no label; an accepted one raises exactly its own call, generation and evaluation counters, a refused one none of these. |
| BudgetCalls.MetersMeaning | libreevolve/core/budget.py:242-285 | Each of the four meters takes exactly the amounts recorded for it, as a whole and for the role named, and an invalid role leaves every role alone. |
| BudgetCalls.WorkMeaning | libreevolve/core/budget.py:287-313 | Each of the six work counters rises by exactly what an accepted evaluation reports under its key, and a missing key reports nothing. |
| BudgetCalls.RestoreMeaning | libreevolve/core/budget_contract.py:264-286 | A snapshot may be restored if and only if no limit, amount or time is negative, limits are for scopes and amounts for labels, evaluations split into seeds and candidates, no more generations are completed than started, the segments are numbered from 0 with a kind that is not blank, and the limits are those of the new process. |
| BudgetCalls.StateMeaning | libreevolve/core/budget_contract.py:736-853 | A budget answers only in a valid state, and that is one with the same good limits, counters and segments as a snapshot and times that are not negative. |
| BudgetCalls.SnapshotMeaning | libreevolve/core/budget.py:328-423 | A snapshot holds limits, counters and stop reason; its runtime adds the time of this process, unless the clock went back, to that of the processes before; this process gets the next segment; and it is finished exactly when the run has stopped. |
| BudgetCalls.SnapshotRoundTrip | libreevolve/core/budget.py:166-213 | A snapshot restored and taken again at once differs only in one more segment and the missing stop reason. |
| BudgetRuns.StateCheck | libreevolve/core/budget_contract.py:736-853 | In every run the state check can fail in one way only: more generations completed than started. |
| BudgetRuns.StepKeeps | libreevolve/core/budget.py:230-326 | Every call, also a refused one, keeps the invariant, lowers no counter and keeps a latched reason. |
| BudgetRuns.RunKeeps | libreevolve/core/budget.py:230-326 | The same for every sequence of calls. |
| BudgetRuns.ExhaustionIsPermanent | libreevolve/core/budget_contract.py:117-230 | A question once answered with an exhausted limit is always answered so, after any calls and at any later time, with the same limit or an earlier one. |
| BudgetRuns.LatchedReasonSurvives | libreevolve/core/budget.py:428-445 | The reason a check latches is the one every later check and `finish` reports. |
| BudgetRuns.WiderQueriesStop | libreevolve/core/budget_contract.py:989-1026 | Exhausted for a role implies exhausted without a role; exhausted without the LLM limits implies exhausted with them. |
| BudgetRuns.RolesStayWithinGlobal | libreevolve/core/budget.py:242-285 | In every run from a fresh budget, each role scope and the sum over all roles stay within the global counter, for all four families. |
| BudgetRuns.ShadowedRoleLimit | libreevolve/core/budget_contract.py:176-223 | A role limit is never the reported reason when every role limit of its family is at or above the global limit. |
| BudgetRuns.ChainSnapshots | libreevolve/core/budget.py:166-213 | Along a resume chain of any length every snapshot is valid, keeps the limits and the first start time, numbers its segments 0..i with only segment 0 an initial process, and its runtime is the exact sum of the process times. |
| BudgetRuns.ChainCanContinue | libreevolve/core/budget.py:166-213 | A further process can restore any snapshot of a chain, at any time, under the limits of the chain and under no others. |
| BudgetRuns.ChainCarriesOver | libreevolve/core/budget.py:166-213 | From snapshot to snapshot no counter and no runtime goes down, and a stop reason is not inherited: a process that only records ends without one. |
| BudgetReplay.ApplyEvent | libreevolve/core/budget_contract.py:476-518 | Applying a validated event to the budget object has exactly its specified effect; an applied stop overwrites the stop reason. |
| BudgetReplay.EventMeaning | libreevolve/core/budget_contract.py:315-473 | An event may be logged and replayed if and only if it has no negative number, a label for a role, and, for a cache hit, digests of 64 lower-case hexadecimal digits and a name of 1 to 256 characters. |
| BudgetReplay.ReplayIsTheSum | libreevolve/core/budget.py:448-466 | Replaying a log from a fresh budget ends with every counter and per-role entry equal to the matching sum over the events and with the last stop reason; it fails exactly when a stop event comes while more generations are completed than started. |
| BudgetReplay.MatchesIsUnique | libreevolve/core/budget.py:508-527 | The sums of a log determine the counters, including which roles are present. |
| BudgetReplay.ValidateReplay | libreevolve/core/budget.py:448-466 | The replay loop and comparison decide acceptance as specified. |
| BudgetReplay.AcceptsMeaning | libreevolve/core/budget.py:448-527 | A snapshot is accepted if and only if it is valid, the log is numbered 0..n-1 with valid events and its stop events in order, and the snapshot holds the sums and the last stop reason; its runtime is not looked at. |
| BudgetReplay.EventLog.LogControllerBudgetEvent | libreevolve/core/database.py:236-250 | A logged event gets the next number; a refused event or a failed append leaves log and counter alone, so every log is numbered 0..n-1. |
| BudgetReplay.OwnLogIsAccepted | libreevolve/core/budget.py:448-527 | A budget changed only by logged events produces a snapshot that its own log accepts, whatever the clocks said. |
| BestArtifacts.Install | libreevolve/core/best_artifacts.py:113-127 | The swap stops at its first operation that does not work, and the number of that operation determines what a rollback has to do; wherever it stops both old artifacts are at their own path or at their backup, and the installed flag of `best.py` is never set when the rollback runs. |
| BestArtifacts.Rollback | libreevolve/core/best_artifacts.py:365-434 | Every operation of the rollback is tried, up to an interrupt; the errors are exactly those of the operations that fail, a backup is preserved exactly when it could not be moved back, and when all operations work the old pair is back. |
| BestArtifacts.UndoSwap | libreevolve/core/best_artifacts.py:128-149 | Rollback and cleanup together: the old pair is back when the operations of the rollback work, each old artifact survives in any case, and when every operation works nothing is left over or reported. |
| BestArtifacts.Cleanup | libreevolve/core/best_artifacts.py:437-453 | Every path is tried, up to an interrupt, and is then gone, preserved or reported; it ends without an error exactly when the removal of every path that is there works. |
| BestArtifacts.WriteBestArtifacts | libreevolve/core/best_artifacts.py:96-161 | For every pattern of failures and interrupts: the export succeeds if and only if every operation of the swap and of the final cleanup works, and leaves exactly the new pair; it is cut off exactly at the first interrupt, which loses no old artifact before the new pair is in place; when operation k of the swap fails, the rollback errors are exactly those of its operations that fail, the old pair is back when they work, and otherwise each old artifact is at its own path or at a preserved backup. A rollback error takes two failures, and a single failure in the swap leaves the directory as it was. |
| Materialize.HasCollision | libreevolve/core/candidate.py:202-217 | The target table finds exactly the collisions of the path keys. |
| Materialize.TreeHoldsEveryEntry | libreevolve/core/candidate.py:243-284 | Without a collision the written tree holds every file with its own content, and nothing else. |
| Materialize.UndoSwap | libreevolve/core/candidate.py:316-330 | When the old tree was moved, the handler puts it back exactly when the removal of what is at the target and the rename of the backup take effect; otherwise it stays at the backup. |
| Materialize.Swap | libreevolve/core/candidate.py:287-330 | The swap works exactly when its one or four operations work; otherwise the operation at which it stopped and the faults of the handler say exactly whether the old tree is at the target or at its backup. |
| Materialize.MaterializeAt | libreevolve/core/candidate.py:199-340 | For every pattern of failures and interrupts: it returns if and only if no paths collide and every operation works, with exactly the new tree there; it raises after a completed swap, with the new tree in place, if and only if there was an old tree and everything works but the removal of its backup; in every other case it is stated exactly whether the old tree is at the target or at its backup, and after a single failure it is at the target, with the temporary tree removed unless its creation was what failed. |
| Materialize.BackupRemovalRaises | libreevolve/core/candidate.py:331-335 | A concrete run that raises with the new tree in place: only the removal of the backup fails. |
| FailureLog.ProgramDatabase.LogFailure | libreevolve/core/database.py:406-588 | A logged failure gets the next repetition count of its fingerprint; a duplicate id, a failed validation or a failed append leaves counts, ids and records alone. |
| FailureLog.RepetitionsCountUp | libreevolve/core/database.py:429-430 | The records that share a fingerprint carry the counts 1, 2, ..., n in order. |
| FailureLog.GroupByFingerprint | libreevolve/core/database.py:1537-1542 | The grouping loop keeps every record once, in log order, under its fingerprint. |
| FailureLog.IndexSummarises | libreevolve/core/database.py:1545-1564 | Every entry of the index of a log: the highest repetition count and the occurrences are both the number of records of its fingerprint, the latest record is the last one, and the retained records are the last five (or all) in reverse. |
| FailureLog.OccurrencesAddUp | libreevolve/core/database.py:1545-1564 | The occurrence counts in the entries of all fingerprints add up to the number of logged records. |
| FailureLog.FailureIndexSnapshot | libreevolve/core/database.py:1531-1582 | The index builder computes the specified index. |
| FailureLog.IndexKeepsTheFirst | libreevolve/core/database.py:1565-1566 | The index is ordered by rank, and every entry cut off was repeated less often than each one kept, or as often with fewer occurrences, or with as many and a later fingerprint; nothing is cut unless fifty are kept. |

## Left out

- CandidateMutation.ParseEvolveBlocks: an EVOLVE-BLOCK marker is recognised line by line, so markers that Python's tokenizer hides inside strings, and the tokenizer's failure path, are not modelled; LF is the only line boundary.
- Block names: the redaction check and the Unicode-category check of names are not modelled; the rule for their characters is.
- Regular expressions: the two SEARCH/REPLACE patterns are modelled as lazy leftmost matches; the FILE and BLOCK envelope patterns and their header parsing are not, sections arrive parsed.
- Proposal metadata: the strippers are parameters, of which the shape-check lemma asks that they make nothing visible out of white space.
- Workspace.ApplyWorkspaceMutation: base64 decoding, hashing and the final candidate checks are parameters.
- Floating point: statistics, clocks and budgets are over the reals; the square root is any non-negative root and the normal quantile a given z > 0, so rounding is not modelled.
- Cascades.RunStage: runs with one sample worker; thread pools are not modelled, and whether the sequential test stops and whether a stage passes its thresholds are arbitrary answers.
- Retries.RunSampleWithRetries: an attempt is an outcome with an elapsed time and no time passes between clock reads; that a validator keeps its timeout is an assumption of the timing lemmas only.
- Budget.RunBudget.RecordLlmTokens: attempts, tokens and cost are counted in reals, so that these counters stay whole numbers is not stated.
- Budget timestamps: a UTC time is a number, its text format is not checked; field typing of snapshots and events happens before the model starts.
- BestArtifacts.WriteBestArtifacts: link and junction checks, the manifest record and the texts of errors are not modelled; materialising the temporary workspace is one write that may fail.
- Materialize.MaterializeAt: path-safety and link checks, and the final lookup of the primary file, are not modelled; an error while merely looking at a path is not a fault of the modelled disk.
- FailureLog.ProgramDatabase.LogFailure: seed and generated failures share the modelled path, with the fingerprint hash and the history validation as inputs; the other fields of a record are not modelled.
- Metric aggregation and its quantile, thresholds on metrics, artifact collection and configuration validation would only add easy members.
- Subprocess launch and kill, islands and MAP-Elites archives, the evolve loop, the LLM ensemble, the JSONL layer, the CLI and all rendering are not modelled.
