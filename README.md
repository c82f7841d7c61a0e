# prune_include, modelled in Dafny

`prune_include.py` finds redundant `#include` lines in a source tree by
experiment. For every source file it collects the lines that look like a
directive. It comments each one out in place and rebuilds the project. If
the build artifact appears, the line stays commented out; if not, the
original line is written back and the project is rebuilt, and a rebuild
that still fails ends the run. Each file gets a bottom-up pass, and a
top-down pass when the first one removed something. Before any of that, a
baseline build must succeed.

The model has four modules:

- `Lines` (`lines.dfy`): a file's text as a sequence of lines, each line
  with its own newline as Python's `fileinput` yields it. It holds the
  line test of the scanner, the in-place rewrite of one line, and the
  candidate scan.
- `Pruning` (`pruning.dfy`): the whole run as functions on a `State`
  (file contents, whether the artifact exists, how many builds ran, the
  lines announced by "Testing line" and the lines announced as removed).
  Each operation returns a `Step`, an outcome paired with the new state.
  An outcome is `Ok` or `Fatal`, and `Fatal` stands for the script's
  `exit_error`. The lemmas state what a trial, a pass, a file and a run
  promise.
- `Workspace` (`workspace.dfy`): the script's functions as methods of a
  class whose fields are rewritten in place, with real loops. Each method
  is proved to take exactly the step its `Pruning` function describes, so
  every `Pruning` lemma holds of the methods too.
- `Scenarios` (`scenarios.dfy`): concrete runs. One build fails its
  restore and aborts the run. In another, two includes can each go alone
  but not both, and two passes remove exactly one of them.

The builder is an `Oracle`: a function from the build's sequence number
and the current file contents to whether the artifact is created. Its
sequence number lets it be flaky, which is what makes a failed restore
possible. A failing build leaves an existing artifact alone. Each trial
therefore deletes the artifact before its first build. The restore build
runs only after a build that left no artifact, so it needs no delete of
its own. `Pruning.Trial` folds the delete into the verdict of the first
build; `Workspace.Workspace.PruneInclude` performs it as a separate step,
and is proved to agree with `Pruning.Trial`.

## Model

| member | source | states |
|---|---|---|
| Lines.MatchFrom | prune_include.py:149 | the search behind the line test; no contract of its own, `Lines.MatchFromFinds` states what it finds |
| Lines.IsDirective | prune_include.py:149 | the scanner's line test; no contract of its own, `Lines.DirectiveIsPatternMatch` states that it is the pattern match |
| Lines.MatchFromFinds | prune_include.py:149 | the backtracking search succeeds from column k exactly when some run of space characters from k is followed by the token and one more space |
| Lines.DirectiveIsPatternMatch | prune_include.py:147-149 | a line is a candidate if and only if it matches `^\s*TOKEN\s+`: optional leading whitespace, the token, at least one whitespace character |
| Lines.CommentedIsNoDirective | prune_include.py:116 | a line prefixed by a comment marker that starts with neither a space nor the token's first character is never a candidate, whatever the line |
| Lines.Replaced | prune_include.py:96-103 | the rewritten file has as many lines as before; line n holds the replacement and every other line is copied unchanged |
| Lines.RewriteLines | prune_include.py:98-103 | the streaming loop of `inplace_insert` writes exactly the file that `Replaced` describes |
| Lines.ReplacedOutside | prune_include.py:98-103 | a line number outside the file rewrites nothing |
| Lines.RollbackExact | prune_include.py:116-124 | writing the saved text back over a rewritten line restores the file exactly |
| Lines.ScanLines | prune_include.py:143-152 | the scan of a file; no contract of its own, `Lines.ScanLinesMembers`, `Lines.ScanLinesBackup`, `Lines.ScanLinesIncreasing` and `Lines.ScanLinesFacts` state its promises |
| Lines.ScanLinesMembers | prune_include.py:145-151 | the scanned line numbers are exactly the 1-based numbers of the candidate lines |
| Lines.ScanLinesBackup | prune_include.py:150-152 | a backup is kept for exactly the scanned numbers, and each is the verbatim text of its line |
| Lines.ScanLinesIncreasing | prune_include.py:145-151 | the scanned line numbers are strictly increasing (read top to bottom) |
| Lines.ScanLinesFacts | prune_include.py:143-152 | the scan meets all of the scanner's promises together |
| Lines.CollectCandidates | prune_include.py:143-152 | the scanning loop returns the candidate numbers and backups the scan describes, 1-based, increasing, exactly the candidate lines, with verbatim backups |
| Lines.Reverse | prune_include.py:154-155 | `reversed` yields the same number of elements, last first |
| Lines.ReverseOfIncreasing | prune_include.py:154-156 | reversing the increasing candidate list gives a strictly decreasing order over the same line numbers |
| Pruning.RemoveArtifact | prune_include.py:87-93 | deleting the artifact; no contract of its own, `Workspace.Workspace.RemoveArtifact` is proved to take this step, and `Pruning.TrialOutcome` and `Pruning.Initialize` state its effect on a trial and on the baseline build |
| Pruning.Build | prune_include.py:82-84 | one build; no contract of its own, `Workspace.Workspace.BuildProject` is proved to take this step, and `Pruning.TrialOutcome` and `Pruning.Initialize` state the verdicts of the builds |
| Pruning.Rewrite | prune_include.py:96-103 | `inplace_insert` on the state; no contract of its own, `Workspace.Workspace.InplaceInsert` is proved to take this step and `Lines.Replaced` states the rewritten file |
| Pruning.PassOrder | prune_include.py:154-155 | the order of a pass; no contract of its own, `Pruning.ScanOrderFacts` states that it is decreasing when reversed, increasing otherwise, and holds exactly the candidates |
| Pruning.Trial | prune_include.py:106-129 | a trial keeps the same set of files; `Pruning.TrialOutcome`, `Pruning.TrialCommit`, `Pruning.TrialRollback` and `Pruning.TrialFrame` state the rest of its contract |
| Pruning.PruneAll | prune_include.py:192-213 | a run keeps the same set of files; `Pruning.RunGates`, `Pruning.RunAbortIsImmediate`, `Pruning.RunEndsBuilt` and `Pruning.RunKeepsFilesPruned` state the rest of its contract |
| Pruning.Initialize | prune_include.py:173-184 | the baseline gate changes no file content and no log, and passes exactly when the first build on the untouched files succeeds |
| Pruning.Pass | prune_include.py:156-158 | a pass keeps the same set of files |
| Pruning.ProcessFile | prune_include.py:132-160 | scanning and one pass keep the same set of files |
| Pruning.PruneFile | prune_include.py:205-208 | both passes over a file keep the same set of files |
| Pruning.PruneFiles | prune_include.py:205-208 | the loop over all files keeps the same set of files |
| Pruning.TrialOutcome | prune_include.py:106-129 | a trial logs its line; it reports a removal exactly when the build of the commented-out file succeeds, then keeps that file at one build; otherwise it writes the backup back at two builds; it reports "kept" exactly when the first build fails and the rebuild succeeds, aborts with this file and line otherwise, leaves the artifact present exactly when it did not abort, and reports the line removed exactly when it kept it commented out |
| Pruning.TrialCommit | prune_include.py:116-122 | after a removal the artifact exists, the line holds comment plus backup, and every other line of every file is unchanged |
| Pruning.TrialRollback | prune_include.py:123-124 | when the backup is the line's current text, a trial that does not remove the line leaves every file exactly as it was |
| Pruning.TrialFrame | prune_include.py:116-124 | a trial touches no other file, and in its own file at most the tried line, which is then commented out |
| Pruning.TrialBuildable | prune_include.py:123-128 | with a build that depends on content only and a buildable start, a trial never aborts and leaves the files buildable |
| Pruning.PassFrame | prune_include.py:156-158 | a pass touches no other file, and each line of its file is either unchanged or a tried line commented out |
| Pruning.PassLog | prune_include.py:156-158 | a pass that completes tries its lines one each, in exactly the given order |
| Pruning.PassAbort | prune_include.py:156-158 | a pass that aborts has tried exactly a prefix of its order, ends at its last tried line and names that line: no later candidate is tried |
| Pruning.PassRemovals | prune_include.py:156-158 | a pass only reports removals of its own candidates, and it reports a change exactly when it entered changed or removed a line |
| Pruning.PassKeepsChanged | prune_include.py:158 | once a pass has seen a removal it cannot report "no change" |
| Pruning.PassUnchanged | prune_include.py:156-158 | a pass that removes nothing leaves every file as it was and costs two builds per candidate |
| Pruning.PassReportsChange | prune_include.py:156-160 | a pass that reports a change (with a non-empty comment) has changed its file |
| Pruning.PassArtifact | prune_include.py:156-158 | from a built state, a pass ends with the artifact present exactly when it did not abort |
| Pruning.PassNeverFailsRestore | prune_include.py:156-158 | with a build that depends on content only and a buildable start, a pass never aborts and ends buildable |
| Pruning.ScanOrderFacts | prune_include.py:154-156 | the pass order is backed by verbatim text, repeats no line, is strictly decreasing for the reverse pass and increasing for the forward pass, and holds exactly the candidate lines |
| Pruning.ProcessFileIsPass | prune_include.py:132-160 | `process_file` is one pass over the freshly scanned candidates, in the chosen order |
| Pruning.CommentedDirectivesArePruned | prune_include.py:143-158 | commenting out only candidate lines yields the original file with some directives commented out |
| Pruning.ProcessFileLog | prune_include.py:154-160 | a completed pass tries every candidate once, bottom-up when reversed and top-down otherwise |
| Pruning.ProcessFileAbort | prune_include.py:154-160 | a pass that aborts names the last line it tried, from this file |
| Pruning.ProcessFileRemovals | prune_include.py:154-160 | only this file's candidates are reported removed, and the pass returns true exactly when at least one was |
| Pruning.ProcessFileShape | prune_include.py:154-160 | afterwards other files are unchanged and this one is its old text with some directives commented out |
| Pruning.ProcessFileChange | prune_include.py:154-160 | a pass that returns false leaves the files as they were at two builds per candidate; one that returns true has changed the file |
| Pruning.ProcessFileArtifact | prune_include.py:154-160 | from a built state, a pass that completes leaves the artifact present |
| Pruning.ProcessFileNeverFailsRestore | prune_include.py:154-160 | with a build that depends on content only and a buildable start, `process_file` never aborts and ends buildable |
| Pruning.PrunedTrans | prune_include.py:205-208 | for a comment prefix that starts with neither a space nor the token's first character, commenting out some directives, then more of what remains, is commenting out some directives of the original |
| Pruning.PruneFileUnfold | prune_include.py:205-208 | the forward pass runs exactly when the reverse pass returned true; the file then ends in the state after the forward pass, and aborts exactly when that pass aborts, with its failure |
| Pruning.TwoPassSchedule | prune_include.py:205-208 | if the reverse pass removes nothing, no forward pass runs: the file is unchanged and each candidate is tried exactly once, bottom-up, at two builds each; otherwise the log is the reverse pass over the original candidates followed by the forward pass over the candidates still present |
| Pruning.ForwardPassRetriesOnlyKeptLines | prune_include.py:154-158 | for a comment prefix that starts with neither a space nor the token's first character, every candidate of the forward pass is a line the reverse pass kept, unchanged: a removed line is never tried again |
| Pruning.PruneFileShape | prune_include.py:205-208 | after both passes other files are unchanged and this one is its original text with some directives commented out |
| Pruning.PruneFileAbort | prune_include.py:205-208 | an abort during either pass names the last line tried, from this file |
| Pruning.PruneFileArtifact | prune_include.py:205-208 | from a built state, a file that completes leaves the artifact present |
| Pruning.PruneFileNeverFailsRestore | prune_include.py:205-208 | with a build that depends on content only and a buildable start, both passes complete and leave the files buildable |
| Pruning.PruneFilesUnfold | prune_include.py:205-208 | the files are handled in list order and the first abort stops the loop |
| Pruning.PruneFilesAbort | prune_include.py:204-208 | an abort in the loop names the last line tried, in one of the listed files |
| Pruning.PruneFilesArtifact | prune_include.py:204-208 | from a built state, a loop that completes leaves the artifact present |
| Pruning.PruneFilesShape | prune_include.py:204-208 | every file ends as its text before the loop with some directives commented out |
| Pruning.PruneFilesNeverFailRestore | prune_include.py:204-208 | with a build that depends on content only and a buildable start, the loop never aborts |
| Pruning.RunGates | prune_include.py:198-202 | the run stops for lack of files exactly when the list is empty, and at the baseline exactly when the first build fails; either stop happens before any file is changed or any line is tried |
| Pruning.RunAbortIsImmediate | prune_include.py:124-128 | a failed restore names a listed file and the very last line tried: nothing is tried after it |
| Pruning.RunEndsBuilt | prune_include.py:204-211 | a run that succeeds ends with the artifact present |
| Pruning.RunKeepsFilesPruned | prune_include.py:192-213 | whatever the outcome, the same files exist and each is its original text with some directive lines commented out |
| Pruning.ContentDeterminedRunNeverFailsRestore | prune_include.py:123-128 | if the build depends on content only, a run ends only at one of the two gates or successfully |
| Scenarios.DirectiveExamples | prune_include.py:149 | indented directives and directives followed by a tab are candidates |
| Scenarios.NonDirectiveExamples | prune_include.py:149 | a longer word, a bare token with no following space, and a commented-out line are not candidates |
| Scenarios.ScanExamples | prune_include.py:143-152 | the concrete scans of three small files |
| Scenarios.EitherSufficesExample | prune_include.py:118-120 | the example build succeeds with either include commented out and fails with both commented out |
| Scenarios.FlakyBuildAborts | prune_include.py:124-128 | a build that succeeds only once aborts the run at the first candidate's restore, naming it; the file is its original text and no artifact is left |
| Scenarios.RemoveSecondExample | prune_include.py:116-122 | removing the lower include commits it and announces its removal |
| Scenarios.KeepFirstExample | prune_include.py:123-125 | with the lower include gone, the upper one is written back at two builds |
| Scenarios.ReversePassExample | prune_include.py:154-158 | the reverse pass tries line 2 and then line 1, removes line 2 and returns true |
| Scenarios.ForwardPassExample | prune_include.py:154-158 | the forward pass tries only line 1, keeps it and returns false |
| Scenarios.TwoPassExample | prune_include.py:205-208 | with two includes that can each go alone but not both, the run removes exactly one, the lower one, which the reverse pass tries first |
| Workspace.Workspace.RemoveArtifact | prune_include.py:87-93 | the artifact is gone and nothing else changes |
| Workspace.Workspace.BuildProject | prune_include.py:82-84 | one more build, whose only visible effect is the artifact |
| Workspace.Workspace.InplaceInsert | prune_include.py:96-103 | the file is rewritten in place with line n replaced, as `Replaced` states |
| Workspace.Workspace.PruneInclude | prune_include.py:106-129 | the outcome and new state are exactly those of one trial |
| Workspace.Workspace.ProcessFile | prune_include.py:132-160 | the scan-and-try loop takes exactly the step of `Pruning.ProcessFile` |
| Workspace.Workspace.Initialize | prune_include.py:163-184 | the baseline gate takes exactly the step of `Pruning.Initialize` |
| Workspace.Workspace.PruneProject | prune_include.py:192-213 | the main flow from the discovered list takes exactly the step of `Pruning.PruneAll` |

## Left out

- Files are modelled as decoded text lines with their line endings
  normalised, as `fileinput` yields them in text mode. The script writes
  every line back with the platform's line ending, so a trial on a file
  with other line endings rewrites all of them. Byte identity of the
  files, decoding errors on reading (an uncaught `UnicodeDecodeError`) and
  comment prefixes or tokens that contain a line break are outside the
  model. `Lines.RollbackExact`, `Pruning.TrialRollback` and `Lines.Replaced`
  promise identity of the text lines, not of the bytes on disk.
- Pruning.PrunedTrans: stated only for `CommentSafe` prefixes. With a
  prefix such as `" "`, a commented directive is a directive again.
- Pruning.ForwardPassRetriesOnlyKeptLines: stated only for `CommentSafe`
  prefixes. With a prefix such as `" "`, a line removed by the reverse pass
  is a candidate again and the forward pass tries it a second time, in the
  script too.
- Argument parsing (`parse_arguments`, prune_include.py:21-72): the
  folder, extension, token, comment prefix, builder and artifact path are
  parameters or the oracle.
- Printed messages other than "Testing line" and "removed": they change
  nothing. Those two are kept as the `log` and `removed` records.
- `subprocess.run`, `unlink` and `is_file`: the builder is the oracle and
  the artifact a boolean. The builder's own effects on source files are
  not modelled.
- `touch` (prune_include.py:175-176): it changes only the files'
  timestamps, which the model does not hold. Its effect, a full rebuild,
  is part of what the oracle decides.
- File discovery with `rglob` (prune_include.py:198) and the
  `FileNotFoundError` handler (prune_include.py:212-213): the file list is
  a parameter, and every listed file must exist in the model's contents.
  The same handler also catches a builder that cannot be started
  (`subprocess.run` at prune_include.py:84); the model's builds always
  return.
- Interrupted trials: builds and rewrites are assumed to return. Nothing
  guards the window between the rewrite at prune_include.py:117 and the
  revert at prune_include.py:124, so an exception there (a builder that
  cannot start, a `KeyboardInterrupt` during the build at
  prune_include.py:118) ends the run with the tried line still commented
  out and no build confirming it. The model does not represent that
  state; every trial it describes ends in a commit, a revert or the
  restore abort.
- The backup file of the in-place rewrite: `fileinput` with
  `inplace=True` (prune_include.py:98) deletes any existing `<file>.bak`,
  renames the file to `<file>.bak` while it writes, and deletes the backup
  when it closes. So every trial on a file destroys a `<file>.bak` that
  was already there. `Pruning.Rewrite` changes only the rewritten file's
  entry. `Pruning.TrialFrame`, `Pruning.PassFrame`,
  `Pruning.ProcessFileShape`, `Pruning.PruneFileShape` and the other
  lemmas that say other files are unchanged hold only when the set of
  files holds no such `<file>.bak`.
- The token as a regular expression: the model treats it as a literal.
  A token holding pattern metacharacters would match differently in the
  script.
- Exit codes: `sys.exit(0)` is `Ok`, and `exit_error` is `Fatal` with the
  reason.
- Pruning.ProcessFileChange: the changed-file direction is stated only
  for a non-empty comment prefix, since an empty prefix rewrites a line
  with itself.
- Pruning.PruneFileShape: the "original text with some directives commented out" shape needs a comment prefix that starts with neither a space nor the token's first character (`CommentSafe`). With other prefixes a commented line can still be a candidate and be commented twice.
- Pruning.RunKeepsFilesPruned: stated only for `CommentSafe` prefixes, for the same reason.
- Pruning.PruneFilesShape: stated only for `CommentSafe` prefixes, for the same reason.
- Idempotence of a second run and any global minimality of the removed
  set: the script does not iterate to a fixed point, and neither holds
  for an arbitrary build oracle.
- Concurrency and timeouts: the script is single-threaded and blocks on
  each build.
