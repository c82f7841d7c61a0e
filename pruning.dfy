/**
 * The prune-and-rollback algorithm of prune_include as a state machine on
 * values.  The project state is the text of every file, whether the build
 * artifact exists, how many builds have run and the trials attempted so far.
 * The build is an oracle: given the number of the build and the current
 * file contents it says whether a run of the builder produces the artifact.
 * The build number lets the oracle be flaky, which keeps the restore abort
 * reachable.  Workspace implements these functions step by step; the
 * lemmas here state what the algorithm promises.
 */
module Pruning {
  import opened Lines

  type Path = string
  type Files = map<Path, seq<Line>>

  /** Whether build number i, run on the given file contents, creates the artifact. */
  type Oracle = (nat, Files) -> bool

  /** One call of the mutation oracle on one line ("Testing line #n"). */
  datatype Attempt = Attempt(file: Path, line: nat)

  /** The project as the script sees it.  log holds the lines announced by
      "Testing line", removed the lines announced as removed. */
  datatype State = State(files: Files, artifact: bool, builds: nat, log: seq<Attempt>, removed: seq<Attempt>)

  /** The conditions on which the run exits abnormally. */
  datatype Failure = NoFiles | BaselineFailed | RestoreFailed(file: Path, line: nat)

  datatype Outcome<T> = Ok(value: T) | Fatal(failure: Failure)

  datatype Step<T> = Step(result: Outcome<T>, after: State)

  // ---------------------------------------------------------------------
  // The external collaborators

  /** Deleting the artifact, where a missing artifact is not an error. */
  function RemoveArtifact(s: State): State {
    s.(artifact := false)
  }

  /** Running the builder.  A failing build leaves an existing artifact in
      place, so each trial deletes the artifact before its first build; the
      restore build runs only after a build that left no artifact. */
  function Build(s: State, oracle: Oracle): State {
    s.(artifact := s.artifact || oracle(s.builds, s.files), builds := s.builds + 1)
  }

  /** `inplace_insert` on the state. */
  function Rewrite(s: State, file: Path, n: nat, text: Line): State
    requires file in s.files
  {
    s.(files := s.files[file := Replaced(s.files[file], n, text)])
  }

  // ---------------------------------------------------------------------
  // The algorithm

  /** `prune_include`: comment out line n, build, keep the change if the
      artifact appears, otherwise write the line back, rebuild and abort if
      the artifact still does not appear.  The artifact is deleted before
      the first build and found missing before the second, so each build's
      verdict is the oracle's. */
  function Trial(s: State, oracle: Oracle, file: Path, n: nat, backup: Line, comment: string): (st: Step<bool>)
    requires file in s.files
    ensures st.after.files.Keys == s.files.Keys
  {
    var mutated := Replaced(s.files[file], n, comment + backup);
    var log := s.log + [Attempt(file, n)];
    if oracle(s.builds, s.files[file := mutated])
    then Step(Ok(true), State(s.files[file := mutated], true, s.builds + 1, log, s.removed + [Attempt(file, n)]))
    else
      var reverted := s.files[file := Replaced(mutated, n, backup)];
      var restored := oracle(s.builds + 1, reverted);
      Step(if restored then Ok(false) else Fatal(RestoreFailed(file, n)), State(reverted, restored, s.builds + 2, log, s.removed))
  }

  /** The candidate loop of `process_file`: try every line number of order
      in turn, accumulating whether any trial removed its line, and stop at
      the first abort. */
  function Pass(s: State, oracle: Oracle, file: Path, order: seq<nat>, backup: map<nat, Line>,
                comment: string, changed: bool): (st: Step<bool>)
    requires file in s.files
    requires forall n :: n in order ==> n in backup
    ensures st.after.files.Keys == s.files.Keys
    decreases |order|
  {
    if order == [] then Step(Ok(changed), s)
    else
      var trial := Trial(s, oracle, file, order[0], backup[order[0]], comment);
      match trial.result
      case Fatal(_) => trial
      case Ok(removed) => Pass(trial.after, oracle, file, order[1..], backup, comment, changed || removed)
  }

  /** The order a pass visits the scanned candidates in. */
  function PassOrder(scan: Scan, reversed: bool): seq<nat> {
    if reversed then Reverse(scan.includeLines) else scan.includeLines
  }

  /** `process_file`: scan the file as it is now, then run one pass. */
  function ProcessFile(s: State, oracle: Oracle, file: Path, reversed: bool, token: string, comment: string): (st: Step<bool>)
    requires file in s.files
    ensures st.after.files.Keys == s.files.Keys
  {
    var scan := ScanLines(s.files[file], token);
    ScanLinesFacts(s.files[file], token);
    ReverseOfIncreasing(scan.includeLines);
    Pass(s, oracle, file, PassOrder(scan, reversed), scan.backupLines, comment, false)
  }

  /** The body of the file loop of `main`: a reverse pass, then a forward
      pass only if the reverse pass removed a line.  The value says whether
      the forward pass ran. */
  function PruneFile(s: State, oracle: Oracle, file: Path, token: string, comment: string): (st: Step<bool>)
    requires file in s.files
    ensures st.after.files.Keys == s.files.Keys
  {
    var first := ProcessFile(s, oracle, file, true, token, comment);
    if first.result != Ok(true) then first
    else
      var second := ProcessFile(first.after, oracle, file, false, token, comment);
      if second.result.Fatal? then second else Step(Ok(true), second.after)
  }

  /** `initialize`: delete the artifact and build once.  Touching the files
      changes only their timestamps, which the model does not hold. */
  function Initialize(s: State, oracle: Oracle): (st: Step<()>)
    ensures st.after.files == s.files && st.after.log == s.log && st.after.removed == s.removed
    ensures st.result.Ok? <==> oracle(s.builds, s.files)
  {
    var built := Build(RemoveArtifact(s), oracle);
    if built.artifact then Step(Ok(()), built) else Step(Fatal(BaselineFailed), built)
  }

  /** The file loop of `main`, stopping at the first abort. */
  function PruneFiles(s: State, oracle: Oracle, fileList: seq<Path>, token: string, comment: string): (st: Step<()>)
    requires forall f :: f in fileList ==> f in s.files
    ensures st.after.files.Keys == s.files.Keys
    decreases |fileList|
  {
    if fileList == [] then Step(Ok(()), s)
    else
      var one := PruneFile(s, oracle, fileList[0], token, comment);
      if one.result.Fatal? then Step(Fatal(one.result.failure), one.after)
      else PruneFiles(one.after, oracle, fileList[1..], token, comment)
  }

  /** `main` after argument parsing and file discovery. */
  function PruneAll(s: State, oracle: Oracle, fileList: seq<Path>, token: string, comment: string): (st: Step<()>)
    requires forall f :: f in fileList ==> f in s.files
    ensures st.after.files.Keys == s.files.Keys
  {
    if fileList == [] then Step(Fatal(NoFiles), s)
    else
      var init := Initialize(s, oracle);
      if init.result.Fatal? then init else PruneFiles(init.after, oracle, fileList, token, comment)
  }

  // ---------------------------------------------------------------------
  // Vocabulary of the properties

  function Attempts(file: Path, order: seq<nat>): seq<Attempt> {
    seq(|order|, i requires 0 <= i < |order| => Attempt(file, order[i]))
  }

  predicate Distinct(order: seq<nat>) {
    forall i, j :: 0 <= i < j < |order| ==> order[i] != order[j]
  }

  /** Every line number still to be tried has a backup equal to its current text. */
  predicate Backed(lines: seq<Line>, order: seq<nat>, backup: map<nat, Line>) {
    forall n :: n in order ==> n in backup && 1 <= n <= |lines| && backup[n] == lines[n - 1]
  }

  /** Line number n of after is that of before, or it is one of order and
      commented out. */
  predicate KeptOrCommented(before: seq<Line>, after: seq<Line>, order: seq<nat>, comment: string, n: nat)
    requires 1 <= n <= |before| == |after|
  {
    after[n - 1] == before[n - 1] || (n in order && after[n - 1] == comment + before[n - 1])
  }

  /** after is before with some of the lines numbered in order commented out. */
  predicate CommentedAt(before: seq<Line>, after: seq<Line>, order: seq<nat>, comment: string) {
    |after| == |before| &&
    forall n: nat :: 1 <= n <= |before| ==> KeptOrCommented(before, after, order, comment, n)
  }

  /** after is before with some of its directive lines commented out: the
      state every file is in whenever no trial is in flight. */
  predicate Pruned(before: seq<Line>, after: seq<Line>, token: string, comment: string) {
    |after| == |before| &&
    forall i :: 0 <= i < |before| ==> PrunedAt(before, after, token, comment, i)
  }

  /** Line i of after is that of before, or before's line is a directive and
      after holds it commented out. */
  predicate PrunedAt(before: seq<Line>, after: seq<Line>, token: string, comment: string, i: nat)
    requires i < |before| == |after|
  {
    after[i] == before[i] || (IsDirective(before[i], token) && after[i] == comment + before[i])
  }

  /** The run stopped at a failed restore, and the line that failed is the
      last attempt logged after the attempts of before. */
  predicate AbortLogged(before: seq<Attempt>, after: seq<Attempt>, failure: Failure) {
    failure.RestoreFailed? && |after| > |before| && after[|after| - 1] == Attempt(failure.file, failure.line)
  }

  /** after is before followed by removals of lines of file numbered in order. */
  predicate RemovedFrom(before: seq<Attempt>, after: seq<Attempt>, file: Path, order: seq<nat>) {
    |before| <= |after| && after[..|before|] == before &&
    forall i :: |before| <= i < |after| ==> after[i].file == file && after[i].line in order
  }

  /** A comment prefix that turns a directive into a non-directive. */
  predicate CommentSafe(comment: string, token: string) {
    |comment| > 0 && !IsSpace(comment[0]) && (|token| == 0 || token[0] != comment[0])
  }

  /** A build whose result depends on the file contents only. */
  ghost predicate ContentDetermined(oracle: Oracle) {
    forall i: nat, c: Files :: oracle(i, c) == oracle(0, c)
  }

  // ---------------------------------------------------------------------
  // The mutation oracle

  /** What one trial does: the attempt is logged; the outcome is the verdict
      of the build of the commented file; a removal keeps the commented line
      and costs one build; a revert writes the backup back and costs two;
      the trial is an abort exactly when the rebuild fails too; the artifact
      exists afterwards exactly when the trial did not abort; and the line is
      reported removed exactly when it was kept commented out. */
  lemma TrialOutcome(s: State, oracle: Oracle, file: Path, n: nat, backup: Line, comment: string)
    requires file in s.files
    ensures var st := Trial(s, oracle, file, n, backup, comment);
            var lines := s.files[file];
            var mutated := s.files[file := Replaced(lines, n, comment + backup)];
            var reverted := s.files[file := Replaced(Replaced(lines, n, comment + backup), n, backup)];
            st.after.log == s.log + [Attempt(file, n)] &&
            (st.result == Ok(true) <==> oracle(s.builds, mutated)) &&
            (st.result == Ok(true) ==> st.after.files == mutated && st.after.builds == s.builds + 1) &&
            (st.result != Ok(true) ==> st.after.files == reverted && st.after.builds == s.builds + 2) &&
            (st.result == Ok(false) <==> !oracle(s.builds, mutated) && oracle(s.builds + 1, reverted)) &&
            (st.result.Fatal? ==> st.result.failure == RestoreFailed(file, n)) &&
            (st.result.Ok? <==> st.after.artifact) &&
            (st.result == Ok(true) ==> st.after.removed == s.removed + [Attempt(file, n)]) &&
            (st.result != Ok(true) ==> st.after.removed == s.removed)
  {
  }

  /** The files after a trial that keeps its line, spelled out for the
      rollback proof below. */
  lemma TrialReverts(s: State, oracle: Oracle, file: Path, n: nat, backup: Line, comment: string)
    requires file in s.files
    ensures var st := Trial(s, oracle, file, n, backup, comment);
            st.result != Ok(true) ==>
              st.after.files == s.files[file := Replaced(Replaced(s.files[file], n, comment + backup), n, backup)]
  {
  }

  /** Writing a file's own contents back leaves the map as it was; kept
      apart because the rollback proof is costly with the map equality in it. */
  lemma MapUpdateSame(m: Files, k: Path)
    requires k in m
    ensures m[k := m[k]] == m
  {
  }

  /** Rollback exactness: when the backup is the line's current text, a
      trial that does not remove the line leaves every file exactly as it
      was. */
  lemma TrialRollback(s: State, oracle: Oracle, file: Path, n: nat, backup: Line, comment: string)
    requires file in s.files && 1 <= n <= |s.files[file]| && s.files[file][n - 1] == backup
    ensures Trial(s, oracle, file, n, backup, comment).result != Ok(true) ==>
              Trial(s, oracle, file, n, backup, comment).after.files == s.files
  {
    var lines := s.files[file];
    var st := Trial(s, oracle, file, n, backup, comment);
    TrialReverts(s, oracle, file, n, backup, comment);
    RollbackExact(lines, n, comment + backup);
    MapUpdateSame(s.files, file);
  }

  /** Commit: a trial that removes the line leaves it reading comment +
      backup, and every other line and file as it was. */
  lemma TrialCommit(s: State, oracle: Oracle, file: Path, n: nat, backup: Line, comment: string)
    requires file in s.files && 1 <= n <= |s.files[file]|
    ensures var st := Trial(s, oracle, file, n, backup, comment);
            st.result == Ok(true) ==>
              st.after.artifact && st.after.files.Keys == s.files.Keys &&
              (forall f :: f in s.files && f != file ==> st.after.files[f] == s.files[f]) &&
              |st.after.files[file]| == |s.files[file]| &&
              st.after.files[file][n - 1] == comment + backup &&
              forall i :: 0 <= i < |s.files[file]| && i != n - 1 ==> st.after.files[file][i] == s.files[file][i]
  {
  }

  // ---------------------------------------------------------------------
  // One pass

  /** One step of a pass: the first trial, then the rest of the pass. */
  lemma PassUnfold(s: State, oracle: Oracle, file: Path, order: seq<nat>, backup: map<nat, Line>,
                   comment: string, changed: bool)
    requires file in s.files && order != [] && (forall n :: n in order ==> n in backup)
    ensures var trial := Trial(s, oracle, file, order[0], backup[order[0]], comment);
            Pass(s, oracle, file, order, backup, comment, changed) ==
              if trial.result.Fatal? then trial
              else Pass(trial.after, oracle, file, order[1..], backup, comment, changed || trial.result.value)
  {
  }

  /** The rest of a list without repeats does not hold its head. */
  lemma DistinctTail(order: seq<nat>)
    requires order != [] && Distinct(order)
    ensures Distinct(order[1..]) && order[0] !in order[1..]
  {
    forall j | 0 <= j < |order| - 1 ensures order[1..][j] != order[0] {
      assert order[1..][j] == order[j + 1];
    }
  }

  /** After the first trial of a pass, the remaining line numbers are still
      backed by their current text. */
  lemma TrialKeepsBacked(s: State, oracle: Oracle, file: Path, order: seq<nat>, backup: map<nat, Line>, comment: string)
    requires file in s.files && order != [] && Backed(s.files[file], order, backup) && Distinct(order)
    ensures var trial := Trial(s, oracle, file, order[0], backup[order[0]], comment);
            file in trial.after.files && Backed(trial.after.files[file], order[1..], backup) && Distinct(order[1..])
  {
    var n := order[0];
    var lines := s.files[file];
    var trial := Trial(s, oracle, file, n, backup[n], comment);
    DistinctTail(order);
    TrialRollback(s, oracle, file, n, backup[n], comment);
    TrialCommit(s, oracle, file, n, backup[n], comment);
    forall m | m in order[1..]
      ensures m in backup && 1 <= m <= |trial.after.files[file]| && backup[m] == trial.after.files[file][m - 1]
    {
      assert m in order && m != n;
    }
  }

  /** A trial changes at most its own line of its own file, and only by
      commenting it out. */
  lemma TrialFrame(s: State, oracle: Oracle, file: Path, n: nat, backup: Line, comment: string)
    requires file in s.files && 1 <= n <= |s.files[file]| && s.files[file][n - 1] == backup
    ensures var t := Trial(s, oracle, file, n, backup, comment).after;
            (forall f :: f in s.files && f != file ==> t.files[f] == s.files[f]) &&
            CommentedAt(s.files[file], t.files[file], [n], comment)
  {
    var st := Trial(s, oracle, file, n, backup, comment);
    TrialRollback(s, oracle, file, n, backup, comment);
    TrialCommit(s, oracle, file, n, backup, comment);
    forall m: nat | 1 <= m <= |s.files[file]|
      ensures KeptOrCommented(s.files[file], st.after.files[file], [n], comment, m)
    {
    }
  }

  /** Commenting out line order[0], then some of the rest, comments out some of order. */
  lemma CommentedAtCompose(a: seq<Line>, b: seq<Line>, c: seq<Line>, order: seq<nat>, comment: string)
    requires order != [] && order[0] !in order[1..]
    requires CommentedAt(a, b, [order[0]], comment) && CommentedAt(b, c, order[1..], comment)
    ensures CommentedAt(a, c, order, comment)
  {
    forall m: nat | 1 <= m <= |a| ensures KeptOrCommented(a, c, order, comment, m) {
      assert KeptOrCommented(a, b, [order[0]], comment, m);
      assert KeptOrCommented(b, c, order[1..], comment, m);
      if m in order[1..] {
        var j :| 0 <= j < |order| - 1 && order[1..][j] == m;
        assert order[j + 1] == m;
      }
    }
  }

  lemma {:induction false} PassFrame(s: State, oracle: Oracle, file: Path, order: seq<nat>, backup: map<nat, Line>,
                                      comment: string, changed: bool)
    requires file in s.files && Backed(s.files[file], order, backup) && Distinct(order)
    ensures var t := Pass(s, oracle, file, order, backup, comment, changed).after;
            (forall f :: f in s.files && f != file ==> t.files[f] == s.files[f]) &&
            CommentedAt(s.files[file], t.files[file], order, comment)
    decreases |order|
  {
    if order == [] {
      var lines := s.files[file];
      assert forall m: nat :: 1 <= m <= |lines| ==> KeptOrCommented(lines, lines, order, comment, m);
    } else {
      var n := order[0];
      var trial := Trial(s, oracle, file, n, backup[n], comment);
      TrialFrame(s, oracle, file, n, backup[n], comment);
      PassUnfold(s, oracle, file, order, backup, comment, changed);
      if trial.result.Ok? {
        var mid := trial.after;
        var ch := changed || trial.result.value;
        DistinctTail(order);
        TrialKeepsBacked(s, oracle, file, order, backup, comment);
        PassFrame(mid, oracle, file, order[1..], backup, comment, ch);
        var t := Pass(mid, oracle, file, order[1..], backup, comment, ch).after;
        CommentedAtCompose(s.files[file], mid.files[file], t.files[file], order, comment);
      } else {
        var lines := s.files[file];
        var t := trial.after.files[file];
        forall m: nat | 1 <= m <= |lines| ensures KeptOrCommented(lines, t, order, comment, m) {
          assert KeptOrCommented(lines, t, [n], comment, m);
        }
      }
    }
  }

  lemma AttemptsCons(file: Path, order: seq<nat>)
    requires order != []
    ensures Attempts(file, order) == [Attempt(file, order[0])] + Attempts(file, order[1..])
  {
  }

  lemma LogStep(log0: seq<Attempt>, mid: seq<Attempt>, log: seq<Attempt>, file: Path, order: seq<nat>)
    requires order != [] && mid == log0 + [Attempt(file, order[0])] && log == mid + Attempts(file, order[1..])
    ensures log == log0 + Attempts(file, order)
  {
    AttemptsCons(file, order);
  }

  lemma AttemptsSplit(file: Path, order: seq<nat>, k: nat)
    requires k < |order|
    ensures Attempts(file, order) == [Attempt(file, order[0])] + Attempts(file, order[1..])
    ensures Attempts(file, order[..k + 1]) == [Attempt(file, order[0])] + Attempts(file, order[1..][..k])
  {
    assert order[..k + 1][1..] == order[1..][..k];
  }

  /** A pass that does not abort logs every trial, in order. */
  lemma {:induction false} PassLog(s: State, oracle: Oracle, file: Path, order: seq<nat>, backup: map<nat, Line>,
                                    comment: string, changed: bool)
    requires file in s.files && (forall n :: n in order ==> n in backup)
    ensures var st := Pass(s, oracle, file, order, backup, comment, changed);
            st.result.Ok? ==> st.after.log == s.log + Attempts(file, order)
    decreases |order|
  {
    if order != [] {
      var trial := Trial(s, oracle, file, order[0], backup[order[0]], comment);
      PassUnfold(s, oracle, file, order, backup, comment, changed);
      TrialOutcome(s, oracle, file, order[0], backup[order[0]], comment);
      if trial.result.Ok? {
        var ch := changed || trial.result.value;
        PassLog(trial.after, oracle, file, order[1..], backup, comment, ch);
        var st := Pass(trial.after, oracle, file, order[1..], backup, comment, ch);
        if st.result.Ok? {
          LogStep(s.log, trial.after.log, st.after.log, file, order);
        }
      }
    }
  }

  /** The pass stopped at its k-th line: the lines up to it were tried, in
      order, and the restore of that line failed. */
  predicate AbortedAt(log0: seq<Attempt>, log: seq<Attempt>, file: Path, order: seq<nat>, failure: Failure, k: nat) {
    k < |order| && log == log0 + Attempts(file, order[..k + 1]) && failure == RestoreFailed(file, order[k])
  }

  /** The first line tried before a pass that stops at line k of the rest
      makes the whole pass stop at line k + 1. */
  lemma AbortedAtStep(log0: seq<Attempt>, log: seq<Attempt>, file: Path, order: seq<nat>, failure: Failure, k: nat)
    requires order != [] && AbortedAt(log0 + [Attempt(file, order[0])], log, file, order[1..], failure, k)
    ensures AbortedAt(log0, log, file, order, failure, k + 1)
  {
    AttemptsSplit(file, order, k + 1);
    assert order[k + 1] == order[1..][k];
  }

  /** A pass that aborts does so at some trial k: the trials up to k are
      logged in order, the restore of line order[k] failed, and no further
      line is tried. */
  lemma {:induction false} PassAbort(s: State, oracle: Oracle, file: Path, order: seq<nat>, backup: map<nat, Line>,
                                      comment: string, changed: bool)
    requires file in s.files && (forall n :: n in order ==> n in backup)
    ensures var st := Pass(s, oracle, file, order, backup, comment, changed);
            st.result.Fatal? ==> exists k :: AbortedAt(s.log, st.after.log, file, order, st.result.failure, k)
    decreases |order|
  {
    if order != [] {
      var trial := Trial(s, oracle, file, order[0], backup[order[0]], comment);
      PassUnfold(s, oracle, file, order, backup, comment, changed);
      TrialOutcome(s, oracle, file, order[0], backup[order[0]], comment);
      if trial.result.Ok? {
        var ch := changed || trial.result.value;
        PassAbort(trial.after, oracle, file, order[1..], backup, comment, ch);
        var st := Pass(trial.after, oracle, file, order[1..], backup, comment, ch);
        if st.result.Fatal? {
          var k :| AbortedAt(trial.after.log, st.after.log, file, order[1..], st.result.failure, k);
          AbortedAtStep(s.log, st.after.log, file, order, st.result.failure, k);
        }
      } else {
        AttemptsSplit(file, order, 0);
        assert order[..1][1..] == [];
        assert AbortedAt(s.log, trial.after.log, file, order, trial.result.failure, 0);
      }
    }
  }

  lemma RemovedFromStep(a: seq<Attempt>, b: seq<Attempt>, c: seq<Attempt>, file: Path, order: seq<nat>)
    requires order != []
    requires b == a || b == a + [Attempt(file, order[0])]
    requires RemovedFrom(b, c, file, order[1..])
    ensures RemovedFrom(a, c, file, order)
  {
    assert c[..|a|] == c[..|b|][..|a|];
    forall i | |a| <= i < |c| ensures c[i].file == file && c[i].line in order {
      if i < |b| {
        assert c[i] == b[i];
      } else {
        assert c[i].line in order[1..];
      }
    }
  }

  /** The removals a pass reports are lines of its file and order, and it
      returns true exactly when one was reported (or one had been before). */
  lemma {:induction false} PassRemovals(s: State, oracle: Oracle, file: Path, order: seq<nat>, backup: map<nat, Line>,
                                         comment: string, changed: bool)
    requires file in s.files && (forall n :: n in order ==> n in backup)
    ensures var st := Pass(s, oracle, file, order, backup, comment, changed);
            RemovedFrom(s.removed, st.after.removed, file, order) &&
            (st.result.Ok? ==> (st.result.value <==> changed || |st.after.removed| > |s.removed|))
    decreases |order|
  {
    if order == [] {
      assert s.removed[..|s.removed|] == s.removed;
    } else {
      var trial := Trial(s, oracle, file, order[0], backup[order[0]], comment);
      PassUnfold(s, oracle, file, order, backup, comment, changed);
      TrialOutcome(s, oracle, file, order[0], backup[order[0]], comment);
      if trial.result.Ok? {
        var ch := changed || trial.result.value;
        PassRemovals(trial.after, oracle, file, order[1..], backup, comment, ch);
        var st := Pass(trial.after, oracle, file, order[1..], backup, comment, ch);
        RemovedFromStep(s.removed, trial.after.removed, st.after.removed, file, order);
      } else {
        assert trial.after.removed[..|s.removed|] == s.removed;
      }
    }
  }

  /** Once a pass has removed a line it reports a change (or aborts). */
  lemma {:induction false} PassKeepsChanged(s: State, oracle: Oracle, file: Path, order: seq<nat>, backup: map<nat, Line>,
                                             comment: string)
    requires file in s.files && (forall n :: n in order ==> n in backup)
    ensures Pass(s, oracle, file, order, backup, comment, true).result != Ok(false)
    decreases |order|
  {
    if order != [] {
      var trial := Trial(s, oracle, file, order[0], backup[order[0]], comment);
      if trial.result.Ok? {
        PassKeepsChanged(trial.after, oracle, file, order[1..], backup, comment);
      }
    }
  }

  /** A pass that removed nothing left every file as it was, and ran the
      builder twice per candidate (test and restore). */
  lemma {:induction false} PassUnchanged(s: State, oracle: Oracle, file: Path, order: seq<nat>, backup: map<nat, Line>,
                                          comment: string, changed: bool)
    requires file in s.files && Backed(s.files[file], order, backup)
    ensures var st := Pass(s, oracle, file, order, backup, comment, changed);
            st.result == Ok(false) ==> st.after.files == s.files && st.after.builds == s.builds + 2 * |order|
    decreases |order|
  {
    if order != [] {
      var n := order[0];
      var trial := Trial(s, oracle, file, n, backup[n], comment);
      TrialRollback(s, oracle, file, n, backup[n], comment);
      if trial.result == Ok(true) {
        PassKeepsChanged(trial.after, oracle, file, order[1..], backup, comment);
      } else if trial.result == Ok(false) {
        PassUnchanged(trial.after, oracle, file, order[1..], backup, comment, changed);
      }
    }
  }

  /** A line changed first and left alone after keeps the file changed. */
  lemma ChangedLineStays(a: seq<Line>, b: seq<Line>, c: seq<Line>, n: nat, rest: seq<nat>, comment: string)
    requires 1 <= n <= |a| == |b| && b[n - 1] == comment + a[n - 1] && |comment| > 0
    requires n !in rest && CommentedAt(b, c, rest, comment)
    ensures c != a
  {
    assert KeptOrCommented(b, c, rest, comment, n);
    assert |c[n - 1]| != |a[n - 1]|;
  }

  /** A pass that reports a removal really changed the file, provided the
      comment prefix is not empty. */
  lemma {:induction false} PassReportsChange(s: State, oracle: Oracle, file: Path, order: seq<nat>, backup: map<nat, Line>,
                                              comment: string)
    requires file in s.files && Backed(s.files[file], order, backup) && Distinct(order) && |comment| > 0
    ensures var st := Pass(s, oracle, file, order, backup, comment, false);
            st.result == Ok(true) ==> st.after.files[file] != s.files[file]
    decreases |order|
  {
    if order != [] {
      var n := order[0];
      var trial := Trial(s, oracle, file, n, backup[n], comment);
      PassUnfold(s, oracle, file, order, backup, comment, false);
      TrialRollback(s, oracle, file, n, backup[n], comment);
      TrialCommit(s, oracle, file, n, backup[n], comment);
      TrialKeepsBacked(s, oracle, file, order, backup, comment);
      DistinctTail(order);
      if trial.result == Ok(true) {
        var mid := trial.after;
        PassFrame(mid, oracle, file, order[1..], backup, comment, true);
        var t := Pass(mid, oracle, file, order[1..], backup, comment, true).after;
        ChangedLineStays(s.files[file], mid.files[file], t.files[file], n, order[1..], comment);
      } else if trial.result == Ok(false) {
        PassReportsChange(trial.after, oracle, file, order[1..], backup, comment);
      }
    }
  }

  /** Starting from a built artifact, a pass ends with the artifact present
      exactly when it did not abort. */
  lemma {:induction false} PassArtifact(s: State, oracle: Oracle, file: Path, order: seq<nat>, backup: map<nat, Line>,
                                         comment: string, changed: bool)
    requires file in s.files && (forall n :: n in order ==> n in backup) && s.artifact
    ensures var st := Pass(s, oracle, file, order, backup, comment, changed);
            st.result.Ok? <==> st.after.artifact
    decreases |order|
  {
    if order != [] {
      var trial := Trial(s, oracle, file, order[0], backup[order[0]], comment);
      if trial.result.Ok? {
        PassArtifact(trial.after, oracle, file, order[1..], backup, comment, changed || trial.result.value);
      }
    }
  }

  /** With a build that depends on the contents only, a trial from
      buildable contents never fails to restore, and ends buildable. */
  lemma TrialBuildable(s: State, oracle: Oracle, file: Path, n: nat, backup: Line, comment: string)
    requires ContentDetermined(oracle) && oracle(0, s.files)
    requires file in s.files && 1 <= n <= |s.files[file]| && s.files[file][n - 1] == backup
    ensures var st := Trial(s, oracle, file, n, backup, comment);
            st.result.Ok? && oracle(0, st.after.files)
  {
    var st := Trial(s, oracle, file, n, backup, comment);
    TrialRollback(s, oracle, file, n, backup, comment);
    assert oracle(s.builds + 1, s.files) == oracle(0, s.files);
    assert oracle(s.builds, st.after.files) == oracle(0, st.after.files);
  }

  /** With a build that depends on the contents only, a pass that starts
      from buildable contents never fails to restore, and ends buildable. */
  lemma {:induction false} PassNeverFailsRestore(s: State, oracle: Oracle, file: Path, order: seq<nat>,
                                                  backup: map<nat, Line>, comment: string, changed: bool)
    requires ContentDetermined(oracle) && oracle(0, s.files)
    requires file in s.files && Backed(s.files[file], order, backup) && Distinct(order)
    ensures var st := Pass(s, oracle, file, order, backup, comment, changed);
            st.result.Ok? && oracle(0, st.after.files)
    decreases |order|
  {
    if order != [] {
      var n := order[0];
      var trial := Trial(s, oracle, file, n, backup[n], comment);
      PassUnfold(s, oracle, file, order, backup, comment, changed);
      TrialBuildable(s, oracle, file, n, backup[n], comment);
      TrialKeepsBacked(s, oracle, file, order, backup, comment);
      PassNeverFailsRestore(trial.after, oracle, file, order[1..], backup, comment, changed || trial.result.value);
    }
  }

  // ---------------------------------------------------------------------
  // One scan and pass of a file

  /** The scanned candidates, in either order, are distinct, each backed by
      its current text, and visited bottom-up in the reverse pass and
      top-down in the forward pass. */
  lemma ScanOrderFacts(lines: seq<Line>, token: string, reversed: bool)
    ensures var scan := ScanLines(lines, token);
            var order := PassOrder(scan, reversed);
            Backed(lines, order, scan.backupLines) && Distinct(order) &&
            (reversed ==> Decreasing(order)) && (!reversed ==> Increasing(order)) &&
            (forall n :: n in order <==> 1 <= n <= |lines| && IsDirective(lines[n - 1], token))
  {
    ScanLinesFacts(lines, token);
    ReverseOfIncreasing(ScanLines(lines, token).includeLines);
  }

  /** `process_file` is one pass over the candidates it scanned. */
  lemma ProcessFileIsPass(s: State, oracle: Oracle, file: Path, reversed: bool, token: string, comment: string)
    requires file in s.files
    ensures var scan := ScanLines(s.files[file], token);
            var order := PassOrder(scan, reversed);
            Backed(s.files[file], order, scan.backupLines) && Distinct(order) &&
            (forall n :: n in order ==> 1 <= n <= |s.files[file]| && IsDirective(s.files[file][n - 1], token)) &&
            ProcessFile(s, oracle, file, reversed, token, comment) ==
              Pass(s, oracle, file, order, scan.backupLines, comment, false)
  {
    ScanOrderFacts(s.files[file], token, reversed);
  }

  /** Commenting out some directive lines is a pruning. */
  lemma CommentedDirectivesArePruned(lines: seq<Line>, after: seq<Line>, order: seq<nat>, token: string, comment: string)
    requires CommentedAt(lines, after, order, comment)
    requires forall n :: n in order ==> 1 <= n <= |lines| && IsDirective(lines[n - 1], token)
    ensures Pruned(lines, after, token, comment)
  {
    forall i | 0 <= i < |lines| ensures PrunedAt(lines, after, token, comment, i) {
      assert KeptOrCommented(lines, after, order, comment, i + 1);
    }
  }

  /** A pass that stopped at its k-th line logged that line last. */
  lemma AbortedAtLogged(log0: seq<Attempt>, log: seq<Attempt>, file: Path, order: seq<nat>, failure: Failure, k: nat)
    requires AbortedAt(log0, log, file, order, failure, k)
    ensures AbortLogged(log0, log, failure) && failure.file == file
  {
    assert |Attempts(file, order[..k + 1])| == k + 1;
  }

  /** `process_file` that does not abort tries every candidate once, in
      the pass's order. */
  lemma ProcessFileLog(s: State, oracle: Oracle, file: Path, reversed: bool, token: string, comment: string)
    requires file in s.files
    ensures var st := ProcessFile(s, oracle, file, reversed, token, comment);
            st.result.Ok? ==> st.after.log == s.log + Attempts(file, PassOrder(ScanLines(s.files[file], token), reversed))
  {
    var scan := ScanLines(s.files[file], token);
    ProcessFileIsPass(s, oracle, file, reversed, token, comment);
    PassLog(s, oracle, file, PassOrder(scan, reversed), scan.backupLines, comment, false);
  }

  /** An abort of `process_file` is a failed restore of its own file at the
      last line it tried. */
  lemma ProcessFileAbort(s: State, oracle: Oracle, file: Path, reversed: bool, token: string, comment: string)
    requires file in s.files
    ensures var st := ProcessFile(s, oracle, file, reversed, token, comment);
            st.result.Fatal? ==> AbortLogged(s.log, st.after.log, st.result.failure) && st.result.failure.file == file
  {
    var scan := ScanLines(s.files[file], token);
    var order := PassOrder(scan, reversed);
    ProcessFileIsPass(s, oracle, file, reversed, token, comment);
    PassAbort(s, oracle, file, order, scan.backupLines, comment, false);
    var st := Pass(s, oracle, file, order, scan.backupLines, comment, false);
    if st.result.Fatal? {
      var k :| AbortedAt(s.log, st.after.log, file, order, st.result.failure, k);
      AbortedAtLogged(s.log, st.after.log, file, order, st.result.failure, k);
    }
  }

  /** `process_file` returns true exactly when at least one of its trials
      removed its line; every removal it reports is one of its candidates. */
  lemma ProcessFileRemovals(s: State, oracle: Oracle, file: Path, reversed: bool, token: string, comment: string)
    requires file in s.files
    ensures var st := ProcessFile(s, oracle, file, reversed, token, comment);
            RemovedFrom(s.removed, st.after.removed, file, ScanLines(s.files[file], token).includeLines) &&
            (st.result.Ok? ==> (st.result.value <==> |st.after.removed| > |s.removed|))
  {
    var scan := ScanLines(s.files[file], token);
    var order := PassOrder(scan, reversed);
    ProcessFileIsPass(s, oracle, file, reversed, token, comment);
    PassRemovals(s, oracle, file, order, scan.backupLines, comment, false);
    ScanLinesFacts(s.files[file], token);
    ReverseOfIncreasing(scan.includeLines);
  }

  /** `process_file` touches nothing but directive lines of its own file,
      and those only by commenting them out. */
  lemma ProcessFileShape(s: State, oracle: Oracle, file: Path, reversed: bool, token: string, comment: string)
    requires file in s.files
    ensures var st := ProcessFile(s, oracle, file, reversed, token, comment);
            (forall f :: f in s.files && f != file ==> st.after.files[f] == s.files[f]) &&
            Pruned(s.files[file], st.after.files[file], token, comment)
  {
    var scan := ScanLines(s.files[file], token);
    var order := PassOrder(scan, reversed);
    ProcessFileIsPass(s, oracle, file, reversed, token, comment);
    PassFrame(s, oracle, file, order, scan.backupLines, comment, false);
    var st := Pass(s, oracle, file, order, scan.backupLines, comment, false);
    CommentedDirectivesArePruned(s.files[file], st.after.files[file], order, token, comment);
  }

  /** `process_file` returns true exactly when its file changed (for a
      non-empty comment prefix); when it returns false nothing changed and
      the builder ran twice per candidate. */
  lemma ProcessFileChange(s: State, oracle: Oracle, file: Path, reversed: bool, token: string, comment: string)
    requires file in s.files
    ensures var st := ProcessFile(s, oracle, file, reversed, token, comment);
            var candidates := ScanLines(s.files[file], token).includeLines;
            (st.result == Ok(false) ==> st.after.files == s.files && st.after.builds == s.builds + 2 * |candidates|) &&
            (st.result == Ok(true) && |comment| > 0 ==> st.after.files[file] != s.files[file])
  {
    var scan := ScanLines(s.files[file], token);
    var order := PassOrder(scan, reversed);
    ProcessFileIsPass(s, oracle, file, reversed, token, comment);
    PassUnchanged(s, oracle, file, order, scan.backupLines, comment, false);
    if |comment| > 0 {
      PassReportsChange(s, oracle, file, order, scan.backupLines, comment);
    }
  }

  /** Starting from a built artifact, `process_file` ends with the artifact
      present unless it aborts. */
  lemma ProcessFileArtifact(s: State, oracle: Oracle, file: Path, reversed: bool, token: string, comment: string)
    requires file in s.files && s.artifact
    ensures var st := ProcessFile(s, oracle, file, reversed, token, comment);
            st.result.Ok? ==> st.after.artifact
  {
    var scan := ScanLines(s.files[file], token);
    ProcessFileIsPass(s, oracle, file, reversed, token, comment);
    PassArtifact(s, oracle, file, PassOrder(scan, reversed), scan.backupLines, comment, false);
  }

  /** With a content-determined build and buildable contents, `process_file`
      never aborts and leaves the contents buildable. */
  lemma ProcessFileNeverFailsRestore(s: State, oracle: Oracle, file: Path, reversed: bool, token: string, comment: string)
    requires file in s.files && ContentDetermined(oracle) && oracle(0, s.files)
    ensures var st := ProcessFile(s, oracle, file, reversed, token, comment);
            st.result.Ok? && oracle(0, st.after.files)
  {
    var scan := ScanLines(s.files[file], token);
    ProcessFileIsPass(s, oracle, file, reversed, token, comment);
    PassNeverFailsRestore(s, oracle, file, PassOrder(scan, reversed), scan.backupLines, comment, false);
  }

  // ---------------------------------------------------------------------
  // The two-pass schedule of one file

  /** Two successive prunings of one file compose to one pruning, because a
      commented line is not a directive. */
  lemma PrunedTrans(a: seq<Line>, b: seq<Line>, c: seq<Line>, token: string, comment: string)
    requires CommentSafe(comment, token)
    requires Pruned(a, b, token, comment) && Pruned(b, c, token, comment)
    ensures Pruned(a, c, token, comment)
  {
    forall i | 0 <= i < |a| ensures PrunedAt(a, c, token, comment, i) {
      assert PrunedAt(a, b, token, comment, i) && PrunedAt(b, c, token, comment, i);
      if c[i] != b[i] && b[i] != a[i] {
        CommentedIsNoDirective(a[i], token, comment);
      }
    }
  }

  /** One file handled by `main`: the reverse pass, then the forward pass
      only when the reverse pass reported a removal. */
  lemma PruneFileUnfold(s: State, oracle: Oracle, file: Path, token: string, comment: string)
    requires file in s.files
    ensures var first := ProcessFile(s, oracle, file, true, token, comment);
            var st := PruneFile(s, oracle, file, token, comment);
            (first.result != Ok(true) ==> st == first) &&
            (first.result == Ok(true) ==>
               var second := ProcessFile(first.after, oracle, file, false, token, comment);
               st.after == second.after && st.result.Fatal? == second.result.Fatal? &&
               (second.result.Fatal? ==> st.result == second.result))
  {
  }

  /** The schedule of `main` for one file: when the reverse pass removed
      nothing the forward pass does not run, every candidate was tried
      exactly once, bottom-up, and the file is unchanged; when the reverse
      pass removed something, the forward pass tries, top-down, the
      candidates of the file as the reverse pass left it. */
  lemma TwoPassSchedule(s: State, oracle: Oracle, file: Path, token: string, comment: string)
    requires file in s.files
    ensures var lines := s.files[file];
            var candidates := ScanLines(lines, token).includeLines;
            var first := ProcessFile(s, oracle, file, true, token, comment);
            var st := PruneFile(s, oracle, file, token, comment);
            (first.result == Ok(false) ==>
               st == first && st.after.files == s.files &&
               st.after.log == s.log + Attempts(file, Reverse(candidates)) &&
               st.after.builds == s.builds + 2 * |candidates|) &&
            (first.result == Ok(true) && st.result.Ok? ==>
               st.after.log == s.log + Attempts(file, Reverse(candidates))
                                     + Attempts(file, ScanLines(first.after.files[file], token).includeLines))
  {
    PruneFileUnfold(s, oracle, file, token, comment);
    ProcessFileLog(s, oracle, file, true, token, comment);
    ProcessFileChange(s, oracle, file, true, token, comment);
    var first := ProcessFile(s, oracle, file, true, token, comment);
    if first.result == Ok(true) {
      ProcessFileLog(first.after, oracle, file, false, token, comment);
    }
  }

  /** A file pruned by both passes preserves the candidates of the file the
      reverse pass left: each is a line the reverse pass kept. */
  lemma ForwardPassRetriesOnlyKeptLines(lines: seq<Line>, mid: seq<Line>, token: string, comment: string)
    requires CommentSafe(comment, token) && Pruned(lines, mid, token, comment)
    ensures forall i :: 0 <= i < |mid| && IsDirective(mid[i], token) ==> mid[i] == lines[i]
  {
    forall i | 0 <= i < |mid| && IsDirective(mid[i], token) ensures mid[i] == lines[i] {
      assert PrunedAt(lines, mid, token, comment, i);
      if mid[i] != lines[i] {
        CommentedIsNoDirective(lines[i], token, comment);
      }
    }
  }

  /** Commit monotonicity and the file-state invariant: a line the reverse
      pass commented out is never a candidate of the forward pass; after
      both passes the file is its original with some directive lines
      commented out, and no other file changed. */
  lemma PruneFileShape(s: State, oracle: Oracle, file: Path, token: string, comment: string)
    requires file in s.files && CommentSafe(comment, token)
    ensures var lines := s.files[file];
            var mid := ProcessFile(s, oracle, file, true, token, comment).after.files[file];
            var st := PruneFile(s, oracle, file, token, comment);
            Pruned(lines, mid, token, comment) &&
            (forall i :: 0 <= i < |mid| && IsDirective(mid[i], token) ==> mid[i] == lines[i]) &&
            (forall f :: f in s.files && f != file ==> st.after.files[f] == s.files[f]) &&
            Pruned(lines, st.after.files[file], token, comment)
  {
    var lines := s.files[file];
    var first := ProcessFile(s, oracle, file, true, token, comment);
    PruneFileUnfold(s, oracle, file, token, comment);
    ProcessFileShape(s, oracle, file, true, token, comment);
    ForwardPassRetriesOnlyKeptLines(lines, first.after.files[file], token, comment);
    if first.result == Ok(true) {
      ProcessFileShape(first.after, oracle, file, false, token, comment);
      var second := ProcessFile(first.after, oracle, file, false, token, comment);
      PrunedTrans(lines, first.after.files[file], second.after.files[file], token, comment);
    }
  }

  /** Trials are only ever appended to the log. */
  lemma AbortLoggedExtends(a: seq<Attempt>, b: seq<Attempt>, c: seq<Attempt>, failure: Failure)
    requires |a| <= |b| && AbortLogged(b, c, failure)
    ensures AbortLogged(a, c, failure)
  {
  }

  /** An abort while `main` handles one file is a failed restore of that
      file, logged as the last attempt. */
  lemma PruneFileAbort(s: State, oracle: Oracle, file: Path, token: string, comment: string)
    requires file in s.files
    ensures var st := PruneFile(s, oracle, file, token, comment);
            st.result.Fatal? ==> AbortLogged(s.log, st.after.log, st.result.failure) && st.result.failure.file == file
  {
    var first := ProcessFile(s, oracle, file, true, token, comment);
    PruneFileUnfold(s, oracle, file, token, comment);
    ProcessFileAbort(s, oracle, file, true, token, comment);
    if first.result == Ok(true) {
      var second := ProcessFile(first.after, oracle, file, false, token, comment);
      ProcessFileLog(s, oracle, file, true, token, comment);
      ProcessFileAbort(first.after, oracle, file, false, token, comment);
      if second.result.Fatal? {
        AbortLoggedExtends(s.log, first.after.log, second.after.log, second.result.failure);
      }
    }
  }

  /** A completed file leaves a built artifact built. */
  lemma PruneFileArtifact(s: State, oracle: Oracle, file: Path, token: string, comment: string)
    requires file in s.files && s.artifact
    ensures var st := PruneFile(s, oracle, file, token, comment);
            st.result.Ok? ==> st.after.artifact
  {
    var first := ProcessFile(s, oracle, file, true, token, comment);
    PruneFileUnfold(s, oracle, file, token, comment);
    ProcessFileArtifact(s, oracle, file, true, token, comment);
    if first.result == Ok(true) {
      ProcessFileArtifact(first.after, oracle, file, false, token, comment);
    }
  }

  /** With a content-determined build and buildable contents, one file
      never aborts and leaves the contents buildable. */
  lemma PruneFileNeverFailsRestore(s: State, oracle: Oracle, file: Path, token: string, comment: string)
    requires file in s.files && ContentDetermined(oracle) && oracle(0, s.files)
    ensures var st := PruneFile(s, oracle, file, token, comment);
            st.result.Ok? && oracle(0, st.after.files)
  {
    var first := ProcessFile(s, oracle, file, true, token, comment);
    PruneFileUnfold(s, oracle, file, token, comment);
    ProcessFileNeverFailsRestore(s, oracle, file, true, token, comment);
    if first.result == Ok(true) {
      ProcessFileNeverFailsRestore(first.after, oracle, file, false, token, comment);
    }
  }

  // ---------------------------------------------------------------------
  // The whole run

  lemma PruneFilesUnfold(s: State, oracle: Oracle, fileList: seq<Path>, token: string, comment: string)
    requires fileList != [] && forall f :: f in fileList ==> f in s.files
    ensures var one := PruneFile(s, oracle, fileList[0], token, comment);
            var st := PruneFiles(s, oracle, fileList, token, comment);
            (one.result.Fatal? ==> st == Step(Fatal(one.result.failure), one.after)) &&
            (one.result.Ok? ==> st == PruneFiles(one.after, oracle, fileList[1..], token, comment))
  {
  }

  /** A file that completes leaves earlier attempts in the log. */
  lemma PruneFileLogGrows(s: State, oracle: Oracle, file: Path, token: string, comment: string)
    requires file in s.files
    ensures var st := PruneFile(s, oracle, file, token, comment);
            st.result.Ok? ==> |st.after.log| >= |s.log|
  {
    var first := ProcessFile(s, oracle, file, true, token, comment);
    PruneFileUnfold(s, oracle, file, token, comment);
    ProcessFileLog(s, oracle, file, true, token, comment);
    if first.result == Ok(true) {
      ProcessFileLog(first.after, oracle, file, false, token, comment);
    }
  }

  lemma {:induction false} PruneFilesAbort(s: State, oracle: Oracle, fileList: seq<Path>, token: string, comment: string)
    requires forall f :: f in fileList ==> f in s.files
    ensures var st := PruneFiles(s, oracle, fileList, token, comment);
            st.result.Fatal? ==> AbortLogged(s.log, st.after.log, st.result.failure) && st.result.failure.file in fileList
    decreases |fileList|
  {
    if fileList != [] {
      var one := PruneFile(s, oracle, fileList[0], token, comment);
      PruneFilesUnfold(s, oracle, fileList, token, comment);
      PruneFileAbort(s, oracle, fileList[0], token, comment);
      if one.result.Ok? {
        PruneFilesAbort(one.after, oracle, fileList[1..], token, comment);
        PruneFileLogGrows(s, oracle, fileList[0], token, comment);
        var st := PruneFiles(one.after, oracle, fileList[1..], token, comment);
        if st.result.Fatal? {
          AbortLoggedExtends(s.log, one.after.log, st.after.log, st.result.failure);
        }
      }
    }
  }

  lemma {:induction false} PruneFilesArtifact(s: State, oracle: Oracle, fileList: seq<Path>, token: string,
                                               comment: string)
    requires forall f :: f in fileList ==> f in s.files
    requires s.artifact
    ensures PruneFiles(s, oracle, fileList, token, comment).result.Ok? ==>
              PruneFiles(s, oracle, fileList, token, comment).after.artifact
    decreases |fileList|
  {
    if fileList != [] {
      var one := PruneFile(s, oracle, fileList[0], token, comment);
      PruneFilesUnfold(s, oracle, fileList, token, comment);
      PruneFileArtifact(s, oracle, fileList[0], token, comment);
      if one.result.Ok? {
        PruneFilesArtifact(one.after, oracle, fileList[1..], token, comment);
      }
    }
  }

  /** The two gates before any file is touched: no file at all, and a
      baseline build that does not produce the artifact.  Either aborts the
      run with every file and the trial log as they were. */
  lemma RunGates(s: State, oracle: Oracle, fileList: seq<Path>, token: string, comment: string)
    requires forall f :: f in fileList ==> f in s.files
    ensures var st := PruneAll(s, oracle, fileList, token, comment);
            (st.result == Fatal(NoFiles) <==> fileList == []) &&
            (st.result == Fatal(BaselineFailed) <==> fileList != [] && !oracle(s.builds, s.files)) &&
            (st.result == Fatal(NoFiles) || st.result == Fatal(BaselineFailed) ==>
               st.after.files == s.files && st.after.log == s.log)
  {
    if fileList != [] {
      var init := Initialize(s, oracle);
      if init.result.Ok? {
        PruneFilesAbort(init.after, oracle, fileList, token, comment);
      }
    }
  }

  /** A run that aborts on a failed restore stops at the trial that failed:
      it is the last one logged, and no file after it is tried. */
  lemma RunAbortIsImmediate(s: State, oracle: Oracle, fileList: seq<Path>, token: string, comment: string)
    requires forall f :: f in fileList ==> f in s.files
    ensures var st := PruneAll(s, oracle, fileList, token, comment);
            st.result.Fatal? && st.result.failure.RestoreFailed? ==>
              st.result.failure.file in fileList && AbortLogged(s.log, st.after.log, st.result.failure)
  {
    if fileList != [] {
      var init := Initialize(s, oracle);
      if init.result.Ok? {
        PruneFilesAbort(init.after, oracle, fileList, token, comment);
      }
    }
  }

  /** A run that completes leaves the project building: the artifact exists. */
  lemma RunEndsBuilt(s: State, oracle: Oracle, fileList: seq<Path>, token: string, comment: string)
    requires forall f :: f in fileList ==> f in s.files
    ensures var st := PruneAll(s, oracle, fileList, token, comment);
            st.result.Ok? ==> st.after.artifact
  {
    if fileList != [] {
      var init := Initialize(s, oracle);
      if init.result.Ok? {
        PruneFilesArtifact(init.after, oracle, fileList, token, comment);
      }
    }
  }

  lemma PrunedRefl(lines: seq<Line>, token: string, comment: string)
    ensures Pruned(lines, lines, token, comment)
  {
    forall i | 0 <= i < |lines| ensures PrunedAt(lines, lines, token, comment, i) { }
  }

  lemma {:induction false} PruneFilesShape(s: State, oracle: Oracle, fileList: seq<Path>, token: string, comment: string)
    requires forall f :: f in fileList ==> f in s.files
    requires CommentSafe(comment, token)
    ensures var st := PruneFiles(s, oracle, fileList, token, comment);
            forall f :: f in s.files ==> Pruned(s.files[f], st.after.files[f], token, comment)
    decreases |fileList|
  {
    var st := PruneFiles(s, oracle, fileList, token, comment);
    if fileList == [] {
      forall f | f in s.files ensures Pruned(s.files[f], st.after.files[f], token, comment) {
        PrunedRefl(s.files[f], token, comment);
      }
    } else {
      var file := fileList[0];
      var one := PruneFile(s, oracle, file, token, comment);
      PruneFilesUnfold(s, oracle, fileList, token, comment);
      PruneFileShape(s, oracle, file, token, comment);
      if one.result.Ok? {
        PruneFilesShape(one.after, oracle, fileList[1..], token, comment);
      }
      forall f | f in s.files ensures Pruned(s.files[f], st.after.files[f], token, comment) {
        if f != file {
          PrunedRefl(s.files[f], token, comment);
        }
        if one.result.Ok? {
          PrunedTrans(s.files[f], one.after.files[f], st.after.files[f], token, comment);
        }
      }
    }
  }

  /** Whatever way the run ends, no file is created or deleted, none changes
      its line count, and every file is its original text with some directive
      lines commented out: no line is ever left half-written or corrupted. */
  lemma RunKeepsFilesPruned(s: State, oracle: Oracle, fileList: seq<Path>, token: string, comment: string)
    requires forall f :: f in fileList ==> f in s.files
    requires CommentSafe(comment, token)
    ensures var st := PruneAll(s, oracle, fileList, token, comment);
            st.after.files.Keys == s.files.Keys &&
            forall f :: f in s.files ==> Pruned(s.files[f], st.after.files[f], token, comment)
  {
    var st := PruneAll(s, oracle, fileList, token, comment);
    if fileList != [] && Initialize(s, oracle).result.Ok? {
      PruneFilesShape(Initialize(s, oracle).after, oracle, fileList, token, comment);
    } else {
      forall f | f in s.files ensures Pruned(s.files[f], st.after.files[f], token, comment) {
        PrunedRefl(s.files[f], token, comment);
      }
    }
  }

  lemma {:induction false} PruneFilesNeverFailRestore(s: State, oracle: Oracle, fileList: seq<Path>, token: string,
                                                       comment: string)
    requires forall f :: f in fileList ==> f in s.files
    requires ContentDetermined(oracle) && oracle(0, s.files)
    ensures PruneFiles(s, oracle, fileList, token, comment).result.Ok?
    decreases |fileList|
  {
    if fileList != [] {
      var one := PruneFile(s, oracle, fileList[0], token, comment);
      PruneFilesUnfold(s, oracle, fileList, token, comment);
      PruneFileNeverFailsRestore(s, oracle, fileList[0], token, comment);
      PruneFilesNeverFailRestore(one.after, oracle, fileList[1..], token, comment);
    }
  }

  /** The restore abort guards against flaky builds only: when the build
      depends on the file contents alone, a run either stops at a gate or
      completes. */
  lemma ContentDeterminedRunNeverFailsRestore(s: State, oracle: Oracle, fileList: seq<Path>, token: string,
                                              comment: string)
    requires forall f :: f in fileList ==> f in s.files
    requires ContentDetermined(oracle)
    ensures var st := PruneAll(s, oracle, fileList, token, comment);
            st.result.Ok? || st.result == Fatal(NoFiles) || st.result == Fatal(BaselineFailed)
  {
    if fileList != [] {
      var init := Initialize(s, oracle);
      if init.result.Ok? {
        assert oracle(s.builds, s.files) == oracle(0, s.files);
        PruneFilesNeverFailRestore(init.after, oracle, fileList, token, comment);
      }
    }
  }
}
